/** The fragment of Go's regexp package the report parsers use: a pattern
    anchored at both ends (`^...$`) made of literal characters, capturing groups
    `(.*)` and capturing groups `(\d+)`. Go's engine reports the submatches a
    backtracking matcher would find first (leftmost-first semantics): each group
    takes the longest text with which the rest of the pattern still matches.
    Match below is that backtracking matcher. */
module Regexp {
  import opened Wrappers
  import opened GoStrings

  datatype Token =
    | Lit(c: char)   // the character itself
    | AnyStar        // (.*): any run of characters other than '\n'
    | DigitPlus      // (\d+): a non-empty run of ASCII digits

  /** A pattern: its tokens in order. */
  datatype Pattern = End | Then(t: Token, rest: Pattern)

  function GroupCount(p: Pattern): nat
  {
    if p == End then 0 else (if p.t.Lit? then 0 else 1) + GroupCount(p.rest)
  }

  /** Length of the longest run of ASCII digits at the start of `s`. */
  function DigitRun(s: string): (k: nat)
    ensures k <= |s|
    ensures forall i :: 0 <= i < k ==> IsDigit(s[i])
    ensures k < |s| ==> !IsDigit(s[k])
  {
    if s == [] || !IsDigit(s[0]) then 0 else 1 + DigitRun(s[1..])
  }

  /** The groups captured when `p` matches all of `s`, or None. */
  function Match(p: Pattern, s: string): Option<seq<string>>
    decreases p, 0, 0
  {
    match p
    case End => if s == [] then Some([]) else None
    case Then(t, rest) =>
      match t
      case Lit(c) => if s != [] && s[0] == c then Match(rest, s[1..]) else None
      case AnyStar => Greedy(rest, s, LineEnd(s), 0)
      case DigitPlus => Greedy(rest, s, DigitRun(s), 1)
  }

  /** Backtracking over one greedy group: try the group lengths k, k - 1, ...,
      least in turn and keep the first with which `rest` matches what is left. */
  function Greedy(rest: Pattern, s: string, k: nat, least: nat): Option<seq<string>>
    requires k <= |s|
    decreases rest, 1, k
  {
    if k < least then None
    else match Match(rest, s[k..])
      case Some(gs) => Some([s[..k]] + gs)
      case None => if k == 0 then None else Greedy(rest, s, k - 1, least)
  }

  /** regexp.FindStringSubmatch for an anchored pattern: the whole text, then
      the groups. */
  function FindStringSubmatch(p: Pattern, s: string): (r: Option<seq<string>>)
    ensures r.Some? ==> |r.value| == 1 + GroupCount(p) && r.value[0] == s
  {
    MatchTyped(p, s);
    match Match(p, s)
    case Some(gs) => Some([s] + gs)
    case None => None
  }

  /** The text `p` describes once its groups are filled in with `gs`. */
  function Render(p: Pattern, gs: seq<string>): string
    requires |gs| == GroupCount(p)
  {
    if p == End then []
    else if p.t.Lit? then [p.t.c] + Render(p.rest, gs)
    else gs[0] + Render(p.rest, gs[1..])
  }

  /** What each kind of group can capture at all. */
  predicate Typed(p: Pattern, gs: seq<string>)
    requires |gs| == GroupCount(p)
  {
    if p == End then true
    else if p.t.Lit? then Typed(p.rest, gs)
    else
      (if p.t.AnyStar? then '\n' !in gs[0] else gs[0] != [] && AllDigits(gs[0]))
      && Typed(p.rest, gs[1..])
  }

  /** The separators of parted's machine-readable records. */
  const Delims: set<char> := {':', ';'}

  /** Text of a free-form field: no separator and no line break. */
  predicate FreeText(s: string)
  {
    forall i :: 0 <= i < |s| ==> s[i] !in Delims && s[i] != '\n'
  }

  /** Group contents that a record's separators delimit unambiguously. */
  predicate Fits(p: Pattern, gs: seq<string>)
    requires |gs| == GroupCount(p)
  {
    if p == End then true
    else if p.t.Lit? then Fits(p.rest, gs)
    else
      (if p.t.AnyStar? then FreeText(gs[0]) else gs[0] != [] && AllDigits(gs[0]))
      && Fits(p.rest, gs[1..])
  }

  /** The kinds of the groups of `p` as a number: bit j is set when group j
      is a `(\d+)` group. */
  function DigitGroups(p: Pattern): nat
  {
    if p == End then 0
    else if p.t.Lit? then DigitGroups(p.rest)
    else (if p.t.DigitPlus? then 1 else 0) + 2 * DigitGroups(p.rest)
  }

  /** Bit j of m. */
  predicate Bit(m: nat, j: nat)
  {
    if j == 0 then m % 2 == 1 else Bit(m / 2, j - 1)
  }

  /** Whether group j is a digit group, from the first group's kind and the
      rest's numbering. */
  lemma GroupBit(p: Pattern, j: nat)
    requires p.Then? && !p.t.Lit?
    ensures Bit(DigitGroups(p), j) == if j == 0 then p.t.DigitPlus? else Bit(DigitGroups(p.rest), j - 1)
  {
    var b := if p.t.DigitPlus? then 1 else 0;
    assert DigitGroups(p) == b + 2 * DigitGroups(p.rest);
    LowBit(b, DigitGroups(p.rest));
  }

  /** The low bit and the rest of b + 2 * x. */
  lemma LowBit(b: nat, x: nat)
    requires b < 2
    ensures (b + 2 * x) % 2 == b && (b + 2 * x) / 2 == x
  {
  }

  /** Fits, group by group: digit groups hold digits, the others free text. */
  lemma {:induction false} FitsByGroup(p: Pattern, gs: seq<string>)
    requires |gs| == GroupCount(p)
    requires forall j :: 0 <= j < |gs| ==>
      if Bit(DigitGroups(p), j) then gs[j] != [] && AllDigits(gs[j]) else FreeText(gs[j])
    ensures Fits(p, gs)
  {
    if p.Then? {
      if p.t.Lit? {
        FitsByGroup(p.rest, gs);
      } else {
        forall j | 0 <= j < |gs|
          ensures Bit(DigitGroups(p), j) == if j == 0 then p.t.DigitPlus? else Bit(DigitGroups(p.rest), j - 1)
        {
          GroupBit(p, j);
        }
        assert forall j :: 0 <= j < |gs| - 1 ==> gs[1..][j] == gs[j + 1];
        FitsByGroup(p.rest, gs[1..]);
      }
    }
  }

  /** Typed, group by group: what each digit group of a match holds. */
  lemma {:induction false} TypedDigits(p: Pattern, gs: seq<string>, j: nat)
    requires |gs| == GroupCount(p) && Typed(p, gs)
    requires j < |gs| && Bit(DigitGroups(p), j)
    ensures gs[j] != [] && AllDigits(gs[j])
  {
    if p.t.Lit? {
      TypedDigits(p.rest, gs, j);
    } else {
      GroupBit(p, j);
      if j > 0 {
        TypedDigits(p.rest, gs[1..], j - 1);
      }
    }
  }

  /** The last token of `p` is the literal c. */
  predicate EndsWithLit(p: Pattern, c: char)
  {
    p.Then? && (if p.rest == End then p.t == Lit(c) else EndsWithLit(p.rest, c))
  }

  /** A pattern ending in a literal renders to text ending in it. */
  lemma {:induction false} RenderEndsWith(p: Pattern, gs: seq<string>, c: char)
    requires |gs| == GroupCount(p) && EndsWithLit(p, c)
    ensures var s := Render(p, gs); s != [] && s[|s| - 1] == c
  {
    if p.rest != End {
      if p.t.Lit? {
        RenderEndsWith(p.rest, gs, c);
      } else {
        RenderEndsWith(p.rest, gs[1..], c);
      }
    }
  }

  /** Every group is followed by a literal: a `(.*)` by a separator, a `(\d+)`
      by a non-digit. */
  predicate Delimited(p: Pattern)
  {
    match p
    case End => true
    case Then(t, rest) =>
      (match t
       case Lit(_) => true
       case AnyStar => rest.Then? && rest.t.Lit? && rest.t.c in Delims
       case DigitPlus => rest.Then? && rest.t.Lit? && !IsDigit(rest.t.c))
      && Delimited(rest)
  }

  // ---------------------------------------------------------------- counting separators

  function Count(d: char, s: string): nat
  {
    if s == [] then 0 else (if s[0] == d then 1 else 0) + Count(d, s[1..])
  }

  function LitCount(d: char, p: Pattern): nat
  {
    if p == End then 0 else (if p.t == Lit(d) then 1 else 0) + LitCount(d, p.rest)
  }

  lemma {:induction false} CountAppend(d: char, a: string, b: string)
    ensures Count(d, a + b) == Count(d, a) + Count(d, b)
  {
    if a != [] {
      assert (a + b)[1..] == a[1..] + b;
      CountAppend(d, a[1..], b);
    } else {
      assert a + b == b;
    }
  }

  lemma {:induction false} CountAbsent(d: char, s: string)
    requires forall i :: 0 <= i < |s| ==> s[i] != d
    ensures Count(d, s) == 0
  {
    if s != [] {
      CountAbsent(d, s[1..]);
    }
  }

  /** A rendering holds at least the pattern's own separators. */
  lemma {:induction false} RenderCountAtLeast(p: Pattern, gs: seq<string>, d: char)
    requires |gs| == GroupCount(p)
    ensures Count(d, Render(p, gs)) >= LitCount(d, p)
  {
    if p.Then? {
      if p.t.Lit? {
        RenderCountAtLeast(p.rest, gs, d);
        CountAppend(d, [p.t.c], Render(p.rest, gs));
      } else {
        RenderCountAtLeast(p.rest, gs[1..], d);
        CountAppend(d, gs[0], Render(p.rest, gs[1..]));
      }
    }
  }

  /** With fitting groups, a rendering holds exactly the pattern's separators. */
  lemma {:induction false} RenderCountExact(p: Pattern, gs: seq<string>, d: char)
    requires |gs| == GroupCount(p) && Fits(p, gs) && d in Delims
    ensures Count(d, Render(p, gs)) == LitCount(d, p)
  {
    if p.Then? {
      if p.t.Lit? {
        RenderCountExact(p.rest, gs, d);
        CountAppend(d, [p.t.c], Render(p.rest, gs));
      } else {
        RenderCountExact(p.rest, gs[1..], d);
        CountAbsent(d, gs[0]);
        CountAppend(d, gs[0], Render(p.rest, gs[1..]));
      }
    }
  }

  /** The separators the groups themselves hold. */
  function GroupsCount(d: char, gs: seq<string>): nat
  {
    if gs == [] then 0 else Count(d, gs[0]) + GroupsCount(d, gs[1..])
  }

  /** A rendering holds the pattern's separators and those of its groups. */
  lemma {:induction false} RenderCount(p: Pattern, gs: seq<string>, d: char)
    requires |gs| == GroupCount(p)
    ensures Count(d, Render(p, gs)) == LitCount(d, p) + GroupsCount(d, gs)
  {
    if p.Then? {
      if p.t.Lit? {
        RenderCount(p.rest, gs, d);
        CountAppend(d, [p.t.c], Render(p.rest, gs));
      } else {
        RenderCount(p.rest, gs[1..], d);
        CountAppend(d, gs[0], Render(p.rest, gs[1..]));
      }
    }
  }

  // ---------------------------------------------------------------- soundness

  /** What Greedy returns: a prefix of `s` no longer than k, then a match of
      `rest` on what follows it. */
  lemma {:induction false} GreedyResult(rest: Pattern, s: string, k: nat, least: nat)
    requires k <= |s|
    ensures Greedy(rest, s, k, least).Some? ==>
      var gs := Greedy(rest, s, k, least).value;
      |gs| > 0 && least <= |gs[0]| <= k && gs[0] == s[..|gs[0]|]
      && Match(rest, s[|gs[0]|..]) == Some(gs[1..])
    decreases k
  {
    if least <= k && Match(rest, s[k..]).None? && k > 0 {
      GreedyResult(rest, s, k - 1, least);
    }
  }

  /** Every match has one group per group of the pattern, each of a text
      its kind can capture. */
  lemma {:induction false} MatchTyped(p: Pattern, s: string)
    ensures Match(p, s).Some? ==>
      var gs := Match(p, s).value;
      |gs| == GroupCount(p) && Typed(p, gs)
    decreases p, |s|
  {
    if p.Then? && Match(p, s).Some? {
      var gs := Match(p, s).value;
      match p.t
      case Lit(c) =>
        MatchTyped(p.rest, s[1..]);
      case AnyStar =>
        GreedyResult(p.rest, s, LineEnd(s), 0);
        var m := |gs[0]|;
        MatchTyped(p.rest, s[m..]);
        assert gs == [gs[0]] + gs[1..];
        assert forall i :: 0 <= i < m ==> gs[0][i] == s[i] != '\n';
      case DigitPlus =>
        GreedyResult(p.rest, s, DigitRun(s), 1);
        var m := |gs[0]|;
        MatchTyped(p.rest, s[m..]);
        assert gs == [gs[0]] + gs[1..];
        assert forall i :: 0 <= i < m ==> gs[0][i] == s[i];
    }
  }

  /** Every match is sound: filling its groups back into the pattern gives
      the matched text. */
  lemma {:induction false} MatchSound(p: Pattern, s: string)
    ensures Match(p, s).Some? ==>
      var gs := Match(p, s).value;
      |gs| == GroupCount(p) && Render(p, gs) == s
    decreases p, |s|
  {
    if p.Then? && Match(p, s).Some? {
      var gs := Match(p, s).value;
      match p.t
      case Lit(c) =>
        MatchSound(p.rest, s[1..]);
        assert s == [c] + s[1..];
      case AnyStar =>
        GreedyResult(p.rest, s, LineEnd(s), 0);
        var m := |gs[0]|;
        MatchSound(p.rest, s[m..]);
        assert gs == [gs[0]] + gs[1..];
        assert s == gs[0] + s[m..];
      case DigitPlus =>
        GreedyResult(p.rest, s, DigitRun(s), 1);
        var m := |gs[0]|;
        MatchSound(p.rest, s[m..]);
        assert gs == [gs[0]] + gs[1..];
        assert s == gs[0] + s[m..];
    }
  }

  /** A text holding fewer of some character than the pattern's literals do
      cannot match. */
  lemma TooFewSeparators(p: Pattern, s: string, d: char)
    requires Count(d, s) < LitCount(d, p)
    ensures Match(p, s).None?
  {
    MatchSound(p, s);
    if Match(p, s).Some? {
      RenderCountAtLeast(p, Match(p, s).value, d);
    }
  }

  // ---------------------------------------------------------------- completeness

  /** A `(.*)` group followed by separator d, where exactly the separators
      the rest of the pattern needs follow position m: every longer candidate
      fails, so backtracking gets down to length m. */
  lemma {:induction false} GreedySkipsLonger(rest: Pattern, s: string, k: nat, m: nat)
    requires m <= k <= |s|
    requires rest.Then? && rest.t.Lit? && rest.t.c in Delims
    requires m < |s| && s[m] == rest.t.c
    requires Count(rest.t.c, s[m + 1..]) == LitCount(rest.t.c, rest.rest)
    ensures Greedy(rest, s, k, 0) == Greedy(rest, s, m, 0)
    decreases k
  {
    if k > m {
      var d := rest.t.c;
      if k < |s| && s[k] == d {
        assert s[k..][1..] == s[k + 1..];
        assert s[m + 1..] == s[m + 1..k] + s[k..];
        CountAppend(d, s[m + 1..k], s[k..]);
        TooFewSeparators(rest.rest, s[k + 1..], d);
      }
      assert Match(rest, s[k..]).None?;
      GreedySkipsLonger(rest, s, k - 1, m);
    }
  }

  /** Rendering fitting groups into a delimited pattern and matching the result
      gives the same groups back. */
  lemma {:induction false} MatchRender(p: Pattern, gs: seq<string>)
    requires |gs| == GroupCount(p) && Delimited(p) && Fits(p, gs)
    ensures Match(p, Render(p, gs)) == Some(gs)
  {
    if p.Then? {
      match p.t
      case Lit(c) =>
        MatchRender(p.rest, gs);
        MatchRenderLit(p, gs);
      case AnyStar =>
        MatchRender(p.rest, gs[1..]);
        MatchRenderStar(p, gs);
      case DigitPlus =>
        MatchRender(p.rest, gs[1..]);
        MatchRenderDigits(p, gs);
    }
  }

  /** The literal step of MatchRender: the literal is the first character. */
  lemma MatchRenderLit(p: Pattern, gs: seq<string>)
    requires p.Then? && p.t.Lit? && |gs| == GroupCount(p)
    requires Match(p.rest, Render(p.rest, gs)) == Some(gs)
    ensures Match(p, Render(p, gs)) == Some(gs)
  {
    assert Render(p, gs)[1..] == Render(p.rest, gs);
  }

  /** The `(.*)` step of MatchRender: the group stops at the delimiter after
      it, since the rest of the text holds exactly as many delimiters as the
      rest of the pattern. The group itself may hold delimiters: backtracking
      still ends at the last delimiter the rest of the pattern leaves it. */
  lemma MatchRenderStar(p: Pattern, gs: seq<string>)
    requires p.Then? && p.t.AnyStar? && |gs| == GroupCount(p) && Delimited(p)
    requires '\n' !in gs[0] && Fits(p.rest.rest, gs[1..])
    requires Match(p.rest, Render(p.rest, gs[1..])) == Some(gs[1..])
    ensures Match(p, Render(p, gs)) == Some(gs)
  {
    var s := Render(p, gs);
    var g, d := gs[0], p.rest.t.c;
    var tail := Render(p.rest.rest, gs[1..]);
    assert Render(p.rest, gs[1..]) == [d] + tail;
    assert s == g + ([d] + tail);
    var m := |g|;
    assert forall i :: 0 <= i < m ==> s[i] == g[i] != '\n';
    assert s[m] == d;
    assert s[m + 1..] == tail;
    RenderCountExact(p.rest.rest, gs[1..], d);
    GreedySkipsLonger(p.rest, s, LineEnd(s), m);
    assert s[..m] == g && s[m..] == Render(p.rest, gs[1..]);
    assert gs == [g] + gs[1..];
  }

  /** The `(\d+)` step of MatchRender: the digit run ends at the non-digit
      literal after the group. */
  lemma MatchRenderDigits(p: Pattern, gs: seq<string>)
    requires p.Then? && p.t.DigitPlus? && |gs| == GroupCount(p) && Delimited(p)
    requires gs[0] != [] && AllDigits(gs[0])
    requires Match(p.rest, Render(p.rest, gs[1..])) == Some(gs[1..])
    ensures Match(p, Render(p, gs)) == Some(gs)
  {
    var s := Render(p, gs);
    var g := gs[0];
    assert s == g + Render(p.rest, gs[1..]);
    assert forall i :: 0 <= i < |g| ==> s[i] == g[i];
    assert s[|g|] == p.rest.t.c;
    assert DigitRun(s) == |g|;
    assert s[..|g|] == g && s[|g|..] == Render(p.rest, gs[1..]);
    assert gs == [g] + gs[1..];
  }

  /** A `(.*)` group followed by separator d, where the text after position
      m holds one separator more than the rest of the pattern needs: the
      candidates past the next separator n hold too few, and the one ending
      at n fails as the rest of the pattern cannot match after it. So
      backtracking gets down to length m. */
  lemma {:induction false} GreedySkipsOneMore(rest: Pattern, s: string, k: nat, m: nat, n: nat)
    requires m < n < |s| && m <= k <= |s|
    requires rest.Then? && rest.t.Lit? && rest.t.c in Delims
    requires s[m] == rest.t.c && s[n] == rest.t.c
    requires forall i :: m < i < n ==> s[i] != rest.t.c
    requires Count(rest.t.c, s[n + 1..]) == LitCount(rest.t.c, rest.rest)
    requires Match(rest.rest, s[n + 1..]).None?
    ensures Greedy(rest, s, k, 0) == Greedy(rest, s, m, 0)
    decreases k
  {
    if k > m {
      var d := rest.t.c;
      if k < |s| && s[k] == d {
        assert s[k..][1..] == s[k + 1..];
        if k > n {
          assert s[n + 1..] == s[n + 1..k] + s[k..];
          CountAppend(d, s[n + 1..k], s[k..]);
          TooFewSeparators(rest.rest, s[k + 1..], d);
        }
      }
      assert Match(rest, s[k..]).None?;
      GreedySkipsOneMore(rest, s, k - 1, m, n);
    }
  }

  /** The text of a `(.*)` group g, its delimiter d and what follows: the
      group ends before the line does, and the first d past the delimiter is
      at offset n of what follows. */
  lemma StarOneMoreText(g: string, d: char, tail: string, n: nat)
    requires FreeText(g) && n < |tail| && tail[n] == d && (forall i :: 0 <= i < n ==> tail[i] != d)
    ensures var s, m := g + ([d] + tail), |g|;
      m <= LineEnd(s) && m < m + 1 + n < |s| && s[m] == d && s[m + 1 + n] == d
      && (forall i :: m < i < m + 1 + n ==> s[i] != d)
      && s[m + 1 + n + 1..] == tail[n + 1..] && s[..m] == g && s[m..] == [d] + tail
  {
    var s, m := g + ([d] + tail), |g|;
    assert forall i :: 0 <= i < m ==> s[i] == g[i] != '\n';
    assert s[m + 1..] == tail;
    assert forall i :: 0 <= i < n ==> s[m + 1 + i] == tail[i];
  }

  /** Over a group g, its delimiter d and what follows, backtracking from the
      end of the line comes down to the group's own length. */
  lemma StarOneMoreSkips(rest: Pattern, g: string, tail: string, n: nat)
    requires rest.Then? && rest.t.Lit? && rest.t.c in Delims && FreeText(g)
    requires n < |tail| && tail[n] == rest.t.c && (forall i :: 0 <= i < n ==> tail[i] != rest.t.c)
    requires Count(rest.t.c, tail[n + 1..]) == LitCount(rest.t.c, rest.rest)
    requires Match(rest.rest, tail[n + 1..]).None?
    ensures var s := g + ([rest.t.c] + tail);
      Greedy(rest, s, LineEnd(s), 0) == Greedy(rest, s, |g|, 0)
  {
    var s, m := g + ([rest.t.c] + tail), |g|;
    StarOneMoreText(g, rest.t.c, tail, n);
    GreedySkipsOneMore(rest, s, LineEnd(s), m, m + 1 + n);
  }

  /** The `(.*)` step of matching a rendering whose later groups hold one
      separator more than they may: given the first separator n of the text
      after the group's delimiter, past which the rest of the pattern cannot
      match, the group still stops at its delimiter. */
  lemma MatchRenderStarOneMore(p: Pattern, gs: seq<string>, n: nat)
    requires p.Then? && p.t.AnyStar? && |gs| == GroupCount(p) && Delimited(p) && FreeText(gs[0])
    requires Match(p.rest, Render(p.rest, gs[1..])) == Some(gs[1..])
    requires var tail := Render(p.rest.rest, gs[1..]);
      n < |tail| && tail[n] == p.rest.t.c && (forall i :: 0 <= i < n ==> tail[i] != p.rest.t.c)
      && Count(p.rest.t.c, tail[n + 1..]) == LitCount(p.rest.t.c, p.rest.rest)
      && Match(p.rest.rest, tail[n + 1..]).None?
    ensures Match(p, Render(p, gs)) == Some(gs)
  {
    var s := Render(p, gs);
    var g, d := gs[0], p.rest.t.c;
    var tail := Render(p.rest.rest, gs[1..]);
    assert Render(p.rest, gs[1..]) == [d] + tail;
    assert s == g + ([d] + tail);
    StarOneMoreText(g, d, tail, n);
    StarOneMoreSkips(p.rest, g, tail, n);
    assert gs == [g] + gs[1..];
  }

  /** Backtracking a `(\d+)` group below the digit run: each shorter group
      is followed by a digit, which the non-digit literal after it rejects. */
  lemma {:induction false} GreedyShorterDigits(rest: Pattern, s: string, k: nat)
    requires rest.Then? && rest.t.Lit? && !IsDigit(rest.t.c)
    requires k < DigitRun(s)
    ensures Greedy(rest, s, k, 1).None?
    decreases k
  {
    if k >= 1 {
      assert s[k..][0] == s[k];
      GreedyShorterDigits(rest, s, k - 1);
    }
  }

  /** A `(\d+)` group matches nothing when the rest of the pattern fails
      right after the whole digit run. */
  lemma DigitGroupFails(p: Pattern, s: string)
    requires p.Then? && p.t.DigitPlus? && Delimited(p)
    requires Match(p.rest, s[DigitRun(s)..]).None?
    ensures Match(p, s).None?
  {
    if DigitRun(s) >= 1 {
      GreedyShorterDigits(p.rest, s, DigitRun(s) - 1);
    }
  }
}
