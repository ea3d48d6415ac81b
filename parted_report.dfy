/** The report parsers of the parted wrapper: parseHeaderFields and the
    getters built on it, and GetPartitions. They read the machine-readable
    output of `parted --machine ... unit s print`, one record per line,
    fields separated by ':' and the record closed by ';'. */
module PartedReport {
  import opened Wrappers
  import opened GoStrings
  import opened Regexp
  import opened PartedTypes
  import opened PartedEncoder

  /** `^(.*):(\d+)s:(.*):(\d+):(\d+):(.*):(.*):(.*);$`: device, last sector,
      transport, logical and physical sector size, table label, model, flags. */
  const HeaderPattern: Pattern :=
    Then(AnyStar, Then(Lit(':'), Then(DigitPlus, Then(Lit('s'), Then(Lit(':'), Then(AnyStar,
    Then(Lit(':'), Then(DigitPlus, Then(Lit(':'), Then(DigitPlus, Then(Lit(':'), Then(AnyStar,
    Then(Lit(':'), Then(AnyStar, Then(Lit(':'), Then(AnyStar, Then(Lit(';'), End)))))))))))))))))

  /** `^(\d+):(\d+)s:(\d+)s:(\d+)s:(.*):(.*):(.*);$`: number, start, end,
      size, file system, name, flags. */
  const PartitionPattern: Pattern :=
    Then(DigitPlus, Then(Lit(':'), Then(DigitPlus, Then(Lit('s'), Then(Lit(':'), Then(DigitPlus,
    Then(Lit('s'), Then(Lit(':'), Then(DigitPlus, Then(Lit('s'), Then(Lit(':'), Then(AnyStar,
    Then(Lit(':'), Then(AnyStar, Then(Lit(':'), Then(AnyStar, Then(Lit(';'), End)))))))))))))))))

  /** The header pattern has eight groups. */
  lemma HeaderGroupCount()
    ensures GroupCount(HeaderPattern) == 8
  {
    assert GroupCount(HeaderPattern.rest.rest.rest.rest.rest.rest.rest.rest.rest.rest.rest.rest.rest.rest.rest.rest) == 0;
    assert GroupCount(HeaderPattern.rest.rest.rest.rest.rest.rest.rest.rest.rest.rest.rest.rest.rest.rest.rest) == 1;
    assert GroupCount(HeaderPattern.rest.rest.rest.rest.rest.rest.rest.rest.rest.rest.rest.rest.rest.rest) == 1;
    assert GroupCount(HeaderPattern.rest.rest.rest.rest.rest.rest.rest.rest.rest.rest.rest.rest.rest) == 2;
    assert GroupCount(HeaderPattern.rest.rest.rest.rest.rest.rest.rest.rest.rest.rest.rest.rest) == 2;
    assert GroupCount(HeaderPattern.rest.rest.rest.rest.rest.rest.rest.rest.rest.rest.rest) == 3;
    assert GroupCount(HeaderPattern.rest.rest.rest.rest.rest.rest.rest.rest.rest.rest) == 3;
    assert GroupCount(HeaderPattern.rest.rest.rest.rest.rest.rest.rest.rest.rest) == 4;
    assert GroupCount(HeaderPattern.rest.rest.rest.rest.rest.rest.rest.rest) == 4;
    assert GroupCount(HeaderPattern.rest.rest.rest.rest.rest.rest.rest) == 5;
    assert GroupCount(HeaderPattern.rest.rest.rest.rest.rest.rest) == 5;
    assert GroupCount(HeaderPattern.rest.rest.rest.rest.rest) == 6;
    assert GroupCount(HeaderPattern.rest.rest.rest.rest) == 6;
    assert GroupCount(HeaderPattern.rest.rest.rest) == 6;
    assert GroupCount(HeaderPattern.rest.rest) == 7;
    assert GroupCount(HeaderPattern.rest) == 7;
  }

  /** The partition pattern has seven groups. */
  lemma PartitionGroupCount()
    ensures GroupCount(PartitionPattern) == 7
  {
    assert GroupCount(PartitionPattern.rest.rest.rest.rest.rest.rest.rest.rest.rest.rest.rest.rest.rest.rest.rest.rest) == 0;
    assert GroupCount(PartitionPattern.rest.rest.rest.rest.rest.rest.rest.rest.rest.rest.rest.rest.rest.rest.rest) == 1;
    assert GroupCount(PartitionPattern.rest.rest.rest.rest.rest.rest.rest.rest.rest.rest.rest.rest.rest.rest) == 1;
    assert GroupCount(PartitionPattern.rest.rest.rest.rest.rest.rest.rest.rest.rest.rest.rest.rest.rest) == 2;
    assert GroupCount(PartitionPattern.rest.rest.rest.rest.rest.rest.rest.rest.rest.rest.rest.rest) == 2;
    assert GroupCount(PartitionPattern.rest.rest.rest.rest.rest.rest.rest.rest.rest.rest.rest) == 3;
    assert GroupCount(PartitionPattern.rest.rest.rest.rest.rest.rest.rest.rest.rest.rest) == 3;
    assert GroupCount(PartitionPattern.rest.rest.rest.rest.rest.rest.rest.rest.rest) == 3;
    assert GroupCount(PartitionPattern.rest.rest.rest.rest.rest.rest.rest.rest) == 4;
    assert GroupCount(PartitionPattern.rest.rest.rest.rest.rest.rest.rest) == 4;
    assert GroupCount(PartitionPattern.rest.rest.rest.rest.rest.rest) == 4;
    assert GroupCount(PartitionPattern.rest.rest.rest.rest.rest) == 5;
    assert GroupCount(PartitionPattern.rest.rest.rest.rest) == 5;
    assert GroupCount(PartitionPattern.rest.rest.rest) == 5;
    assert GroupCount(PartitionPattern.rest.rest) == 6;
    assert GroupCount(PartitionPattern.rest) == 6;
  }

  /** The header pattern: eight groups, the second, fourth and fifth
      (bits 1, 3 and 4) of digits, each delimited, seven ':' and a final ';'. */
  lemma HeaderShape()
    ensures GroupCount(HeaderPattern) == 8 && DigitGroups(HeaderPattern) == 26
    ensures Delimited(HeaderPattern) && EndsWithLit(HeaderPattern, ';')
    ensures LitCount(':', HeaderPattern) == 7
  {
    assert GroupCount(HeaderPattern.rest.rest.rest.rest.rest.rest.rest.rest.rest.rest.rest.rest.rest.rest.rest.rest) == 0 && DigitGroups(HeaderPattern.rest.rest.rest.rest.rest.rest.rest.rest.rest.rest.rest.rest.rest.rest.rest.rest) == 0 && Delimited(HeaderPattern.rest.rest.rest.rest.rest.rest.rest.rest.rest.rest.rest.rest.rest.rest.rest.rest) && EndsWithLit(HeaderPattern.rest.rest.rest.rest.rest.rest.rest.rest.rest.rest.rest.rest.rest.rest.rest.rest, ';') && LitCount(':', HeaderPattern.rest.rest.rest.rest.rest.rest.rest.rest.rest.rest.rest.rest.rest.rest.rest.rest) == 0;
    assert GroupCount(HeaderPattern.rest.rest.rest.rest.rest.rest.rest.rest.rest.rest.rest.rest.rest.rest.rest) == 1 && DigitGroups(HeaderPattern.rest.rest.rest.rest.rest.rest.rest.rest.rest.rest.rest.rest.rest.rest.rest) == 0 && Delimited(HeaderPattern.rest.rest.rest.rest.rest.rest.rest.rest.rest.rest.rest.rest.rest.rest.rest) && EndsWithLit(HeaderPattern.rest.rest.rest.rest.rest.rest.rest.rest.rest.rest.rest.rest.rest.rest.rest, ';') && LitCount(':', HeaderPattern.rest.rest.rest.rest.rest.rest.rest.rest.rest.rest.rest.rest.rest.rest.rest) == 0;
    assert GroupCount(HeaderPattern.rest.rest.rest.rest.rest.rest.rest.rest.rest.rest.rest.rest.rest.rest) == 1 && DigitGroups(HeaderPattern.rest.rest.rest.rest.rest.rest.rest.rest.rest.rest.rest.rest.rest.rest) == 0 && Delimited(HeaderPattern.rest.rest.rest.rest.rest.rest.rest.rest.rest.rest.rest.rest.rest.rest) && EndsWithLit(HeaderPattern.rest.rest.rest.rest.rest.rest.rest.rest.rest.rest.rest.rest.rest.rest, ';') && LitCount(':', HeaderPattern.rest.rest.rest.rest.rest.rest.rest.rest.rest.rest.rest.rest.rest.rest) == 1;
    assert GroupCount(HeaderPattern.rest.rest.rest.rest.rest.rest.rest.rest.rest.rest.rest.rest.rest) == 2 && DigitGroups(HeaderPattern.rest.rest.rest.rest.rest.rest.rest.rest.rest.rest.rest.rest.rest) == 0 && Delimited(HeaderPattern.rest.rest.rest.rest.rest.rest.rest.rest.rest.rest.rest.rest.rest) && EndsWithLit(HeaderPattern.rest.rest.rest.rest.rest.rest.rest.rest.rest.rest.rest.rest.rest, ';') && LitCount(':', HeaderPattern.rest.rest.rest.rest.rest.rest.rest.rest.rest.rest.rest.rest.rest) == 1;
    assert GroupCount(HeaderPattern.rest.rest.rest.rest.rest.rest.rest.rest.rest.rest.rest.rest) == 2 && DigitGroups(HeaderPattern.rest.rest.rest.rest.rest.rest.rest.rest.rest.rest.rest.rest) == 0 && Delimited(HeaderPattern.rest.rest.rest.rest.rest.rest.rest.rest.rest.rest.rest.rest) && EndsWithLit(HeaderPattern.rest.rest.rest.rest.rest.rest.rest.rest.rest.rest.rest.rest, ';') && LitCount(':', HeaderPattern.rest.rest.rest.rest.rest.rest.rest.rest.rest.rest.rest.rest) == 2;
    assert GroupCount(HeaderPattern.rest.rest.rest.rest.rest.rest.rest.rest.rest.rest.rest) == 3 && DigitGroups(HeaderPattern.rest.rest.rest.rest.rest.rest.rest.rest.rest.rest.rest) == 0 && Delimited(HeaderPattern.rest.rest.rest.rest.rest.rest.rest.rest.rest.rest.rest) && EndsWithLit(HeaderPattern.rest.rest.rest.rest.rest.rest.rest.rest.rest.rest.rest, ';') && LitCount(':', HeaderPattern.rest.rest.rest.rest.rest.rest.rest.rest.rest.rest.rest) == 2;
    assert GroupCount(HeaderPattern.rest.rest.rest.rest.rest.rest.rest.rest.rest.rest) == 3 && DigitGroups(HeaderPattern.rest.rest.rest.rest.rest.rest.rest.rest.rest.rest) == 0 && Delimited(HeaderPattern.rest.rest.rest.rest.rest.rest.rest.rest.rest.rest) && EndsWithLit(HeaderPattern.rest.rest.rest.rest.rest.rest.rest.rest.rest.rest, ';') && LitCount(':', HeaderPattern.rest.rest.rest.rest.rest.rest.rest.rest.rest.rest) == 3;
    assert GroupCount(HeaderPattern.rest.rest.rest.rest.rest.rest.rest.rest.rest) == 4 && DigitGroups(HeaderPattern.rest.rest.rest.rest.rest.rest.rest.rest.rest) == 1 && Delimited(HeaderPattern.rest.rest.rest.rest.rest.rest.rest.rest.rest) && EndsWithLit(HeaderPattern.rest.rest.rest.rest.rest.rest.rest.rest.rest, ';') && LitCount(':', HeaderPattern.rest.rest.rest.rest.rest.rest.rest.rest.rest) == 3;
    assert GroupCount(HeaderPattern.rest.rest.rest.rest.rest.rest.rest.rest) == 4 && DigitGroups(HeaderPattern.rest.rest.rest.rest.rest.rest.rest.rest) == 1 && Delimited(HeaderPattern.rest.rest.rest.rest.rest.rest.rest.rest) && EndsWithLit(HeaderPattern.rest.rest.rest.rest.rest.rest.rest.rest, ';') && LitCount(':', HeaderPattern.rest.rest.rest.rest.rest.rest.rest.rest) == 4;
    assert GroupCount(HeaderPattern.rest.rest.rest.rest.rest.rest.rest) == 5 && DigitGroups(HeaderPattern.rest.rest.rest.rest.rest.rest.rest) == 3 && Delimited(HeaderPattern.rest.rest.rest.rest.rest.rest.rest) && EndsWithLit(HeaderPattern.rest.rest.rest.rest.rest.rest.rest, ';') && LitCount(':', HeaderPattern.rest.rest.rest.rest.rest.rest.rest) == 4;
    assert GroupCount(HeaderPattern.rest.rest.rest.rest.rest.rest) == 5 && DigitGroups(HeaderPattern.rest.rest.rest.rest.rest.rest) == 3 && Delimited(HeaderPattern.rest.rest.rest.rest.rest.rest) && EndsWithLit(HeaderPattern.rest.rest.rest.rest.rest.rest, ';') && LitCount(':', HeaderPattern.rest.rest.rest.rest.rest.rest) == 5;
    assert GroupCount(HeaderPattern.rest.rest.rest.rest.rest) == 6 && DigitGroups(HeaderPattern.rest.rest.rest.rest.rest) == 6 && Delimited(HeaderPattern.rest.rest.rest.rest.rest) && EndsWithLit(HeaderPattern.rest.rest.rest.rest.rest, ';') && LitCount(':', HeaderPattern.rest.rest.rest.rest.rest) == 5;
    assert GroupCount(HeaderPattern.rest.rest.rest.rest) == 6 && DigitGroups(HeaderPattern.rest.rest.rest.rest) == 6 && Delimited(HeaderPattern.rest.rest.rest.rest) && EndsWithLit(HeaderPattern.rest.rest.rest.rest, ';') && LitCount(':', HeaderPattern.rest.rest.rest.rest) == 6;
    assert GroupCount(HeaderPattern.rest.rest.rest) == 6 && DigitGroups(HeaderPattern.rest.rest.rest) == 6 && Delimited(HeaderPattern.rest.rest.rest) && EndsWithLit(HeaderPattern.rest.rest.rest, ';') && LitCount(':', HeaderPattern.rest.rest.rest) == 6;
    assert GroupCount(HeaderPattern.rest.rest) == 7 && DigitGroups(HeaderPattern.rest.rest) == 13 && Delimited(HeaderPattern.rest.rest) && EndsWithLit(HeaderPattern.rest.rest, ';') && LitCount(':', HeaderPattern.rest.rest) == 6;
    assert GroupCount(HeaderPattern.rest) == 7 && DigitGroups(HeaderPattern.rest) == 13 && Delimited(HeaderPattern.rest) && EndsWithLit(HeaderPattern.rest, ';') && LitCount(':', HeaderPattern.rest) == 7;
  }

  /** The partition pattern: seven groups, the first four (bits 0 to 3) of
      digits, each delimited, and a final ';'. */
  lemma PartitionShape()
    ensures GroupCount(PartitionPattern) == 7 && DigitGroups(PartitionPattern) == 15
    ensures Delimited(PartitionPattern) && EndsWithLit(PartitionPattern, ';')
  {
    assert GroupCount(PartitionPattern.rest.rest.rest.rest.rest.rest.rest.rest.rest.rest.rest.rest.rest.rest.rest.rest) == 0 && DigitGroups(PartitionPattern.rest.rest.rest.rest.rest.rest.rest.rest.rest.rest.rest.rest.rest.rest.rest.rest) == 0 && Delimited(PartitionPattern.rest.rest.rest.rest.rest.rest.rest.rest.rest.rest.rest.rest.rest.rest.rest.rest) && EndsWithLit(PartitionPattern.rest.rest.rest.rest.rest.rest.rest.rest.rest.rest.rest.rest.rest.rest.rest.rest, ';');
    assert GroupCount(PartitionPattern.rest.rest.rest.rest.rest.rest.rest.rest.rest.rest.rest.rest.rest.rest.rest) == 1 && DigitGroups(PartitionPattern.rest.rest.rest.rest.rest.rest.rest.rest.rest.rest.rest.rest.rest.rest.rest) == 0 && Delimited(PartitionPattern.rest.rest.rest.rest.rest.rest.rest.rest.rest.rest.rest.rest.rest.rest.rest) && EndsWithLit(PartitionPattern.rest.rest.rest.rest.rest.rest.rest.rest.rest.rest.rest.rest.rest.rest.rest, ';');
    assert GroupCount(PartitionPattern.rest.rest.rest.rest.rest.rest.rest.rest.rest.rest.rest.rest.rest.rest) == 1 && DigitGroups(PartitionPattern.rest.rest.rest.rest.rest.rest.rest.rest.rest.rest.rest.rest.rest.rest) == 0 && Delimited(PartitionPattern.rest.rest.rest.rest.rest.rest.rest.rest.rest.rest.rest.rest.rest.rest) && EndsWithLit(PartitionPattern.rest.rest.rest.rest.rest.rest.rest.rest.rest.rest.rest.rest.rest.rest, ';');
    assert GroupCount(PartitionPattern.rest.rest.rest.rest.rest.rest.rest.rest.rest.rest.rest.rest.rest) == 2 && DigitGroups(PartitionPattern.rest.rest.rest.rest.rest.rest.rest.rest.rest.rest.rest.rest.rest) == 0 && Delimited(PartitionPattern.rest.rest.rest.rest.rest.rest.rest.rest.rest.rest.rest.rest.rest) && EndsWithLit(PartitionPattern.rest.rest.rest.rest.rest.rest.rest.rest.rest.rest.rest.rest.rest, ';');
    assert GroupCount(PartitionPattern.rest.rest.rest.rest.rest.rest.rest.rest.rest.rest.rest.rest) == 2 && DigitGroups(PartitionPattern.rest.rest.rest.rest.rest.rest.rest.rest.rest.rest.rest.rest) == 0 && Delimited(PartitionPattern.rest.rest.rest.rest.rest.rest.rest.rest.rest.rest.rest.rest) && EndsWithLit(PartitionPattern.rest.rest.rest.rest.rest.rest.rest.rest.rest.rest.rest.rest, ';');
    assert GroupCount(PartitionPattern.rest.rest.rest.rest.rest.rest.rest.rest.rest.rest.rest) == 3 && DigitGroups(PartitionPattern.rest.rest.rest.rest.rest.rest.rest.rest.rest.rest.rest) == 0 && Delimited(PartitionPattern.rest.rest.rest.rest.rest.rest.rest.rest.rest.rest.rest) && EndsWithLit(PartitionPattern.rest.rest.rest.rest.rest.rest.rest.rest.rest.rest.rest, ';');
    assert GroupCount(PartitionPattern.rest.rest.rest.rest.rest.rest.rest.rest.rest.rest) == 3 && DigitGroups(PartitionPattern.rest.rest.rest.rest.rest.rest.rest.rest.rest.rest) == 0 && Delimited(PartitionPattern.rest.rest.rest.rest.rest.rest.rest.rest.rest.rest) && EndsWithLit(PartitionPattern.rest.rest.rest.rest.rest.rest.rest.rest.rest.rest, ';');
    assert GroupCount(PartitionPattern.rest.rest.rest.rest.rest.rest.rest.rest.rest) == 3 && DigitGroups(PartitionPattern.rest.rest.rest.rest.rest.rest.rest.rest.rest) == 0 && Delimited(PartitionPattern.rest.rest.rest.rest.rest.rest.rest.rest.rest) && EndsWithLit(PartitionPattern.rest.rest.rest.rest.rest.rest.rest.rest.rest, ';');
    assert GroupCount(PartitionPattern.rest.rest.rest.rest.rest.rest.rest.rest) == 4 && DigitGroups(PartitionPattern.rest.rest.rest.rest.rest.rest.rest.rest) == 1 && Delimited(PartitionPattern.rest.rest.rest.rest.rest.rest.rest.rest) && EndsWithLit(PartitionPattern.rest.rest.rest.rest.rest.rest.rest.rest, ';');
    assert GroupCount(PartitionPattern.rest.rest.rest.rest.rest.rest.rest) == 4 && DigitGroups(PartitionPattern.rest.rest.rest.rest.rest.rest.rest) == 1 && Delimited(PartitionPattern.rest.rest.rest.rest.rest.rest.rest) && EndsWithLit(PartitionPattern.rest.rest.rest.rest.rest.rest.rest, ';');
    assert GroupCount(PartitionPattern.rest.rest.rest.rest.rest.rest) == 4 && DigitGroups(PartitionPattern.rest.rest.rest.rest.rest.rest) == 1 && Delimited(PartitionPattern.rest.rest.rest.rest.rest.rest) && EndsWithLit(PartitionPattern.rest.rest.rest.rest.rest.rest, ';');
    assert GroupCount(PartitionPattern.rest.rest.rest.rest.rest) == 5 && DigitGroups(PartitionPattern.rest.rest.rest.rest.rest) == 3 && Delimited(PartitionPattern.rest.rest.rest.rest.rest) && EndsWithLit(PartitionPattern.rest.rest.rest.rest.rest, ';');
    assert GroupCount(PartitionPattern.rest.rest.rest.rest) == 5 && DigitGroups(PartitionPattern.rest.rest.rest.rest) == 3 && Delimited(PartitionPattern.rest.rest.rest.rest) && EndsWithLit(PartitionPattern.rest.rest.rest.rest, ';');
    assert GroupCount(PartitionPattern.rest.rest.rest) == 5 && DigitGroups(PartitionPattern.rest.rest.rest) == 3 && Delimited(PartitionPattern.rest.rest.rest) && EndsWithLit(PartitionPattern.rest.rest.rest, ';');
    assert GroupCount(PartitionPattern.rest.rest) == 6 && DigitGroups(PartitionPattern.rest.rest) == 7 && Delimited(PartitionPattern.rest.rest) && EndsWithLit(PartitionPattern.rest.rest, ';');
    assert GroupCount(PartitionPattern.rest) == 6 && DigitGroups(PartitionPattern.rest) == 7 && Delimited(PartitionPattern.rest) && EndsWithLit(PartitionPattern.rest, ';');
  }

  // ---------------------------------------------------------------- the parsers

  /** The lines a bufio.Scanner yields over strings.TrimSpace(printOut). */
  function ReportLines(printOut: string): seq<string>
  {
    ScanLines(TrimSpace(printOut))
  }

  /** The first value f gives for an element of xs, scanning in order. */
  function FirstSome<T>(xs: seq<string>, f: string -> Option<T>): Option<T>
  {
    if xs == [] then None
    else if f(xs[0]).Some? then f(xs[0])
    else FirstSome(xs[1..], f)
  }

  /** The submatches (the whole trimmed line, then the groups) of a line
      matching `p` once trimmed. */
  function Submatches(p: Pattern): string -> Option<seq<string>>
  {
    line => FindStringSubmatch(p, TrimSpace(line))
  }

  /** The submatches of the first line that matches `p` once trimmed, or
      None when no line does. */
  function FirstMatch(p: Pattern, lines: seq<string>): Option<seq<string>>
  {
    FirstSome(lines, Submatches(p))
  }

  /** parseHeaderFields: group `field` of the first header line, or an error
      with "" when the report has none. */
  function HeaderField(printOut: string, field: nat): (string, Option<Error>)
    requires field <= 8
  {
    HeaderGroupCount();
    FirstMatchShape(HeaderPattern, ReportLines(printOut));
    match FirstMatch(HeaderPattern, ReportLines(printOut))
    case None => ("", Some(HeaderNotFound))
    case Some(m) => (m[field], None)
  }

  /** A strconv result as the wrapper returns it: the value strconv gives,
      and its error, if any. */
  function NumResult(r: (Uint, Option<NumError>)): (Uint, Option<Error>)
  {
    (r.0, if r.1.None? then None else Some(Conversion(r.1.value)))
  }

  /** GetLastSector: the header's second group as a uint. */
  function LastSector(printOut: string): (Uint, Option<Error>)
  {
    var (field, err) := HeaderField(printOut, 2);
    if err.Some? then (0, Some(LastSectorNotFound)) else NumResult(ParseUint(field))
  }

  /** GetSectorSize: the header's fourth group (the logical sector size) as a
      uint. */
  function SectorSize(printOut: string): (Uint, Option<Error>)
  {
    var (field, err) := HeaderField(printOut, 4);
    if err.Some? then (0, Some(SectorSizeNotFound)) else NumResult(ParseUint(field))
  }

  /** GetPartitionTableLabel: the header's sixth group, verbatim. */
  function TableLabel(printOut: string): (string, Option<Error>)
  {
    HeaderField(printOut, 6)
  }

  /** The partition one partition line describes: number and start as read,
      the size from start and end in uint arithmetic, the name; the file
      system and the size field are not used, and conversion errors are
      dropped. */
  function PartitionOf(m: seq<string>): Partition
    requires |m| == 8
  {
    var start := ParseUint(m[2]).0;
    var end := ParseUint(m[3]).0;
    Partition(Atoi(m[1]).0, start, (end - start + 1) % UintModulus, m[6], "")
  }

  /** The partition a line describes, if it matches once trimmed. */
  function PartitionOfLine(line: string): Option<Partition>
  {
    PartitionGroupCount();
    match FindStringSubmatch(PartitionPattern, TrimSpace(line))
    case Some(m) => Some(PartitionOf(m))
    case None => None
  }

  /** The values f gives for the elements of xs that it accepts, in order. */
  function FilterMap<T>(xs: seq<string>, f: string -> Option<T>): (r: seq<T>)
    ensures |r| <= |xs|
  {
    if xs == [] then []
    else
      FilterMap(xs[..|xs| - 1], f)
      + match f(xs[|xs| - 1])
        case Some(y) => [y]
        case None => []
  }

  /** GetPartitions over the scanned lines: one partition per matching line,
      in line order. */
  function Partitions(lines: seq<string>): seq<Partition>
  {
    FilterMap(lines, PartitionOfLine)
  }

  /** GetPartitions. */
  function PartitionsIn(printOut: string): seq<Partition>
  {
    Partitions(ReportLines(printOut))
  }

  // ---------------------------------------------------------------- first match

  /** A value FirstSome gives is f's value for one of the elements. */
  lemma {:induction false} FirstSomeIn<T>(xs: seq<string>, f: string -> Option<T>)
    ensures FirstSome(xs, f).Some? ==> exists i :: 0 <= i < |xs| && f(xs[i]) == FirstSome(xs, f)
  {
    if xs != [] && f(xs[0]).None? {
      FirstSomeIn(xs[1..], f);
      if FirstSome(xs[1..], f).Some? {
        var i :| 0 <= i < |xs[1..]| && f(xs[1..][i]) == FirstSome(xs[1..], f);
        assert f(xs[i + 1]) == FirstSome(xs, f);
      }
    } else if xs != [] {
      assert f(xs[0]) == FirstSome(xs, f);
    }
  }

  /** FirstSome gives None exactly when f gives None for every element. */
  lemma {:induction false} FirstSomeNone<T>(xs: seq<string>, f: string -> Option<T>)
    ensures FirstSome(xs, f).None? <==> forall i :: 0 <= i < |xs| ==> f(xs[i]).None?
  {
    if xs != [] {
      FirstSomeNone(xs[1..], f);
      assert forall i :: 1 <= i < |xs| ==> xs[1..][i - 1] == xs[i];
    }
  }

  /** Past elements f rejects, FirstSome gives element i's value when there
      is one, and otherwise scans on after i. */
  lemma {:induction false} FirstSomeAt<T>(xs: seq<string>, f: string -> Option<T>, i: nat)
    requires i < |xs|
    requires forall j :: 0 <= j < i ==> f(xs[j]).None?
    ensures FirstSome(xs, f) == if f(xs[i]).Some? then f(xs[i]) else FirstSome(xs[i + 1..], f)
  {
    if i > 0 {
      assert forall j :: 0 <= j < i - 1 ==> xs[1..][j] == xs[j + 1];
      FirstSomeAt(xs[1..], f, i - 1);
      assert xs[1..][i - 1 + 1..] == xs[i + 1..];
    }
  }

  /** The first match is a match: one submatch per group after the whole
      line, with the groups the pattern captures in that line. */
  lemma FirstMatchShape(p: Pattern, lines: seq<string>)
    ensures var r := FirstMatch(p, lines);
      r.Some? ==> |r.value| == 1 + GroupCount(p) && Match(p, r.value[0]) == Some(r.value[1..])
  {
    FirstSomeIn(lines, Submatches(p));
    if FirstMatch(p, lines).Some? {
      var i :| 0 <= i < |lines| && Submatches(p)(lines[i]) == FirstMatch(p, lines);
      assert FindStringSubmatch(p, TrimSpace(lines[i])) == FirstMatch(p, lines);
    }
  }

  /** One step of the scan: line i's submatches if it matches, otherwise
      the first match after it. */
  lemma FirstMatchStep(p: Pattern, lines: seq<string>, i: nat)
    requires i < |lines|
    ensures var m := FindStringSubmatch(p, TrimSpace(lines[i]));
      FirstMatch(p, lines[i..]) == if m.Some? then m else FirstMatch(p, lines[i + 1..])
  {
    assert lines[i..][1..] == lines[i + 1..];
  }

  /** No line matches, and only then, gives None. */
  lemma FirstMatchNone(p: Pattern, lines: seq<string>)
    ensures FirstMatch(p, lines).None?
      <==> forall i :: 0 <= i < |lines| ==> FindStringSubmatch(p, TrimSpace(lines[i])).None?
  {
    FirstSomeNone(lines, Submatches(p));
    assert forall i :: 0 <= i < |lines| ==> Submatches(p)(lines[i]) == FindStringSubmatch(p, TrimSpace(lines[i]));
  }

  /** Past lines that do not match, the first match is line i's when it
      matches, and one of the later lines' otherwise. */
  lemma FirstMatchAt(p: Pattern, lines: seq<string>, i: nat)
    requires i < |lines|
    requires forall j :: 0 <= j < i ==> FindStringSubmatch(p, TrimSpace(lines[j])).None?
    ensures var m := FindStringSubmatch(p, TrimSpace(lines[i]));
      FirstMatch(p, lines) == if m.Some? then m else FirstMatch(p, lines[i + 1..])
  {
    assert forall j :: 0 <= j < i ==> Submatches(p)(lines[j]) == FindStringSubmatch(p, TrimSpace(lines[j]));
    FirstSomeAt(lines, Submatches(p), i);
  }

  /** Past lines that do not match, a line that matches is the first match. */
  lemma MatchFound(p: Pattern, lines: seq<string>, before: seq<string>, line: string,
                   m: seq<string>, after: seq<string>)
    requires lines == before + [line] + after
    requires FindStringSubmatch(p, TrimSpace(line)) == Some(m)
    requires forall i :: 0 <= i < |before| ==> FindStringSubmatch(p, TrimSpace(before[i])).None?
    ensures FirstMatch(p, lines) == Some(m)
  {
    assert forall i :: 0 <= i < |before| ==> lines[i] == before[i];
    assert lines[|before|] == line;
    FirstMatchAt(p, lines, |before|);
  }

  // ---------------------------------------------------------------- header

  /** A report without a header line makes every header getter fail: the
      label getter with "", the number getters with 0. */
  lemma HeaderMissing(printOut: string)
    requires var lines := ReportLines(printOut);
      forall i :: 0 <= i < |lines| ==> FindStringSubmatch(HeaderPattern, TrimSpace(lines[i])).None?
    ensures TableLabel(printOut) == ("", Some(HeaderNotFound))
    ensures LastSector(printOut) == (0, Some(LastSectorNotFound))
    ensures SectorSize(printOut) == (0, Some(SectorSizeNotFound))
  {
    FirstMatchNone(HeaderPattern, ReportLines(printOut));
  }

  /** The last-sector and sector-size groups of a header match are digits. */
  lemma HeaderGroupDigits(gs: seq<string>)
    requires |gs| == GroupCount(HeaderPattern) && Typed(HeaderPattern, gs)
    ensures gs[1] != [] && AllDigits(gs[1]) && gs[3] != [] && AllDigits(gs[3])
  {
    HeaderShape();
    TypedDigits(HeaderPattern, gs, 1);
    TypedDigits(HeaderPattern, gs, 3);
  }

  /** The same for the groups of a matching line. */
  lemma MatchHeaderDigits(s: string)
    requires Match(HeaderPattern, s).Some?
    ensures var gs := Match(HeaderPattern, s).value;
      |gs| == 8 && gs[1] != [] && AllDigits(gs[1]) && gs[3] != [] && AllDigits(gs[3])
  {
    HeaderGroupCount();
    MatchTyped(HeaderPattern, s);
    HeaderGroupDigits(Match(HeaderPattern, s).value);
  }

  /** The last-sector and sector-size fields of the first header line are
      digits. */
  lemma HeaderDigits(printOut: string)
    requires FirstMatch(HeaderPattern, ReportLines(printOut)).Some?
    ensures var m := FirstMatch(HeaderPattern, ReportLines(printOut)).value;
      |m| == 9 && m[2] != [] && AllDigits(m[2]) && m[4] != [] && AllDigits(m[4])
  {
    var m := FirstMatch(HeaderPattern, ReportLines(printOut)).value;
    FirstMatchShape(HeaderPattern, ReportLines(printOut));
    MatchHeaderDigits(m[0]);
    assert m[2] == m[1..][1] && m[4] == m[1..][3];
  }

  /** Once a header line is found the number getters cannot meet a syntax
      error: their groups are digits, so only a number past 64 bits fails,
      with the largest uint. */
  lemma HeaderNumbers(printOut: string)
    requires FirstMatch(HeaderPattern, ReportLines(printOut)).Some?
    ensures LastSector(printOut).1 == None || LastSector(printOut) == (MaxUint64, Some(Conversion(ErrRange)))
    ensures SectorSize(printOut).1 == None || SectorSize(printOut) == (MaxUint64, Some(Conversion(ErrRange)))
  {
    HeaderDigits(printOut);
    var m := FirstMatch(HeaderPattern, ReportLines(printOut)).value;
    HeaderFieldIs(printOut, m, 2);
    HeaderFieldIs(printOut, m, 4);
    ParseUintOfDigits(m[2]);
    ParseUintOfDigits(m[4]);
  }

  /** The fields of a header record. */
  datatype HeaderRecord = HeaderRecord(
    device: string, lastSector: Uint, transport: string, logicalSize: Uint,
    physicalSize: Uint, tableLabel: string, model: string, flags: string)

  function HeaderGroupsOf(h: HeaderRecord): seq<string>
  {
    [h.device, NatToString(h.lastSector), h.transport, NatToString(h.logicalSize),
     NatToString(h.physicalSize), h.tableLabel, h.model, h.flags]
  }

  /** The header line of a record: its fields written into the header
      format. */
  function HeaderLine(h: HeaderRecord): string
  {
    HeaderGroupCount();
    Render(HeaderPattern, HeaderGroupsOf(h))
  }

  /** From the transport on, the header line is the fields joined by ':'
      and a final ';'. */
  lemma HeaderTailText(h: HeaderRecord)
    ensures var p5 := HeaderPattern.rest.rest.rest.rest.rest;
      GroupCount(p5) == 6 && |HeaderGroupsOf(h)[2..]| == 6
      && Render(p5, HeaderGroupsOf(h)[2..]) == h.transport + ([':'] + (NatToString(h.logicalSize)
        + ([':'] + (NatToString(h.physicalSize) + ([':'] + (h.tableLabel + ([':'] + (h.model
        + ([':'] + (h.flags + [';']))))))))))
  {
    var gs := HeaderGroupsOf(h);
    var p5 := HeaderPattern.rest.rest.rest.rest.rest;
    var p7, p9, p11, p13, p15 := p5.rest.rest, p5.rest.rest.rest.rest, p5.rest.rest.rest.rest.rest.rest,
      p5.rest.rest.rest.rest.rest.rest.rest.rest, p5.rest.rest.rest.rest.rest.rest.rest.rest.rest.rest;
    assert GroupCount(p5) == 6 by { HeaderGroupCount(); }
    assert gs[2..][1..] == gs[3..] && gs[3..][1..] == gs[4..];
    assert gs[4..][1..] == gs[5..] && gs[5..][1..] == gs[6..] && gs[6..][1..] == gs[7..];
    assert gs[7..][1..] == [] && Render(p15.rest, []) == [';'];
    assert Render(p13.rest, gs[7..]) == [':'] + (h.flags + [';']);
    assert Render(p11.rest, gs[6..]) == [':'] + (h.model + ([':'] + (h.flags + [';'])));
    assert Render(p9.rest, gs[5..]) == [':'] + Render(p11, gs[5..]);
    assert Render(p7.rest, gs[4..]) == [':'] + Render(p9, gs[4..]);
    assert Render(p5.rest, gs[3..]) == [':'] + Render(p7, gs[3..]);
  }

  /** The header line in the wire format: the fields joined by ':', an 's'
      after the last sector, and a final ';'. */
  lemma HeaderLineText(h: HeaderRecord)
    ensures HeaderLine(h) == h.device + ([':'] + (NatToString(h.lastSector) + (['s', ':']
      + (h.transport + ([':'] + (NatToString(h.logicalSize) + ([':'] + (NatToString(h.physicalSize)
      + ([':'] + (h.tableLabel + ([':'] + (h.model + ([':'] + (h.flags + [';']))))))))))))))
  {
    var gs := HeaderGroupsOf(h);
    var p0 := HeaderPattern;
    HeaderTailText(h);
    HeaderGroupCount();
    assert gs[1..][1..] == gs[2..];
    var t5 := Render(p0.rest.rest.rest.rest.rest, gs[2..]);
    assert Render(p0.rest.rest.rest.rest, gs[2..]) == [':'] + t5;
    assert Render(p0.rest.rest.rest, gs[2..]) == ['s', ':'] + t5;
    var t2 := NatToString(h.lastSector) + (['s', ':'] + t5);
    assert Render(p0.rest.rest, gs[1..]) == t2;
    assert Render(p0.rest, gs[1..]) == [':'] + t2;
    assert HeaderLine(h) == h.device + ([':'] + t2);
  }

  /** Free-text fields without separators or line breaks, and a device that
      does not start with white space. */
  predicate HeaderFits(h: HeaderRecord)
  {
    FreeText(h.device) && FreeText(h.transport) && FreeText(h.tableLabel)
    && FreeText(h.model) && FreeText(h.flags)
    && (h.device == [] || !IsSpace(h.device[0]))
  }

  /** A record line (a first group not starting with white space, then
      ':', ..., then ';') is its own trim. */
  lemma RecordLineTrimmed(p: Pattern, gs: seq<string>)
    requires |gs| == GroupCount(p) && EndsWithLit(p, ';')
    requires p.Then? && !p.t.Lit? && p.rest.Then? && p.rest.t == Lit(':')
    requires gs[0] == [] || !IsSpace(gs[0][0])
    ensures TrimSpace(Render(p, gs)) == Render(p, gs)
  {
    var s := Render(p, gs);
    RenderEndsWith(p, gs, ';');
    assert s == gs[0] + ([':'] + Render(p.rest.rest, gs[1..]));
    assert Unpadded(s);
  }

  /** A record line whose groups fit matches with them as its groups. */
  lemma RecordLineMatches(p: Pattern, gs: seq<string>)
    requires |gs| == GroupCount(p) && Delimited(p) && Fits(p, gs)
    ensures FindStringSubmatch(p, Render(p, gs)) == Some([Render(p, gs)] + gs)
  {
    MatchRender(p, gs);
  }

  /** A header line is its own trim and matches with the record's fields as
      its groups. */
  lemma HeaderLineMatches(h: HeaderRecord)
    requires HeaderFits(h)
    ensures TrimSpace(HeaderLine(h)) == HeaderLine(h)
    ensures FindStringSubmatch(HeaderPattern, HeaderLine(h)) == Some([HeaderLine(h)] + HeaderGroupsOf(h))
  {
    HeaderShape();
    var gs := HeaderGroupsOf(h);
    assert Bit(26, 1) && Bit(26, 3) && Bit(26, 4);
    assert !Bit(26, 0) && !Bit(26, 2) && !Bit(26, 5) && !Bit(26, 6) && !Bit(26, 7);
    FitsByGroup(HeaderPattern, gs);
    RecordLineTrimmed(HeaderPattern, gs);
    RecordLineMatches(HeaderPattern, gs);
  }

  /** Past lines that are not headers, a header line is the first match. */
  lemma HeaderFound(lines: seq<string>, before: seq<string>, h: HeaderRecord, after: seq<string>)
    requires lines == before + [HeaderLine(h)] + after
    requires HeaderFits(h)
    requires forall i :: 0 <= i < |before| ==> FindStringSubmatch(HeaderPattern, TrimSpace(before[i])).None?
    ensures FirstMatch(HeaderPattern, lines) == Some([HeaderLine(h)] + HeaderGroupsOf(h))
  {
    HeaderLineMatches(h);
    MatchFound(HeaderPattern, lines, before, HeaderLine(h), [HeaderLine(h)] + HeaderGroupsOf(h), after);
  }

  /** On a report whose first header line has submatches m, a header
      field is that group. */
  lemma HeaderFieldIs(printOut: string, m: seq<string>, field: nat)
    requires field <= 8 && |m| == 9
    requires FirstMatch(HeaderPattern, ReportLines(printOut)) == Some(m)
    ensures HeaderField(printOut, field) == (m[field], None)
  {
  }

  /** Where the getters' fields sit among a header line's submatches. */
  lemma HeaderGroupsAt(line: string, h: HeaderRecord)
    ensures var m := [line] + HeaderGroupsOf(h);
      |m| == 9 && m[2] == NatToString(h.lastSector) && m[4] == NatToString(h.logicalSize)
      && m[6] == h.tableLabel
  {
  }

  /** GetLastSector converts what %d wrote back exactly. */
  lemma NumberField(printOut: string, n: Uint)
    requires HeaderField(printOut, 2) == (NatToString(n), None)
    ensures LastSector(printOut) == (n, None)
  {
    ParseUintOfNatToString(n);
  }

  /** GetSectorSize converts what %d wrote back exactly. */
  lemma SizeField(printOut: string, n: Uint)
    requires HeaderField(printOut, 4) == (NatToString(n), None)
    ensures SectorSize(printOut) == (n, None)
  {
    ParseUintOfNatToString(n);
  }

  /** GetLastSector on a report whose first header line holds record h. */
  lemma LastSectorOf(printOut: string, line: string, h: HeaderRecord)
    requires FirstMatch(HeaderPattern, ReportLines(printOut)) == Some([line] + HeaderGroupsOf(h))
    ensures LastSector(printOut) == (h.lastSector, None)
  {
    var m := [line] + HeaderGroupsOf(h);
    HeaderGroupsAt(line, h);
    HeaderFieldIs(printOut, m, 2);
    NumberField(printOut, h.lastSector);
  }

  /** GetSectorSize on a report whose first header line holds record h. */
  lemma SectorSizeOf(printOut: string, line: string, h: HeaderRecord)
    requires FirstMatch(HeaderPattern, ReportLines(printOut)) == Some([line] + HeaderGroupsOf(h))
    ensures SectorSize(printOut) == (h.logicalSize, None)
  {
    var m := [line] + HeaderGroupsOf(h);
    HeaderGroupsAt(line, h);
    HeaderFieldIs(printOut, m, 4);
    SizeField(printOut, h.logicalSize);
  }

  /** GetPartitionTableLabel on a report whose first header line holds
      record h. */
  lemma TableLabelOf(printOut: string, line: string, h: HeaderRecord)
    requires FirstMatch(HeaderPattern, ReportLines(printOut)) == Some([line] + HeaderGroupsOf(h))
    ensures TableLabel(printOut) == (h.tableLabel, None)
  {
    var m := [line] + HeaderGroupsOf(h);
    HeaderGroupsAt(line, h);
    HeaderFieldIs(printOut, m, 6);
  }

  /** Past lines that are not headers, a header line gives the getters its
      record's last sector, logical sector size and table label. */
  lemma HeaderRead(printOut: string, before: seq<string>, h: HeaderRecord, after: seq<string>)
    requires ReportLines(printOut) == before + [HeaderLine(h)] + after
    requires HeaderFits(h)
    requires forall i :: 0 <= i < |before| ==> FindStringSubmatch(HeaderPattern, TrimSpace(before[i])).None?
    ensures LastSector(printOut) == (h.lastSector, None)
    ensures SectorSize(printOut) == (h.logicalSize, None)
    ensures TableLabel(printOut) == (h.tableLabel, None)
  {
    HeaderFound(ReportLines(printOut), before, h, after);
    LastSectorOf(printOut, HeaderLine(h), h);
    SectorSizeOf(printOut, HeaderLine(h), h);
    TableLabelOf(printOut, HeaderLine(h), h);
  }

  // ---------------------------------------------------------------- a ':' in the model

  /** Header fields where the table label holds one ':' of its own. */
  predicate LabelSplitAt(h: HeaderRecord, l: string, a: string)
  {
    h.tableLabel == l + ":" + a && FreeText(l) && FreeText(a)
    && FreeText(h.device) && FreeText(h.transport) && FreeText(h.model) && FreeText(h.flags)
    && (h.device == [] || !IsSpace(h.device[0]))
    && (h.transport == [] || !IsDigit(h.transport[0]))
    && (l == [] || !IsDigit(l[0]))
  }

  /** The label group on: it takes its own ':' along. */
  lemma SplitLabelTail(h: HeaderRecord, l: string, a: string)
    requires LabelSplitAt(h, l, a)
    ensures var p11 := HeaderPattern.rest.rest.rest.rest.rest.rest.rest.rest.rest.rest.rest;
      var gs := HeaderGroupsOf(h)[5..];
      GroupCount(p11) == 3 && |gs| == 3 && Match(p11, Render(p11, gs)) == Some(gs)
  {
    var p11 := HeaderPattern.rest.rest.rest.rest.rest.rest.rest.rest.rest.rest.rest;
    var p13 := p11.rest.rest;
    var gs := HeaderGroupsOf(h)[5..];
    assert gs == [h.tableLabel, h.model, h.flags];
    assert Delimited(p11) && Fits(p13, gs[1..]) by {
      assert gs[1..] == [h.model, h.flags] && gs[1..][1..] == [h.flags];
      assert Delimited(p13.rest.rest.rest) && Delimited(p13.rest) && Delimited(p13);
      assert Fits(p13.rest.rest, gs[1..][1..]);
    }
    assert Match(p11.rest, Render(p11.rest, gs[1..])) == Some(gs[1..]) by {
      MatchRender(p13, gs[1..]);
      MatchRenderLit(p11.rest, gs[1..]);
    }
    assert '\n' !in gs[0];
    MatchRenderStar(p11, gs);
  }

  /** The two sector sizes and the label on. */
  lemma SplitLabelSizes(h: HeaderRecord, l: string, a: string)
    requires LabelSplitAt(h, l, a)
    ensures var p7 := HeaderPattern.rest.rest.rest.rest.rest.rest.rest;
      var gs := HeaderGroupsOf(h)[3..];
      GroupCount(p7) == 5 && |gs| == 5 && Match(p7, Render(p7, gs)) == Some(gs)
  {
    var p7 := HeaderPattern.rest.rest.rest.rest.rest.rest.rest;
    var gs := HeaderGroupsOf(h)[3..];
    SplitLabelTail(h, l, a);
    assert gs[1..] == HeaderGroupsOf(h)[4..] && gs[2..] == HeaderGroupsOf(h)[5..];
    assert Delimited(p7.rest.rest.rest) && Delimited(p7.rest.rest) && Delimited(p7.rest) && Delimited(p7);
    MatchRenderLit(p7.rest.rest.rest, gs[2..]);
    MatchRenderDigits(p7.rest.rest, gs[1..]);
    MatchRenderLit(p7.rest, gs[1..]);
    MatchRenderDigits(p7, gs);
  }

  /** The label holds one ':' of its own. */
  lemma SplitLabelCount(h: HeaderRecord, l: string, a: string)
    requires LabelSplitAt(h, l, a)
    ensures Count(':', h.tableLabel) == 1
  {
    CountAbsent(':', l);
    CountAbsent(':', a);
    CountAppend(':', l, ":");
    CountAppend(':', l + ":", a);
  }

  /** The groups from the physical sector size on hold one ':'. */
  lemma SplitLabelGroupsCount(h: HeaderRecord, l: string, a: string)
    requires LabelSplitAt(h, l, a)
    ensures GroupsCount(':', HeaderGroupsOf(h)[4..]) == 1
  {
    var gs := HeaderGroupsOf(h)[4..];
    SplitLabelCount(h, l, a);
    CountAbsent(':', gs[0]);
    CountAbsent(':', h.model);
    CountAbsent(':', h.flags);
    var g1, g2, g3 := gs[1..], gs[2..], gs[3..];
    assert g3 == [h.flags] && g3[1..] == [];
    assert GroupsCount(':', g3) == 0;
    assert g2 == [h.model] + g3 && g2[1..] == g3;
    assert GroupsCount(':', g2) == 0;
    assert g1 == [h.tableLabel] + g2 && g1[1..] == g2;
    assert GroupsCount(':', g1) == 1;
    assert gs[1..] == g1;
  }

  /** Past the logical sector size, the text holds one ':' more than the
      rest of the pattern needs. */
  lemma SplitLabelPastLogicalCount(h: HeaderRecord, l: string, a: string)
    requires LabelSplitAt(h, l, a)
    ensures var p7, p9 := HeaderPattern.rest.rest.rest.rest.rest.rest.rest, HeaderPattern.rest.rest.rest.rest.rest.rest.rest.rest.rest;
      GroupCount(p9) == 4 && Count(':', Render(p9, HeaderGroupsOf(h)[4..])) == LitCount(':', p7)
  {
    var p7, p9 := HeaderPattern.rest.rest.rest.rest.rest.rest.rest, HeaderPattern.rest.rest.rest.rest.rest.rest.rest.rest.rest;
    assert GroupCount(p9) == 4 && LitCount(':', p9) == 3 && LitCount(':', p7) == 4;
    RenderCount(p9, HeaderGroupsOf(h)[4..], ':');
    SplitLabelGroupsCount(h, l, a);
  }

  /** Right after the logical sector size, the rest of the pattern cannot
      match: the label after the physical sector size starts with no digit. */
  lemma SplitLabelPastLogical(h: HeaderRecord, l: string, a: string)
    requires LabelSplitAt(h, l, a)
    ensures var p7, p9 := HeaderPattern.rest.rest.rest.rest.rest.rest.rest, HeaderPattern.rest.rest.rest.rest.rest.rest.rest.rest.rest;
      GroupCount(p9) == 4 && Match(p7, Render(p9, HeaderGroupsOf(h)[4..])).None?
  {
    var p7, p9 := HeaderPattern.rest.rest.rest.rest.rest.rest.rest, HeaderPattern.rest.rest.rest.rest.rest.rest.rest.rest.rest;
    var p11 := p9.rest.rest;
    var gs := HeaderGroupsOf(h)[4..];
    var ps := gs[0];
    assert gs[1..] == HeaderGroupsOf(h)[5..];
    var x := Render(p9, gs);
    var y := Render(p11, gs[1..]);
    assert Render(p9.rest, gs[1..]) == [':'] + y;
    assert x == ps + ([':'] + y);
    assert y == h.tableLabel + Render(p11.rest, gs[2..]);
    assert y != [] && !IsDigit(y[0]);
    assert DigitRun(x) == |ps| by {
      assert forall i :: 0 <= i < |ps| ==> x[i] == ps[i];
      assert x[|ps|] == ':';
    }
    assert x[|ps|..] == [':'] + y;
    assert DigitRun(y) == 0;
    assert Match(p7.rest, x[|ps|..]).None? by { assert ([':'] + y)[1..] == y; }
    assert Delimited(p7) by { assert Delimited(p9); }
    DigitGroupFails(p7, x);
  }

  /** What follows the transport's ':': the logical sector size, then the
      next ':', past which the rest of the pattern cannot match although one
      ':' too many follows. */
  lemma SplitLabelPastTransport(h: HeaderRecord, l: string, a: string)
    requires LabelSplitAt(h, l, a)
    ensures var p7 := HeaderPattern.rest.rest.rest.rest.rest.rest.rest;
      var gs := HeaderGroupsOf(h)[3..];
      var ls := gs[0];
      var tail := Render(p7, gs);
      GroupCount(p7) == 5 && |gs| == 5
      && |ls| < |tail| && tail[|ls|] == ':' && (forall i :: 0 <= i < |ls| ==> tail[i] != ':')
      && Count(':', tail[|ls| + 1..]) == LitCount(':', p7) && Match(p7, tail[|ls| + 1..]).None?
  {
    var p7 := HeaderPattern.rest.rest.rest.rest.rest.rest.rest;
    var p9 := p7.rest.rest;
    var gs := HeaderGroupsOf(h)[3..];
    var ls := gs[0];
    var tail := Render(p7, gs);
    assert gs[1..] == HeaderGroupsOf(h)[4..];
    assert Render(p7.rest, gs[1..]) == [':'] + Render(p9, gs[1..]);
    assert tail == ls + ([':'] + Render(p9, gs[1..]));
    assert tail[|ls| + 1..] == Render(p9, gs[1..]);
    assert forall i :: 0 <= i < |ls| ==> tail[i] == ls[i];
    SplitLabelPastLogicalCount(h, l, a);
    SplitLabelPastLogical(h, l, a);
  }

  /** After the transport's ':', the sizes and the label match back. */
  lemma SplitLabelAfterTransport(h: HeaderRecord, l: string, a: string)
    requires LabelSplitAt(h, l, a)
    ensures var p5 := HeaderPattern.rest.rest.rest.rest.rest;
      var gs := HeaderGroupsOf(h)[2..];
      GroupCount(p5) == 6 && |gs| == 6
      && Match(p5.rest, Render(p5.rest, gs[1..])) == Some(gs[1..])
  {
    var p5 := HeaderPattern.rest.rest.rest.rest.rest;
    var gs := HeaderGroupsOf(h)[2..];
    assert gs[1..] == HeaderGroupsOf(h)[3..];
    SplitLabelSizes(h, l, a);
    MatchRenderLit(p5.rest, gs[1..]);
  }

  /** Past the transport, the logical sector size is followed by a ':' past
      which the rest cannot match although one ':' too many follows. */
  lemma SplitLabelTransportTail(h: HeaderRecord, l: string, a: string)
    requires LabelSplitAt(h, l, a)
    ensures var p5 := HeaderPattern.rest.rest.rest.rest.rest;
      var gs := HeaderGroupsOf(h)[2..];
      GroupCount(p5) == 6 && |gs| == 6
      && var n := |gs[1]|;
      var tail := Render(p5.rest.rest, gs[1..]);
      n < |tail| && tail[n] == p5.rest.t.c && (forall i :: 0 <= i < n ==> tail[i] != p5.rest.t.c)
      && Count(p5.rest.t.c, tail[n + 1..]) == LitCount(p5.rest.t.c, p5.rest.rest)
      && Match(p5.rest.rest, tail[n + 1..]).None?
  {
    var gs := HeaderGroupsOf(h)[2..];
    assert gs[1..] == HeaderGroupsOf(h)[3..];
    SplitLabelPastTransport(h, l, a);
  }

  /** The transport group stops at its own ':', although the label adds one
      more further on. */
  lemma SplitLabelTransport(h: HeaderRecord, l: string, a: string)
    requires LabelSplitAt(h, l, a)
    ensures var p5 := HeaderPattern.rest.rest.rest.rest.rest;
      var gs := HeaderGroupsOf(h)[2..];
      GroupCount(p5) == 6 && |gs| == 6 && Match(p5, Render(p5, gs)) == Some(gs)
  {
    var p5 := HeaderPattern.rest.rest.rest.rest.rest;
    var gs := HeaderGroupsOf(h)[2..];
    SplitLabelAfterTransport(h, l, a);
    SplitLabelTransportTail(h, l, a);
    assert Delimited(p5) by { assert Delimited(p5.rest.rest) && Delimited(p5.rest); }
    assert p5.Then? && p5.t.AnyStar? && FreeText(gs[0]);
    MatchRenderStarOneMore(p5, gs, |gs[1]|);
  }

  /** The groups from the transport on hold one ':'. */
  lemma SplitLabelGroupsCountFromTransport(h: HeaderRecord, l: string, a: string)
    requires LabelSplitAt(h, l, a)
    ensures GroupsCount(':', HeaderGroupsOf(h)[2..]) == 1
  {
    var gs := HeaderGroupsOf(h)[2..];
    SplitLabelGroupsCount(h, l, a);
    CountAbsent(':', gs[0]);
    CountAbsent(':', gs[1]);
    assert gs[1..] == [gs[1]] + HeaderGroupsOf(h)[4..] && gs[1..][1..] == HeaderGroupsOf(h)[4..];
  }

  /** Past the last sector's ':' one ':' more than the pattern's own follows. */
  lemma SplitLabelPastDeviceCount(h: HeaderRecord, l: string, a: string)
    requires LabelSplitAt(h, l, a)
    ensures var p2 := HeaderPattern.rest.rest;
      var gs := HeaderGroupsOf(h)[2..];
      GroupCount(p2.rest.rest.rest) == 6 && |gs| == 6
      && Count(':', Render(p2.rest.rest.rest, gs)) == LitCount(':', p2)
  {
    var p2 := HeaderPattern.rest.rest;
    var p5 := p2.rest.rest.rest;
    var gs := HeaderGroupsOf(h)[2..];
    assert GroupCount(p5) == 6 && LitCount(':', p5) == 5 && LitCount(':', p2) == 6;
    RenderCount(p5, gs, ':');
    SplitLabelGroupsCountFromTransport(h, l, a);
  }

  /** The last-sector group cannot start at the transport. */
  lemma SplitLabelPastDeviceFails(h: HeaderRecord, l: string, a: string)
    requires LabelSplitAt(h, l, a)
    ensures var p2 := HeaderPattern.rest.rest;
      var gs := HeaderGroupsOf(h)[2..];
      GroupCount(p2.rest.rest.rest) == 6 && |gs| == 6
      && Match(p2, Render(p2.rest.rest.rest, gs)).None?
  {
    var p2 := HeaderPattern.rest.rest;
    var p5 := p2.rest.rest.rest;
    var gs := HeaderGroupsOf(h)[2..];
    assert GroupCount(p5) == 6;
    var rest := Render(p5, gs);
    assert rest == h.transport + Render(p5.rest, gs[1..]);
    assert Render(p5.rest, gs[1..]) != [] && Render(p5.rest, gs[1..])[0] == ':';
    assert rest != [] && !IsDigit(rest[0]);
    assert DigitRun(rest) == 0;
  }

  /** The text after the device's ':' is the last sector, an 's', a ':' and
      what the transport on renders to. */
  lemma SplitLabelPastDeviceShape(h: HeaderRecord, l: string, a: string)
    requires LabelSplitAt(h, l, a)
    ensures var p2 := HeaderPattern.rest.rest;
      var gs := HeaderGroupsOf(h)[1..];
      GroupCount(p2) == 7 && |gs| == 7
      && var n := |gs[0]| + 1;
      var tail := Render(p2, gs);
      n < |tail| && tail[n] == ':' && (forall i :: 0 <= i < n ==> tail[i] != ':')
      && tail[n + 1..] == Render(p2.rest.rest.rest, HeaderGroupsOf(h)[2..])
  {
    var p2 := HeaderPattern.rest.rest;
    var p5 := p2.rest.rest.rest;
    var gs := HeaderGroupsOf(h)[1..];
    var last := gs[0];
    var n := |last| + 1;
    assert GroupCount(p2) == 7;
    assert gs[1..] == HeaderGroupsOf(h)[2..];
    var rest := Render(p5, gs[1..]);
    var tail := Render(p2, gs);
    assert Render(p2.rest, gs[1..]) == ['s'] + ([':'] + rest);
    assert tail == last + (['s'] + ([':'] + rest));
    assert forall i :: 0 <= i < |last| ==> tail[i] == last[i];
  }

  /** What follows the device's ':': the last sector and its 's', then the
      next ':', past which the rest of the pattern cannot match although one
      ':' too many follows. */
  lemma SplitLabelPastDevice(h: HeaderRecord, l: string, a: string)
    requires LabelSplitAt(h, l, a)
    ensures var p2 := HeaderPattern.rest.rest;
      var gs := HeaderGroupsOf(h)[1..];
      GroupCount(p2) == 7 && |gs| == 7
      && var n := |gs[0]| + 1;
      var tail := Render(p2, gs);
      n < |tail| && tail[n] == ':' && (forall i :: 0 <= i < n ==> tail[i] != ':')
      && Count(':', tail[n + 1..]) == LitCount(':', p2) && Match(p2, tail[n + 1..]).None?
  {
    SplitLabelPastDeviceShape(h, l, a);
    SplitLabelPastDeviceCount(h, l, a);
    SplitLabelPastDeviceFails(h, l, a);
  }

  /** The whole header line: the device group stops at its own ':' too, so
      every group comes back, the label with its ':'. */
  lemma SplitLabelLine(h: HeaderRecord, l: string, a: string)
    requires LabelSplitAt(h, l, a)
    ensures Match(HeaderPattern, HeaderLine(h)) == Some(HeaderGroupsOf(h))
  {
    var p := HeaderPattern;
    var gs := HeaderGroupsOf(h);
    HeaderGroupCount();
    assert gs[1..][1..] == gs[2..];
    assert Match(p.rest.rest.rest.rest, Render(p.rest.rest.rest.rest, gs[2..])) == Some(gs[2..]) by {
      SplitLabelTransport(h, l, a);
      MatchRenderLit(p.rest.rest.rest.rest, gs[2..]);
    }
    assert Match(p.rest, Render(p.rest, gs[1..])) == Some(gs[1..]) by {
      assert Delimited(p.rest.rest) by { HeaderShape(); }
      MatchRenderLit(p.rest.rest.rest, gs[2..]);
      MatchRenderDigits(p.rest.rest, gs[1..]);
      MatchRenderLit(p.rest, gs[1..]);
    }
    SplitLabelPastDevice(h, l, a);
    HeaderShape();
    assert FreeText(gs[0]);
    MatchRenderStarOneMore(p, gs, |gs[1]| + 1);
  }

  /** Moving the part of the model before its ':' to the end of the label
      leaves the label group's text unchanged. */
  lemma ShiftedTail(h: HeaderRecord, a: string, b: string)
    requires h.model == a + ":" + b
    ensures var h2 := h.(tableLabel := h.tableLabel + ":" + a, model := b);
      var p11 := HeaderPattern.rest.rest.rest.rest.rest.rest.rest.rest.rest.rest.rest;
      GroupCount(p11) == 3 && |HeaderGroupsOf(h)[5..]| == 3
      && Render(p11, HeaderGroupsOf(h)[5..]) == Render(p11, HeaderGroupsOf(h2)[5..])
  {
    var h2 := h.(tableLabel := h.tableLabel + ":" + a, model := b);
    var p11 := HeaderPattern.rest.rest.rest.rest.rest.rest.rest.rest.rest.rest.rest;
    var gs, gs2 := HeaderGroupsOf(h)[5..], HeaderGroupsOf(h2)[5..];
    assert gs == [h.tableLabel, h.model, h.flags] && gs2 == [h2.tableLabel, b, h.flags];
    var p13 := p11.rest.rest;
    var f := Render(p13.rest, [h.flags]);
    assert gs[1..] == [h.model, h.flags] && gs[1..][1..] == [h.flags];
    assert gs2[1..] == [b, h.flags] && gs2[1..][1..] == [h.flags];
    assert Render(p13, gs[1..]) == h.model + f;
    assert Render(p13, gs2[1..]) == b + f;
    assert Render(p11, gs) == h.tableLabel + ([':'] + (h.model + f));
    assert Render(p11, gs2) == h2.tableLabel + ([':'] + (b + f));
    assert h.tableLabel + ([':'] + ((a + ":" + b) + f)) == (h.tableLabel + ":" + a) + ([':'] + (b + f));
  }

  /** Two records that agree up to the label group render the same header
      line when their label groups render alike. */
  lemma SameHeaderLine(h: HeaderRecord, h2: HeaderRecord)
    requires h.device == h2.device && h.lastSector == h2.lastSector && h.transport == h2.transport
    requires h.logicalSize == h2.logicalSize && h.physicalSize == h2.physicalSize
    requires var p11 := HeaderPattern.rest.rest.rest.rest.rest.rest.rest.rest.rest.rest.rest;
      GroupCount(p11) == 3 && |HeaderGroupsOf(h)[5..]| == 3
      && Render(p11, HeaderGroupsOf(h)[5..]) == Render(p11, HeaderGroupsOf(h2)[5..])
    ensures HeaderLine(h) == HeaderLine(h2)
  {
    var p5 := HeaderPattern.rest.rest.rest.rest.rest;
    var g, g2 := HeaderGroupsOf(h), HeaderGroupsOf(h2);
    HeaderGroupCount();
    assert Render(p5, g[2..]) == Render(p5, g2[2..]) by {
      var p7 := p5.rest.rest;
      assert g[2..][1..] == g[3..] && g2[2..][1..] == g2[3..];
      assert Render(p7, g[3..]) == Render(p7, g2[3..]) by {
        var p9 := p7.rest.rest;
        assert g[3..][1..] == g[4..] && g2[3..][1..] == g2[4..];
        assert Render(p9, g[4..]) == Render(p9, g2[4..]) by {
          assert g[4..][1..] == g[5..] && g2[4..][1..] == g2[5..];
          assert Render(p9.rest, g[5..]) == Render(p9.rest, g2[5..]);
        }
        assert Render(p7.rest, g[4..]) == Render(p7.rest, g2[4..]);
      }
      assert Render(p5.rest, g[3..]) == Render(p5.rest, g2[3..]);
    }
    var p2 := HeaderPattern.rest.rest;
    assert g[1..][1..] == g[2..] && g2[1..][1..] == g2[2..];
    assert Render(p2.rest.rest, g[2..]) == Render(p2.rest.rest, g2[2..]);
    assert Render(p2.rest, g[2..]) == Render(p2.rest, g2[2..]);
    assert Render(p2, g[1..]) == Render(p2, g2[1..]);
    assert Render(HeaderPattern.rest, g[1..]) == Render(HeaderPattern.rest, g2[1..]);
  }

  /** A header line written from a model with a ':' is the line of the
      record whose label took the model's first part, and it matches with
      that record's fields as its groups. */
  lemma ShiftedLineMatches(h: HeaderRecord, a: string, b: string)
    requires h.model == a + ":" + b && FreeText(a) && FreeText(b)
    requires FreeText(h.device) && FreeText(h.transport) && FreeText(h.tableLabel) && FreeText(h.flags)
    requires h.device == [] || !IsSpace(h.device[0])
    requires h.transport == [] || !IsDigit(h.transport[0])
    requires h.tableLabel == [] || !IsDigit(h.tableLabel[0])
    ensures var h2 := h.(tableLabel := h.tableLabel + ":" + a, model := b);
      HeaderLine(h) == HeaderLine(h2)
      && FindStringSubmatch(HeaderPattern, TrimSpace(HeaderLine(h))) == Some([HeaderLine(h)] + HeaderGroupsOf(h2))
  {
    var h2 := h.(tableLabel := h.tableLabel + ":" + a, model := b);
    assert LabelSplitAt(h2, h.tableLabel, a);
    ShiftedTail(h, a, b);
    SameHeaderLine(h, h2);
    SplitLabelLine(h2, h.tableLabel, a);
    HeaderShape();
    RecordLineTrimmed(HeaderPattern, HeaderGroupsOf(h2));
  }

  /** A ':' in the model moves the model's first part into the table label:
      the label group is greedy, so on a header line written from a label
      "gpt" and a model "ATA:FOO" GetPartitionTableLabel reads "gpt:ATA".
      The last sector and the sector size still come back. */
  lemma ModelColonShiftsLabel(printOut: string, before: seq<string>, h: HeaderRecord,
                              a: string, b: string, after: seq<string>)
    requires ReportLines(printOut) == before + [HeaderLine(h)] + after
    requires h.model == a + ":" + b && FreeText(a) && FreeText(b)
    requires FreeText(h.device) && FreeText(h.transport) && FreeText(h.tableLabel) && FreeText(h.flags)
    requires h.device == [] || !IsSpace(h.device[0])
    requires h.transport == [] || !IsDigit(h.transport[0])
    requires h.tableLabel == [] || !IsDigit(h.tableLabel[0])
    requires forall i :: 0 <= i < |before| ==> FindStringSubmatch(HeaderPattern, TrimSpace(before[i])).None?
    ensures TableLabel(printOut) == (h.tableLabel + ":" + a, None)
    ensures LastSector(printOut) == (h.lastSector, None)
    ensures SectorSize(printOut) == (h.logicalSize, None)
  {
    var h2 := h.(tableLabel := h.tableLabel + ":" + a, model := b);
    ShiftedLineMatches(h, a, b);
    MatchFound(HeaderPattern, ReportLines(printOut), before, HeaderLine(h), [HeaderLine(h)] + HeaderGroupsOf(h2), after);
    LastSectorOf(printOut, HeaderLine(h), h2);
    SectorSizeOf(printOut, HeaderLine(h), h2);
    TableLabelOf(printOut, HeaderLine(h), h2);
  }

  /** The numbers of the record below in `%d`. */
  lemma ColonNumerals()
    ensures NatToString(100) == "100" && NatToString(512) == "512"
  {
    assert NatToString(10) == "10";
    assert NatToString(51) == "51";
  }

  /** The fields of that record past the device, joined as a header line
      joins them. */
  lemma ColonTailText()
    ensures [':'] + ("100" + (['s', ':'] + ("scsi" + ([':'] + ("512" + ([':'] + ("512"
      + ([':'] + ("gpt" + ([':'] + ("ATA:FOO" + ([':'] + ("" + [';'])))))))))))))
      == ":100s:scsi:512:512:gpt:ATA:FOO:;"
  {
  }

  /** The header line of a record whose model "ATA:FOO" holds a ':'. */
  lemma ColonHeaderLine(dev: string)
    ensures HeaderLine(HeaderRecord(dev, 100, "scsi", 512, 512, "gpt", "ATA:FOO", ""))
      == dev + ":100s:scsi:512:512:gpt:ATA:FOO:;"
  {
    HeaderLineText(HeaderRecord(dev, 100, "scsi", 512, 512, "gpt", "ATA:FOO", ""));
    ColonNumerals();
    ColonTailText();
  }

  /** A report of that one line scans into it. */
  lemma ColonReportLines(dev: string)
    requires FreeText(dev) && dev != [] && !IsSpace(dev[0])
    ensures ReportLines(dev + ":100s:scsi:512:512:gpt:ATA:FOO:;") == [dev + ":100s:scsi:512:512:gpt:ATA:FOO:;"]
  {
    var line := dev + ":100s:scsi:512:512:gpt:ATA:FOO:;";
    assert JoinLines([line]) == line;
    assert line[0] == dev[0] && line[|line| - 1] == ';';
    assert forall i :: 0 <= i < |line| ==> line[i] != '\n';
    ReportOfLines([line]);
  }

  /** That record meets what a ':' in the model needs to shift the label. */
  lemma ColonFields(dev: string)
    requires FreeText(dev) && dev != [] && !IsSpace(dev[0])
    ensures var h := HeaderRecord(dev, 100, "scsi", 512, 512, "gpt", "ATA:FOO", "");
      h.model == "ATA" + ":" + "FOO" && FreeText("ATA") && FreeText("FOO")
      && FreeText(h.device) && FreeText(h.transport) && FreeText(h.tableLabel) && FreeText(h.flags)
      && (h.device == [] || !IsSpace(h.device[0]))
      && (h.transport == [] || !IsDigit(h.transport[0]))
      && (h.tableLabel == [] || !IsDigit(h.tableLabel[0]))
      && h.tableLabel + ":" + "ATA" == "gpt:ATA"
  {
  }

  /** On the report "<dev>:100s:scsi:512:512:gpt:ATA:FOO:;", whose model is
      "ATA:FOO", the label read is "gpt:ATA", not "gpt"; the numbers still
      come back. */
  lemma ModelColonExample(dev: string)
    requires FreeText(dev) && dev != [] && !IsSpace(dev[0])
    ensures TableLabel(dev + ":100s:scsi:512:512:gpt:ATA:FOO:;") == ("gpt:ATA", None)
    ensures LastSector(dev + ":100s:scsi:512:512:gpt:ATA:FOO:;") == (100, None)
    ensures SectorSize(dev + ":100s:scsi:512:512:gpt:ATA:FOO:;") == (512, None)
  {
    var h := HeaderRecord(dev, 100, "scsi", 512, 512, "gpt", "ATA:FOO", "");
    ColonHeaderLine(dev);
    ColonReportLines(dev);
    ColonFields(dev);
    ModelColonShiftsLabel(dev + ":100s:scsi:512:512:gpt:ATA:FOO:;", [], h, "ATA", "FOO", []);
  }

  // ---------------------------------------------------------------- partitions

  /** The fields of a partition record. */
  datatype PartitionRecord = PartitionRecord(
    number: Int64, start: Uint, end: Uint, size: Uint,
    fileSystem: string, name: string, flags: string)

  function PartitionGroupsOf(r: PartitionRecord): seq<string>
  {
    [IntToString(r.number), NatToString(r.start), NatToString(r.end), NatToString(r.size),
     r.fileSystem, r.name, r.flags]
  }

  /** The partition line of a record. */
  function PartitionLine(r: PartitionRecord): string
  {
    PartitionGroupCount();
    Render(PartitionPattern, PartitionGroupsOf(r))
  }

  predicate PartitionFits(r: PartitionRecord)
  {
    r.number >= 0 && FreeText(r.fileSystem) && FreeText(r.name) && FreeText(r.flags)
  }

  /** What GetPartitions makes of a record: its number, start and name, and
      end - start + 1 in uint arithmetic as the size, whatever the record's
      own size field says. */
  function ReadBack(r: PartitionRecord): Partition
  {
    Partition(r.number, r.start, (r.end - r.start + 1) % UintModulus, r.name, "")
  }

  /** A partition line is its own trim and matches with the record's fields
      as its groups. */
  lemma PartitionLineMatches(r: PartitionRecord)
    requires PartitionFits(r)
    ensures TrimSpace(PartitionLine(r)) == PartitionLine(r)
    ensures FindStringSubmatch(PartitionPattern, PartitionLine(r))
      == Some([PartitionLine(r)] + PartitionGroupsOf(r))
  {
    PartitionShape();
    var gs := PartitionGroupsOf(r);
    assert Bit(15, 0) && Bit(15, 1) && Bit(15, 2) && Bit(15, 3);
    assert !Bit(15, 4) && !Bit(15, 5) && !Bit(15, 6);
    FitsByGroup(PartitionPattern, gs);
    RecordLineTrimmed(PartitionPattern, gs);
    RecordLineMatches(PartitionPattern, gs);
  }

  /** A partition line is read back as ReadBack says. */
  lemma PartitionLineParses(r: PartitionRecord)
    requires PartitionFits(r)
    ensures PartitionOfLine(PartitionLine(r)) == Some(ReadBack(r))
  {
    PartitionLineMatches(r);
    PartitionOfGroups(PartitionLine(r), r);
  }

  /** The groups of a record's line convert back to its numbers. */
  lemma PartitionOfGroups(line: string, r: PartitionRecord)
    ensures PartitionOf([line] + PartitionGroupsOf(r)) == ReadBack(r)
  {
    var m := [line] + PartitionGroupsOf(r);
    ParseUintOfNatToString(r.start);
    ParseUintOfNatToString(r.end);
    AtoiOfIntToString(r.number);
    assert m[1] == IntToString(r.number) && m[2] == NatToString(r.start) && m[3] == NatToString(r.end);
  }

  /** One more line adds its partition, if it describes one. */
  lemma PartitionsSnoc(lines: seq<string>, i: nat)
    requires i < |lines|
    ensures Partitions(lines[..i + 1])
      == Partitions(lines[..i]) + match PartitionOfLine(lines[i]) case Some(p) => [p] case None => []
  {
    assert lines[..i + 1][..i] == lines[..i];
  }

  /** PartitionOfLine in terms of the line's submatches. */
  lemma PartitionOfMatch(line: string, m: Option<seq<string>>)
    requires m == FindStringSubmatch(PartitionPattern, TrimSpace(line))
    ensures m.Some? ==> |m.value| == 8 && PartitionOfLine(line) == Some(PartitionOf(m.value))
    ensures m.None? ==> PartitionOfLine(line).None?
  {
    PartitionGroupCount();
  }

  /** FilterMap works piece by piece. */
  lemma {:induction false} FilterMapAppend<T>(a: seq<string>, b: seq<string>, f: string -> Option<T>)
    ensures FilterMap(a + b, f) == FilterMap(a, f) + FilterMap(b, f)
  {
    if b == [] {
      assert a + b == a;
    } else {
      var init := b[..|b| - 1];
      FilterMapAppend(a, init, f);
      assert (a + b)[..|a + b| - 1] == a + init;
      assert (a + b)[|a + b| - 1] == b[|b| - 1];
    }
  }

  /** GetPartitions reads a report piece by piece: no line affects what
      another one gives. */
  lemma PartitionsAppend(a: seq<string>, b: seq<string>)
    ensures Partitions(a + b) == Partitions(a) + Partitions(b)
  {
    FilterMapAppend(a, b, PartitionOfLine);
  }

  /** A line that does not match the partition pattern once trimmed is
      skipped: the lines around it give what they give on their own. */
  lemma PartitionsSkip(a: seq<string>, line: string, b: seq<string>)
    requires FindStringSubmatch(PartitionPattern, TrimSpace(line)).None?
    ensures Partitions(a + [line] + b) == Partitions(a) + Partitions(b)
  {
    PartitionsAppend(a + [line], b);
    PartitionsAppend(a, [line]);
    NoPartition(line);
  }

  /** A single line that does not match gives no partition. */
  lemma NoPartition(line: string)
    requires FindStringSubmatch(PartitionPattern, TrimSpace(line)).None?
    ensures Partitions([line]) == []
  {
    PartitionOfMatch(line, FindStringSubmatch(PartitionPattern, TrimSpace(line)));
    assert [line][..0] == [];
  }

  /** When f accepts every element, FilterMap gives exactly its values. */
  lemma {:induction false} FilterMapAll<T>(xs: seq<string>, f: string -> Option<T>, ys: seq<T>)
    requires |xs| == |ys|
    requires forall i :: 0 <= i < |xs| ==> f(xs[i]) == Some(ys[i])
    ensures FilterMap(xs, f) == ys
  {
    if xs != [] {
      FilterMapAll(xs[..|xs| - 1], f, ys[..|ys| - 1]);
    }
  }

  /** A report whose lines are partition records gives one partition per
      record, in order, duplicates kept. */
  lemma PartitionsReadBack(rs: seq<PartitionRecord>)
    requires forall i :: 0 <= i < |rs| ==> PartitionFits(rs[i])
    ensures Partitions(seq(|rs|, i requires 0 <= i < |rs| => PartitionLine(rs[i])))
      == seq(|rs|, i requires 0 <= i < |rs| => ReadBack(rs[i]))
  {
    var lines := seq(|rs|, i requires 0 <= i < |rs| => PartitionLine(rs[i]));
    forall i | 0 <= i < |rs|
      ensures PartitionOfLine(lines[i]) == Some(ReadBack(rs[i]))
    {
      PartitionLineParses(rs[i]);
    }
    FilterMapAll(lines, PartitionOfLine, seq(|rs|, i requires 0 <= i < |rs| => ReadBack(rs[i])));
  }

  /** The encoder and the parser agree on sizes: a record whose start and end
      are the extent tokens the encoder wrote for a sized partition is read
      back with that partition's start and size, even where the end sector
      wrapped past the uint range. */
  lemma ExtentRoundTrip(p: Partition, r: PartitionRecord)
    requires p.SizeS > 0 && PartitionFits(r)
    requires Extent(p) == [NatToString(r.start), NatToString(r.end)]
    ensures PartitionOfLine(PartitionLine(r)) == Some(Partition(r.number, p.StartS, p.SizeS, r.name, ""))
  {
    ExtentReadBack(p, r);
    PartitionLineParses(r);
  }

  /** The record's read-back partition has the encoded start and size. */
  lemma ExtentReadBack(p: Partition, r: PartitionRecord)
    requires p.SizeS > 0
    requires Extent(p) == [NatToString(r.start), NatToString(r.end)]
    ensures ReadBack(r) == Partition(r.number, p.StartS, p.SizeS, r.name, "")
  {
    ExtentNumbers(p, r);
  }

  /** The numbers behind the extent tokens. */
  lemma ExtentNumbers(p: Partition, r: PartitionRecord)
    requires p.SizeS > 0
    requires Extent(p) == [NatToString(r.start), NatToString(r.end)]
    ensures r.start == p.StartS && (r.end - r.start + 1) % UintModulus == p.SizeS
  {
    assert NatToString(r.start) == NatToString(p.StartS);
    assert NatToString(r.end) == NatToString(EndSector(p));
    NatToStringValue(r.start);
    NatToStringValue(p.StartS);
    NatToStringValue(r.end);
    NatToStringValue(EndSector(p));
    EndSectorSpan(p);
  }

  // ---------------------------------------------------------------- whole reports

  /** Lines without line breaks or trailing carriage returns, the first not
      starting and the last not ending with white space, are what the
      parsers see of their joined text. */
  lemma ReportOfLines(lines: seq<string>)
    requires forall k :: 0 <= k < |lines| ==> '\n' !in lines[k] && DropCR(lines[k]) == lines[k]
    requires lines != [] && lines[0] != [] && !IsSpace(lines[0][0])
    requires var last := lines[|lines| - 1]; last != [] && !IsSpace(last[|last| - 1])
    ensures ReportLines(JoinLines(lines)) == lines
  {
    JoinLinesLast(lines);
    assert JoinLines(lines)[0] == lines[0][0];
    ScanJoinedLines(lines);
  }
}
