/** optionsBuilder: how the pending operations of a PartedCall become the
    argument list of one parted invocation. */
module PartedEncoder {
  import opened GoStrings
  import opened PartedTypes
  import opened Wrappers

  /** constants.GPT */
  const GPT: string := "gpt"
  const MSDOS: string := "msdos"

  /** regexp.MatchString("msdos|gpt", label): an unanchored search, so it
      accepts any label that merely contains one of the two words. */
  predicate KnownLabel(tableLabel: string)
  {
    Contains(tableLabel, MSDOS) || Contains(tableLabel, GPT)
  }

  /** The table label the operations use: the stored one when it passes the
      check above, otherwise GPT. */
  function EffectiveLabel(tableLabel: string): (r: string)
    ensures KnownLabel(r)
    ensures r == tableLabel || r == GPT
    ensures KnownLabel(tableLabel) <==> r == tableLabel
  {
    assert GPT <= GPT;
    if KnownLabel(tableLabel) then tableLabel else GPT
  }

  /** The fixed start of every argument list: batch mode, machine-readable
      output, the device, sector units. */
  function Preamble(dev: string): seq<string>
  {
    ["--script", "--machine", "--", dev, "unit", "s"]
  }

  /** The concatenation of f(x) over xs, in order. */
  function FlatMap<T>(xs: seq<T>, f: T -> seq<string>): seq<string>
  {
    if xs == [] then [] else FlatMap(xs[..|xs| - 1], f) + f(xs[|xs| - 1])
  }

  function RmGroup(n: Int64): seq<string>
  {
    ["rm", IntToString(n)]
  }

  /** The name a partition is created with under the effective label. */
  function PartName(tableLabel: string, p: Partition): string
  {
    if tableLabel == GPT && p.PLabel != "" then p.PLabel
    else if tableLabel == GPT then "part" + IntToString(p.Number)
    else "primary"
  }

  /** regexp.MatchString("fat|vfat", fs) decides whether to pass fat32. */
  function FsToken(fs: string): string
  {
    if Contains(fs, "fat") || Contains(fs, "vfat") then "fat32" else fs
  }

  /** The last sector of a sized partition: StartS+SizeS-1 in Go's 64-bit
      uint arithmetic. */
  function EndSector(p: Partition): Uint
    requires p.SizeS > 0
  {
    (p.StartS + p.SizeS - 1) % UintModulus
  }

  /** Start and end of a partition; size 0 means up to the end of the disk. */
  function Extent(p: Partition): seq<string>
  {
    if p.SizeS == 0 then [NatToString(p.StartS), "100%"]
    else [NatToString(p.StartS), NatToString(EndSector(p))]
  }

  function MkpartGroup(tableLabel: string, p: Partition): seq<string>
  {
    ["mkpart", PartName(tableLabel, p), FsToken(p.FileSystem)] + Extent(p)
  }

  function MkpartStep(tableLabel: string): Partition -> seq<string>
  {
    p => MkpartGroup(tableLabel, p)
  }

  function SetGroup(f: PartFlag): seq<string>
  {
    ["set", IntToString(f.number), f.flag, if f.active then "on" else "off"]
  }

  function MklabelOps(st: Pending): seq<string>
  {
    if st.wipe then ["mklabel", EffectiveLabel(st.tableLabel)] else []
  }

  /** The operations, before the preamble: mklabel, then every rm, every
      mkpart and every set, each kind in queue order. */
  function Operations(st: Pending): seq<string>
  {
    MklabelOps(st)
    + FlatMap(st.deletions, RmGroup)
    + FlatMap(st.parts, MkpartStep(EffectiveLabel(st.tableLabel)))
    + FlatMap(st.flags, SetGroup)
  }

  /** optionsBuilder: nil (here the empty list) when there is nothing to do,
      otherwise the preamble followed by the operations. */
  function Options(st: Pending): seq<string>
  {
    var ops := Operations(st);
    if ops == [] then [] else Preamble(st.dev) + ops
  }

  // ---------------------------------------------------------------- FlatMap

  lemma {:induction false} FlatMapLength<T>(xs: seq<T>, f: T -> seq<string>, k: nat)
    requires forall x :: |f(x)| == k
    ensures |FlatMap(xs, f)| == k * |xs|
  {
    if xs != [] {
      FlatMapLength(xs[..|xs| - 1], f, k);
      assert k * |xs| == k * (|xs| - 1) + k;
    }
  }

  /** With groups of one size k, the i-th group of the result is f(xs[i]). */
  lemma {:induction false} FlatMapGroup<T>(xs: seq<T>, f: T -> seq<string>, k: nat, i: nat)
    requires forall x :: |f(x)| == k
    requires i < |xs|
    ensures k * i + k <= |FlatMap(xs, f)| && FlatMap(xs, f)[k * i..k * i + k] == f(xs[i])
  {
    var pre, post := FlatMap(xs[..i], f), FlatMap(xs[i + 1..], f);
    FlatMapLength(xs[..i], f, k);
    FlatMapSnoc(xs, f, i);
    FlatMapAppend(xs[..i + 1], xs[i + 1..], f);
    assert xs[..i + 1] + xs[i + 1..] == xs;
    assert FlatMap(xs, f) == pre + f(xs[i]) + post;
    assert (pre + f(xs[i]) + post)[|pre|..|pre| + k] == f(xs[i]);
  }

  /** FlatMap distributes over concatenation. */
  lemma {:induction false} FlatMapAppend<T>(a: seq<T>, b: seq<T>, f: T -> seq<string>)
    ensures FlatMap(a + b, f) == FlatMap(a, f) + FlatMap(b, f)
  {
    if b == [] {
      assert a + b == a;
    } else {
      FlatMapAppend(a, b[..|b| - 1], f);
      assert (a + b)[..|a + b| - 1] == a + b[..|b| - 1];
    }
  }

  /** One more element appends its group. */
  lemma FlatMapSnoc<T>(xs: seq<T>, f: T -> seq<string>, i: nat)
    requires i < |xs|
    ensures FlatMap(xs[..i + 1], f) == FlatMap(xs[..i], f) + f(xs[i])
  {
    assert xs[..i + 1][..i] == xs[..i];
  }

  /** Appending the next element's group to a list that ends with the
      groups of the elements before it. */
  lemma FlatMapExtend<T>(pre: seq<string>, xs: seq<T>, f: T -> seq<string>, i: nat, acc: seq<string>, group: seq<string>)
    requires i < |xs| && acc == pre + FlatMap(xs[..i], f) && group == f(xs[i])
    ensures acc + group == pre + FlatMap(xs[..i + 1], f)
  {
    FlatMapSnoc(xs, f, i);
  }

  // ---------------------------------------------------------------- argument layout

  function WipeLen(st: Pending): nat
  {
    if st.wipe then 2 else 0
  }

  /** The rm groups: two tokens per deletion, the i-th for deletions[i]. */
  lemma RmSection(ds: seq<Int64>, i: nat)
    requires i < |ds|
    ensures |FlatMap(ds, RmGroup)| == 2 * |ds|
    ensures FlatMap(ds, RmGroup)[2 * i..2 * i + 2] == RmGroup(ds[i])
  {
    FlatMapLength(ds, RmGroup, 2);
    FlatMapGroup(ds, RmGroup, 2, i);
  }

  lemma MkpartLength(kind: string, ps: seq<Partition>)
    ensures |FlatMap(ps, MkpartStep(kind))| == 5 * |ps|
  {
    assert forall p :: |MkpartStep(kind)(p)| == 5;
    FlatMapLength(ps, MkpartStep(kind), 5);
  }

  /** The mkpart groups: five tokens per creation, the i-th for ps[i]. */
  lemma MkpartSection(kind: string, ps: seq<Partition>, i: nat)
    requires i < |ps|
    ensures |FlatMap(ps, MkpartStep(kind))| == 5 * |ps|
    ensures FlatMap(ps, MkpartStep(kind))[5 * i..5 * i + 5] == MkpartGroup(kind, ps[i])
  {
    assert forall p :: |MkpartStep(kind)(p)| == 5;
    FlatMapLength(ps, MkpartStep(kind), 5);
    FlatMapGroup(ps, MkpartStep(kind), 5, i);
  }

  /** The set groups: four tokens per flag change, the i-th for fs[i]. */
  lemma SetSection(fs: seq<PartFlag>, i: nat)
    requires i < |fs|
    ensures |FlatMap(fs, SetGroup)| == 4 * |fs|
    ensures FlatMap(fs, SetGroup)[4 * i..4 * i + 4] == SetGroup(fs[i])
  {
    FlatMapLength(fs, SetGroup, 4);
    FlatMapGroup(fs, SetGroup, 4, i);
  }

  lemma {:induction false} OperationsLength(st: Pending)
    ensures |Operations(st)|
      == WipeLen(st) + 2 * |st.deletions| + 5 * |st.parts| + 4 * |st.flags|
  {
    FlatMapLength(st.deletions, RmGroup, 2);
    MkpartLength(EffectiveLabel(st.tableLabel), st.parts);
    FlatMapLength(st.flags, SetGroup, 4);
  }

  /** Nothing pending, and only then, makes the argument list empty: the case
      in which WriteChanges does not run parted. */
  lemma OptionsEmptyIff(st: Pending)
    ensures Options(st) == []
      <==> !st.wipe && st.deletions == [] && st.parts == [] && st.flags == []
  {
    OperationsLength(st);
  }

  /** A non-empty argument list is the six-token preamble, then two tokens for
      a wipe, two per deletion, five per creation and four per flag change. */
  lemma OptionsLength(st: Pending)
    requires Options(st) != []
    ensures |Options(st)|
      == 6 + WipeLen(st) + 2 * |st.deletions| + 5 * |st.parts| + 4 * |st.flags|
    ensures Options(st)[..6] == ["--script", "--machine", "--", st.dev, "unit", "s"]
  {
    OperationsLength(st);
  }

  /** With a wipe pending, the first operation resets the table to the
      effective label: the stored label when it contains "msdos" or "gpt",
      GPT otherwise. */
  lemma OptionsMklabel(st: Pending)
    requires st.wipe
    ensures |Options(st)| >= 8 && Options(st)[6..8] == ["mklabel", EffectiveLabel(st.tableLabel)]
    ensures EffectiveLabel(st.tableLabel)
      == if Contains(st.tableLabel, "msdos") || Contains(st.tableLabel, "gpt") then st.tableLabel else "gpt"
  {
    OperationsLength(st);
    var ops := Operations(st);
    assert ops[..2] == MklabelOps(st);
  }

  /** Where a group g found at offset x of one section of
      `all == pre + (m + d + k + t)` sits in `all`. */
  lemma SectionSlice(all: seq<string>, pre: seq<string>, m: seq<string>, d: seq<string>,
                     k: seq<string>, t: seq<string>, which: nat, x: nat, g: seq<string>, n: nat, at: nat)
    requires all == pre + (m + d + k + t) && |g| == n
    requires which < 3
    requires var sec := if which == 0 then d else if which == 1 then k else t;
      x + |g| <= |sec| && sec[x..x + |g|] == g
    requires at == |pre| + |m| + (if which == 0 then 0 else |d|) + (if which == 2 then |k| else 0) + x
    ensures at + n <= |all| && all[at..at + n] == g
  {
    var sec := if which == 0 then d else if which == 1 then k else t;
    forall j | 0 <= j < |g|
      ensures all[at + j] == g[j]
    {
      assert sec[x + j] == g[j];
    }
  }

  /** A non-empty operation list sits right after the preamble. */
  lemma OptionsSplit(st: Pending)
    requires Operations(st) != []
    ensures Options(st) == Preamble(st.dev)
      + (MklabelOps(st) + FlatMap(st.deletions, RmGroup)
         + FlatMap(st.parts, MkpartStep(EffectiveLabel(st.tableLabel))) + FlatMap(st.flags, SetGroup))
  {
  }

  /** The i-th queued deletion is the i-th rm group, right after mklabel. */
  lemma OptionsRm(st: Pending, i: nat)
    requires i < |st.deletions|
    ensures var at := 6 + WipeLen(st) + 2 * i;
      at + 2 <= |Options(st)| && Options(st)[at..at + 2] == ["rm", IntToString(st.deletions[i])]
  {
    var kind := EffectiveLabel(st.tableLabel);
    var rm, mk, sets := FlatMap(st.deletions, RmGroup), FlatMap(st.parts, MkpartStep(kind)), FlatMap(st.flags, SetGroup);
    RmSection(st.deletions, i);
    OptionsSplit(st);
    assert |MklabelOps(st)| == WipeLen(st);
    SectionSlice(Options(st), Preamble(st.dev), MklabelOps(st), rm, mk, sets, 0, 2 * i, RmGroup(st.deletions[i]), 2,
      6 + WipeLen(st) + 2 * i);
  }

  /** The i-th queued creation is the i-th mkpart group, after every rm. */
  lemma OptionsMkpart(st: Pending, i: nat)
    requires i < |st.parts|
    ensures var at := 6 + WipeLen(st) + 2 * |st.deletions| + 5 * i;
      at + 5 <= |Options(st)|
      && Options(st)[at..at + 5] == MkpartGroup(EffectiveLabel(st.tableLabel), st.parts[i])
  {
    var kind := EffectiveLabel(st.tableLabel);
    var rm, mk, sets := FlatMap(st.deletions, RmGroup), FlatMap(st.parts, MkpartStep(kind)), FlatMap(st.flags, SetGroup);
    FlatMapLength(st.deletions, RmGroup, 2);
    MkpartSection(kind, st.parts, i);
    OptionsSplit(st);
    assert |MklabelOps(st)| == WipeLen(st);
    SectionSlice(Options(st), Preamble(st.dev), MklabelOps(st), rm, mk, sets, 1, 5 * i, MkpartGroup(kind, st.parts[i]), 5,
      6 + WipeLen(st) + 2 * |st.deletions| + 5 * i);
  }

  /** The i-th queued flag change is the i-th set group, at the end. */
  lemma OptionsSet(st: Pending, i: nat)
    requires i < |st.flags|
    ensures var at := 6 + WipeLen(st) + 2 * |st.deletions| + 5 * |st.parts| + 4 * i;
      at + 4 <= |Options(st)|
      && Options(st)[at..at + 4]
         == ["set", IntToString(st.flags[i].number), st.flags[i].flag,
             if st.flags[i].active then "on" else "off"]
  {
    var kind := EffectiveLabel(st.tableLabel);
    var rm, mk, sets := FlatMap(st.deletions, RmGroup), FlatMap(st.parts, MkpartStep(kind)), FlatMap(st.flags, SetGroup);
    FlatMapLength(st.deletions, RmGroup, 2);
    MkpartLength(kind, st.parts);
    SetSection(st.flags, i);
    OptionsSplit(st);
    assert |MklabelOps(st)| == WipeLen(st);
    SectionSlice(Options(st), Preamble(st.dev), MklabelOps(st), rm, mk, sets, 2, 4 * i, SetGroup(st.flags[i]), 4,
      6 + WipeLen(st) + 2 * |st.deletions| + 5 * |st.parts| + 4 * i);
  }

  // ---------------------------------------------------------------- label, name, file system, extent

  /** The file-system token is fat32 exactly when the hint contains "fat"
      (case-sensitively; the "vfat" alternative adds nothing), and the hint
      itself otherwise. */
  lemma FsTokenFat(fs: string)
    ensures FsToken(fs) == "fat32" <==> Contains(fs, "fat")
    ensures !Contains(fs, "fat") ==> FsToken(fs) == fs
  {
    if Contains(fs, "vfat") {
      ContainsInfix(fs, "vfat", 1);
      assert "vfat"[1..] == "fat";
    }
    if fs == "fat32" {
      assert "fat" <= fs;
    }
  }

  /** A text without the first character of `sub` does not contain it. */
  lemma {:induction false} NotContainsFirst(s: string, sub: string)
    requires sub != [] && sub[0] !in s
    ensures !Contains(s, sub)
  {
    if s != [] {
      NotContainsFirst(s[1..], sub);
    }
  }

  /** An upper-case hint is not recognised: "FAT32" and "VFAT" pass through. */
  lemma FsTokenCaseSensitive()
    ensures FsToken("VFAT") == "VFAT" && FsToken("FAT32") == "FAT32"
    ensures FsToken("vfat") == "fat32" && FsToken("fat16") == "fat32"
  {
    assert "fat" <= "fat16";
    assert "vfat" <= "vfat";
    NotContainsFirst("VFAT", "fat");
    NotContainsFirst("VFAT", "vfat");
    NotContainsFirst("FAT32", "fat");
    NotContainsFirst("FAT32", "vfat");
  }

  /** An empty or unrecognised label falls back to GPT, and under GPT an
      unnamed partition is called part<Number>, from its own Number field. */
  lemma UnknownLabelNames(tableLabel: string, p: Partition)
    requires !Contains(tableLabel, "msdos") && !Contains(tableLabel, "gpt")
    ensures EffectiveLabel(tableLabel) == "gpt"
    ensures PartName(EffectiveLabel(tableLabel), p)
      == if p.PLabel != "" then p.PLabel else "part" + IntToString(p.Number)
  {
  }

  /** A label that merely contains "gpt" or "msdos" (say "xgptx", or "msdos"
      itself) is kept verbatim, and then every partition is called "primary",
      whatever its PLabel. */
  lemma OtherLabelNames(tableLabel: string, p: Partition)
    requires Contains(tableLabel, "msdos") || Contains(tableLabel, "gpt")
    requires tableLabel != "gpt"
    ensures EffectiveLabel(tableLabel) == tableLabel
    ensures PartName(EffectiveLabel(tableLabel), p) == "primary"
  {
  }

  /** "xgptx" is such a label. */
  lemma LookalikeLabel()
    ensures EffectiveLabel("xgptx") == "xgptx"
  {
    assert Contains("xgptx"[1..], "gpt") by { assert "gpt" <= "xgptx"[1..]; }
  }

  /** A sized partition ends StartS+SizeS-1 sectors in, in 64-bit uint
      arithmetic: past the end of the uint range the end sector wraps below
      the start, and in every case the parser's end-start+1 gives SizeS
      back. */
  lemma EndSectorSpan(p: Partition)
    requires p.SizeS > 0
    ensures p.StartS + p.SizeS <= UintModulus ==> EndSector(p) == p.StartS + p.SizeS - 1 >= p.StartS
    ensures p.StartS + p.SizeS > UintModulus ==> EndSector(p) == p.StartS + p.SizeS - 1 - UintModulus < p.StartS
    ensures (EndSector(p) - p.StartS + 1) % UintModulus == p.SizeS
  {
  }

  /** The extent tokens of a partition, read back as numbers: the start, then
      either "100%" for a size of 0 or the end sector. */
  lemma ExtentValues(p: Partition)
    ensures |Extent(p)| == 2
    ensures ParseUint(Extent(p)[0]) == (p.StartS, None)
    ensures p.SizeS == 0 ==> Extent(p)[1] == "100%"
    ensures p.SizeS > 0 ==> ParseUint(Extent(p)[1]) == (EndSector(p), None)
  {
    ParseUintOfNatToString(p.StartS);
    if p.SizeS > 0 {
      ParseUintOfNatToString(EndSector(p));
    }
  }

  /** The five tokens of a mkpart group: the name (PLabel, else
      part<Number> under GPT; "primary" under any other label), fat32 for a
      hint containing "fat" and the hint itself otherwise, the start, and
      "100%" for a size of 0 or the end sector. */
  lemma MkpartGroupTokens(kind: string, p: Partition)
    ensures var g := MkpartGroup(kind, p);
      |g| == 5 && g[0] == "mkpart"
      && (kind == GPT && p.PLabel != "" ==> g[1] == p.PLabel)
      && (kind == GPT && p.PLabel == "" ==> g[1] == "part" + IntToString(p.Number))
      && (kind != GPT ==> g[1] == "primary")
      && (g[2] == "fat32" <==> Contains(p.FileSystem, "fat"))
      && (!Contains(p.FileSystem, "fat") ==> g[2] == p.FileSystem)
      && g[3] == NatToString(p.StartS)
      && (p.SizeS == 0 ==> g[4] == "100%")
      && (p.SizeS > 0 ==> g[4] == NatToString((p.StartS + p.SizeS - 1) % UintModulus))
  {
    FsTokenFat(p.FileSystem);
  }

  /** A whole-disk vfat request {start 2048, size 0} under GPT becomes
      `mkpart part1 fat32 2048 100%`. */
  lemma WholeDiskFatGroup()
    ensures MkpartGroup(GPT, Partition(1, 2048, 0, "", "vfat"))
      == ["mkpart", "part1", "fat32", "2048", "100%"]
  {
    assert "vfat" <= "vfat";
    assert FsToken("vfat") == "fat32";
    assert IntToString(1) == "1";
    assert PartName(GPT, Partition(1, 2048, 0, "", "vfat")) == "part1";
    assert NatToString(2048) == "2048" by {
      assert NatToString(2) == "2";
      assert NatToString(20) == "20";
      assert NatToString(204) == "204";
    }
  }
}
