/** PartedCall: the pending operations for one device, handed to parted in
    one invocation by WriteChanges, and the report readers bound to it. */
module PartedSession {
  import opened Wrappers
  import opened GoStrings
  import opened PartedTypes
  import opened PartedEncoder
  import opened Regexp
  import opened PartedReport

  /** One run of an external program: the program, its arguments, and the
      output and error the run gave back. */
  datatype Invocation = Invocation(cmd: string, args: seq<string>, out: string, err: Option<Error>)

  /** v1.Runner: runs an external program and returns its output and error.
      What the program prints and whether it fails are left open; the ghost
      log records every run, in order, with what it returned. */
  class Runner {
    ghost var log: seq<Invocation>

    constructor ()
      ensures log == []
    {
      log := [];
    }

    method Run(cmd: string, args: seq<string>) returns (out: string, err: Option<Error>)
      modifies this
      ensures err == None || err.value.RunFailed?
      ensures log == old(log) + [Invocation(cmd, args, out, err)]
    {
      out := *;
      var failed: bool := *;
      var reason: string := *;
      err := if failed then Some(RunFailed(reason)) else None;
      log := log + [Invocation(cmd, args, out, err)];
    }
  }

  class PartedCall {
    const dev: string
    const runner: Runner
    var wipe: bool
    var parts: seq<Partition>
    var deletions: seq<Int64>
    var tableLabel: string
    var flags: seq<PartFlag>

    /** The fields optionsBuilder reads. */
    function State(): Pending
      reads this
    {
      Pending(dev, wipe, tableLabel, parts, deletions, flags)
    }

    /** NewPartedCall: nothing pending, no wipe, no label. */
    constructor (dev: string, runner: Runner)
      ensures this.dev == dev && this.runner == runner
      ensures State() == Pending(dev, false, "", [], [], [])
    {
      this.dev := dev;
      this.runner := runner;
      wipe := false;
      parts := [];
      deletions := [];
      tableLabel := "";
      flags := [];
    }

    /** optionsBuilder: the argument list of the pending operations, built
        group by group. */
    method OptionsBuilder() returns (opts: seq<string>)
      ensures opts == Options(State())
    {
      opts := [];
      var kind := tableLabel;
      if !KnownLabel(kind) {
        kind := GPT;
      }
      assert kind == EffectiveLabel(tableLabel);

      if wipe {
        opts := opts + ["mklabel", kind];
      }
      assert opts == MklabelOps(State());

      opts := AppendRmGroups(opts, deletions);
      opts := AppendMkpartGroups(opts, kind, parts);
      opts := AppendSetGroups(opts, flags);
      assert opts == Operations(State());

      if |opts| == 0 {
        return [];
      }
      opts := Preamble(dev) + opts;
    }

    /** WriteChanges: with nothing pending, returns ("", nil) and runs
        nothing; otherwise runs parted once with the argument list, returns
        what that run returned, and drops the wipe, the creations and the
        deletions, whether or not parted failed, keeping the label and the
        flag changes. */
    method WriteChanges() returns (out: string, err: Option<Error>)
      modifies this, runner
      ensures Options(old(State())) == [] ==>
        out == "" && err == None && State() == old(State()) && runner.log == old(runner.log)
      ensures Options(old(State())) != [] ==>
        runner.log == old(runner.log) + [Invocation("parted", Options(old(State())), out, err)]
        && State() == old(State()).(wipe := false, parts := [], deletions := [])
    {
      var opts := OptionsBuilder();
      if |opts| == 0 {
        return "", None;
      }
      out, err := runner.Run("parted", opts);
      wipe := false;
      parts := [];
      deletions := [];
    }

    method SetPartitionTableLabel(tableLabel: string)
      modifies this
      ensures State() == old(State()).(tableLabel := tableLabel)
    {
      this.tableLabel := tableLabel;
    }

    /** CreatePartition queues a creation after the earlier ones. */
    method CreatePartition(p: Partition)
      modifies this
      ensures State() == old(State()).(parts := old(parts) + [p])
    {
      parts := parts + [p];
    }

    /** DeletePartition queues the removal of partition `num`. */
    method DeletePartition(num: Int64)
      modifies this
      ensures State() == old(State()).(deletions := old(deletions) + [num])
    {
      deletions := deletions + [num];
    }

    /** SetPartitionFlag queues setting `flag` of partition `num` on or off. */
    method SetPartitionFlag(num: Int64, flag: string, active: bool)
      modifies this
      ensures State() == old(State()).(flags := old(flags) + [PartFlag(flag, active, num)])
    {
      flags := flags + [PartFlag(flag, active, num)];
    }

    method WipeTable(wipe: bool)
      modifies this
      ensures State() == old(State()).(wipe := wipe)
    {
      this.wipe := wipe;
    }

    /** Print: runs `parted ... unit s print` on the device and returns what
        that run returned; nothing pending changes. */
    method Print() returns (out: string, err: Option<Error>)
      modifies runner
      ensures runner.log == old(runner.log) + [Invocation("parted", Preamble(dev) + ["print"], out, err)]
    {
      assert Preamble(dev) + ["print"] == ["--script", "--machine", "--", dev, "unit", "s", "print"];
      out, err := runner.Run("parted", ["--script", "--machine", "--", dev, "unit", "s", "print"]);
    }

    /** parseHeaderFields: scans the trimmed report line by line and returns
        group `field` of the first line matching the header pattern. */
    method ParseHeaderFields(printOut: string, field: nat) returns (r: string, err: Option<Error>)
      requires field <= 8
      ensures (r, err) == HeaderField(printOut, field)
    {
      var m := ScanFirstMatch(HeaderPattern, ReportLines(printOut));
      if m.None? {
        return "", Some(HeaderNotFound);
      }
      assert |m.value| == 9 by {
        HeaderGroupCount();
        FirstMatchShape(HeaderPattern, ReportLines(printOut));
      }
      return m.value[field], None;
    }

    method GetLastSector(printOut: string) returns (n: Uint, err: Option<Error>)
      ensures (n, err) == LastSector(printOut)
    {
      var field, e := ParseHeaderFields(printOut, 2);
      if e.Some? {
        return 0, Some(LastSectorNotFound);
      }
      n, err := NumResult(ParseUint(field)).0, NumResult(ParseUint(field)).1;
    }

    method GetSectorSize(printOut: string) returns (n: Uint, err: Option<Error>)
      ensures (n, err) == SectorSize(printOut)
    {
      var field, e := ParseHeaderFields(printOut, 4);
      if e.Some? {
        return 0, Some(SectorSizeNotFound);
      }
      n, err := NumResult(ParseUint(field)).0, NumResult(ParseUint(field)).1;
    }

    method GetPartitionTableLabel(printOut: string) returns (r: string, err: Option<Error>)
      ensures (r, err) == TableLabel(printOut)
    {
      r, err := ParseHeaderFields(printOut, 6);
    }

    /** GetPartitions: one partition per line matching the partition
        pattern, appended in line order. */
    method GetPartitions(printOut: string) returns (partitions: seq<Partition>)
      ensures partitions == PartitionsIn(printOut)
    {
      var lines := ReportLines(printOut);
      partitions := [];
      for i := 0 to |lines|
        invariant partitions == Partitions(lines[..i])
      {
        var m := FindStringSubmatch(PartitionPattern, TrimSpace(lines[i]));
        PartitionOfMatch(lines[i], m);
        PartitionsSnoc(lines, i);
        if m.Some? {
          partitions := partitions + [PartitionOf(m.value)];
        }
      }
      assert lines[..|lines|] == lines;
    }
  }

  /** The scan of parseHeaderFields: the submatches of the first trimmed
      line that `p` matches, stopping there. */
  method ScanFirstMatch(p: Pattern, lines: seq<string>) returns (m: Option<seq<string>>)
    ensures m == FirstMatch(p, lines)
  {
    var i := 0;
    while i < |lines|
      invariant i <= |lines|
      invariant FirstMatch(p, lines) == FirstMatch(p, lines[i..])
    {
      m := FindStringSubmatch(p, TrimSpace(lines[i]));
      FirstMatchStep(p, lines, i);
      if m.Some? {
        return;
      }
      i := i + 1;
    }
    assert lines[i..] == [];
    return None;
  }

  /** The rm loop of optionsBuilder: an rm group per queued deletion. */
  method AppendRmGroups(opts: seq<string>, deletions: seq<Int64>) returns (r: seq<string>)
    ensures r == opts + FlatMap(deletions, RmGroup)
  {
    r := opts;
    for i := 0 to |deletions|
      invariant r == opts + FlatMap(deletions[..i], RmGroup)
    {
      FlatMapExtend(opts, deletions, RmGroup, i, r, ["rm", IntToString(deletions[i])]);
      r := r + ["rm", IntToString(deletions[i])];
    }
    assert deletions[..|deletions|] == deletions;
  }

  /** The mkpart loop of optionsBuilder: a mkpart group per queued
      creation, in queue order. */
  method AppendMkpartGroups(opts: seq<string>, kind: string, parts: seq<Partition>) returns (r: seq<string>)
    ensures r == opts + FlatMap(parts, MkpartStep(kind))
  {
    r := opts;
    for i := 0 to |parts|
      invariant r == opts + FlatMap(parts[..i], MkpartStep(kind))
    {
      var group := MkpartArgs(kind, parts[i]);
      assert group == MkpartStep(kind)(parts[i]);
      FlatMapExtend(opts, parts, MkpartStep(kind), i, r, group);
      r := r + group;
    }
    assert parts[..|parts|] == parts;
  }

  /** The set loop of optionsBuilder: a set group per queued flag change. */
  method AppendSetGroups(opts: seq<string>, flags: seq<PartFlag>) returns (r: seq<string>)
    ensures r == opts + FlatMap(flags, SetGroup)
  {
    r := opts;
    for i := 0 to |flags|
      invariant r == opts + FlatMap(flags[..i], SetGroup)
    {
      var flag := flags[i];
      var group := ["set", IntToString(flag.number), flag.flag];
      if flag.active {
        group := group + ["on"];
      } else {
        group := group + ["off"];
      }
      FlatMapExtend(opts, flags, SetGroup, i, r, group);
      r := r + group;
    }
    assert flags[..|flags|] == flags;
  }

  /** The tokens optionsBuilder appends for one queued creation under the
      effective label `kind`. */
  method MkpartArgs(kind: string, part: Partition) returns (group: seq<string>)
    ensures group == MkpartGroup(kind, part)
  {
    var name: string;
    if kind == GPT && part.PLabel != "" {
      name := part.PLabel;
    } else if kind == GPT {
      name := "part" + IntToString(part.Number);
    } else {
      name := "primary";
    }
    assert name == PartName(kind, part);
    group := ["mkpart", name];
    if Contains(part.FileSystem, "fat") || Contains(part.FileSystem, "vfat") {
      assert FsToken(part.FileSystem) == "fat32";
      group := group + ["fat32"];
    } else {
      assert FsToken(part.FileSystem) == part.FileSystem;
      group := group + [part.FileSystem];
    }
    assert group == ["mkpart", PartName(kind, part), FsToken(part.FileSystem)];
    if part.SizeS == 0 {
      group := group + [NatToString(part.StartS), "100%"];
    } else {
      group := group + [NatToString(part.StartS), NatToString((part.StartS + part.SizeS - 1) % UintModulus)];
    }
  }

  /** After a run, only the flag changes are left: the next WriteChanges is
      a no-op exactly when no flag change was ever queued, and otherwise
      sends every earlier flag change again. */
  lemma AfterWrite(st: Pending)
    ensures var rest := st.(wipe := false, parts := [], deletions := []);
      (Options(rest) == [] <==> st.flags == [])
      && (st.flags != [] ==> Options(rest) == Preamble(st.dev) + FlatMap(st.flags, SetGroup))
  {
    var rest := st.(wipe := false, parts := [], deletions := []);
    OptionsEmptyIff(rest);
    assert Operations(rest) == FlatMap(st.flags, SetGroup);
  }
}
