/** The command-line driver: the affix tests, the output path derived from a
    source path, and the fold over the arguments that builds the list of
    assembly jobs. Printing, log muting and running the jobs are outside
    the model; the mute switches are kept as flags. */
module Driver {
  import opened Base

  const DefaultStandard: string := "a10"

  /** startsWith: str is at least as long as beginning and begins with it. */
  function StartsWith(str: string, beginning: string): (b: bool)
    ensures b <==> beginning <= str
  {
    if |str| >= |beginning| then str[..|beginning|] == beginning else false
  }

  /** endsWith: str is at least as long as ending and ends with it. */
  function EndsWith(str: string, ending: string): (b: bool)
    ensures b <==> exists k :: 0 <= k <= |str| && str[k..] == ending
  {
    if |str| >= |ending| then
      assert str[|str| - |ending|..] == ending ==> exists k :: 0 <= k <= |str| && str[k..] == ending;
      str[|str| - |ending|..] == ending
    else false
  }

  /** Every string ends with what was appended to it. */
  lemma EndsWithAppended(stem: string, ending: string)
    ensures EndsWith(stem + ending, ending)
  {
    assert (stem + ending)[|stem|..] == ending;
  }

  // ----------------------------------------------------------- output path

  /** The index of the last '.' in path, if there is one. */
  function LastDot(path: string): (r: Option<nat>)
    ensures r.Some? ==> r.value < |path| && path[r.value] == '.'
    ensures r.Some? ==> forall j :: r.value < j < |path| ==> path[j] != '.'
    ensures r.None? ==> forall j :: 0 <= j < |path| ==> path[j] != '.'
  {
    if path == [] then None
    else if path[|path| - 1] == '.' then Some(|path| - 1)
    else LastDot(path[..|path| - 1])
  }

  /** How many trailing characters genOutputPath strips: four for ".aml",
      otherwise everything from the last '.', or nothing without one. */
  function ExtensionSize(path: string): (n: nat)
    ensures n <= |path|
  {
    if EndsWith(path, ".aml") then 4
    else match LastDot(path)
      case Some(i) => |path| - i
      case None => 0
  }

  /** genOutputPath: strip the extension and append ".aby"; abort when that
      gives back the source path itself. The stripped part is empty exactly
      when the path holds no '.', and otherwise runs from the last '.' to
      the end; the abort happens exactly for a source already ending in
      ".aby". */
  function GenOutputPath(source: string): (r: Result<string>)
    ensures r.Err? <==> EndsWith(source, ".aby")
    ensures r.Err? ==> r.error == PathsEqual(source)
    ensures r.Ok? ==> EndsWith(r.value, ".aby") && r.value != source
    ensures r.Ok? ==> |r.value| >= 4 && r.value[..|r.value| - 4] <= source
    ensures r.Ok? ==> var ext := source[|r.value| - 4..];
      && (ext == [] <==> forall j :: 0 <= j < |source| ==> source[j] != '.')
      && (ext != [] ==> ext[0] == '.' && forall j :: 0 < j < |ext| ==> ext[j] != '.')
  {
    var out := source[..|source| - ExtensionSize(source)] + ".aby";
    EndsWithAppended(source[..|source| - ExtensionSize(source)], ".aby");
    OutputStem(source);
    if out == source then Err(PathsEqual(source)) else Ok(out)
  }

  /** The stripped part of a path: what lies from the last '.' on, or
      nothing when there is no '.'. A ".aml" path is no exception, since its
      last '.' is four from the end. */
  lemma OutputStem(source: string)
    ensures var n := ExtensionSize(source);
      && (n == 0 <==> forall j :: 0 <= j < |source| ==> source[j] != '.')
      && (n > 0 ==> source[|source| - n] == '.' && forall j :: |source| - n < j < |source| ==> source[j] != '.')
      && (EndsWith(source, ".aby") ==> n == 4)
  {
    var m := |source|;
    if EndsWith(source, ".aml") || EndsWith(source, ".aby") {
      assert source[m - 4..] == ".aml" || source[m - 4..] == ".aby";
      assert source[m - 4] == '.' && source[m - 3] != '.' && source[m - 2] != '.' && source[m - 1] != '.';
      assert LastDot(source) == Some(m - 4) by {
        assert source[..m - 1][..m - 2] == source[..m - 2];
        assert source[..m - 2][..m - 3] == source[..m - 3];
      }
    }
  }

  /** A ".aml" source keeps everything but those four characters. */
  lemma AmlOutput(source: string)
    requires EndsWith(source, ".aml")
    ensures GenOutputPath(source) == Ok(source[..|source| - 4] + ".aby")
  {
    assert source[|source| - 4..] == ".aml";
    assert (source[..|source| - 4] + ".aby")[|source| - 1] == 'y' != source[|source| - 1];
  }

  /** A source without a '.' gets ".aby" appended. */
  lemma DotlessOutput(source: string)
    requires forall j :: 0 <= j < |source| ==> source[j] != '.'
    ensures GenOutputPath(source) == Ok(source + ".aby")
  {
    OutputStem(source);
    assert source[..|source|] == source;
  }

  // -------------------------------------------------------------- arguments

  /** One assembly job: source path, output path and standard. */
  datatype Job = Job(source: string, output: string, standard: string)

  /** What the argument loop keeps: the standard for later sources, the
      output path set by -o for the next source ("" when unset), the two
      mute switches and the jobs so far. */
  datatype Options = Options(standard: string, outputPath: string, muteInfo: bool, muteWarnings: bool, jobs: seq<Job>)

  const InitialOptions := Options(DefaultStandard, "", false, false, [])

  /** An argument that names a source file rather than an option. */
  predicate IsSource(arg: string) {
    !StartsWith(arg, "-")
  }

  /** A standard as the loop can leave it: never empty, never "def". */
  predicate Named(standard: string) {
    standard != "" && standard != "def"
  }

  datatype Parsed = Parsed(options: Options, next: nat)

  /** The output path a source gets: the one -o set, or else the one derived
      from the source. Either way it is not empty. */
  function OutputFor(outputPath: string, source: string): (r: Result<string>)
    ensures r.Ok? ==> r.value != ""
    ensures outputPath != "" ==> r == Ok(outputPath)
    ensures outputPath == "" ==> (r.Err? <==> EndsWith(source, ".aby"))
  {
    if outputPath == "" then GenOutputPath(source) else Ok(outputPath)
  }

  /** Behind a common prefix, two strings are equal iff their tails are. */
  lemma SamePrefix(p: string, s: string, t: string)
    ensures p + s == p + t <==> s == t
  {
    if p + s == p + t {
      assert s == (p + s)[|p|..];
      assert t == (p + t)[|p|..];
    }
  }

  /** A "--" argument: the four display options leave the state as it is
      (what they print is not modelled); any other aborts. */
  function LongOption(arg: string, o: Options): (r: Result<Options>)
    requires StartsWith(arg, "--")
    ensures r.Ok? <==> arg in {"--version", "--help", "--std-support", "--std-default"}
    ensures r.Ok? ==> r.value == o
    ensures r.Err? ==> r.error == InvalidArgument(arg)
  {
    var opt := arg[2..];
    SamePrefix("--", opt, "version");
    SamePrefix("--", opt, "help");
    SamePrefix("--", opt, "std-support");
    SamePrefix("--", opt, "std-default");
    assert arg == "--" + opt;
    assert "--" + "version" == "--version" && "--" + "help" == "--help";
    assert "--" + "std-support" == "--std-support" && "--" + "std-default" == "--std-default";
    if opt == "version" || opt == "help" || opt == "std-support" || opt == "std-default" then Ok(o)
    else Err(InvalidArgument(arg))
  }

  /** -std<standard>: an empty standard aborts and "def" names the default
      one, so the standard kept is never empty and never "def". */
  function StdOption(arg: string, o: Options): (r: Result<Options>)
    requires StartsWith(arg, "-std")
    ensures r.Ok? <==> |arg| > 4
    ensures r.Ok? ==> Named(r.value.standard) && r.value == o.(standard := r.value.standard)
    ensures r.Err? ==> r.error == InvalidStandard(arg)
  {
    var standard := arg[4..];
    if standard == "" then Err(InvalidStandard(arg))
    else Ok(o.(standard := if standard == "def" then DefaultStandard else standard))
  }

  /** A "-" argument that is not a "--" one. -o takes the next argument,
      whatever it looks like, as the output path. */
  function ShortOption(args: seq<string>, i: nat, o: Options): (r: Result<Parsed>)
    requires i < |args| && StartsWith(args[i], "-") && !StartsWith(args[i], "--")
    ensures r.Ok? ==> i < r.value.next <= |args| && r.value.options.jobs == o.jobs
    ensures args[i] == "-o" ==> (r.Ok? <==> i + 1 < |args|)
    ensures args[i] == "-o" && r.Ok? ==> r.value == Parsed(o.(outputPath := args[i + 1]), i + 2)
    ensures r.Ok? && args[i] != "-o" ==> r.value.next == i + 1
    ensures r.Ok? && Named(o.standard) ==> Named(r.value.options.standard)
    ensures r.Ok? && !StartsWith(args[i], "-std") ==> r.value.options.standard == o.standard
    ensures r.Err? ==> r.error != NoArguments
  {
    var opt := args[i][1..];
    assert args[i] == "-o" <==> opt == "o";
    if opt == "q" then Ok(Parsed(o.(muteInfo := true), i + 1))
    else if opt == "qw" then Ok(Parsed(o.(muteWarnings := true), i + 1))
    else if opt == "o" then
      if i + 1 >= |args| then Err(ExpectedArgument) else Ok(Parsed(o.(outputPath := args[i + 1]), i + 2))
    // the source tests "std" after the '-'; for an argument that starts with '-' that is this test
    else if StartsWith(args[i], "-std") then
      var o' :- StdOption(args[i], o);
      Ok(Parsed(o', i + 1))
    else Err(InvalidArgument(args[i]))
  }

  /** A source argument: a job with the output path due to it and the
      current standard; any -o path is used up. */
  function SourceArgument(arg: string, o: Options): (r: Result<Options>)
    ensures r.Ok? <==> o.outputPath != "" || !EndsWith(arg, ".aby")
    ensures r.Err? ==> r.error == PathsEqual(arg)
    ensures r.Ok? ==>
      && r.value.outputPath == ""
      && r.value.standard == o.standard
      && r.value.muteInfo == o.muteInfo && r.value.muteWarnings == o.muteWarnings
      && |r.value.jobs| == |o.jobs| + 1 && r.value.jobs[..|o.jobs|] == o.jobs
      && var job := r.value.jobs[|o.jobs|];
      && job.source == arg && job.standard == o.standard && job.output != ""
      && (o.outputPath != "" ==> job.output == o.outputPath)
      && (o.outputPath == "" ==> EndsWith(job.output, ".aby") && job.output != arg)
  {
    var used :- OutputFor(o.outputPath, arg);
    Ok(o.(outputPath := "", jobs := o.jobs + [Job(arg, used, o.standard)]))
  }

  /** One iteration of main's argument loop, at argument i. */
  function ParseStep(args: seq<string>, i: nat, o: Options): (r: Result<Parsed>)
    requires i < |args|
    ensures r.Ok? ==> i < r.value.next <= |args|
    ensures r.Ok? && !IsSource(args[i]) ==> r.value.options.jobs == o.jobs
    ensures IsSource(args[i]) && r.Ok? ==> OutputFor(o.outputPath, args[i]).Ok? && r.value == Parsed(o.(outputPath := "",
      jobs := o.jobs + [Job(args[i], OutputFor(o.outputPath, args[i]).value, o.standard)]), i + 1)
    ensures IsSource(args[i]) ==> (r.Err? <==> o.outputPath == "" && EndsWith(args[i], ".aby"))
    ensures args[i] == "-o" ==> (r.Ok? <==> i + 1 < |args|)
    ensures args[i] == "-o" && r.Ok? ==> r.value == Parsed(o.(outputPath := args[i + 1]), i + 2)
    ensures r.Ok? && args[i] != "-o" ==> r.value.next == i + 1
    ensures r.Ok? && Named(o.standard) ==> Named(r.value.options.standard)
    ensures r.Ok? && !StartsWith(args[i], "-std") ==> r.value.options.standard == o.standard
    ensures r.Err? ==> r.error != NoArguments
  {
    var arg := args[i];
    if StartsWith(arg, "--") then
      assert arg != "-o" by { assert arg[1] == '-'; }
      var o' :- LongOption(arg, o);
      Ok(Parsed(o', i + 1))
    else if StartsWith(arg, "-") then ShortOption(args, i, o)
    else
      var o' :- SourceArgument(arg, o);
      Ok(Parsed(o', i + 1))
  }

  /** main's argument loop from argument i. */
  function ParseFrom(args: seq<string>, i: nat, o: Options): (r: Result<Options>)
    ensures r.Ok? ==> o.jobs <= r.value.jobs
    ensures r.Ok? ==> forall k :: |o.jobs| <= k < |r.value.jobs| ==> r.value.jobs[k].output != ""
    ensures r.Ok? && Named(o.standard) ==>
      forall k :: |o.jobs| <= k < |r.value.jobs| ==> Named(r.value.jobs[k].standard)
    ensures r.Err? ==> r.error != NoArguments
    decreases |args| - i
  {
    if i >= |args| then Ok(o)
    else
      var p :- ParseStep(args, i, o);
      ParseFrom(args, p.next, p.options)
  }

  /** main: no arguments at all is an error; otherwise the loop runs from
      the first argument with the default standard. */
  function ParseArgs(args: seq<string>): (r: Result<Options>)
    ensures r == Err(NoArguments) <==> args == []
    ensures r.Ok? ==> forall k :: 0 <= k < |r.value.jobs| ==> Named(r.value.jobs[k].standard) && r.value.jobs[k].output != ""
  {
    if args == [] then Err(NoArguments) else ParseFrom(args, 0, InitialOptions)
  }

  // -------------------------------------------------------------- properties

  /** The source arguments from i on, in order: every argument not starting
      with '-', except the one after each -o. */
  function Sources(args: seq<string>, i: nat): seq<string>
    decreases |args| - i
  {
    if i >= |args| then []
    else if args[i] == "-o" then Sources(args, i + 2)
    else if IsSource(args[i]) then [args[i]] + Sources(args, i + 1)
    else Sources(args, i + 1)
  }

  function SourcesOf(jobs: seq<Job>): seq<string> {
    if jobs == [] then [] else SourcesOf(jobs[..|jobs| - 1]) + [jobs[|jobs| - 1].source]
  }

  /** The loop across argument i. */
  lemma ParseFromStep(args: seq<string>, i: nat, o: Options)
    requires i < |args| && ParseStep(args, i, o).Ok?
    ensures ParseFrom(args, i, o) == ParseFrom(args, ParseStep(args, i, o).value.next, ParseStep(args, i, o).value.options)
  {
  }

  /** One job per source argument, in argument order. */
  lemma {:induction false} JobsFollowSources(args: seq<string>, i: nat, o: Options)
    requires ParseFrom(args, i, o).Ok?
    ensures SourcesOf(ParseFrom(args, i, o).value.jobs) == SourcesOf(o.jobs) + Sources(args, i)
    decreases |args| - i
  {
    if i < |args| {
      var p := ParseStep(args, i, o).value;
      ParseFromStep(args, i, o);
      JobsFollowSources(args, p.next, p.options);
      if IsSource(args[i]) {
        var js := p.options.jobs;
        assert js[..|js| - 1] == o.jobs;
        assert args[i] != "-o";
        assert Sources(args, i) == [args[i]] + Sources(args, i + 1);
      } else {
        assert Sources(args, i) == Sources(args, p.next);
      }
    }
  }

  /** -o applies to the next source only: of two sources after "-o path",
      the first is written to path and the second to its derived path. */
  lemma OutputAppliesOnce(args: seq<string>, i: nat, o: Options)
    requires i + 3 < |args| && args[i] == "-o" && args[i + 1] != ""
    requires IsSource(args[i + 2]) && IsSource(args[i + 3]) && !EndsWith(args[i + 3], ".aby")
    ensures GenOutputPath(args[i + 3]).Ok?
    ensures ParseFrom(args, i, o) == ParseFrom(args, i + 4, o.(outputPath := "", jobs := o.jobs +
      [Job(args[i + 2], args[i + 1], o.standard), Job(args[i + 3], GenOutputPath(args[i + 3]).value, o.standard)]))
  {
    var path := args[i + 1];
    var j1, j2 := Job(args[i + 2], path, o.standard), Job(args[i + 3], GenOutputPath(args[i + 3]).value, o.standard);
    var o1 := o.(outputPath := path);
    ParseFromStep(args, i, o);
    assert ParseStep(args, i, o) == Ok(Parsed(o1, i + 2));
    var o2 := o.(outputPath := "", jobs := o.jobs + [j1]);
    ParseFromStep(args, i + 2, o1);
    assert ParseStep(args, i + 2, o1) == Ok(Parsed(o2, i + 3));
    ParseFromStep(args, i + 3, o2);
    assert ParseStep(args, i + 3, o2) == Ok(Parsed(o2.(jobs := o2.jobs + [j2]), i + 4));
    assert o2.jobs + [j2] == o.jobs + [j1, j2];
  }

  /** "-stddef" selects the default standard for the sources after it. */
  lemma StdDefIsDefault(args: seq<string>, i: nat, o: Options)
    requires i < |args| && args[i] == "-stddef"
    ensures ParseStep(args, i, o) == Ok(Parsed(o.(standard := DefaultStandard), i + 1))
  {
    assert args[i][..1] == "-" && args[i][..2][1] == 's';
    assert args[i][1..] == "stddef" && args[i][1..][3..] == "def";
    assert StartsWith("stddef", "std");
  }

  /** Without any -std argument every job uses the default standard. */
  lemma {:induction false} DefaultStandardThroughout(args: seq<string>, i: nat, o: Options)
    requires ParseFrom(args, i, o).Ok? && o.standard == DefaultStandard
    requires forall k :: i <= k < |args| ==> !StartsWith(args[k], "-std")
    ensures forall k :: |o.jobs| <= k < |ParseFrom(args, i, o).value.jobs| ==>
      ParseFrom(args, i, o).value.jobs[k].standard == DefaultStandard
    decreases |args| - i
  {
    if i < |args| {
      var p := ParseStep(args, i, o).value;
      ParseFromStep(args, i, o);
      DefaultStandardThroughout(args, p.next, p.options);
    }
  }
}
