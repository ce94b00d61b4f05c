/** The command-line front end `src/bin.ts`: splitting argv at `--`,
    assembling the exclude list, and the checks that end the process before
    `onchange` is called.

    Argument parsing by the `arg` library, `fs` and the `ignore` matcher are
    not part of this model: the parsed flags are an input, the file system is
    a pair of functions, and the matcher is an opaque predicate over the
    ignore-file text and a relative path. */
module Bin {
  import opened Wrappers
  import Onchange

  // ------------------------------------------------------------------
  // getArgs
  // ------------------------------------------------------------------

  /** `xs.indexOf(x)`: the first position of `x`, or -1. */
  function IndexOf(xs: seq<string>, x: string): (i: int)
    ensures -1 <= i < |xs|
    ensures i >= 0 ==> xs[i] == x && forall k :: 0 <= k < i ==> xs[k] != x
    ensures i == -1 ==> x !in xs
    decreases |xs|
  {
    if |xs| == 0 then -1
    else if xs[0] == x then 0
    else
      var j := IndexOf(xs[1..], x);
      if j == -1 then -1 else j + 1
  }

  /** Where `Array.prototype.slice` puts a bound: negative bounds count from
      the end, and every bound is clamped to the array. */
  function SliceBound(len: nat, i: int): (r: nat)
    ensures r <= len
  {
    if i < 0 then (if len + i > 0 then len + i else 0)
    else if i < len then i else len
  }

  /** `xs.slice(start, end)`. */
  function Slice<T>(xs: seq<T>, start: int, end: int): seq<T> {
    var lo := SliceBound(|xs|, start);
    var hi := SliceBound(|xs|, end);
    if lo < hi then xs[lo..hi] else []
  }

  /** `getArgs(args)`: `[args.slice(0, index), args.slice(index + 1)]` when
      the index of `--` is truthy, else `[args, []]`. Three cases result:
      `--` inside splits around it; `--` first keeps everything as watcher
      arguments; no `--` at all (index -1, truthy) yields every argument but
      the last as watcher arguments and every argument as the command. */
  function GetArgs(args: seq<string>): (r: (seq<string>, seq<string>))
    ensures "--" in args && args[0] != "--" ==> r.0 + ["--"] + r.1 == args && "--" !in r.0
    ensures |args| > 0 && args[0] == "--" ==> r == (args, [])
    ensures "--" !in args ==> r.1 == args && r.0 == (if |args| == 0 then [] else args[..|args| - 1])
  {
    var index := IndexOf(args, "--");
    if index != 0 then
      (Slice(args, 0, index), Slice(args, index + 1, |args|))
    else
      (args, [])
  }

  /** Without `--`, the index is -1, which is truthy: the last argument is
      dropped from the watcher's arguments and every argument, watch
      patterns included, becomes the command. */
  lemma GetArgsWithoutDashesAsWritten()
    ensures GetArgs(["src", "make"]) == (["src"], ["src", "make"])
  {
    assert IndexOf(["src", "make"], "--") == -1 by {
      assert ["src", "make"][1..] == ["make"];
      assert ["make"][1..] == [];
    }
    assert Slice(["src", "make"], 0, -1) == ["src", "make"][0..1] == ["src"];
    assert Slice(["src", "make"], 0, 2) == ["src", "make"][0..2] == ["src", "make"];
  }

  /** The split the comment above the call describes: the arguments before
      the first `--` belong to onchange, the rest is the command, and with no
      `--` there is no command. */
  function SplitArgs(args: seq<string>): (r: (seq<string>, seq<string>))
    ensures "--" !in args ==> r == (args, [])
    ensures "--" in args ==> r.0 + ["--"] + r.1 == args && "--" !in r.0
  {
    var index := IndexOf(args, "--");
    if index == -1 then (args, [])
    else
      assert args == args[..index] + ["--"] + args[index + 1..];
      (args[..index], args[index + 1..])
  }

  /** The corrected split agrees with `getArgs` whenever `--` is present
      past the first position. */
  lemma SplitArgsAgrees(args: seq<string>)
    requires "--" in args && args[0] != "--"
    ensures SplitArgs(args) == GetArgs(args)
  {
    var a := SplitArgs(args);
    var g := GetArgs(args);
    var i := IndexOf(args, "--");
    assert |a.0| == i == |g.0| by {
      assert forall k :: 0 <= k < i ==> args[k] != "--";
      assert (a.0 + ["--"] + a.1)[|a.0|] == "--";
      assert (g.0 + ["--"] + g.1)[|g.0|] == "--";
    }
    assert a.0 == args[..i] == g.0;
    assert a.1 == args[i + 1..] == g.1;
  }

  /** With `--` first, `getArgs` watches every argument, `--` included, and
      runs nothing, while the corrected split runs everything after `--`. */
  lemma DashesFirstDiffers(args: seq<string>)
    requires |args| > 0 && args[0] == "--"
    ensures GetArgs(args) == (args, [])
    ensures SplitArgs(args) == ([], args[1..])
  {
    var a := SplitArgs(args);
    assert (a.0 + ["--"] + a.1)[0] == "--";
    assert |a.0| == 0;
    assert a.1 == (a.0 + ["--"] + a.1)[1..];
  }

  // ------------------------------------------------------------------
  // Exclusions
  // ------------------------------------------------------------------

  /** The file system calls bin.ts makes: `statSync(p).isFile()` (false when
      `stat` throws) and `readFileSync(p, "utf8")`. */
  datatype Files = Files(isFile: string -> bool, read: string -> string)

  /** The closure `getExcludeFunction` returns: the directory it resolves
      paths against and the ignore-file text loaded into the matcher. */
  datatype ExcludeFn = ExcludeFn(cwd: string, rules: string)

  /** One entry of the `exclude` option: a glob or an exclude function. */
  datatype Exclude = Glob(pattern: string) | Matcher(fn: ExcludeFn)

  /** A string option is truthy: present and not empty. */
  predicate Truthy(o: Option<string>) {
    o.Some? && o.value != ""
  }

  /** `getExcludeFunction(cwd, excludePath)`: a matcher over the file's
      text, or exit code 1 when the path is not a regular file. */
  function GetExcludeFunction(cwd: string, excludePath: string, fs: Files): (r: Result<ExcludeFn, nat>)
    ensures r.Ok? <==> fs.isFile(excludePath)
    ensures r.Ok? ==> r.value.cwd == cwd && r.value.rules == fs.read(excludePath)
    ensures r.Err? ==> r.error == 1
  {
    if fs.isFile(excludePath) then Ok(ExcludeFn(cwd, fs.read(excludePath))) else Err(1)
  }

  /** The returned closure: the path relative to `cwd` is never excluded
      when empty, and otherwise excluded exactly when the matcher ignores it. */
  function Excludes(fn: ExcludeFn, path: string, relative: (string, string) -> string,
                    ignores: (string, string) -> bool): (b: bool)
    ensures relative(fn.cwd, path) == "" ==> !b
    ensures relative(fn.cwd, path) != "" ==> (b <==> ignores(fn.rules, relative(fn.cwd, path)))
  {
    var rel := relative(fn.cwd, path);
    if rel != "" then ignores(fn.rules, rel) else false
  }

  function Globs(xs: seq<string>): (r: seq<Exclude>)
    ensures |r| == |xs| && forall i :: 0 <= i < |xs| ==> r[i] == Glob(xs[i])
  {
    seq(|xs|, i requires 0 <= i < |xs| => Glob(xs[i]))
  }

  /** Number of exclude functions in a list. */
  function CountMatchers(es: seq<Exclude>): nat
    decreases |es|
  {
    if |es| == 0 then 0 else (if es[0].Matcher? then 1 else 0) + CountMatchers(es[1..])
  }

  lemma {:induction false} CountMatchersAppend(a: seq<Exclude>, b: seq<Exclude>)
    ensures CountMatchers(a + b) == CountMatchers(a) + CountMatchers(b)
    decreases |a|
  {
    if |a| == 0 {
      assert a + b == b;
    } else {
      assert (a + b)[0] == a[0];
      assert (a + b)[1..] == a[1..] + b;
      CountMatchersAppend(a[1..], b);
    }
  }

  lemma {:induction false} GlobsHaveNoMatcher(xs: seq<string>)
    ensures CountMatchers(Globs(xs)) == 0
    decreases |xs|
  {
    if |xs| > 0 {
      assert Globs(xs)[1..] == Globs(xs[1..]);
      GlobsHaveNoMatcher(xs[1..]);
    }
  }

  /** `getExclude(cwd, exclude, excludePath)`: without an exclude path the
      given globs (or none); with one, the globs in order followed by exactly
      one exclude function, or exit code 1 when the path is not a file. */
  function GetExclude(cwd: string, exclude: Option<seq<string>>, excludePath: Option<string>, fs: Files)
    : (r: Result<seq<Exclude>, nat>)
    ensures !Truthy(excludePath) ==> r == Ok(Globs(exclude.GetOr([])))
    ensures Truthy(excludePath) && !fs.isFile(excludePath.value) ==> r == Err(1)
    ensures Truthy(excludePath) && fs.isFile(excludePath.value) ==>
      && r.Ok?
      && |r.value| == |exclude.GetOr([])| + 1
      && (forall i :: 0 <= i < |exclude.GetOr([])| ==> r.value[i] == Glob(exclude.GetOr([])[i]))
      && r.value[|r.value| - 1] == Matcher(ExcludeFn(cwd, fs.read(excludePath.value)))
      && CountMatchers(r.value) == 1
  {
    if !Truthy(excludePath) then Ok(Globs(exclude.GetOr([])))
    else match GetExcludeFunction(cwd, excludePath.value, fs)
      case Err(code) => Err(code)
      case Ok(fn) =>
        var globs := Globs(exclude.GetOr([]));
        CountMatchersAppend(globs, [Matcher(fn)]);
        GlobsHaveNoMatcher(exclude.GetOr([]));
        Ok(globs + [Matcher(fn)])
  }

  // ------------------------------------------------------------------
  // The top-level script
  // ------------------------------------------------------------------

  /** The flags `arg` parsed from the arguments before `--`. Flags that are
      only forwarded to the watcher (`--add`, `--poll`, ...) are left out. */
  datatype Flags = Flags(
    matches: seq<string>,
    help: bool,
    cwd: Option<string>,
    exclude: Option<seq<string>>,
    excludePath: Option<string>,
    noExclude: bool,
    outpipe: Option<string>,
    killSignal: Option<string>,
    delay: Option<int>,
    jobs: Option<int>,
    kill: Option<bool>,
    filter: Option<seq<string>>,
    initial: Option<bool>)

  /** How the script ends: calling `onchange` with these options, or
      `process.exit(code)`. */
  datatype Outcome = Launch(options: Onchange.Options, exclude: seq<Exclude>, defaultExclude: bool) | Quit(code: nat)

  /** The accepted `--kill-signal` values. */
  predicate ValidKillSignal(k: Option<string>) {
    k == None || k == Some("SIGINT") || k == Some("SIGKILL")
  }

  /** The checks after the exclude list is built: a command or an outpipe
      must be given, and the kill signal must be accepted. */
  function Validate(f: Flags, command: seq<string>, exclude: seq<Exclude>): (r: Outcome)
    ensures r.Quit? <==> (|command| == 0 && !Truthy(f.outpipe)) || !ValidKillSignal(f.killSignal)
    ensures r.Quit? ==> r.code == 1
    ensures r.Launch? ==> r.exclude == exclude && r.defaultExclude == !f.noExclude
    ensures r.Launch? ==> r.options == Onchange.Options(Some(command), f.outpipe, f.delay, f.jobs, f.kill,
                                                      f.killSignal, f.filter, f.initial)
  {
    if |command| == 0 && !Truthy(f.outpipe) then Quit(1)
    else if !ValidKillSignal(f.killSignal) then Quit(1)
    else Launch(Onchange.Options(Some(command), f.outpipe, f.delay, f.jobs, f.kill, f.killSignal, f.filter, f.initial),
                exclude, !f.noExclude)
  }

  /** The script as written: after `getExclude`, when an exclude path is
      given it calls `getExcludeFunction(excludePath, cwd)` a second time,
      with the two arguments in swapped positions. */
  function EntryAsWritten(f: Flags, command: seq<string>, processCwd: string, fs: Files): (r: Outcome)
    ensures !Truthy(f.excludePath) ==> r == Entry(f, command, processCwd, fs)
  {
    var cwd := f.cwd.GetOr(processCwd);
    match GetExclude(cwd, f.exclude, f.excludePath, fs)
    case Err(code) => Quit(code)
    case Ok(ex) =>
      if |f.matches| == 0 || f.help then Quit(0)
      else if !Truthy(f.excludePath) then Validate(f, command, ex)
      else match GetExcludeFunction(f.excludePath.value, cwd, fs)
        case Err(code) => Quit(code)
        case Ok(fn) => Validate(f, command, ex + [Matcher(fn)])
  }

  /** With the arguments swapped, the second call checks whether the working
      directory is a regular file. It never is when it is a directory, so
      every run with a valid `--exclude-path` exits with code 1. */
  lemma ExcludePathExitsAsWritten(f: Flags, command: seq<string>, processCwd: string, fs: Files)
    requires |f.matches| > 0 && !f.help
    requires Truthy(f.excludePath) && fs.isFile(f.excludePath.value)
    requires !fs.isFile(f.cwd.GetOr(processCwd))
    ensures EntryAsWritten(f, command, processCwd, fs) == Quit(1)
  {
  }

  /** Even when the working directory is a file, the list as written ends
      with two exclude functions instead of one. */
  lemma TwoMatchersAsWritten(f: Flags, command: seq<string>, processCwd: string, fs: Files)
    requires |f.matches| > 0 && !f.help
    requires Truthy(f.excludePath) && fs.isFile(f.excludePath.value)
    requires fs.isFile(f.cwd.GetOr(processCwd))
    requires |command| > 0 && ValidKillSignal(f.killSignal)
    ensures EntryAsWritten(f, command, processCwd, fs).Launch?
    ensures CountMatchers(EntryAsWritten(f, command, processCwd, fs).exclude) == 2
  {
    var cwd := f.cwd.GetOr(processCwd);
    var ex := GetExclude(cwd, f.exclude, f.excludePath, fs).value;
    var fn := GetExcludeFunction(f.excludePath.value, cwd, fs).value;
    CountMatchersAppend(ex, [Matcher(fn)]);
  }

  /** No exclude path is given, or it names a regular file. */
  predicate ExcludeReadable(f: Flags, fs: Files) {
    !Truthy(f.excludePath) || fs.isFile(f.excludePath.value)
  }

  /** The script with the exclude list built once, by `getExclude`: exit 1
      for a bad exclude path; the usage text (exit 0) without watch patterns
      or with `--help`; then `Validate`. */

  function Entry(f: Flags, command: seq<string>, processCwd: string, fs: Files): (r: Outcome)
    ensures Truthy(f.excludePath) && !fs.isFile(f.excludePath.value) ==> r == Quit(1)
    ensures ExcludeReadable(f, fs) && (|f.matches| == 0 || f.help) ==> r == Quit(0)
    ensures r.Launch? ==> |f.matches| > 0 && !f.help && ValidKillSignal(f.killSignal)
    ensures r.Launch? ==> (|command| > 0 || Truthy(f.outpipe))
    ensures r.Launch? ==> CountMatchers(r.exclude) == (if Truthy(f.excludePath) then 1 else 0)
    // Past the exclude path and the usage check, the command line launches
    // exactly when `Validate` accepts it, and exits with code 1 otherwise.
    ensures (&& ExcludeReadable(f, fs) && |f.matches| > 0 && !f.help
             && ((|command| == 0 && !Truthy(f.outpipe)) || !ValidKillSignal(f.killSignal)))
      ==> r == Quit(1)
    ensures (&& ExcludeReadable(f, fs) && |f.matches| > 0 && !f.help
             && (|command| > 0 || Truthy(f.outpipe)) && ValidKillSignal(f.killSignal))
      ==>
      && r.Launch?
      && r.options == Onchange.Options(Some(command), f.outpipe, f.delay, f.jobs, f.kill, f.killSignal, f.filter, f.initial)
      && r.defaultExclude == !f.noExclude
    ensures r.Launch? && !Truthy(f.excludePath) ==> r.exclude == Globs(f.exclude.GetOr([]))
  {
    var cwd := f.cwd.GetOr(processCwd);
    match GetExclude(cwd, f.exclude, f.excludePath, fs)
    case Err(code) => Quit(code)
    case Ok(ex) =>
      GlobsHaveNoMatcher(f.exclude.GetOr([]));
      if |f.matches| == 0 || f.help then Quit(0) else Validate(f, command, ex)
  }

  /** With a readable exclude file the corrected script launches with the
      globs followed by exactly one exclude function over that file. */
  lemma ExcludePathHonoured(f: Flags, command: seq<string>, processCwd: string, fs: Files)
    requires |f.matches| > 0 && !f.help
    requires Truthy(f.excludePath) && fs.isFile(f.excludePath.value)
    requires |command| > 0 && ValidKillSignal(f.killSignal)
    ensures Entry(f, command, processCwd, fs).Launch?
    ensures Entry(f, command, processCwd, fs).exclude ==
      Globs(f.exclude.GetOr([])) + [Matcher(ExcludeFn(f.cwd.GetOr(processCwd), fs.read(f.excludePath.value)))]
  {
    var ex := Entry(f, command, processCwd, fs).exclude;
    var want := Globs(f.exclude.GetOr([])) + [Matcher(ExcludeFn(f.cwd.GetOr(processCwd), fs.read(f.excludePath.value)))];
    assert |ex| == |want|;
    assert forall i :: 0 <= i < |ex| ==> ex[i] == want[i];
  }

  /** Whatever the script launches passes the constructor's own check, so
      `onchange` never throws its `TypeError` when started from the CLI. */
  lemma LaunchNeverThrows(f: Flags, command: seq<string>, processCwd: string, fs: Files,
                          execPath: string, echoPath: string)
    requires Entry(f, command, processCwd, fs).Launch?
    ensures Onchange.Normalise(Entry(f, command, processCwd, fs).options, execPath, echoPath).Ok?
  {
  }

  /** The corrected script from the raw arguments: `parse` stands for the
      `arg` library. Without `--` nothing is run as a command, so a launch
      needs an outpipe; with it, the command is exactly the words after the
      first `--`. */
  function CommandLine(args: seq<string>, parse: seq<string> -> Flags, processCwd: string, fs: Files): (r: Outcome)
    ensures "--" !in args && r.Launch? ==> r.options.command == Some([]) && Truthy(parse(args).outpipe)
    ensures "--" in args && r.Launch? ==>
      r.options.command.Some? && SplitArgs(args).0 + ["--"] + r.options.command.value == args
  {
    var (own, command) := SplitArgs(args);
    Entry(parse(own), command, processCwd, fs)
  }
}
