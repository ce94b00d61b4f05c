# onchange — a Dafny model of the scheduler and its front ends

`onchange` watches files and runs a command on each change. A job is the
command process, an optional outpipe process fed from the command's output,
or both. Jobs wait in a FIFO queue. At most `jobs` of them run at once. After
each completion the next job starts, either at once or after `delay`
milliseconds. With `kill`, a new event drops every pending job and sends
`killSignal` to every running one.

The model has seven modules:

- `Wrappers` (`wrappers.dfy`): `Option` and `Result`.
- `Text` (`text.dfy`) models the pure helpers of `src/index.ts`:
  - `quote`, with its inverse;
  - `String.prototype.trim`, with the ECMAScript white-space set;
  - the `outpipe` rewrite, which prefixes a bare `|`/`>` with the echo helper
    command;
  - the exit message.
- `Jobs` (`jobs.dfy`) models one `Job`:
  - starting it, given the pids the operating system hands out;
  - the two exit handlers, and `onexit` firing exactly once;
  - `kill`, as the list of tree-kill requests it issues.
- `Scheduler` (`scheduler.dfy`) models the pending queue, the running set and
  the `dequeue`/`enqueue`/completion transitions. Jobs are numbered from a
  counter, so the numbers record enqueue order. The queue is a sequence of
  numbers with a map to the pending jobs; the running set is a map from
  numbers to jobs. Each `setTimeout(dequeue, delay)`
  a completion arms is counted as one pending timer.
- `Onchange` (`onchange.dfy`) models `onchange(options)`:
  - option normalisation and its `TypeError`;
  - the event state;
  - job construction from templates;
  - the event filter and the initial run;
  - the whole system as a transition system over watcher events, child exits
    and timers.
- `Bin` (`bin.dfy`) models `src/bin.ts`: splitting argv at `--`, the exclude
  list and the exits before `onchange` is called.
- `LegacyCli` (`legacy_cli.dfy`) models `cli.js`:
  - the command/arguments split;
  - merging `--exclude` with an ignore file, with its comment stripping,
    line splitting and `Set` de-duplication;
  - `--filter` splitting;
  - the final command check.

These collaborators enter the model as function-valued parameters, because
their code is not part of this model:

- the template library;
- Node's `path` functions;
- the file system;
- the `ignore` matcher;
- the argument parsers.

Behaviour worth knowing:

- **The initial run happens at construction.** With `initial`, the job for the
  empty event and file is enqueued when `onchange` is called
  (`src/index.ts:251`), not when the watcher becomes ready. The model follows
  the code.
- **A job can hold a slot forever.** If a job has no command and its outpipe
  renders to the empty string, it spawns nothing. It never calls `onexit` and
  stays in the running set (`Jobs.NothingSpawnedNeverCompletes`).
- **Some ignore-file lines survive comment stripping.** `cli.js` strips
  comments with `^#[^\r\n]+\r?\n`. A comment on a last line without a line
  feed is kept as an entry, and so is a line holding only `#`
  (`LegacyCli.UnterminatedCommentKept`, `LegacyCli.StripTerminated`).

## Model

| member | source | states |
|---|---|---|
| `Text.Escape` | src/index.ts:293-295 | every special character of the input gets exactly one backslash: the result is in escaped form and longer by the number of specials |
| `Text.UnescapeEscape` | src/index.ts:293-295 | unescaping the escaped string gives back the input |
| `Text.Quote` | src/index.ts:293-295 | the quoted word starts and ends with `"` and holds the escaped input between them |
| `Text.UnquoteQuote` | src/index.ts:293-295 | reading a quoted word back recovers the original string, so quoting loses nothing |
| `Text.QuoteInjective` | src/index.ts:293-295 | two strings with the same quoted form are equal |
| `Text.EchoCommand` | src/index.ts:10-11 | the echo helper command is two quoted words around one space, which unquote back to the interpreter path and the helper script path; it begins and ends with `"` |
| `Text.TrimSpan` | src/index.ts:276 | `trim` keeps a span whose outside is all white space and which neither starts nor ends with white space |
| `Text.Trim` | src/index.ts:276 | the trimmed string is exactly the characters of the input between the leading and the trailing white space, interior white space included, and has no white space at either end |
| `Text.TrimIdempotent` | src/index.ts:276 | trimming twice equals trimming once |
| `Text.TrimKeepsNonSpace` | src/index.ts:276 | every non-blank character of the input survives trimming, at its shifted position |
| `Text.OutpipeSource` | src/index.ts:275-283 | an outpipe whose first non-blank character is a pipe or `>` becomes the echo command, a space and the trimmed text; any other outpipe is just trimmed |
| `Text.RewrittenOutpipeIsQuoted` | src/index.ts:275-283 | a rewritten outpipe starts with `"`, so it is never treated as a bare redirection again |
| `Text.ExitMessage` | src/index.ts:286-288 | a null code reports the signal (`null` when absent); otherwise the message is the completion prefix followed by a decimal that parses back to the code |
| `Jobs.Create` | src/index.ts:34-38 | a new job keeps its command and outpipe and has spawned nothing |
| `Jobs.Start` | src/index.ts:40-86 | the outpipe is live iff it is a non-empty string, and the command is live iff it has tokens. The command's output goes to the outpipe iff there is one. A command-less outpipe has its stdin ended at once. Children carry the pids handed out |
| `Jobs.OnExit` | src/index.ts:54-81 | the exiting child's slot is cleared and `onexit` is called iff no child is left live. A command exit with a live outpipe ends the outpipe's stdin and changes nothing else about it; an outpipe exit leaves the command slot unchanged |
| `Jobs.Kill` | src/index.ts:88-98 | exactly one request per live child with a truthy pid, all with the given signal, the outpipe before the command |
| `Jobs.KillUnstartedIsSilent` | src/index.ts:88-98 | a job that was never started is never signalled |
| `Jobs.Calls` | src/index.ts:54-81 | over a deliverable sequence of exits, no exit but the last calls `onexit`, and the last calls it exactly when nothing is left live |
| `Jobs.OnexitExactlyOnce` | src/index.ts:54-81 | for every order of deliverable exits, `onexit` is called by the last exit only and only once nothing is live; over the whole sequence it fires at most once, and exactly once when every child has exited |
| `Jobs.BothExitOrders` | src/index.ts:48-81 | with a command and an outpipe, both exit orders are possible and each calls `onexit` only on the second exit |
| `Jobs.NothingSpawnedNeverCompletes` | src/index.ts:48-85 | a job with no command and an empty outpipe spawns nothing, so no exit is ever delivered for it |
| `Scheduler.EmptyInv` | src/index.ts:151-152 | the empty queue and running set satisfy the scheduler invariant |
| `Scheduler.Dequeue` | src/index.ts:192-211 | a job starts iff the queue is non-empty and fewer than `jobs` run. The started job is the front of the queue, joins the running set and is started. Otherwise nothing changes. The invariant is kept |
| `Scheduler.KillsOf` | src/index.ts:231 | every live child with a truthy pid of every running job is sent the kill signal, and nothing else is signalled |
| `Scheduler.ClearPending` | src/index.ts:230 | every pending job is dropped and running jobs are untouched |
| `Scheduler.Push` | src/index.ts:238-244 | the new job gets a fresh id and goes to the back of the queue |
| `Scheduler.Enqueue` | src/index.ts:228-247 | the new job has a fresh id and is stored unstarted or started. Without `kill` it joins the back of the queue and the queue order is kept. With `kill` it is the only pending job or has started, every previously pending job is gone, and exactly the running jobs' children are signalled, never the new job. Pending jobs that stay pending keep their state, and when the new job starts the other running jobs are unchanged. The invariant is kept |
| `Scheduler.Complete` | src/index.ts:206-210 | the job leaves the running set iff its exit handler called `onexit`. With a delay a timer is armed and nothing starts. Without one a job starts iff one was pending; when none starts the job is simply removed and the queue, the pending jobs and the timers are unchanged. The invariant is kept |
| `Scheduler.TimerFires` | src/index.ts:208 | a fired timer performs one deferred `dequeue`: it starts the front job iff one is pending and a slot is free |
| `Scheduler.WorkConserving` | src/index.ts:192-211 | with no delay, a non-empty queue implies all `jobs` slots are taken |
| `Onchange.Normalise` | src/index.ts:131-164 | the options fail with the `TypeError` iff there is no command and no non-empty outpipe. Otherwise `jobs` is at least 1, `delay` at least 0, the kill signal defaults to `SIGTERM`, and the outpipe is rewritten |
| `Onchange.MakeState` | src/index.ts:216-226 | the event state carries the event and file, `changed` equals `file`, and the derived fields come from the path functions |
| `Onchange.MakeJob` | src/index.ts:238-244 | the job's tokens and outpipe are the templates rendered against the state, one for one |
| `Onchange.OnWatcherEvent` | src/index.ts:254-258 | an event is dropped iff the filter is non-empty and lacks its kind. Otherwise a job built from its state is enqueued |
| `Onchange.InitialState` | src/index.ts:251 | the initial run's state has an empty event and file |
| `Onchange.Boot` | src/index.ts:250-251 | with `initial`, exactly one job, from the empty event, is started at construction and no timer is armed; otherwise the scheduler is empty |
| `Onchange.ChangeStep` | src/index.ts:254-258 | a filtered event changes nothing; an admitted one creates exactly one id, keeps the invariant and moves the state on as `Successor` allows |
| `Onchange.ExitStep` | src/index.ts:200-210 | a child exit keeps the invariant and creates no job id; every job running or pending afterwards was there before, and a started job was in the queue before and precedes every job still queued |
| `Onchange.TimerStep` | src/index.ts:208 | a fired timer keeps the invariant, consumes one timer and creates no job id; it can only start a job that was in the queue before and precedes every job still queued |
| `Onchange.Step` | src/index.ts:192-258 | any deliverable input keeps the invariant and an undeliverable one changes nothing. Ids only grow, no job reappears once gone, and a started job was queued or is the new one and precedes every job still queued |
| `Onchange.Run` | src/index.ts:192-258 | every run of inputs keeps the scheduler invariant |
| `Onchange.StartsInEnqueueOrder` | src/index.ts:192-247 | in any run, jobs start in strictly increasing enqueue order, and only jobs pending at the start or created during the run |
| `Onchange.GoneNeverStart` | src/index.ts:228-232 | a job that is neither pending nor running (cleared or completed) never starts later in a run |
| `Onchange.KillSupersedesPending` | src/index.ts:228-247 | with `kill`, an admitted event signals only jobs already running, never the new one, and no job pending before it starts, then or later |
| `Bin.GetArgs` | src/bin.ts:155-159 | as written: `--` inside splits around it; `--` first keeps everything for the watcher; no `--` gives all but the last argument to the watcher and every argument to the command |
| `Bin.GetArgsWithoutDashesAsWritten` | src/bin.ts:155-159 | without `--`, the watch pattern `src` also becomes the first word of the command |
| `Bin.SplitArgs` | src/bin.ts:155-159 | without `--` there is no command; with it, the parts before and after the first `--` reassemble the arguments |
| `Bin.SplitArgsAgrees` | src/bin.ts:155-159 | the corrected split equals `getArgs` whenever `--` appears after the first position |
| `Bin.DashesFirstDiffers` | src/bin.ts:155-159 | with `--` first, `getArgs` hands every argument to the watcher and gives no command, while the corrected split gives no watch arguments and everything after `--` as the command |
| `Bin.GetExcludeFunction` | src/bin.ts:125-139 | an exclude function over the file's text exists iff the path is a regular file, else exit code 1 |
| `Bin.Excludes` | src/bin.ts:130-133 | a path equal to the working directory is never excluded; any other path is excluded iff the matcher ignores its relative form |
| `Bin.GetExclude` | src/bin.ts:115-120 | without an exclude path, the globs or none. With a readable one, the globs in order then exactly one exclude function. With an unreadable one, exit 1 |
| `Bin.Validate` | src/bin.ts:78-93 | the script exits 1 iff there is neither a command nor an outpipe, or the kill signal is not `SIGINT`/`SIGKILL`/absent. Otherwise the options are forwarded unchanged |
| `Bin.EntryAsWritten` | src/bin.ts:65-113 | the script as written agrees with the corrected `Bin.Entry` on every run without an exclude path |
| `Bin.ExcludePathExitsAsWritten` | src/bin.ts:74-76 | as written, a valid exclude file with a working directory that is not a regular file ends the process with exit code 1 |
| `Bin.TwoMatchersAsWritten` | src/bin.ts:65-76 | as written, even when the working directory is a regular file, two exclude functions are installed instead of one |
| `Bin.Entry` | src/bin.ts:65-113 | corrected script: a bad exclude path exits 1 and a missing pattern or `--help` exits 0. With a readable exclude path and patterns, a missing command and outpipe or a rejected kill signal exits 1, and otherwise it launches with exactly the parsed options. A launch has patterns, a command or outpipe, an accepted kill signal, and one exclude function iff an exclude path is given |
| `Bin.ExcludePathHonoured` | src/bin.ts:65-76 | with a readable exclude file, the corrected script launches with the globs followed by one exclude function over that file |
| `Bin.LaunchNeverThrows` | src/bin.ts:78-113 | whatever the script launches passes the constructor's `TypeError` check |
| `Bin.CommandLine` | src/bin.ts:9-10 | with the corrected split, no `--` means no command, so a launch needs an outpipe. With `--`, the command is exactly the words after it |
| `LegacyCli.Dedup` | cli.js:76-80 | each element appears once; the elements are exactly the input's, in order of first occurrence |
| `LegacyCli.Without` | cli.js:78 | the result holds exactly the elements other than the deleted one |
| `LegacyCli.WithoutDedup` | cli.js:76-80 | deleting from the set after building it equals never inserting the element |
| `LegacyCli.CommentLen` | cli.js:74 | a comment match starts with `#`, ends with a line feed and has at least one character in between |
| `LegacyCli.CommentLineMatched` | cli.js:74 | conversely, a line of `#` and at least one more character, without line terminators, is matched together with its `\n` or `\r\n` terminator |
| `LegacyCli.SplitLines` | cli.js:74 | splitting gives at least one piece, and no piece holds a line feed |
| `LegacyCli.SplitTerminated` | cli.js:74 | a file of plain lines, each ended by `\n` or `\r\n` in any mix, splits into its lines without terminators, followed by one empty piece |
| `LegacyCli.SplitLinesStep` | cli.js:74 | a plain line and its `\n` or `\r\n` terminator split off as exactly that line |
| `LegacyCli.StripTerminated` | cli.js:74 | in a file of plain lines with `\n` or `\r\n` terminators in any mix, comment stripping removes exactly the comment lines and their terminators |
| `LegacyCli.UnterminatedCommentKept` | cli.js:74 | a comment on a last line without a line feed is not stripped and becomes an entry |
| `LegacyCli.MergeIgnore` | cli.js:65-84 | a missing or non-regular ignore file leaves the excludes unchanged. Otherwise the result has no duplicates and no empty string, holds exactly the non-empty file entries and excludes, and keeps first-occurrence order |
| `LegacyCli.IgnoreEntriesFirst` | cli.js:76 | every entry from the ignore file precedes every entry only the command line gave |
| `LegacyCli.MergeTerminated` | cli.js:65-84 | for a file of plain lines with `\n` or `\r\n` terminators, the merged list holds exactly its non-empty non-comment lines and the non-empty excludes |
| `LegacyCli.FilterKinds` | cli.js:60 | a bare `--filter` throws, an array is kept as is, an empty, false or absent filter gives none, and a non-empty string gives at least one piece of word characters |
| `LegacyCli.SplitNonWord` | cli.js:60 | splitting on non-word runs gives word pieces, and a string starting with a word character gives a non-empty first piece |
| `LegacyCli.SplitNonWordPieces` | cli.js:60 | only the first and last pieces can be empty, and the pieces hold every word character in order |
| `LegacyCli.SplitJoinWords` | cli.js:60 | event names joined by any non-word separator split back into the same list |
| `LegacyCli.SplitCommand` | cli.js:37-39 | the first word after `--` is the command and the rest are its arguments; no words give no command |
| `LegacyCli.Run` | cli.js:31-93 | no patterns or `--help` exit 0. A bare `--filter` throws. With neither a truthy command nor an outpipe the script exits 1. Otherwise it launches with the patterns, the split command and the merged excludes, whose globs are none for a boolean or absent `--exclude`, one for a string and the list for an array (`LegacyCli.ExcludeGlobs`); an array filter is passed on unchanged, an empty, false or absent filter as none, and a string filter split into words |
| `LegacyCli.NoExcludeKeepsIgnoreFile` | cli.js:46 | `--no-exclude` drops all globs, leaving only the ignore-file entries |

## Left out

- The file watcher: the watched patterns, the ignore list and the default exclude globs pushed into it (`src/index.ts:166-187`), polling, "await write finish", the `ready` and `error` handlers, `onReady`, and the returned `close` function. The model starts from the stream of `(event, file)` pairs.
- Process spawning, stdio streams, `env`, and `cwd` resolution. Spawning is represented by the pids it returns, and exits are inputs. A child's `error` event is not modelled.
- `treeKill` is asynchronous and best-effort. The model records the requests it would receive, not their effect.
- `Scheduler.KillsOf`: running jobs are signalled in `Set` iteration order. The model returns the requests as a set and does not state that order.
- The template library and Node's `path` functions are opaque functions of a `Platform`.
- The `verbose` log lines, including where the exit message is written. `Text.ExitMessage` models the text only.
- The timer length: only whether `delay` is positive matters. Armed timers fire as inputs, in any interleaving with other inputs.
- `Onchange.Normalise`: `jobs` and `delay` are integers. Fractional, `NaN` and infinite JavaScript numbers are not modelled.
- The `arg` and `minimist` parsers: parsed values are inputs. A numeric `--filter` value, which would also make `split` throw, is not modelled.
- The `ignore` matcher's pattern language. `Bin.Excludes` takes it as a predicate.
- `index.js` is an older standalone command-line script: it reads patterns up to `--` from its own argv, watches with `gaze` and uses a single busy flag. It is not part of this model. `index.d.ts` declares typings for a legacy `onchange(matches, command, args, options)` signature, and is not part of this model either. The `LegacyCli.Run` outcome stops at the arguments `cli.js` passes to it.
- Console output and the resolved path printed on a bad exclude path.

## Findings

| source | as written | input that shows it | evidently intended | confidence | as-written member | corrected member |
|---|---|---|---|---|---|---|
| src/bin.ts:74-76 | after `getExclude` has already added the exclude function, the script calls `getExcludeFunction(excludePath, cwd)` again with the arguments swapped, so it checks whether the working directory is a regular file | `--exclude-path .ignore` with `.ignore` a regular file and the working directory a directory: exit code 1 | the exclude list from `getExclude`, with one exclude function over `.ignore` | not executed | `Bin.ExcludePathExitsAsWritten` | `Bin.ExcludePathHonoured` |
| src/bin.ts:155-159 | `if (index)` treats the `-1` of a missing `--` as truthy | arguments `src make`: the watcher gets `src` and the command becomes `src make` | without `--` there is no command, and every argument goes to the watcher. The corrected split also differs when `--` is the first argument: `getArgs` hands every argument, `--` included, to the watcher and gives no command, while `Bin.SplitArgs` gives no watch arguments and the rest as the command | not executed | `Bin.GetArgsWithoutDashesAsWritten` | `Bin.SplitArgs` |
