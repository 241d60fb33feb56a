# A verified model of the shell's command-line dispatcher

The shell hands each tokenized command line to `process_arglist(count, arglist)`
(`myshell.c`). `arglist` holds `count` token pointers followed by a NULL sentinel.
The dispatcher works on fixed token positions. It overwrites some slots of that
array with NULL in place, then calls one or two of the four execution strategies
(`backgroundProcess`, `pipeProcess`, `outputRedirection`, `regularProcess`). Each
strategy receives pointers into the same array, and each pointer is an `argv`:
the tokens from that slot up to the first NULL.

This project models that dispatcher as a pure function on an immutable array:

- `args.dfy` (module `Args`): the array is a `seq<Option<string>>`. `View` is an
  argv seen through a pointer. `Segment` is the tokens of a run of present
  slots.
- `pipe_scan.dfy` (module `PipeScan`): the `|` scan. `LastPipe` gives its
  result. `ScanPipe` is the ascending loop as written.
- `strategies.dfy` (module `Strategies`): each strategy call becomes an
  `Invocation` record carrying the argv views it receives. Each `Run…` function
  is one branch: it applies that branch's overwrite, then records the call.
- `dispatcher.dfy` (module `Dispatcher`): `Classify` runs the three tests on
  the untouched array. `Dispatch` applies the two independent branches in source
  order. It returns the final array, the calls in order and the status. The
  lemmas relate every call and every overwritten slot back to the original
  tokens. `ProcessArglist` is the in-place, C-shaped version, proved equal to
  `Dispatch`.

The model follows the code as written, including these behaviours:

- The pipe scan keeps the **last** `|`.
- The redirection test compares the second-to-last token with the literal
  `"<"` (myshell.c:371), although the comments at myshell.c:231, 368 and 388
  speak of `>`. It runs only when `count > 2`.
- Background-or-pipeline and redirection-or-regular are two separate
  decisions. Both are taken before any slot is overwritten. As a result, a
  background or pipeline line also reaches `regularProcess`, or reaches
  `outputRedirection`, on the truncated array.
- The redirection branch NULLs slot `count - 3`. The `commandBeforeFile` view
  starts at that slot, so it is always empty. The full command is cut at
  `count - 3`, or earlier at a pipe slot that was NULLed before.
- The file name is read after the earlier overwrite. It is therefore NULL when
  the last token was `&` or the last `|`. On those lines `outputRedirection`
  calls `open` on a NULL name, which fails, and the shell exits at
  myshell.c:269-270 instead of returning.

Preconditions follow what the code needs. `count >= 1`, because slot
`count - 1` is read unconditionally. The first `count` slots must be non-NULL,
because every one of them is passed to `strcmp`.

## Model

| member | source | states |
|---|---|---|
| Args.View | myshell.c:129-131 | the argv a callee receives through a pointer into the array: the tokens from that slot, each present, stopping exactly at the first NULL (or the array's end) |
| Args.ViewUpTo | myshell.c:140 | a view equals the run of original tokens from its start up to the first NULL slot |
| Args.ViewAfterNull | myshell.c:377 | after NULLing slot k of a well-formed array, the view from any slot at or before k is exactly the original tokens up to k |
| PipeScan.LastPipe | myshell.c:349-366 | the scan result is -1 or a slot holding the pipe marker, and no slot after it (below `count`) holds the pipe marker: the last pipe marker |
| PipeScan.NoPipeIff | myshell.c:349-366 | the scan yields -1 exactly when no token holds the pipe marker |
| PipeScan.ScanPipe | myshell.c:359-366 | the ascending overwrite-on-match loop ends with the last pipe index, or -1 |
| Strategies.RunBackground | myshell.c:374-379 | only slot `count - 1` becomes NULL; `backgroundProcess` receives every token before it |
| Strategies.PipeArgs | myshell.c:138-140 | with the pipe slot NULL, the first command is the tokens from slot 0 up to the first NULL (at or before the pipe slot), and the second is the tokens from one past the pipe slot up to the next NULL |
| Strategies.RunPipe | myshell.c:381-386 | only the pipe slot becomes NULL; the first command is the tokens before it and the second the tokens after it up to the sentinel |
| Strategies.RunRedirect | myshell.c:388-395 | only slot `count - 3` becomes NULL; `commandBeforeFile` is empty; the file name is slot `count - 1` as left by the first branch; the full command is the tokens from slot 0 up to the first NULL, which lies at or before `count - 3` |
| Dispatcher.Classify | myshell.c:356-372 | the three tests on the untouched array: `&` last, the last pipe marker (or -1 iff none), `"<"` second-to-last with more than two tokens |
| Dispatcher.FirstStage | myshell.c:374-386 | at most one call; the array changes only at the `&` slot, or else at the last pipe slot; a call is made iff the line ends in `&` or contains the pipe marker; on an `&` line it is `backgroundProcess` on the tokens before the `&`, otherwise `pipeProcess` on the tokens before and after the last pipe marker |
| Dispatcher.FirstStageView | myshell.c:374-400 | after the first branch, the view from slot 0 is the tokens before the `&`, or before the last pipe marker, or all tokens |
| Dispatcher.Dispatch | myshell.c:347-404 | the array keeps its length and sentinel, the status is 1, one or two calls are made, the last is redirection or regular, and a first call of two is background or pipeline |
| Dispatcher.BackgroundIff | myshell.c:356-379 | background runs iff the last token is `&`; then that slot is NULL and `backgroundProcess` receives the tokens before it |
| Dispatcher.PipelineIff | myshell.c:359-386 | the pipeline runs iff the last token is not `&` and some token is the pipe marker; the last pipe-marker slot is NULL; the commands are the tokens before and after it |
| Dispatcher.RedirectIff | myshell.c:368-395 | redirection runs iff `count > 2` and the second-to-last original token is `"<"` |
| Dispatcher.RedirectFullCommand | myshell.c:391-394 | the full command handed to `outputRedirection` is the original tokens up to the redirect cut |
| Dispatcher.RedirectArguments | myshell.c:388-395 | in the redirection branch slot `count - 3` is NULL, the command before the file is empty, the full command is cut at `count - 3` or an earlier NULLed pipe slot, and the file name is NULL iff the last token was `&` or the pipe marker |
| Dispatcher.RegularIff | myshell.c:388-401 | `regularProcess` runs iff redirection does not; it receives the tokens before the `&`, or before the last pipe marker, or all tokens |
| Dispatcher.CallShape | myshell.c:374-401 | exactly one of redirection and regular runs; background and pipeline never both run; two calls are made iff one of those two ran |
| Dispatcher.OnlyNamedSlotsChange | myshell.c:374-395 | the length is kept; a token slot ends NULL iff it is the `&` slot, the last pipe slot (without `&`), or slot `count - 3` under redirection; every other slot is unchanged |
| Dispatcher.ProcessArglist | myshell.c:347-404 | the in-place, C-shaped procedure produces the same array, calls and status as `Dispatch` |
| Dispatcher.EchoInBackground | myshell.c:374-401 | `echo hi &` runs `echo hi` in the background and then regularly |
| Dispatcher.ListIntoWordCount | myshell.c:381-401 | the line `ls`, pipe marker, `wc -l` runs the pipeline `ls` / `wc -l`, then `ls` regularly |
| Dispatcher.RedirectCutsCommand | myshell.c:388-395 | `ls -l < out` hands `outputRedirection` the full command `ls`, an empty command before the file, and the file `out` |
| Dispatcher.BackgroundThenRedirect | myshell.c:369-395 | `x < &` runs `x <` in the background, then redirection with an empty command and a NULL file name (on which the shell then exits at `open`) |
| Dispatcher.NullFileNameLines | myshell.c:264-270 | `outputRedirection` receives a NULL file name, so its `open` fails and the shell exits, exactly on redirected lines (`"<"` second-to-last, more than two tokens) whose last token is `&` or the pipe marker |

## Left out

- Process creation, program invocation and waiting (`fork`, `execvp`, `waitpid`)
  are not modelled. They are operating-system effects. Each strategy is reduced to
  the argv views it receives.
- Pipe and descriptor wiring (`pipe`, `dup2`, `open`, `close`) is not modelled,
  and neither are the file's creation flags and permission bits (`0640`, no
  truncation). These are operating-system effects with no value-level result here.
- The retry loops around `dup2` on `EINTR` (myshell.c:170, 206, 291) are not
  modelled, because they depend on how a system call is interrupted.
- `signalHandler` and `prepare` (myshell.c:44-112) are not modelled. They only
  install process-wide signal dispositions.
- Concurrency between the shell and its children is not modelled. Background jobs
  that are never waited for are part of that.
- The fatal paths inside the strategies are not modelled as outcomes. A failing
  `fork`, `pipe` or `open` exits the shell before `process_arglist` returns. These
  failures depend on the environment, except for the one below.
- Dispatcher.Dispatch: its `status == 1` holds only for lines that return. The
  shell always exits at the redirection's `open` when `RedirectFile(a, count) ==
  None`, because the name passed to `open` is NULL. `Dispatcher.NullFileNameLines`
  characterises those lines. `Dispatch` still records the calls made up to that
  point.
- `perror` message texts and child exit codes are not modelled.
- The strategies' own return values are not modelled, because the dispatcher
  ignores them.
- `finalize` is not modelled; it only returns 0.
- Strategies.RunRegular has no row. Its contract says only that the array is
  untouched and one regular call is made. `Dispatcher.RegularIff` characterises
  the argv that call receives.
- Tokens are compared as whole strings. `strcmp` on C strings agrees with this
  because tokens contain no NUL character.
