# cont — a Dafny model of the run-and-redraw engine

`cont` runs a command again and again and redraws its output in place on a
terminal, like a small `watch`. The C program (`cont.c`) is mostly process
plumbing. This project models the two pieces of logic inside that plumbing and
proves properties about them in Dafny:

- **The frame renderer** is the parent branch of `loop()`. It reads the child's
  output with `fgetc` until EOF and copies every byte to stdout with `putc`. It
  counts the newlines. Before each newline is written it flushes stdout. Unless
  `-e` was given, it then writes ECMA-48 Erase in Line (`ESC [ K`, section
  8.3.41 of ECMA-48) to stderr. At EOF, again unless `-e` was given, it writes
  Erase in Display (`ESC [ J`, section 8.3.39). It returns the line count.
- **The supervision loop** is the `while` loop of `main`. Before each frame,
  when `n` is nonzero and `-e` was not given, it writes `"\r" ESC "[" n "A"`
  to stderr: a carriage return, then Cursor Up (section 8.3.22 of ECMA-48) over the
  previous frame's `n` lines. Since `n` starts at 0, nothing is written before
  the first frame. It then runs a frame. A
  failed fork exits with `EXIT_FAILURE`. Otherwise the frame is added to
  `total_lines` and `total_execs`. The loop stops when the interrupt flag `cont`
  reads 0 at the loop head, or when the `-n` budget (`ntimes--`) is spent.

The model records what the program does as a trace of stdio calls, in call
order: `Out(b)` for `putc`, `FlushOut` for `fflush(stdout)`, `Err(bytes)` for
`fputs`/`fprintf` to stderr, and `FlushErr` for `fflush(stderr)`. Two
projections, `Stdout` and `Stderr`, recover the bytes each stream received.

The environment is an input:

- Each frame's child output is a `seq<byte>`.
- The loop sees a sequence of `Tick`s, one per evaluation of the loop head.
  Each tick gives the value `cont` reads there, and what `loop()` would meet if
  it were called: a failed fork, or the bytes the parent's `fgetc` returns
  before EOF.
- Once the ticks run out, `cont` reads 0. So every modelled run ends, by
  interrupt, by spent budget, or by a failed fork.

The renderer is `Renderer.Render` (cont.c:63-86). It is the left fold
`Renderer.Consume` of `Renderer.Step`, the calls for one byte read
(cont.c:69-79), followed by `Renderer.Epilogue`, the ED at EOF (cont.c:80-83).
The loop is `Supervisor.Run`, started by `Supervisor.Main` from
`Supervisor.Initial` (cont.c:144-175). `Supervisor.Enter` is a loop head that
passed: the `ntimes--` and the cursor-up `Supervisor.Reposition`
(cont.c:147-153). `Supervisor.Complete` adds a frame's count and calls
(cont.c:155-165). `Supervisor.ExitStatus` is the exit at cont.c:157-160 and
cont.c:175.

Files:

- `terminal.dfy`: bytes, the three control sequences, and printf's `%ld`
  digits with a parser for the round trip.
- `streams.dfy`: the event trace and its stdout/stderr projections.
- `renderer.dfy`: the frame renderer. It is written as a left fold over the
  bytes, plus an imperative mirror of the `fgetc` loop, plus lemmas about where
  EL and ED are placed.
- `supervisor.dfy`: the loop as a recursive state machine, an imperative mirror
  of it, reference descriptions of a run (`Outputs`, `Redraws`, `LastLines`),
  the lemmas that connect the two, and a worked scenario.

## Model

| member | source | states |
|---|---|---|
| Terminal.Decimal | cont.c:151 | the `%ld` digits of a line count are non-empty, all decimal digits, and have no leading zero |
| Terminal.DecimalRoundTrip | cont.c:151 | reading the printed digits back gives the line count that was printed |
| Terminal.DecimalInjective | cont.c:151 | different line counts are printed as different digit strings |
| Terminal.CursorUp | cont.c:151 | the cursor-up string starts with `\r ESC [`, ends with `A`, has only digits between them, and contains no newline |
| Terminal.CursorUpRoundTrip | cont.c:151 | a terminal that parses the cursor-up string moves up exactly the previous frame's line count |
| Renderer.StepStreams | cont.c:70-78 | for one byte read, stdout gets exactly that byte, and stderr gets EL only when the byte is a newline and escapes are on |
| Renderer.ConsumeCount | cont.c:68-71 | after the read loop has consumed any prefix, `lines` is the number of newline bytes in that prefix |
| Renderer.ConsumeStreams | cont.c:69-79 | after any prefix, stdout holds exactly that prefix; stderr holds one EL per newline with escapes on and nothing with escapes off |
| Renderer.Render | cont.c:63-86 | the count a frame returns equals the number of `'\n'` bytes in the child's output (it is a `nat`, so never negative) |
| Renderer.RenderStdout | cont.c:69-79 | the bytes written to stdout are exactly the child's output bytes, in order and unmodified |
| Renderer.RenderStderr | cont.c:73-83 | stderr gets one EL per newline, then one ED, with escapes on; with escapes off the frame makes no stderr call, neither a write nor a flush |
| Renderer.RenderStream | cont.c:67-85 | the byte-at-a-time `fgetc` loop issues the same calls and returns the same count as the functional renderer |
| RendererProperties.RenderEraseLine | cont.c:70-78 | every EL comes right after a flush of stdout and right before a newline is put. With escapes on, every newline put is preceded by flush, EL, flush. With escapes off, it is preceded only by a flush of stdout |
| RendererProperties.RenderEraseLineAtNewline | cont.c:70-78 | when an EL is written, stdout has received exactly a prefix of the child's output, and the next byte of that output is a newline |
| RendererProperties.RenderEraseDisplay | cont.c:80-83 | with escapes on, ED is written exactly once, as the last write of the frame followed by a flush, after every byte was put |
| RendererProperties.RenderNoEscapes | cont.c:73-83 | with `-e` a frame issues only puts and flushes of stdout, with no stderr call at all |
| RendererProperties.RenderFlushesBeforeNewline | cont.c:70-78 | stdout is flushed only right before a newline: every flush of stdout is followed at once by EL, a flush of stderr and the newline with escapes on, and by the newline with escapes off |
| RendererProperties.TrailingBytesUnflushed | cont.c:69-83 | when the output ends in a stretch with no newline, that stretch's puts are the frame's last calls before the epilogue, and no flush of stdout comes with or after them |
| Supervisor.RepositionMeaning | cont.c:149-153 | nothing is written before a frame when `n` is 0 or escapes are off. Otherwise one stderr write, parsed as cursor-up by exactly `n`, then a flush. Nothing goes to stdout |
| SupervisorProperties.RunStops | cont.c:147-166 | from any state, the completed frames are exactly those whose loop heads read `cont` nonzero and whose forks succeeded, within the remaining budget. The next loop head is the one that stops the loop, for the first failing test in the C order |
| SupervisorProperties.RunTotals | cont.c:164-165 | from any state, `total_lines` grows by the newline count of the completed frames' combined output, and `total_execs` grows by their number |
| SupervisorProperties.RunLastLines | cont.c:155 | from any state, `n` ends as the line count of the last completed frame |
| SupervisorProperties.RunTrace | cont.c:149-165 | from any state, the calls issued are each completed frame's calls, each preceded by the cursor-up for the frame before it. After a failed fork comes the cursor-up for the last completed frame, which is nothing when `n` is 0 or `-e` is given |
| SupervisorProperties.LoopStops | cont.c:144-166 | for `main`: the frames run, the `-n k` bound, and the stop reason (interrupt, spent budget, or failed fork) in both directions |
| SupervisorProperties.RepeatExactly | cont.c:147 | with `-n k` and no interrupt or failed fork during the first k frames, the body runs exactly k times and the program exits successfully. With k = 0 nothing is issued |
| SupervisorProperties.RunsUntilCancelled | cont.c:147 | without `-n`, frames continue while `cont` reads nonzero and their forks succeed. The first loop head that reads 0 ends the loop, and no new frame starts |
| SupervisorProperties.LoopTotals | cont.c:144-166 | `total_execs` counts the completed frames. `total_lines` is the newline count of their combined output, and that combined output is exactly what stdout received |
| SupervisorProperties.LoopTrace | cont.c:146-155 | before each frame the cursor moves up by exactly the previous frame's line count. Nothing is issued before the first frame, because `n` starts at 0 |
| SupervisorProperties.ExitStatusOfRun | cont.c:144-175 | `main` exits with EXIT_FAILURE exactly when some loop head that read `cont` nonzero, within the `-n` budget and after only successful forks, meets a failed fork; it exits with EXIT_SUCCESS exactly when there is no such loop head |
| SupervisorProperties.ForkFailureExits | cont.c:155-160 | a failed fork exits with EXIT_FAILURE, adds nothing to the totals, and no frame follows it |
| SupervisorProperties.NoEscapesRun | cont.c:150 | with `-e` the whole run issues only puts and flushes of stdout: no escape sequence and no `\r` |
| Loop.Supervise | cont.c:144-166 | the imperative `while` loop ends with the same stop reason, totals and calls as the recursive model |
| Scenario.TwoRunsOfTwoLines | cont.c:144-166 | `-n 2` on `printf 'a\nb\n'` exits successfully with `total_lines` 4 and `total_execs` 2 |
| Scenario.TwoRunsRedraw | cont.c:149-155 | in that run, the second frame is preceded by exactly `\r ESC [ 2 A` and a flush of stderr |

## Left out

- `pipe`, `fork`, `dup2`, `execvp`, `fdopen` and `wait` (cont.c:42-66, 84) are operating-system process plumbing. Each tick supplies a fork failure, or the bytes the parent's `fgetc` returns before EOF. The ignored result of `pipe` (cont.c:43) is not modelled.
- Descriptor exhaustion. The parent never closes the stream `f` that `fdopen` opens on the pipe's read end (cont.c:66, 84-85), so every frame leaks one descriptor. After enough frames `pipe` fails. Its result is overwritten by `fork` and never checked (cont.c:43-45). `fd` is then left uninitialised, so `fdopen` and `fgetc` no longer read the child's output, and may be handed an invalid stream. The model does not describe such runs: its results about long runs, such as `SupervisorProperties.RepeatExactly` and `SupervisorProperties.LoopTotals`, hold only as long as descriptors remain.
- The exec-failure path in the child (cont.c:57-62) happens in another process. The parent only sees the stream the child wrote, which is usually empty. A tick with the matching output covers it.
- The fork diagnostic `fprintf(stderr, "fork: ERROR ...")` (cont.c:47-50) is not in the trace. Its text depends on `errno` and `strerror`.
- Signal installation and the handler (cont.c:26-29, 141-142) are left out. `cont` is only the value read at each loop head.
- `usleep` and the delay conversion `t * 1.0E6` (cont.c:93, 98, 137-139, 162) are timing and floating point. A completed frame's totals are the same whether they are added before or after the sleep.
- Option parsing (`getopt`, `atoi`, `atof`), `doVersion`, the "About to execute" echo and the verbose totals report (cont.c:31-38, 95-135, 167-174) are text I/O, and so is the "no command specified" exit (cont.c:121-124). The totals they print are the ones the model computes. A negative `-n` argument, which `atoi` and the `size_t` conversion would turn into a huge budget, is not modelled. The budget is a `nat`.
- Stdio buffering is not modelled: the trace records calls in the order they are issued. Stdout is never flushed after the last newline of a frame (see `RendererProperties.TrailingBytesUnflushed`). So no claim is made about when trailing bytes reach the terminal relative to ED or the next cursor-up.
- Integer widths: `lines`, `total_lines` and `total_execs` are `size_t`, and `n` is `ssize_t`. The model uses unbounded naturals. Wrap-around would need more than 2^63 newlines.
- Once `cont` has been read as 0 the loop ends. The model does not need the handler's property that `cont`, once 0, stays 0.
- `Renderer.RenderStream`: its contract says only that it agrees with `Renderer.Render`. The count is stated on `Render` itself, and stdout preservation by `Renderer.RenderStdout`.
