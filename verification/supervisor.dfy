/** The supervision loop: the `while` loop at the end of `main` in cont.c. Before
    each frame it moves the cursor back up over the previous frame, runs one
    frame, stops with EXIT_FAILURE when the fork failed, and otherwise adds the
    frame to the totals. It stops when the interrupt flag `cont` reads 0 at the
    loop head or when the `-n` budget is spent.

    Processes, the pipe and the delay are abstracted away: each evaluation of the
    loop head is a `Tick` that says what `cont` reads there and what `loop()`
    would see if it were called (a failed fork, or the bytes its `fgetc` reads). */
module Supervisor {
  import opened Terminal
  import opened Streams
  import opened Renderer

  /** `-n k` given (FLAG_NTIMES with `ntimes == k`), or not given. */
  datatype Budget = Unbounded | Times(k: nat)

  /** The two options the loop reads: escapes are on unless `-e` (FLAG_NOESCAPES) was given. */
  datatype Options = Options(escapes: bool, budget: Budget)

  /** What one call of `loop()` meets: `fork` fails, or `fork` succeeds and
      `output` is the sequence of bytes the parent's `fgetc` returns before EOF. */
  datatype Child = ForkFailed | Forked(output: seq<byte>)

  /** One evaluation of the loop head: the value of `cont`, and the child of the frame that would follow. */
  datatype Tick = Tick(cont: bool, child: Child)

  /** Why the loop ended. */
  datatype Stop = Cancelled | BudgetSpent | ForkError

  /** The loop's variables: `n` (previous frame's line count), `total_lines`,
      `total_execs`, the remaining `ntimes`, and the calls issued so far. */
  datatype State = State(n: nat, totalLines: nat, totalExecs: nat, ntimes: nat, trace: seq<Event>)

  datatype Outcome = Outcome(stop: Stop, state: State)

  const ExitSuccess: int := 0
  const ExitFailure: int := 1

  /** The status the program exits with once the loop is over. */
  function ExitStatus(o: Outcome): int
  {
    if o.stop == ForkError then ExitFailure else ExitSuccess
  }

  /** The calls before a frame (`fprintf(stderr, "\r\033[%ldA", n)` and a flush of
      stderr), issued only when `n` is nonzero and escapes are on. */
  function Reposition(n: nat, escapes: bool): seq<Event>
  {
    if n != 0 && escapes then [Err(CursorUp(n)), FlushErr] else []
  }

  /** The cursor-up before a frame moves the cursor to column 0 and up exactly `n`
      lines; nothing is issued when `n` is 0 or escapes are off, and nothing ever
      goes to stdout. */
  lemma RepositionMeaning(n: nat, escapes: bool)
    ensures Reposition(n, escapes) == [] <==> n == 0 || !escapes
    ensures var t := Reposition(n, escapes);
      t != [] ==> |t| == 2 && t[0].Err? && ParseCursorUp(t[0].s) == CursorUpBy(n) && t[1] == FlushErr
    ensures Stdout(Reposition(n, escapes)) == []
    ensures Stderr(Reposition(n, escapes)) == if n != 0 && escapes then CursorUp(n) else []
  {
    if n != 0 && escapes {
      CursorUpRoundTrip(n);
      Pair(Err(CursorUp(n)), FlushErr);
    }
  }

  /** The variables just before the loop: `n = 0`, both totals 0, `ntimes` as given by `-n`. */
  function Initial(opts: Options): State
  {
    State(0, 0, 0, if opts.budget.Times? then opts.budget.k else 0, [])
  }

  /** The variables once a loop head has passed: `ntimes--` when `-n` was given,
      and the cursor-up over the previous frame issued. */
  function Enter(opts: Options, st: State): State
    requires !(opts.budget.Times? && st.ntimes == 0)
  {
    var ntimes := if opts.budget.Times? then st.ntimes - 1 else st.ntimes;
    st.(ntimes := ntimes, trace := st.trace + Reposition(st.n, opts.escapes))
  }

  /** The variables after a frame that rendered `output`: `n` is its line count,
      the totals grow by it, and its calls are appended. */
  function Complete(opts: Options, st: State, output: seq<byte>): State
  {
    var f := Render(output, opts.escapes);
    State(f.lines, st.totalLines + f.lines, st.totalExecs + 1, st.ntimes, st.trace + f.trace)
  }

  /** The loop from state `st` over the remaining loop-head evaluations. Once the
      ticks run out, `cont` reads 0: every finite run ends with an interrupt, a
      spent budget or a failed fork. */
  function Run(opts: Options, ticks: seq<Tick>, st: State): Outcome
    decreases |ticks|
  {
    if |ticks| == 0 || !ticks[0].cont then Outcome(Cancelled, st)
    else if opts.budget.Times? && st.ntimes == 0 then Outcome(BudgetSpent, st)
    else
      match ticks[0].child
      case ForkFailed => Outcome(ForkError, Enter(opts, st))
      case Forked(output) => Run(opts, ticks[1..], Complete(opts, Enter(opts, st), output))
  }

  /** The whole loop of `main`. */
  function Main(opts: Options, ticks: seq<Tick>): Outcome
  {
    Run(opts, ticks, Initial(opts))
  }

  // ---------------------------------------------------------------------------
  // Reference descriptions of a run, independent of the loop's variables.

  /** The first `e` loop heads read `cont` nonzero and their forks succeeded. */
  predicate Completed(ticks: seq<Tick>, e: nat)
  {
    e <= |ticks| && forall i :: 0 <= i < e ==> ticks[i].cont && ticks[i].child.Forked?
  }

  /** The child output of the first `e` frames, back to back. */
  function Outputs(ticks: seq<Tick>, e: nat): seq<byte>
    requires Completed(ticks, e)
    decreases e
  {
    if e == 0 then [] else ticks[0].child.output + Outputs(ticks[1..], e - 1)
  }

  /** The calls of the first `e` frames, each preceded by the cursor-up over the
      frame before it (`prev` lines before the first one). */
  function Redraws(escapes: bool, prev: nat, ticks: seq<Tick>, e: nat): seq<Event>
    requires Completed(ticks, e)
    decreases e
  {
    if e == 0 then []
    else
      var f := Render(ticks[0].child.output, escapes);
      Reposition(prev, escapes) + f.trace + Redraws(escapes, f.lines, ticks[1..], e - 1)
  }

  /** The line count of the last of the first `e` frames (`prev` when `e` is 0):
      the value of `n` after them. */
  function LastLines(escapes: bool, prev: nat, ticks: seq<Tick>, e: nat): nat
    requires Completed(ticks, e)
    decreases e
  {
    if e == 0 then prev
    else LastLines(escapes, Render(ticks[0].child.output, escapes).lines, ticks[1..], e - 1)
  }
}

module SupervisorProperties {
  import opened Terminal
  import opened Streams
  import opened Renderer
  import opened RendererProperties
  import opened Supervisor

  lemma Splice(x: seq<Event>, a: seq<Event>, b: seq<Event>, c: seq<Event>, d: seq<Event>, e: seq<Event>, bcd: seq<Event>)
    requires x == a + b + c + d + e && bcd == b + c + d
    ensures x == a + bcd + e
  {
  }

  lemma CompletedTail(ticks: seq<Tick>, e: nat)
    requires 0 < e && Completed(ticks, e)
    ensures Completed(ticks[1..], e - 1)
  {
    assert forall i :: 0 <= i < e - 1 ==> ticks[1..][i] == ticks[i + 1];
  }

  lemma CompletedCons(ticks: seq<Tick>, e: nat)
    requires 0 < |ticks| && ticks[0].cont && ticks[0].child.Forked? && Completed(ticks[1..], e)
    ensures Completed(ticks, e + 1)
  {
    assert forall i :: 1 <= i < e + 1 ==> ticks[i] == ticks[1..][i - 1];
  }

  /** The state after one completed frame from `st`. */
  function After(opts: Options, ticks: seq<Tick>, st: State): State
    requires 0 < |ticks| && ticks[0].child.Forked?
    requires !(opts.budget.Times? && st.ntimes == 0)
  {
    Complete(opts, Enter(opts, st), ticks[0].child.output)
  }

  /** One completed frame, unfolded: the state after it, and the rest of the run from there. */
  lemma RunFrame(opts: Options, ticks: seq<Tick>, st: State)
    requires 0 < |ticks| && ticks[0].cont && ticks[0].child.Forked?
    requires !(opts.budget.Times? && st.ntimes == 0)
    ensures Run(opts, ticks, st) == Run(opts, ticks[1..], After(opts, ticks, st))
  {
  }

  /** Why and when the loop stops, from any state: the frames it completed are
      exactly those whose loop head read `cont` nonzero and whose fork succeeded,
      never more than the remaining budget; and the loop head after them is the
      one that stopped it, for the first reason in the order the C code tests them. */
  lemma {:induction false} RunStops(opts: Options, ticks: seq<Tick>, st: State)
    ensures StopsFrom(opts, ticks, st, Run(opts, ticks, st))
    decreases |ticks|
  {
    if |ticks| == 0 || !ticks[0].cont || (opts.budget.Times? && st.ntimes == 0) || ticks[0].child.ForkFailed? {
    } else {
      var st' := After(opts, ticks, st);
      RunFrame(opts, ticks, st);
      RunStops(opts, ticks[1..], st');
      AfterBudget(opts, ticks, st);
      StopsCombine(opts, ticks, st, st', Run(opts, ticks[1..], st'));
    }
  }

  /** The frames a run from `st` completes, ending in `o`, and why it stops: the
      completed frames are loop heads that read `cont` nonzero and forked, within
      the remaining budget, and the stop reason is the first failing test at the
      next loop head. */
  predicate StopsFrom(opts: Options, ticks: seq<Tick>, st: State, o: Outcome)
  {
    && st.totalExecs <= o.state.totalExecs
    && var e := o.state.totalExecs - st.totalExecs;
    && Completed(ticks, e)
    && (opts.budget.Times? ==> e <= st.ntimes)
    && (o.stop == Cancelled <==> e == |ticks| || !ticks[e].cont)
    && (o.stop == BudgetSpent <==> e < |ticks| && ticks[e].cont && opts.budget.Times? && e == st.ntimes)
    && (o.stop == ForkError <==>
          e < |ticks| && ticks[e].cont && (opts.budget.Times? ==> e < st.ntimes) && ticks[e].child.ForkFailed?)
  }

  /** A completed frame counts one execution and spends one unit of the budget. */
  lemma AfterBudget(opts: Options, ticks: seq<Tick>, st: State)
    requires 0 < |ticks| && ticks[0].child.Forked?
    requires !(opts.budget.Times? && st.ntimes == 0)
    ensures After(opts, ticks, st).totalExecs == st.totalExecs + 1
    ensures opts.budget.Times? ==> After(opts, ticks, st).ntimes == st.ntimes - 1
  {
  }

  /** Prepending one completed frame, which moved the variables from `st` to
      `st'`, to a run from `st'` that ended in `o`. */
  lemma StopsCombine(opts: Options, ticks: seq<Tick>, st: State, st': State, o: Outcome)
    requires 0 < |ticks| && ticks[0].cont && ticks[0].child.Forked?
    requires !(opts.budget.Times? && st.ntimes == 0)
    requires st'.totalExecs == st.totalExecs + 1
    requires opts.budget.Times? ==> st'.ntimes == st.ntimes - 1
    requires StopsFrom(opts, ticks[1..], st', o)
    ensures StopsFrom(opts, ticks, st, o)
  {
    var e' := o.state.totalExecs - st'.totalExecs;
    CompletedCons(ticks, e');
    assert e' < |ticks[1..]| ==> ticks[1..][e'] == ticks[e' + 1];
  }

  /** The totals a run from `st` ends with, in state `o`: `total_lines` grew by the
      number of newline bytes in the completed frames' output, `total_execs` by
      their number. */
  predicate TotalsFrom(ticks: seq<Tick>, st: State, o: State)
  {
    && st.totalExecs <= o.totalExecs
    && Completed(ticks, o.totalExecs - st.totalExecs)
    && o.totalLines == st.totalLines + multiset(Outputs(ticks, o.totalExecs - st.totalExecs))[Newline]
  }

  lemma TotalsStep(opts: Options, ticks: seq<Tick>, st: State)
    requires 0 < |ticks| && ticks[0].cont && ticks[0].child.Forked?
    requires !(opts.budget.Times? && st.ntimes == 0)
    requires TotalsFrom(ticks[1..], After(opts, ticks, st), Run(opts, ticks[1..], After(opts, ticks, st)).state)
    ensures TotalsFrom(ticks, st, Run(opts, ticks, st).state)
  {
    var st' := After(opts, ticks, st);
    RunFrame(opts, ticks, st);
    AfterCounts(opts, ticks, st);
    TotalsCombine(ticks, st, st', Run(opts, ticks[1..], st').state);
  }

  /** One completed frame counts one execution and its output's newlines. */
  lemma AfterCounts(opts: Options, ticks: seq<Tick>, st: State)
    requires 0 < |ticks| && ticks[0].child.Forked?
    requires !(opts.budget.Times? && st.ntimes == 0)
    ensures var st' := After(opts, ticks, st);
      && st'.n == multiset(ticks[0].child.output)[Newline]
      && st'.totalExecs == st.totalExecs + 1
      && st'.totalLines == st.totalLines + st'.n
  {
  }

  /** Prepending one completed frame, which moved the totals from `st` to `st'`,
      to a run from `st'` that ended in `o`. */
  lemma TotalsCombine(ticks: seq<Tick>, st: State, st': State, o: State)
    requires 0 < |ticks| && ticks[0].cont && ticks[0].child.Forked?
    requires st'.n == multiset(ticks[0].child.output)[Newline]
    requires st'.totalExecs == st.totalExecs + 1 && st'.totalLines == st.totalLines + st'.n
    requires TotalsFrom(ticks[1..], st', o)
    ensures TotalsFrom(ticks, st, o)
  {
    var e' := o.totalExecs - st'.totalExecs;
    CompletedCons(ticks, e');
    var out, rest := ticks[0].child.output, Outputs(ticks[1..], e');
    assert Outputs(ticks, e' + 1) == out + rest;
    NewlinesConcat(out, rest);
  }

  lemma NewlinesConcat(a: seq<byte>, b: seq<byte>)
    ensures multiset(a + b)[Newline] == multiset(a)[Newline] + multiset(b)[Newline]
  {
    assert multiset(a + b) == multiset(a) + multiset(b);
  }

  /** A run that completes no frame leaves the totals alone. */
  lemma TotalsStop(opts: Options, ticks: seq<Tick>, st: State)
    requires |ticks| == 0 || !ticks[0].cont || (opts.budget.Times? && st.ntimes == 0) || ticks[0].child.ForkFailed?
    ensures TotalsFrom(ticks, st, Run(opts, ticks, st).state)
  {
    assert Run(opts, ticks, st).state.totalExecs == st.totalExecs;
    assert Run(opts, ticks, st).state.totalLines == st.totalLines;
    assert Outputs(ticks, 0) == [];
  }

  /** The totals, from any state: `total_lines` grows by the number of newline
      bytes in the output of the completed frames, `total_execs` by their number. */
  lemma {:induction false} RunTotals(opts: Options, ticks: seq<Tick>, st: State)
    ensures TotalsFrom(ticks, st, Run(opts, ticks, st).state)
    decreases |ticks|
  {
    if |ticks| == 0 || !ticks[0].cont || (opts.budget.Times? && st.ntimes == 0) || ticks[0].child.ForkFailed? {
      TotalsStop(opts, ticks, st);
    } else {
      RunTotals(opts, ticks[1..], After(opts, ticks, st));
      TotalsStep(opts, ticks, st);
    }
  }

  /** The value of `n` a run from `st` ends with, in state `o`: the last completed frame's count. */
  predicate LastLinesFrom(escapes: bool, ticks: seq<Tick>, st: State, o: State)
  {
    && st.totalExecs <= o.totalExecs
    && Completed(ticks, o.totalExecs - st.totalExecs)
    && o.n == LastLines(escapes, st.n, ticks, o.totalExecs - st.totalExecs)
  }

  /** Prepending one completed frame, which moved the state from `st` to `st'`,
      to a run from `st'` that ended in `o`. */
  lemma LastLinesCombine(escapes: bool, ticks: seq<Tick>, st: State, st': State, o: State)
    requires 0 < |ticks| && ticks[0].cont && ticks[0].child.Forked?
    requires st'.n == Render(ticks[0].child.output, escapes).lines
    requires st'.totalExecs == st.totalExecs + 1
    requires LastLinesFrom(escapes, ticks[1..], st', o)
    ensures LastLinesFrom(escapes, ticks, st, o)
  {
    var e' := o.totalExecs - st'.totalExecs;
    CompletedCons(ticks, e');
    assert LastLines(escapes, st.n, ticks, e' + 1) == LastLines(escapes, st'.n, ticks[1..], e');
  }

  /** The value of `n` at the end, from any state: the last completed frame's count. */
  lemma {:induction false} RunLastLines(opts: Options, ticks: seq<Tick>, st: State)
    ensures LastLinesFrom(opts.escapes, ticks, st, Run(opts, ticks, st).state)
    decreases |ticks|
  {
    if |ticks| == 0 || !ticks[0].cont || (opts.budget.Times? && st.ntimes == 0) || ticks[0].child.ForkFailed? {
      assert Run(opts, ticks, st).state.totalExecs == st.totalExecs;
      assert Run(opts, ticks, st).state.n == st.n;
    } else {
      var st' := After(opts, ticks, st);
      RunLastLines(opts, ticks[1..], st');
      RunFrame(opts, ticks, st);
      LastLinesCombine(opts.escapes, ticks, st, st', Run(opts, ticks[1..], st').state);
    }
  }

  /** The calls a run from `st` issues: the completed frames' calls, each preceded
      by the cursor-up over the frame before it, and one more cursor-up after a
      failed fork. */
  predicate TraceAfter(opts: Options, ticks: seq<Tick>, st: State)
  {
    var o := Run(opts, ticks, st);
    && st.totalExecs <= o.state.totalExecs
    && Completed(ticks, o.state.totalExecs - st.totalExecs)
    && o.state.trace == st.trace + Redraws(opts.escapes, st.n, ticks, o.state.totalExecs - st.totalExecs)
         + (if o.stop == ForkError then Reposition(o.state.n, opts.escapes) else [])
  }

  lemma TraceStep(opts: Options, ticks: seq<Tick>, st: State)
    requires 0 < |ticks| && ticks[0].cont && ticks[0].child.Forked?
    requires !(opts.budget.Times? && st.ntimes == 0)
    requires TraceAfter(opts, ticks[1..], After(opts, ticks, st))
    ensures TraceAfter(opts, ticks, st)
  {
    var f := Render(ticks[0].child.output, opts.escapes);
    var st' := After(opts, ticks, st);
    RunFrame(opts, ticks, st);
    var o := Run(opts, ticks[1..], st');
    var e' := o.state.totalExecs - st'.totalExecs;
    CompletedCons(ticks, e');
    var rest := Redraws(opts.escapes, f.lines, ticks[1..], e');
    assert Redraws(opts.escapes, st.n, ticks, e' + 1) == Reposition(st.n, opts.escapes) + f.trace + rest;
    assert o.state.totalExecs - st.totalExecs == e' + 1;
    var tail := if o.stop == ForkError then Reposition(o.state.n, opts.escapes) else [];
    Splice(o.state.trace, st.trace, Reposition(st.n, opts.escapes), f.trace, rest, tail,
           Redraws(opts.escapes, st.n, ticks, e' + 1));
  }

  /** A run that completes no frame issues nothing, or only the cursor-up before a failed fork. */
  lemma TraceStop(opts: Options, ticks: seq<Tick>, st: State)
    requires |ticks| == 0 || !ticks[0].cont || (opts.budget.Times? && st.ntimes == 0) || ticks[0].child.ForkFailed?
    ensures TraceAfter(opts, ticks, st)
  {
    assert Redraws(opts.escapes, st.n, ticks, 0) == [];
    if |ticks| == 0 || !ticks[0].cont || (opts.budget.Times? && st.ntimes == 0) {
      assert Run(opts, ticks, st).state == st;
      assert Run(opts, ticks, st).stop != ForkError;
    } else {
      var o := Run(opts, ticks, st);
      assert o.stop == ForkError;
      assert o.state.totalExecs == st.totalExecs && o.state.n == st.n;
      assert o.state.trace == st.trace + Reposition(o.state.n, opts.escapes);
    }
  }

  /** The calls issued, from any state: the completed frames' calls, each preceded
      by the cursor-up over the frame before it; after a failed fork, one more
      cursor-up and nothing else. */
  lemma {:induction false} RunTrace(opts: Options, ticks: seq<Tick>, st: State)
    ensures TraceAfter(opts, ticks, st)
    decreases |ticks|
  {
    if |ticks| == 0 || !ticks[0].cont || (opts.budget.Times? && st.ntimes == 0) || ticks[0].child.ForkFailed? {
      TraceStop(opts, ticks, st);
    } else {
      RunTrace(opts, ticks[1..], After(opts, ticks, st));
      TraceStep(opts, ticks, st);
    }
  }

  // ---------------------------------------------------------------------------
  // The whole loop of `main`, from its initial variables.

  /** How many frames `main` completes and why it stops: the completed frames are
      a prefix of the loop heads that all read `cont` nonzero and all forked; `-n k`
      bounds them by k; and the stop reason is the first test that fails at the
      next loop head, in the order `cont`, then `ntimes--`, then `fork`. */
  lemma LoopStops(opts: Options, ticks: seq<Tick>)
    ensures var o := Main(opts, ticks);
      var e := o.state.totalExecs;
      && Completed(ticks, e)
      && (opts.budget.Times? ==> e <= opts.budget.k)
      && (o.stop == Cancelled <==> e == |ticks| || !ticks[e].cont)
      && (o.stop == BudgetSpent <==> e < |ticks| && ticks[e].cont && opts.budget == Times(e))
      && (o.stop == ForkError <==>
            e < |ticks| && ticks[e].cont && (opts.budget.Times? ==> e < opts.budget.k) && ticks[e].child.ForkFailed?)
  {
    RunStops(opts, ticks, Initial(opts));
  }

  /** `-n k` with no interrupt and no failed fork during the first k frames: the
      loop body runs exactly k times and the program exits successfully; with
      k = 0 it issues nothing at all. */
  lemma RepeatExactly(opts: Options, ticks: seq<Tick>)
    requires opts.budget.Times? && Completed(ticks, opts.budget.k)
    ensures var o := Main(opts, ticks);
      && o.state.totalExecs == opts.budget.k
      && ExitStatus(o) == ExitSuccess
      && (o.stop == BudgetSpent <==> opts.budget.k < |ticks| && ticks[opts.budget.k].cont)
      && (opts.budget.k == 0 ==> o.state.trace == [])
  {
    LoopStops(opts, ticks);
    RunTrace(opts, ticks, Initial(opts));
  }

  /** Without `-n`, frames keep coming while `cont` reads nonzero and their forks
      succeed; the first loop head that reads 0 ends the loop, with no new frame. */
  lemma RunsUntilCancelled(opts: Options, ticks: seq<Tick>, j: nat)
    requires opts.budget.Unbounded? && Completed(ticks, j) && (j == |ticks| || !ticks[j].cont)
    ensures var o := Main(opts, ticks);
      o.state.totalExecs == j && o.stop == Cancelled && ExitStatus(o) == ExitSuccess
  {
    LoopStops(opts, ticks);
  }

  /** The totals `main` reports: `total_execs` counts the completed frames and
      `total_lines` is the number of newline bytes in their combined output,
      which is also exactly what reached stdout. */
  lemma LoopTotals(opts: Options, ticks: seq<Tick>)
    ensures var o := Main(opts, ticks);
      && Completed(ticks, o.state.totalExecs)
      && o.state.totalLines == multiset(Outputs(ticks, o.state.totalExecs))[Newline]
      && Stdout(o.state.trace) == Outputs(ticks, o.state.totalExecs)
  {
    RunTotals(opts, ticks, Initial(opts));
    LoopStdout(opts, ticks);
  }

  /** What reaches stdout over the whole loop is the completed frames' output, back to back. */
  lemma LoopStdout(opts: Options, ticks: seq<Tick>)
    ensures var o := Main(opts, ticks);
      && Completed(ticks, o.state.totalExecs)
      && Stdout(o.state.trace) == Outputs(ticks, o.state.totalExecs)
  {
    var o := Main(opts, ticks);
    RunTrace(opts, ticks, Initial(opts));
    var e := o.state.totalExecs;
    var tail := if o.stop == ForkError then Reposition(o.state.n, opts.escapes) else [];
    var r := Redraws(opts.escapes, 0, ticks, e);
    assert o.state.trace == r + tail;
    assert Stdout(tail) == [] by {
      RepositionMeaning(o.state.n, opts.escapes);
    }
    StdoutAppend(r, tail);
    RedrawsStdout(opts.escapes, 0, ticks, e);
  }

  /** The calls `main` issues: each completed frame's calls, preceded by a
      cursor-up over exactly the previous frame's line count (nothing before the
      first frame, since `n` starts at 0); after a failed fork, one more cursor-up
      over the last completed frame and nothing else. */
  lemma LoopTrace(opts: Options, ticks: seq<Tick>)
    ensures var o := Main(opts, ticks);
      && Completed(ticks, o.state.totalExecs)
      && o.state.trace == Redraws(opts.escapes, 0, ticks, o.state.totalExecs)
           + (if o.stop == ForkError then Reposition(LastLines(opts.escapes, 0, ticks, o.state.totalExecs), opts.escapes) else [])
  {
    RunTrace(opts, ticks, Initial(opts));
    RunLastLines(opts, ticks, Initial(opts));
  }

  /** A failed fork ends the program with EXIT_FAILURE at once: no totals are
      added for that attempt and no frame follows it. */
  lemma {:induction false} ForkFailureExits(opts: Options, ticks: seq<Tick>)
    requires Main(opts, ticks).stop == ForkError
    ensures var o := Main(opts, ticks);
      var e := o.state.totalExecs;
      && ExitStatus(o) == ExitFailure
      && e < |ticks| && ticks[e].cont && ticks[e].child.ForkFailed?
      && Completed(ticks, e)
      && o.state.totalLines == multiset(Outputs(ticks, e))[Newline]
  {
    LoopStops(opts, ticks);
    RunTotals(opts, ticks, Initial(opts));
  }

  /** Loop head `e` is the one whose fork fails: every loop head before it read
      `cont` nonzero and forked, it reads `cont` nonzero itself, it lies within
      the `-n` budget, and `fork` fails there. */
  predicate ForkFailsAt(opts: Options, ticks: seq<Tick>, e: nat)
  {
    && Completed(ticks, e)
    && e < |ticks| && ticks[e].cont
    && (opts.budget.Times? ==> e < opts.budget.k)
    && ticks[e].child.ForkFailed?
  }

  /** The exit status in terms of the environment alone: `main` exits with
      EXIT_FAILURE exactly when some loop head reached with `cont` nonzero and
      within the budget meets a failed fork, and with EXIT_SUCCESS otherwise. */
  lemma ExitStatusOfRun(opts: Options, ticks: seq<Tick>)
    ensures ExitStatus(Main(opts, ticks)) == ExitFailure <==> exists e: nat :: ForkFailsAt(opts, ticks, e)
    ensures ExitStatus(Main(opts, ticks)) == ExitSuccess <==> !exists e: nat :: ForkFailsAt(opts, ticks, e)
  {
    var o := Main(opts, ticks);
    var e0 := o.state.totalExecs;
    LoopStops(opts, ticks);
    if o.stop == ForkError {
      assert ForkFailsAt(opts, ticks, e0);
    } else {
      forall e: nat | ForkFailsAt(opts, ticks, e)
        ensures false
      {
      }
    }
  }

  /** With `-e` nothing but the child's bytes and flushes of stdout is issued:
      no escape sequence, no carriage return, no stderr call at all. */
  lemma NoEscapesRun(opts: Options, ticks: seq<Tick>)
    requires !opts.escapes
    ensures StdoutOnly(Main(opts, ticks).state.trace)
  {
    var o := Main(opts, ticks);
    LoopTrace(opts, ticks);
    RedrawsNoEscapes(0, ticks, o.state.totalExecs);
    var tail := if o.stop == ForkError then Reposition(LastLines(false, 0, ticks, o.state.totalExecs), false) else [];
    assert tail == [];
    assert o.state.trace == Redraws(false, 0, ticks, o.state.totalExecs);
  }

  lemma StdoutOfFrame(r: seq<Event>, f: seq<Event>, rest: seq<Event>)
    requires Stdout(r) == []
    ensures Stdout(r + f + rest) == Stdout(f) + Stdout(rest)
  {
    StdoutAppend(r + f, rest);
    StdoutAppend(r, f);
  }

  /** One redraw puts exactly the frame's output on stdout. */
  lemma RedrawStdout(prev: nat, escapes: bool, out: seq<byte>, rest: seq<Event>)
    ensures Stdout(Reposition(prev, escapes) + Render(out, escapes).trace + rest) == out + Stdout(rest)
  {
    assert Stdout(Reposition(prev, escapes)) == [] by {
      RepositionMeaning(prev, escapes);
    }
    RenderStdout(out, escapes);
    StdoutOfFrame(Reposition(prev, escapes), Render(out, escapes).trace, rest);
  }

  lemma {:induction false} RedrawsStdout(escapes: bool, prev: nat, ticks: seq<Tick>, e: nat)
    requires Completed(ticks, e)
    ensures Stdout(Redraws(escapes, prev, ticks, e)) == Outputs(ticks, e)
    decreases e
  {
    if e > 0 {
      var out := ticks[0].child.output;
      var f := Render(out, escapes);
      CompletedTail(ticks, e);
      var rest := Redraws(escapes, f.lines, ticks[1..], e - 1);
      RedrawsStdout(escapes, f.lines, ticks[1..], e - 1);
      RedrawStdout(prev, escapes, out, rest);
      var whole := Redraws(escapes, prev, ticks, e);
      assert whole == Reposition(prev, escapes) + f.trace + rest;
      assert Stdout(whole) == out + Stdout(rest);
      assert Outputs(ticks, e) == out + Outputs(ticks[1..], e - 1);
    }
  }

  lemma StdoutOnlyAppend(a: seq<Event>, b: seq<Event>)
    requires StdoutOnly(a) && StdoutOnly(b)
    ensures StdoutOnly(a + b)
  {
    assert forall i :: |a| <= i < |a + b| ==> (a + b)[i] == b[i - |a|];
  }

  lemma {:induction false} RedrawsNoEscapes(prev: nat, ticks: seq<Tick>, e: nat)
    requires Completed(ticks, e)
    ensures StdoutOnly(Redraws(false, prev, ticks, e))
    decreases e
  {
    if e > 0 {
      var f := Render(ticks[0].child.output, false);
      CompletedTail(ticks, e);
      RedrawsNoEscapes(f.lines, ticks[1..], e - 1);
      RenderNoEscapes(ticks[0].child.output);
      assert Reposition(prev, false) == [];
      StdoutOnlyAppend(f.trace, Redraws(false, f.lines, ticks[1..], e - 1));
      assert Redraws(false, prev, ticks, e) == f.trace + Redraws(false, f.lines, ticks[1..], e - 1);
    }
  }
}

/** The `while` loop of `main` written imperatively, checked against `Supervisor.Main`. */
module Loop {
  import opened Terminal
  import opened Streams
  import opened Renderer
  import opened Supervisor
  import opened SupervisorProperties

  /** The loop as written, one loop-head evaluation per iteration; each frame is
      rendered by the byte-at-a-time read loop. */
  method Supervise(opts: Options, ticks: seq<Tick>)
      returns (stop: Stop, totalLines: nat, totalExecs: nat, trace: seq<Event>)
    ensures var o := Main(opts, ticks);
      stop == o.stop && totalLines == o.state.totalLines && totalExecs == o.state.totalExecs && trace == o.state.trace
  {
    var n: nat := 0;
    var ntimes: nat := if opts.budget.Times? then opts.budget.k else 0;
    totalLines, totalExecs, trace := 0, 0, [];
    var i := 0;
    while true
      invariant 0 <= i <= |ticks|
      invariant Run(opts, ticks[i..], State(n, totalLines, totalExecs, ntimes, trace)) == Main(opts, ticks)
      decreases |ticks| - i
    {
      ghost var st := State(n, totalLines, totalExecs, ntimes, trace);
      if i == |ticks| || !ticks[i].cont {
        return Cancelled, totalLines, totalExecs, trace;
      }
      if opts.budget.Times? {
        if ntimes == 0 {
          return BudgetSpent, totalLines, totalExecs, trace;
        }
        ntimes := ntimes - 1;
      }
      if n != 0 && opts.escapes {
        trace := trace + [Err(CursorUp(n)), FlushErr];
      }
      assert trace == st.trace + Reposition(st.n, opts.escapes);
      match ticks[i].child {
        case ForkFailed =>
          return ForkError, totalLines, totalExecs, trace;
        case Forked(output) =>
          var frame, lines := RenderStream(output, opts.escapes);
          RunFrame(opts, ticks[i..], st);
          n := lines;
          totalLines := totalLines + lines;
          totalExecs := totalExecs + 1;
          trace := trace + frame;
          assert State(n, totalLines, totalExecs, ntimes, trace) == After(opts, ticks[i..], st);
      }
      assert ticks[i..][1..] == ticks[i + 1..];
      i := i + 1;
    }
  }
}

/** A worked run: `cont -n 2 printf 'a\nb\n'` with escapes on. */
module Scenario {
  import opened Terminal
  import opened Streams
  import opened Renderer
  import opened Supervisor
  import opened SupervisorProperties

  const TwoLines: seq<byte> := [97, Newline, 98, Newline]  // "a\nb\n"

  lemma TwoRunsOfTwoLines()
    ensures var ticks := [Tick(true, Forked(TwoLines)), Tick(true, Forked(TwoLines)), Tick(true, Forked(TwoLines))];
      var o := Main(Options(true, Times(2)), ticks);
      && o.stop == BudgetSpent && ExitStatus(o) == ExitSuccess
      && o.state.totalExecs == 2 && o.state.totalLines == 4
      && Stdout(o.state.trace) == TwoLines + TwoLines
  {
    var ticks := [Tick(true, Forked(TwoLines)), Tick(true, Forked(TwoLines)), Tick(true, Forked(TwoLines))];
    var opts := Options(true, Times(2));
    RepeatExactly(opts, ticks);
    LoopTotals(opts, ticks);
    assert Outputs(ticks, 2) == TwoLines + TwoLines by {
      assert ticks[1..][1..] == ticks[2..];
    }
    assert multiset(TwoLines + TwoLines)[Newline] == 4;
  }

  /** The second frame is drawn after moving the cursor up over the first frame's two lines. */
  lemma TwoRunsRedraw()
    ensures var ticks := [Tick(true, Forked(TwoLines)), Tick(true, Forked(TwoLines)), Tick(true, Forked(TwoLines))];
      var f := Render(TwoLines, true);
      Main(Options(true, Times(2)), ticks).state.trace == f.trace + [Err(CursorUp(2)), FlushErr] + f.trace
  {
    var ticks := [Tick(true, Forked(TwoLines)), Tick(true, Forked(TwoLines)), Tick(true, Forked(TwoLines))];
    var opts := Options(true, Times(2));
    RepeatExactly(opts, ticks);
    LoopTrace(opts, ticks);
    assert multiset(TwoLines)[Newline] == 2;
    RedrawsOfTwo(true, ticks, TwoLines);
  }

  /** Two completed frames of the same output, from the first loop head. */
  lemma RedrawsOfTwo(escapes: bool, ticks: seq<Tick>, out: seq<byte>)
    requires Completed(ticks, 2) && ticks[0].child.output == out && ticks[1].child.output == out
    ensures var f := Render(out, escapes);
      Redraws(escapes, 0, ticks, 2) == f.trace + Reposition(f.lines, escapes) + f.trace
  {
    var f := Render(out, escapes);
    CompletedTail(ticks, 2);
    CompletedTail(ticks[1..], 1);
    assert Redraws(escapes, f.lines, ticks[1..], 1) == Reposition(f.lines, escapes) + f.trace;
  }
}
