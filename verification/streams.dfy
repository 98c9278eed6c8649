/** The observable effect of the program: the stdio calls it issues, in call order.
    Bytes copied from the child go to stdout one `putc` at a time; control
    sequences go to stderr with `fputs`/`fprintf`; the explicit `fflush` calls
    are recorded so that "flushed before" can be stated. Stdio buffering itself
    is not modelled. */
module Streams {
  import opened Terminal

  datatype Event =
    | Out(b: byte)        // putc(b, stdout)
    | FlushOut            // fflush(stdout)
    | Err(s: seq<byte>)   // fputs / fprintf to stderr
    | FlushErr            // fflush(stderr)

  /** The bytes one call hands to stdout. */
  function ToStdout(e: Event): seq<byte>
  {
    if e.Out? then [e.b] else []
  }

  /** The bytes one call hands to stderr. */
  function ToStderr(e: Event): seq<byte>
  {
    if e.Err? then e.s else []
  }

  /** Everything written to stdout, in order. */
  function Stdout(t: seq<Event>): seq<byte>
    decreases |t|
  {
    if |t| == 0 then [] else Stdout(t[..|t| - 1]) + ToStdout(t[|t| - 1])
  }

  /** Everything written to stderr, in order. */
  function Stderr(t: seq<Event>): seq<byte>
    decreases |t|
  {
    if |t| == 0 then [] else Stderr(t[..|t| - 1]) + ToStderr(t[|t| - 1])
  }

  lemma Single(e: Event)
    ensures Stdout([e]) == ToStdout(e)
    ensures Stderr([e]) == ToStderr(e)
  {
    assert [e][..0] == [];
  }

  /** Splitting a trace splits what it wrote to stdout. */
  lemma {:induction false} StdoutAppend(a: seq<Event>, b: seq<Event>)
    ensures Stdout(a + b) == Stdout(a) + Stdout(b)
    decreases |b|
  {
    if |b| > 0 {
      var b' := b[..|b| - 1];
      assert (a + b)[..|a + b| - 1] == a + b';
      StdoutAppend(a, b');
    } else {
      assert a + b == a;
    }
  }

  /** Splitting a trace splits what it wrote to stderr. */
  lemma {:induction false} StderrAppend(a: seq<Event>, b: seq<Event>)
    ensures Stderr(a + b) == Stderr(a) + Stderr(b)
    decreases |b|
  {
    if |b| > 0 {
      var b' := b[..|b| - 1];
      assert (a + b)[..|a + b| - 1] == a + b';
      StderrAppend(a, b');
    } else {
      assert a + b == a;
    }
  }

  /** What a two-call trace writes. */
  lemma Pair(a: Event, b: Event)
    ensures Stdout([a, b]) == ToStdout(a) + ToStdout(b)
    ensures Stderr([a, b]) == ToStderr(a) + ToStderr(b)
  {
    Single(a);
    Single(b);
    StdoutAppend([a], [b]);
    StderrAppend([a], [b]);
    assert [a] + [b] == [a, b];
  }

  /** A trace that makes no stderr call at all: no write and no flush. */
  predicate Quiet(t: seq<Event>) {
    forall i :: 0 <= i < |t| ==> !t[i].Err? && t[i] != FlushErr
  }

  lemma QuietAppend(a: seq<Event>, b: seq<Event>)
    requires Quiet(a) && Quiet(b)
    ensures Quiet(a + b)
  {
    assert forall i :: |a| <= i < |a + b| ==> (a + b)[i] == b[i - |a|];
  }

  lemma {:induction false} QuietHasNoStderr(t: seq<Event>)
    requires Quiet(t)
    ensures Stderr(t) == []
    decreases |t|
  {
    if |t| > 0 {
      QuietHasNoStderr(t[..|t| - 1]);
    }
  }

  /** A non-empty sequence is its front followed by its last element. */
  lemma FrontLast<T>(s: seq<T>)
    requires 0 < |s|
    ensures s == s[..|s| - 1] + [s[|s| - 1]]
  {
  }

  /** Taking one more element of `s` appends it. */
  lemma TakeOneMore<T>(s: seq<T>, i: nat)
    requires i < |s|
    ensures s[..i + 1] == s[..i] + [s[i]]
  {
  }

  /** `n` copies of the byte string `s`, back to back. */
  function Repeat(s: seq<byte>, n: nat): seq<byte>
  {
    if n == 0 then [] else Repeat(s, n - 1) + s
  }
}
