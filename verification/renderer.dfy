/** The frame renderer: the parent branch of `loop()` in cont.c. It reads the
    child's output byte by byte until EOF, copies every byte to stdout, counts
    newlines, erases the rest of the line (EL) on stderr just before each
    newline is written, erases the rest of the screen (ED) once the stream ends,
    and returns the number of lines. The child's output is an input here: the
    pipe, fork and wait that produce it are not part of this model. */
module Renderer {
  import opened Terminal
  import opened Streams

  /** The calls issued for one byte returned by `fgetc`. */
  function Step(c: byte, escapes: bool): seq<Event>
  {
    if c == Newline then
      [FlushOut] + (if escapes then [Err(EraseInLine), FlushErr] else []) + [Out(c)]
    else [Out(c)]
  }

  /** The calls issued once `fgetc` returns EOF. */
  function Epilogue(escapes: bool): seq<Event>
  {
    if escapes then [Err(EraseInDisplay), FlushErr] else []
  }

  lemma EpilogueStreams(t: seq<Event>, escapes: bool)
    requires !escapes ==> Quiet(t)
    ensures Stdout(Epilogue(escapes)) == []
    ensures Stderr(Epilogue(escapes)) == if escapes then EraseInDisplay else []
    ensures !escapes ==> Stderr(t) == []
  {
    if !escapes {
      QuietHasNoStderr(t);
    } else {
      Pair(Err(EraseInDisplay), FlushErr);
    }
  }

  /** What the renderer has written so far, and its `lines` counter. */
  datatype Frame = Frame(trace: seq<Event>, lines: nat)

  /** What one byte's calls write: the byte itself on stdout, and EL on stderr
      exactly when the byte is a newline and escapes are on. */
  lemma StepStreams(c: byte, escapes: bool)
    ensures Stdout(Step(c, escapes)) == [c]
    ensures Stderr(Step(c, escapes)) == if escapes && c == Newline then EraseInLine else []
  {
    Single(Out(c));
    if c == Newline {
      var mid: seq<Event> := if escapes then [Err(EraseInLine), FlushErr] else [];
      Single(FlushOut);
      if escapes {
        Pair(Err(EraseInLine), FlushErr);
      }
      StdoutAppend([FlushOut], mid);
      StderrAppend([FlushOut], mid);
      StdoutAppend([FlushOut] + mid, [Out(c)]);
      StderrAppend([FlushOut] + mid, [Out(c)]);
    }
  }

  /** Appending one byte's calls to a trace extends both streams accordingly. */
  lemma StepAppend(t: seq<Event>, c: byte, escapes: bool)
    ensures Stdout(t + Step(c, escapes)) == Stdout(t) + [c]
    ensures Stderr(t + Step(c, escapes)) == Stderr(t) + if escapes && c == Newline then EraseInLine else []
    ensures !escapes && Quiet(t) ==> Quiet(t + Step(c, escapes))
  {
    StdoutAppend(t, Step(c, escapes));
    StderrAppend(t, Step(c, escapes));
    StepStreams(c, escapes);
    if !escapes && Quiet(t) {
      StepQuiet(c);
      QuietAppend(t, Step(c, escapes));
    }
  }

  /** With escapes off, a byte's calls never touch stderr. */
  lemma StepQuiet(c: byte)
    ensures Quiet(Step(c, false))
  {
    if c == Newline {
      assert Step(c, false) == [FlushOut, Out(c)];
    }
  }

  /** The read loop after it has consumed `s`: the calls issued so far and the
      `lines` counter. */
  function Consume(s: seq<byte>, escapes: bool): Frame
    decreases |s|
  {
    if |s| == 0 then Frame([], 0)
    else
      var prev := Consume(s[..|s| - 1], escapes);
      var c := s[|s| - 1];
      Frame(prev.trace + Step(c, escapes), if c == Newline then prev.lines + 1 else prev.lines)
  }

  /** The `lines` counter is the number of newline bytes consumed. */
  lemma {:induction false} ConsumeCount(s: seq<byte>, escapes: bool)
    ensures Consume(s, escapes).lines == multiset(s)[Newline]
    decreases |s|
  {
    if |s| > 0 {
      ConsumeCount(s[..|s| - 1], escapes);
      assert s == s[..|s| - 1] + [s[|s| - 1]];
    }
  }

  /** What the read loop has written after consuming `s`: every byte copied to
      stdout, and one EL per newline on stderr when escapes are on, nothing on
      stderr otherwise. */
  predicate StreamsAfter(s: seq<byte>, escapes: bool, f: Frame)
  {
    && Stdout(f.trace) == s
    && (escapes ==> Stderr(f.trace) == Repeat(EraseInLine, f.lines))
    && (!escapes ==> Quiet(f.trace))
  }

  /** One more byte keeps the streams in step with the bytes consumed. */
  lemma StreamsStep(s: seq<byte>, c: byte, escapes: bool, f: Frame)
    requires StreamsAfter(s, escapes, f)
    ensures StreamsAfter(s + [c], escapes, Frame(f.trace + Step(c, escapes), if c == Newline then f.lines + 1 else f.lines))
  {
    StepAppend(f.trace, c, escapes);
  }

  lemma {:induction false} ConsumeStreams(s: seq<byte>, escapes: bool)
    ensures StreamsAfter(s, escapes, Consume(s, escapes))
    decreases |s|
  {
    if |s| > 0 {
      var c, s' := s[|s| - 1], s[..|s| - 1];
      FrontLast(s);
      ConsumeStreams(s', escapes);
      ConsumeSnoc(s', c, escapes);
      StreamsStep(s', c, escapes, Consume(s', escapes));
    }
  }

  /** The whole frame: the read loop over the child's entire output, then the
      epilogue. The count it returns is the number of newline bytes in the
      child's output. */
  function Render(s: seq<byte>, escapes: bool): (r: Frame)
    ensures r.lines == multiset(s)[Newline]
  {
    var c := Consume(s, escapes);
    ConsumeCount(s, escapes);
    Frame(c.trace + Epilogue(escapes), c.lines)
  }

  /** A frame copies the child's output to stdout unchanged, in order. */
  lemma RenderStdout(s: seq<byte>, escapes: bool)
    ensures Stdout(Render(s, escapes).trace) == s
  {
    var r := Consume(s, escapes);
    ConsumeStreams(s, escapes);
    StdoutAppend(r.trace, Epilogue(escapes));
    EpilogueStreams(r.trace, escapes);
  }

  /** What a frame writes to stderr: one EL per newline followed by one ED, or
      nothing at all when escapes are off. */
  lemma {:induction false} RenderStderr(s: seq<byte>, escapes: bool)
    ensures escapes ==> Stderr(Render(s, escapes).trace) == Repeat(EraseInLine, Render(s, escapes).lines) + EraseInDisplay
    ensures !escapes ==> Quiet(Render(s, escapes).trace) && Stderr(Render(s, escapes).trace) == []
  {
    var r := Consume(s, escapes);
    ConsumeStreams(s, escapes);
    StderrAppend(r.trace, Epilogue(escapes));
    EpilogueStreams(r.trace, escapes);
  }

  /** Consuming one more byte appends that byte's calls and counts it if it is a newline. */
  lemma ConsumeSnoc(s: seq<byte>, c: byte, escapes: bool)
    ensures var f := Consume(s, escapes);
      Consume(s + [c], escapes) == Frame(f.trace + Step(c, escapes), if c == Newline then f.lines + 1 else f.lines)
  {
    assert (s + [c])[..|s + [c]| - 1] == s;
  }

  /** The read loop as written: one `fgetc` per iteration until EOF, with the
      calls issued in the same order as the C code. */
  method RenderStream(input: seq<byte>, escapes: bool) returns (trace: seq<Event>, lines: nat)
    ensures Frame(trace, lines) == Render(input, escapes)
  {
    trace, lines := [], 0;
    var i := 0;
    ghost var consumed: seq<byte> := [];
    while i < |input|
      invariant 0 <= i <= |input|
      invariant consumed == input[..i]
      invariant Frame(trace, lines) == Consume(consumed, escapes)
    {
      var c := input[i];
      ConsumeSnoc(consumed, c, escapes);
      ghost var before := trace;
      ghost var emitted: seq<Event> := [];
      if c == Newline {
        lines := lines + 1;
        trace, emitted := trace + [FlushOut], [FlushOut];
        if escapes {
          trace, emitted := trace + [Err(EraseInLine), FlushErr], emitted + [Err(EraseInLine), FlushErr];
        }
      }
      assert trace == before + emitted;
      trace, emitted := trace + [Out(c)], emitted + [Out(c)];
      assert emitted == Step(c, escapes);
      TakeOneMore(input, i);
      consumed := consumed + [c];
      i := i + 1;
    }
    assert consumed == input;
    if escapes {
      trace := trace + [Err(EraseInDisplay), FlushErr];
    }
    assert trace == Consume(input, escapes).trace + Epilogue(escapes);
  }
}

module RendererProperties {
  import opened Terminal
  import opened Streams
  import opened Renderer

  /** Every EL is issued right after stdout was flushed and right before the newline it precedes is put. */
  predicate EraseLinesPlaced(t: seq<Event>)
  {
    forall i :: 0 <= i < |t| && t[i] == Err(EraseInLine) ==>
      1 <= i && i + 2 < |t| && t[i - 1] == FlushOut && t[i + 1] == FlushErr && t[i + 2] == Out(Newline)
  }

  /** Every newline put on stdout follows a flush of stdout and, when escapes are on, an EL. */
  predicate NewlinesGuarded(t: seq<Event>, escapes: bool)
  {
    if escapes then
      forall i :: 0 <= i < |t| && t[i] == Out(Newline) ==>
        3 <= i && t[i - 3] == FlushOut && t[i - 2] == Err(EraseInLine) && t[i - 1] == FlushErr
    else
      forall i :: 0 <= i < |t| && t[i] == Out(Newline) ==> 1 <= i && t[i - 1] == FlushOut
  }

  /** The read loop writes nothing to stderr but EL. */
  predicate OnlyEraseLines(t: seq<Event>)
  {
    forall i :: 0 <= i < |t| && t[i].Err? ==> t[i].s == EraseInLine
  }

  /** The calls for one byte, spelled out. */
  lemma StepCases(c: byte, escapes: bool)
    ensures c == Newline && escapes ==> Step(c, escapes) == [FlushOut, Err(EraseInLine), FlushErr, Out(Newline)]
    ensures c == Newline && !escapes ==> Step(c, escapes) == [FlushOut, Out(Newline)]
    ensures c != Newline ==> Step(c, escapes) == [Out(c)]
  {
  }

  /** Indexing into a concatenation. */
  lemma AppendIndex(p: seq<Event>, q: seq<Event>)
    ensures forall i :: 0 <= i < |p| ==> (p + q)[i] == p[i]
    ensures forall i :: |p| <= i < |p + q| ==> (p + q)[i] == q[i - |p|]
  {
  }

  /** Appending one byte's calls keeps every EL between a flush of stdout and its
      newline, and adds no other stderr write. */
  lemma StepPlaced(p: seq<Event>, c: byte, escapes: bool)
    requires EraseLinesPlaced(p) && OnlyEraseLines(p)
    ensures EraseLinesPlaced(p + Step(c, escapes)) && OnlyEraseLines(p + Step(c, escapes))
  {
    var st := Step(c, escapes);
    var t := p + st;
    AppendIndex(p, st);
    StepCases(c, escapes);
    forall i | 0 <= i < |t| && t[i] == Err(EraseInLine)
      ensures 1 <= i && i + 2 < |t| && t[i - 1] == FlushOut && t[i + 1] == FlushErr && t[i + 2] == Out(Newline)
    {
      if i < |p| {
        assert p[i] == Err(EraseInLine);
      }
    }
  }

  /** Appending one byte's calls keeps every newline guarded. */
  lemma StepGuarded(p: seq<Event>, c: byte, escapes: bool)
    requires NewlinesGuarded(p, escapes)
    ensures NewlinesGuarded(p + Step(c, escapes), escapes)
  {
    var st := Step(c, escapes);
    var t := p + st;
    AppendIndex(p, st);
    StepCases(c, escapes);
    if escapes {
      forall i | 0 <= i < |t| && t[i] == Out(Newline)
        ensures 3 <= i && t[i - 3] == FlushOut && t[i - 2] == Err(EraseInLine) && t[i - 1] == FlushErr
      {
        if i < |p| {
          assert p[i] == Out(Newline);
        } else {
          assert st[i - |p|] == Out(Newline);
        }
      }
    } else {
      forall i | 0 <= i < |t| && t[i] == Out(Newline)
        ensures 1 <= i && t[i - 1] == FlushOut
      {
        if i < |p| {
          assert p[i] == Out(Newline);
        } else {
          assert st[i - |p|] == Out(Newline);
        }
      }
    }
  }

  /** Every flush of stdout is followed at once by the newline it is issued for:
      with escapes on, by EL, a flush of stderr and then the newline; with
      escapes off, by the newline itself. */
  predicate FlushesGuarded(t: seq<Event>, escapes: bool)
  {
    if escapes then
      forall i :: 0 <= i < |t| && t[i] == FlushOut ==>
        i + 3 < |t| && t[i + 1] == Err(EraseInLine) && t[i + 2] == FlushErr && t[i + 3] == Out(Newline)
    else
      forall i :: 0 <= i < |t| && t[i] == FlushOut ==> i + 1 < |t| && t[i + 1] == Out(Newline)
  }

  /** Appending one byte's calls keeps every flush of stdout right before its newline. */
  lemma StepFlushes(p: seq<Event>, c: byte, escapes: bool)
    requires FlushesGuarded(p, escapes)
    ensures FlushesGuarded(p + Step(c, escapes), escapes)
  {
    var st := Step(c, escapes);
    var t := p + st;
    AppendIndex(p, st);
    StepCases(c, escapes);
    if escapes {
      forall i | 0 <= i < |t| && t[i] == FlushOut
        ensures i + 3 < |t| && t[i + 1] == Err(EraseInLine) && t[i + 2] == FlushErr && t[i + 3] == Out(Newline)
      {
        if i < |p| {
          assert p[i] == FlushOut;
        } else {
          assert st[i - |p|] == FlushOut;
        }
      }
    } else {
      forall i | 0 <= i < |t| && t[i] == FlushOut
        ensures i + 1 < |t| && t[i + 1] == Out(Newline)
      {
        if i < |p| {
          assert p[i] == FlushOut;
        } else {
          assert st[i - |p|] == FlushOut;
        }
      }
    }
  }

  lemma {:induction false} ConsumeFlushes(s: seq<byte>, escapes: bool)
    ensures FlushesGuarded(Consume(s, escapes).trace, escapes)
    decreases |s|
  {
    if |s| > 0 {
      ConsumeFlushes(s[..|s| - 1], escapes);
      StepFlushes(Consume(s[..|s| - 1], escapes).trace, s[|s| - 1], escapes);
    }
  }

  /** The renderer flushes stdout only right before it puts a newline: every
      flush of stdout in a frame is followed at once by EL, a flush of stderr
      and the newline (escapes on), or by the newline (escapes off). */
  lemma RenderFlushesBeforeNewline(s: seq<byte>, escapes: bool)
    ensures FlushesGuarded(Render(s, escapes).trace, escapes)
  {
    var c := Consume(s, escapes).trace;
    var ep := Epilogue(escapes);
    ConsumeFlushes(s, escapes);
    AppendIndex(c, ep);
    assert Render(s, escapes).trace == c + ep;
  }

  /** Only stdout calls: puts and flushes. */
  predicate StdoutOnly(t: seq<Event>)
  {
    forall i :: 0 <= i < |t| ==> t[i].Out? || t[i] == FlushOut
  }

  lemma StepStdoutOnly(p: seq<Event>, c: byte)
    requires StdoutOnly(p)
    ensures StdoutOnly(p + Step(c, false))
  {
    var t := p + Step(c, false);
    assert forall i :: 0 <= i < |p| ==> t[i] == p[i];
    assert forall i :: |p| <= i < |t| ==> t[i] == Step(c, false)[i - |p|];
  }

  lemma {:induction false} ConsumeStdoutOnly(s: seq<byte>)
    ensures StdoutOnly(Consume(s, false).trace)
    decreases |s|
  {
    if |s| > 0 {
      ConsumeStdoutOnly(s[..|s| - 1]);
      StepStdoutOnly(Consume(s[..|s| - 1], false).trace, s[|s| - 1]);
    }
  }

  lemma {:induction false} ConsumeShape(s: seq<byte>, escapes: bool)
    ensures EraseLinesPlaced(Consume(s, escapes).trace)
    ensures NewlinesGuarded(Consume(s, escapes).trace, escapes)
    ensures OnlyEraseLines(Consume(s, escapes).trace)
    decreases |s|
  {
    if |s| > 0 {
      ConsumeShape(s[..|s| - 1], escapes);
      StepPlaced(Consume(s[..|s| - 1], escapes).trace, s[|s| - 1], escapes);
      StepGuarded(Consume(s[..|s| - 1], escapes).trace, s[|s| - 1], escapes);
    }
  }

  /** Appending the epilogue keeps the EL and newline invariants: it puts no byte and no EL. */
  lemma EpilogueShape(p: seq<Event>, escapes: bool)
    requires EraseLinesPlaced(p) && NewlinesGuarded(p, escapes)
    ensures var t := p + Epilogue(escapes);
      EraseLinesPlaced(t) && NewlinesGuarded(t, escapes)
  {
    var ep := Epilogue(escapes);
    var t := p + ep;
    assert forall i :: 0 <= i < |p| ==> t[i] == p[i];
    assert forall i :: |p| <= i < |t| ==> t[i] == ep[i - |p|] && !t[i].Out? && t[i] != Err(EraseInLine);
  }

  /** Placement of EL in a whole frame, in both directions: every EL sits between
      a flush of stdout and the newline it erases before; and every newline put
      follows a flush of stdout and, with escapes on, an EL. That no EL occurs
      with escapes off is `RenderNoEscapes`. */
  lemma RenderEraseLine(s: seq<byte>, escapes: bool)
    ensures EraseLinesPlaced(Render(s, escapes).trace)
    ensures NewlinesGuarded(Render(s, escapes).trace, escapes)
  {
    var c := Consume(s, escapes).trace;
    ConsumeShape(s, escapes);
    EpilogueShape(c, escapes);
    assert Render(s, escapes).trace == c + Epilogue(escapes);
  }

  /** The stdout position of each EL: the bytes of the child's output already put
      are exactly a prefix of it, and the next byte of the output is a newline. */
  lemma RenderEraseLineAtNewline(s: seq<byte>, escapes: bool, i: nat)
    requires i < |Render(s, escapes).trace|
    requires Render(s, escapes).trace[i] == Err(EraseInLine)
    ensures var k := |Stdout(Render(s, escapes).trace[..i])|;
      k < |s| && Stdout(Render(s, escapes).trace[..i]) == s[..k] && s[k] == Newline
  {
    var t := Render(s, escapes).trace;
    RenderStdout(s, escapes);
    RenderEraseLine(s, escapes);
    EraseLinePosition(t, s, i);
  }

  lemma ErasedNewlineStdout()
    ensures Stdout([Err(EraseInLine), FlushErr, Out(Newline)]) == [Newline]
  {
    StdoutAppend([Err(EraseInLine), FlushErr], [Out(Newline)]);
    StdoutAppend([Err(EraseInLine)], [FlushErr]);
    Single(Err(EraseInLine));
    Single(FlushErr);
    Single(Out(Newline));
    assert [Err(EraseInLine)] + [FlushErr] == [Err(EraseInLine), FlushErr];
    assert [Err(EraseInLine), FlushErr] + [Out(Newline)] == [Err(EraseInLine), FlushErr, Out(Newline)];
  }

  lemma EraseLinePosition(t: seq<Event>, s: seq<byte>, i: nat)
    requires Stdout(t) == s
    requires i + 2 < |t| && t[i] == Err(EraseInLine) && t[i + 1] == FlushErr && t[i + 2] == Out(Newline)
    ensures var k := |Stdout(t[..i])|; k < |s| && Stdout(t[..i]) == s[..k] && s[k] == Newline
  {
    var pre, post := t[..i], t[i + 3..];
    var mid := [Err(EraseInLine), FlushErr, Out(Newline)];
    assert t == pre + mid + post;
    StdoutAppend(pre + mid, post);
    StdoutAppend(pre, mid);
    ErasedNewlineStdout();
    var k := |Stdout(pre)|;
    assert s == Stdout(pre) + [Newline] + Stdout(post);
    assert s[..k] == Stdout(pre);
  }

  /** With escapes on, ED is issued exactly once, as the last write of the frame,
      after every byte of the child's output has been put. */
  lemma RenderEraseDisplay(s: seq<byte>)
    ensures var t := Render(s, true).trace;
      && |t| >= 2 && t[|t| - 2] == Err(EraseInDisplay) && t[|t| - 1] == FlushErr
      && (forall i :: 0 <= i < |t| && t[i].Out? ==> i < |t| - 2)
      && (forall i :: 0 <= i < |t| - 2 ==> t[i] != Err(EraseInDisplay))
  {
    ConsumeShape(s, true);
    var c := Consume(s, true).trace;
    var t := Render(s, true).trace;
    assert t == c + [Err(EraseInDisplay), FlushErr];
    assert forall i :: 0 <= i < |c| ==> t[i] == c[i];
  }

  /** With escapes off a frame issues no stderr call at all: only puts and flushes of stdout. */
  lemma RenderNoEscapes(s: seq<byte>)
    ensures StdoutOnly(Render(s, false).trace)
  {
    ConsumeStdoutOnly(s);
    assert Render(s, false).trace == Consume(s, false).trace;
  }

  /** One put per byte, nothing else. */
  function Puts(b: seq<byte>): seq<Event>
  {
    seq(|b|, i requires 0 <= i < |b| => Out(b[i]))
  }

  /** One more byte that is not a newline adds only its put. */
  lemma PlainStep(s: seq<byte>, tail: seq<byte>, c: byte, escapes: bool)
    requires c != Newline
    requires Consume(s + tail, escapes).trace == Consume(s, escapes).trace + Puts(tail)
    ensures Consume(s + (tail + [c]), escapes).trace == Consume(s, escapes).trace + Puts(tail + [c])
  {
    assert s + (tail + [c]) == (s + tail) + [c];
    ConsumeSnoc(s + tail, c, escapes);
    assert Puts(tail + [c]) == Puts(tail) + [Out(c)];
  }

  /** Reading a stretch without newlines only puts its bytes: no flush, no EL. */
  lemma {:induction false} ConsumePlain(s: seq<byte>, tail: seq<byte>, escapes: bool)
    requires Newline !in tail
    ensures Consume(s + tail, escapes).trace == Consume(s, escapes).trace + Puts(tail)
    decreases |tail|
  {
    if |tail| == 0 {
      assert s + tail == s;
    } else {
      var tail', c := tail[..|tail| - 1], tail[|tail| - 1];
      FrontLast(tail);
      ConsumePlain(s, tail', escapes);
      PlainStep(s, tail', c, escapes);
    }
  }

  /** Where a stretch of puts sits in a trace that ends with it and an epilogue. */
  lemma TailPlacement(c: seq<Event>, m: seq<Event>, ep: seq<Event>)
    requires forall j :: 0 <= j < |m| ==> m[j].Out?
    requires forall j :: 0 <= j < |ep| ==> ep[j] != FlushOut
    ensures var t := c + m + ep;
      && t[|c|..|t| - |ep|] == m
      && (forall j :: |c| <= j < |t| ==> t[j] != FlushOut)
  {
    AppendIndex(c, m);
    AppendIndex(c + m, ep);
  }

  /** The renderer flushes stdout only before a newline: when the child's output
      ends with a stretch `tail` that holds no newline, the puts of `tail`'s bytes
      are the last calls before the epilogue, and no flush of stdout comes with or
      after them, so they are still unflushed when ED is written and the frame
      returns. */
  lemma TrailingBytesUnflushed(s: seq<byte>, tail: seq<byte>, escapes: bool)
    requires Newline !in tail
    ensures var t := Render(s + tail, escapes).trace;
      var k := |t| - |Epilogue(escapes)| - |tail|;
      && 0 <= k
      && t[k..|t| - |Epilogue(escapes)|] == Puts(tail)
      && (forall j :: k <= j < |t| ==> t[j] != FlushOut)
  {
    var c := Consume(s, escapes).trace;
    RenderPlain(s, tail, escapes);
    TailPlacement(c, Puts(tail), Epilogue(escapes));
    assert Render(s + tail, escapes).trace == c + Puts(tail) + Epilogue(escapes);
  }

  lemma RenderPlain(s: seq<byte>, tail: seq<byte>, escapes: bool)
    requires Newline !in tail
    ensures Render(s + tail, escapes).trace == Consume(s, escapes).trace + Puts(tail) + Epilogue(escapes)
  {
    ConsumePlain(s, tail, escapes);
  }
}
