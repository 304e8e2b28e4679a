/** The buffer stage (`bufferStage` and `flushBuffer`). Each pass of its
    loop waits for one of four things: an element from upstream, a tick of
    the flush timer, the upstream channel closing, or the cancellation
    signal. The stage gathers elements in a buffer. It sends the whole buffer
    downstream when the buffer reaches `BufferSize`, on a tick while the
    buffer is non-empty, and once more when upstream closes. */
module Buffering {
  import opened Sequences

  /** Capacity of the buffer (`bufferSize`). */
  const BufferSize: nat := 5

  /** The case one pass of the loop's `select` takes. */
  datatype Event = Elem(x: int) | Tick | Close | Cancel

  /** One pass of the loop. If the cancellation signal is raised while the
      event is handled, `cancelAfter` holds the number of sends in that pass
      that complete before it. */
  datatype Input = Input(event: Event, cancelAfter: Option<nat>)

  /** The stage's state: its buffer, what it has sent downstream, what it has
      taken from upstream, whether the cancellation signal has been raised,
      and whether the stage has returned (closing its output). */
  datatype State = State(buffer: seq<int>, output: seq<int>, received: seq<int>,
                         cancelled: bool, terminated: bool)

  const Start: State := State([], [], [], false, false)

  /** The part of `items` that one flush sends: all of it, or the elements
      sent before cancellation interrupts it. */
  function Sent(items: seq<int>, cancelAfter: Option<nat>): (r: seq<int>)
    ensures IsPrefix(r, items)
    ensures r == items <==> cancelAfter.None? || cancelAfter.value >= |items|
  {
    if cancelAfter.Some? && cancelAfter.value < |items| then items[..cancelAfter.value] else items
  }

  /** One pass of the loop. Once the signal is raised, the next pass takes the
      `done` case and returns. */
  function Next(s: State, input: Input): (t: State)
    requires !s.terminated
    ensures IsPrefix(s.output, t.output) && IsPrefix(s.received, t.received)
    ensures |s.buffer| < BufferSize ==> |t.buffer| < BufferSize
    ensures s.cancelled ==> t.terminated
  {
    if s.cancelled then s.(terminated := true)
    else
      var raised := input.cancelAfter.Some?;
      match input.event
      case Cancel => s.(cancelled := true, terminated := true)
      case Close =>
        s.(output := s.output + Sent(s.buffer, input.cancelAfter), cancelled := raised, terminated := true)
      case Elem(x) =>
        var b := s.buffer + [x];
        if |b| == BufferSize then
          s.(buffer := [], output := s.output + Sent(b, input.cancelAfter),
             received := s.received + [x], cancelled := raised)
        else
          s.(buffer := b, received := s.received + [x], cancelled := raised)
      case Tick =>
        if |s.buffer| > 0 then
          s.(buffer := [], output := s.output + Sent(s.buffer, input.cancelAfter), cancelled := raised)
        else
          s.(cancelled := raised)
  }

  /** The stage's loop over a trace of passes; it returns, ignoring the rest,
      once it terminates. */
  function Replay(s: State, trace: seq<Input>): (t: State)
    ensures IsPrefix(s.output, t.output)
    ensures s.terminated ==> t == s
    decreases |trace|
  {
    if trace == [] || s.terminated then s
    else
      var t := Replay(Next(s, trace[0]), trace[1..]);
      PrefixTransitive(s.output, Next(s, trace[0]).output, t.output);
      t
  }

  /** Running the loop one pass further. */
  lemma {:induction false} ReplaySnoc(s: State, trace: seq<Input>, input: Input)
    ensures var t := Replay(s, trace);
      Replay(s, trace + [input]) == if t.terminated then t else Next(t, input)
    decreases |trace|
  {
    if trace == [] {
      assert [] + [input] == [input];
    } else if !s.terminated {
      assert (trace + [input])[1..] == trace[1..] + [input];
      ReplaySnoc(Next(s, trace[0]), trace[1..], input);
    }
  }

  /** The stage's invariant. The buffer never reaches capacity between passes.
      What was sent is a prefix of what was received. Without cancellation,
      sent + buffered is exactly what was received while the stage runs, and
      everything received has been sent once the stage has returned. */
  predicate Inv(s: State) {
    && |s.buffer| < BufferSize
    && IsPrefix(s.output, s.received)
    && (!s.cancelled && !s.terminated ==> s.output + s.buffer == s.received)
    && (!s.cancelled && s.terminated ==> s.output == s.received)
  }

  lemma NextKeepsInv(s: State, input: Input)
    requires Inv(s) && !s.terminated
    ensures Inv(Next(s, input))
  {
    var t := Next(s, input);
    if !s.cancelled {
      assert s.output + s.buffer == s.received;
      match input.event
      case Cancel =>
      case Close =>
        assert s.output + Sent(s.buffer, input.cancelAfter) == s.received[..|t.output|];
      case Elem(x) =>
        var b := s.buffer + [x];
        assert s.output + b == s.received + [x];
        if |b| == BufferSize {
          assert t.output == s.output + Sent(b, input.cancelAfter);
          assert t.output == t.received[..|t.output|];
        } else {
          assert t.output + t.buffer == t.received;
        }
      case Tick =>
        if |s.buffer| > 0 {
          assert t.output == s.output + Sent(s.buffer, input.cancelAfter);
          assert t.output == t.received[..|t.output|];
        }
    }
  }

  lemma {:induction false} ReplayKeepsInv(s: State, trace: seq<Input>)
    requires Inv(s)
    ensures Inv(Replay(s, trace))
    decreases |trace|
  {
    if trace != [] && !s.terminated {
      NextKeepsInv(s, trace[0]);
      ReplayKeepsInv(Next(s, trace[0]), trace[1..]);
    }
  }

  /** Between passes the buffer holds at most `BufferSize - 1` elements. */
  lemma BufferBounded(trace: seq<Input>)
    ensures |Replay(Start, trace).buffer| <= BufferSize - 1
  {
    ReplayKeepsInv(Start, trace);
  }

  /** An element arriving below capacity is only buffered: nothing is sent.
      The `BufferSize`-th element triggers a flush of exactly `BufferSize`
      elements, in arrival order, after which the buffer is empty and all
      that was received has been sent. */
  lemma CapacityFlush(s: State, x: int)
    requires Inv(s) && !s.terminated && !s.cancelled
    ensures var t := Next(s, Input(Elem(x), None));
      && t.received == s.received + [x]
      && (|s.buffer| < BufferSize - 1 ==> t.output == s.output && t.buffer == s.buffer + [x])
      && (|s.buffer| == BufferSize - 1 ==>
            && t.output == s.output + s.buffer + [x]
            && |t.output| == |s.output| + BufferSize
            && t.buffer == []
            && t.output == t.received)
  {
    if |s.buffer| == BufferSize - 1 {
      assert s.output + s.buffer + [x] == s.received + [x];
    }
  }

  /** A tick with an empty buffer changes nothing; with a non-empty buffer it
      sends the whole buffer in order, leaving it empty and everything
      received sent. */
  lemma TickFlush(s: State)
    requires Inv(s) && !s.terminated && !s.cancelled
    ensures var t := Next(s, Input(Tick, None));
      && (s.buffer == [] ==> t == s)
      && (s.buffer != [] ==> t.output == s.output + s.buffer && t.buffer == [] && t.output == t.received)
  {
  }

  /** A trace in which the cancellation signal is never raised. */
  predicate Undisturbed(trace: seq<Input>) {
    forall i :: 0 <= i < |trace| ==> trace[i].event != Cancel && trace[i].cancelAfter.None?
  }

  /** Upstream closes somewhere in the trace. */
  predicate Closes(trace: seq<Input>) {
    exists i :: 0 <= i < |trace| && trace[i].event == Close
  }

  /** The elements upstream delivers before it closes. */
  function Arrivals(trace: seq<Input>): seq<int> {
    if trace == [] || trace[0].event.Close? then []
    else if trace[0].event.Elem? then [trace[0].event.x] + Arrivals(trace[1..])
    else Arrivals(trace[1..])
  }

  /** All elements offered by upstream, whether the stage takes them or not. */
  function Offered(trace: seq<Input>): seq<int> {
    if trace == [] then []
    else if trace[0].event.Elem? then [trace[0].event.x] + Offered(trace[1..])
    else Offered(trace[1..])
  }

  lemma {:induction false} ReplayUndisturbed(s: State, trace: seq<Input>)
    requires !s.terminated && !s.cancelled && Undisturbed(trace)
    ensures var t := Replay(s, trace);
      && !t.cancelled
      && t.received == s.received + Arrivals(trace)
      && (Closes(trace) ==> t.terminated)
    decreases |trace|
  {
    if trace == [] {
      assert !Closes(trace);
    } else {
      var n := Next(s, trace[0]);
      if trace[0].event.Close? {
        assert Replay(s, trace) == n;
      } else {
        assert Undisturbed(trace[1..]) by {
          forall i | 0 <= i < |trace[1..]|
            ensures trace[1..][i].event != Cancel && trace[1..][i].cancelAfter.None?
          {
            assert trace[1..][i] == trace[i + 1];
          }
        }
        assert trace[0].event != Cancel && trace[0].cancelAfter.None?;
        ReplayUndisturbed(n, trace[1..]);
        if Closes(trace) {
          var i :| 0 <= i < |trace| && trace[i].event == Close;
          assert trace[1..][i - 1] == trace[i];
        }
      }
    }
  }

  /** Without cancellation, once upstream closes the stage has returned and
      sent exactly the elements it was given: same order, none lost, none
      duplicated. */
  lemma DeliversAll(trace: seq<Input>)
    requires Undisturbed(trace) && Closes(trace)
    ensures Replay(Start, trace).terminated
    ensures Replay(Start, trace).output == Arrivals(trace)
  {
    ReplayUndisturbed(Start, trace);
    ReplayKeepsInv(Start, trace);
  }

  lemma {:induction false} ReceivedOffered(s: State, trace: seq<Input>)
    ensures IsPrefix(Replay(s, trace).received, s.received + Offered(trace))
    decreases |trace|
  {
    if trace == [] || s.terminated {
      assert IsPrefix(s.received, s.received + Offered(trace));
    } else {
      var n := Next(s, trace[0]);
      ReceivedOffered(n, trace[1..]);
      var rest := Offered(trace[1..]);
      if s.cancelled {
        assert Replay(n, trace[1..]).received == s.received;
        assert (s.received + Offered(trace))[..|s.received|] == s.received;
      } else if trace[0].event.Elem? {
        assert n.received + rest == s.received + Offered(trace);
      } else {
        assert n.received == s.received;
        assert Offered(trace) == rest;
      }
    }
  }

  /** Whatever happens, including cancellation part-way through a flush, the
      stage's output is a prefix of the elements upstream offered. */
  lemma OutputIsPrefix(trace: seq<Input>)
    ensures IsPrefix(Replay(Start, trace).output, Offered(trace))
  {
    ReplayKeepsInv(Start, trace);
    ReceivedOffered(Start, trace);
    var t := Replay(Start, trace);
    assert Start.received + Offered(trace) == Offered(trace);
    PrefixTransitive(t.output, t.received, Offered(trace));
  }

  /** The stage returns once cancellation is seen or upstream closes, and
      one pass after a signal raised in the middle of a pass. */
  lemma {:induction false} Terminates(s: State, trace: seq<Input>, i: nat)
    requires i < |trace|
    requires trace[i].event == Cancel || trace[i].event == Close
          || (trace[i].cancelAfter.Some? && i + 1 < |trace|)
    ensures Replay(s, trace).terminated
    decreases i
  {
    if !s.terminated {
      var n := Next(s, trace[0]);
      if i == 0 {
        if !n.terminated {
          assert n.cancelled;
          assert trace[1..] != [];
          assert Replay(n, trace[1..]) == Replay(Next(n, trace[1]), trace[2..]);
        }
      } else {
        assert trace[1..][i - 1] == trace[i];
        Terminates(n, trace[1..], i - 1);
      }
    }
  }

  /** The stage as the source runs it: a buffer that is appended to and
      cleared, and the elements sent downstream so far. */
  class BufferStage {
    var buffer: seq<int>
    var output: seq<int>
    var cancelled: bool
    var terminated: bool
    ghost var received: seq<int>

    ghost function Snapshot(): State
      reads this
    {
      State(buffer, output, received, cancelled, terminated)
    }

    ghost predicate Valid()
      reads this
    {
      Inv(Snapshot())
    }

    constructor ()
      ensures Valid() && Snapshot() == Start
    {
      buffer, output, received := [], [], [];
      cancelled, terminated := false, false;
    }

    /** flushBuffer: send the items one at a time, giving up at the send
        where cancellation is seen. */
    method Flush(items: seq<int>, cancelAfter: Option<nat>)
      modifies this`output
      ensures output == old(output) + Sent(items, cancelAfter)
    {
      var i := 0;
      while i < |items|
        invariant 0 <= i <= |items|
        invariant output == old(output) + items[..i]
        invariant cancelAfter.Some? ==> i <= cancelAfter.value
      {
        if cancelAfter == Some(i) {
          return;
        }
        output := output + [items[i]];
        i := i + 1;
      }
      assert items[..i] == items;
    }

    /** One pass of the stage's loop. */
    method Step(input: Input)
      requires Valid() && !terminated
      modifies this
      ensures Valid()
      ensures Snapshot() == Next(old(Snapshot()), input)
    {
      NextKeepsInv(Snapshot(), input);
      if cancelled {
        terminated := true;
        return;
      }
      var raised := input.cancelAfter.Some?;
      match input.event {
        case Cancel =>
          cancelled, terminated := true, true;
        case Close =>
          Flush(buffer, input.cancelAfter);
          cancelled, terminated := raised, true;
        case Elem(x) =>
          received := received + [x];
          buffer := buffer + [x];
          if |buffer| == BufferSize {
            Flush(buffer, input.cancelAfter);
            buffer := [];
          }
          cancelled := raised;
        case Tick =>
          if |buffer| > 0 {
            Flush(buffer, input.cancelAfter);
            buffer := [];
          }
          cancelled := raised;
      }
    }

    /** The stage's loop: one pass per input until it returns. */
    method Run(trace: seq<Input>)
      requires Valid()
      modifies this
      ensures Valid()
      ensures Snapshot() == Replay(old(Snapshot()), trace)
    {
      var i := 0;
      while i < |trace| && !terminated
        invariant 0 <= i <= |trace|
        invariant Valid()
        invariant Replay(Snapshot(), trace[i..]) == Replay(old(Snapshot()), trace)
      {
        ghost var before := Snapshot();
        Step(trace[i]);
        assert trace[i..][1..] == trace[i + 1..];
        assert Replay(before, trace[i..]) == Replay(Snapshot(), trace[i + 1..]);
        i := i + 1;
      }
    }
  }
}
