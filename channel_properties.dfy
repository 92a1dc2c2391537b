/** Properties of whole runs of a channel: any sequence of operations, each
    taken as one atomic step once its wait predicate holds. A run in which some
    operation would wait forever (its predicate does not hold and nothing else
    happens) has no result. */
module ChannelProperties {
  import opened Channel

  datatype Option<T> = None | Some(value: T)

  /** One call on the channel. */
  datatype Op<T> = SendOp(v: T) | RecvOp | CloseOp

  /** What one completed call reports to its caller. */
  datatype Event<T> = Accepted(v: T) | Rejected(v: T) | Delivered(v: T) | EndOfStream | ClosedNow

  /** One call: `None` when the call would block in `s`. */
  function Apply<T>(s: State<T>, op: Op<T>, zero: T): Option<(State<T>, Event<T>)>
  {
    match op
    case SendOp(v) =>
      if !CanSend(s) then None
      else
        var (t, o) := SendStep(s, v);
        Some((t, if o == Sent then Accepted(v) else Rejected(v)))
    case RecvOp =>
      if !CanRecv(s) then None
      else
        var (t, r) := RecvStep(s, zero);
        Some((t, if r.ok then Delivered(r.value) else EndOfStream))
    case CloseOp => Some((CloseStep(s), ClosedNow))
  }

  /** The calls of `ops` one after another; `None` if one of them blocks. */
  function Run<T>(s: State<T>, ops: seq<Op<T>>, zero: T): Option<(State<T>, seq<Event<T>>)>
    decreases |ops|
  {
    if ops == [] then Some((s, []))
    else
      match Apply(s, ops[0], zero)
      case None => None
      case Some((s1, e)) =>
        match Run(s1, ops[1..], zero)
        case None => None
        case Some((t, es)) => Some((t, [e] + es))
  }

  /** The values the channel took in, in order. */
  function AcceptedValues<T>(es: seq<Event<T>>): seq<T>
  {
    if es == [] then []
    else (if es[0].Accepted? then [es[0].v] else []) + AcceptedValues(es[1..])
  }

  /** The values receivers got with `true`, in order. */
  function DeliveredValues<T>(es: seq<Event<T>>): seq<T>
  {
    if es == [] then []
    else (if es[0].Delivered? then [es[0].v] else []) + DeliveredValues(es[1..])
  }

  function SendOps<T>(vs: seq<T>): seq<Op<T>>
  {
    if vs == [] then [] else [SendOp(vs[0])] + SendOps(vs[1..])
  }

  function RecvOps<T>(n: nat): seq<Op<T>>
  {
    if n == 0 then [] else [RecvOp] + RecvOps(n - 1)
  }

  function AcceptedEvents<T>(vs: seq<T>): seq<Event<T>>
  {
    if vs == [] then [] else [Accepted(vs[0])] + AcceptedEvents(vs[1..])
  }

  function DeliveredEvents<T>(vs: seq<T>): seq<Event<T>>
  {
    if vs == [] then [] else [Delivered(vs[0])] + DeliveredEvents(vs[1..])
  }

  /** Running `a + b` is running `a` and then `b` from where `a` stopped. */
  lemma {:induction false} RunAppend<T>(s: State<T>, a: seq<Op<T>>, b: seq<Op<T>>, zero: T)
    ensures Run(s, a + b, zero) ==
      match Run(s, a, zero)
      case None => None
      case Some((t, es)) =>
        match Run(t, b, zero)
        case None => None
        case Some((u, fs)) => Some((u, es + fs))
    decreases |a|
  {
    if a == [] {
      assert a + b == b;
      match Run(s, b, zero)
      case None =>
      case Some((u, fs)) => assert [] + fs == fs;
    } else {
      assert (a + b)[0] == a[0] && (a + b)[1..] == a[1..] + b;
      match Apply(s, a[0], zero)
      case None =>
      case Some((s1, e)) =>
        RunAppend(s1, a[1..], b, zero);
        match Run(s1, a[1..], zero)
        case None =>
        case Some((t, es)) =>
          match Run(t, b, zero)
          case None =>
          case Some((u, fs)) => assert [e] + (es + fs) == ([e] + es) + fs;
    }
  }

  /** The capacity bound: no run ever takes the buffer past the capacity, and a run keeps the
      capacity and never reopens a closed channel. */
  lemma {:induction false} RunKeepsBound<T>(s: State<T>, ops: seq<Op<T>>, zero: T)
    requires Bounded(s)
    ensures Run(s, ops, zero).Some? ==>
      var t := Run(s, ops, zero).value.0;
      Bounded(t) && t.cap == s.cap && (s.closed ==> t.closed)
    decreases |ops|
  {
    if ops != [] {
      match Apply(s, ops[0], zero)
      case None =>
      case Some((s1, e)) =>
        assert Bounded(s1) && s1.cap == s.cap && (s.closed ==> s1.closed);
        RunKeepsBound(s1, ops[1..], zero);
    }
  }

  /** FIFO, no loss and no duplication: what was buffered at the start followed
      by every accepted value is exactly what was delivered followed by what is
      still buffered at the end. */
  lemma {:induction false} RunConservesOrder<T>(s: State<T>, ops: seq<Op<T>>, zero: T)
    ensures Run(s, ops, zero).Some? ==>
      var (t, es) := Run(s, ops, zero).value;
      s.buf + AcceptedValues(es) == DeliveredValues(es) + t.buf
    decreases |ops|
  {
    if ops != [] {
      match Apply(s, ops[0], zero)
      case None =>
      case Some((s1, e)) =>
        RunConservesOrder(s1, ops[1..], zero);
        match Run(s1, ops[1..], zero)
        case None =>
        case Some((t, es)) =>
          var all := [e] + es;
          assert all[0] == e && all[1..] == es;
          assert AcceptedValues(all) == (if e.Accepted? then [e.v] else []) + AcceptedValues(es);
          assert DeliveredValues(all) == (if e.Delivered? then [e.v] else []) + DeliveredValues(es);
          if e.Accepted? {
            assert s1.buf == s.buf + [e.v];
            assert s.buf + ([e.v] + AcceptedValues(es)) == s1.buf + AcceptedValues(es);
          } else if e.Delivered? {
            assert s.buf == [e.v] + s1.buf;
            assert [e.v] + DeliveredValues(es) + t.buf == [e.v] + (s1.buf + AcceptedValues(es));
          } else {
            assert s1.buf == s.buf;
            assert AcceptedValues(all) == AcceptedValues(es) && DeliveredValues(all) == DeliveredValues(es);
          }
    }
  }

  /** No loss, no duplication: for values sent by any interleaving of producers
      and consumers, the values delivered are, as a multiset, the values accepted. */
  lemma NoLossNoDuplication<T>(s: State<T>, ops: seq<Op<T>>, zero: T)
    requires s.buf == []
    requires Run(s, ops, zero).Some?
    requires Run(s, ops, zero).value.0.buf == []
    ensures multiset(AcceptedValues(Run(s, ops, zero).value.1))
         == multiset(DeliveredValues(Run(s, ops, zero).value.1))
  {
    RunConservesOrder(s, ops, zero);
    var (t, es) := Run(s, ops, zero).value;
    assert [] + AcceptedValues(es) == AcceptedValues(es);
    assert DeliveredValues(es) + [] == DeliveredValues(es);
  }

  /** Closing is final for senders: once the channel is closed no value is ever accepted again. */
  lemma {:induction false} ClosedAcceptsNothing<T>(s: State<T>, ops: seq<Op<T>>, zero: T)
    requires s.closed
    ensures Run(s, ops, zero).Some? ==> AcceptedValues(Run(s, ops, zero).value.1) == []
    decreases |ops|
  {
    if ops != [] {
      match Apply(s, ops[0], zero)
      case None =>
      case Some((s1, e)) =>
        assert s1.closed && !e.Accepted?;
        ClosedAcceptsNothing(s1, ops[1..], zero);
        match Run(s1, ops[1..], zero)
        case None =>
        case Some((t, es)) =>
          var all := [e] + es;
          assert all[0] == e && all[1..] == es;
    }
  }

  /** A closed, drained channel never changes again and never delivers a value. */
  lemma {:induction false} DrainedStaysDrained<T>(s: State<T>, ops: seq<Op<T>>, zero: T)
    requires s.closed && s.buf == []
    ensures Run(s, ops, zero).Some?
    ensures Run(s, ops, zero).value.0 == s
    ensures forall k :: 0 <= k < |Run(s, ops, zero).value.1| ==> !Run(s, ops, zero).value.1[k].Delivered?
    decreases |ops|
  {
    if ops != [] {
      var s1 := Apply(s, ops[0], zero).value.0;
      var e := Apply(s, ops[0], zero).value.1;
      assert s1 == s && !e.Delivered?;
      DrainedStaysDrained(s, ops[1..], zero);
    }
  }

  /** Once a receiver has been told "end of stream", no later call delivers a value. */
  lemma {:induction false} EndOfStreamIsFinal<T>(s: State<T>, ops: seq<Op<T>>, zero: T, i: nat, j: nat)
    requires Run(s, ops, zero).Some?
    requires i < j < |Run(s, ops, zero).value.1|
    requires Run(s, ops, zero).value.1[i] == EndOfStream
    ensures !Run(s, ops, zero).value.1[j].Delivered?
    decreases |ops|
  {
    var (s1, e) := Apply(s, ops[0], zero).value;
    var es := Run(s1, ops[1..], zero).value.1;
    assert Run(s, ops, zero).value.1 == [e] + es;
    if i == 0 {
      assert s1 == s && s.closed && s.buf == [];
      DrainedStaysDrained(s1, ops[1..], zero);
      assert !es[j - 1].Delivered?;
    } else {
      EndOfStreamIsFinal(s1, ops[1..], zero, i - 1, j - 1);
    }
  }

  /** With capacity 0 no value is ever accepted: every `Send` waits until
      `Close` and then fails. */
  lemma {:induction false} ZeroCapacityAcceptsNothing<T>(s: State<T>, ops: seq<Op<T>>, zero: T)
    requires s.cap == 0 && Bounded(s)
    ensures Run(s, ops, zero).Some? ==> AcceptedValues(Run(s, ops, zero).value.1) == []
    decreases |ops|
  {
    if ops != [] {
      match Apply(s, ops[0], zero)
      case None =>
      case Some((s1, e)) =>
        assert s1.cap == 0 && Bounded(s1) && !e.Accepted?;
        ZeroCapacityAcceptsNothing(s1, ops[1..], zero);
        match Run(s1, ops[1..], zero)
        case None =>
        case Some((t, es)) =>
          var all := [e] + es;
          assert all[0] == e && all[1..] == es;
    }
  }

  /** Sending values one by one on an open channel with room for all of them
      appends them at the tail, in order. */
  lemma {:induction false} SendAll<T>(s: State<T>, vs: seq<T>, zero: T)
    requires !s.closed && |s.buf| + |vs| <= s.cap
    ensures Run(s, SendOps(vs), zero) == Some((s.(buf := s.buf + vs), AcceptedEvents(vs)))
    decreases |vs|
  {
    if vs == [] {
      assert s.buf + vs == s.buf;
    } else {
      var s1 := s.(buf := s.buf + [vs[0]]);
      var ops := SendOps(vs);
      assert ops[0] == SendOp(vs[0]) && ops[1..] == SendOps(vs[1..]);
      assert Apply(s, SendOp(vs[0]), zero) == Some((s1, Accepted(vs[0])));
      SendAll(s1, vs[1..], zero);
      assert s1.buf + vs[1..] == s.buf + vs;
      assert AcceptedEvents(vs) == [Accepted(vs[0])] + AcceptedEvents(vs[1..]);
    }
  }

  /** Receiving as many times as there are buffered values hands them out
      in order, each with `true`, and leaves the buffer empty. */
  lemma {:induction false} RecvAll<T>(s: State<T>, zero: T)
    ensures Run(s, RecvOps(|s.buf|), zero) == Some((s.(buf := []), DeliveredEvents(s.buf)))
    decreases |s.buf|
  {
    if s.buf != [] {
      var s1 := s.(buf := s.buf[1..]);
      assert Apply(s, RecvOp, zero) == Some((s1, Delivered(s.buf[0])));
      RecvAll(s1, zero);
    }
  }

  /** FIFO round trip: sending `vs` into an empty open channel large enough to hold them and
      then receiving `|vs|` times returns `vs` in the same order. */
  lemma FifoRoundTrip<T>(s: State<T>, vs: seq<T>, zero: T)
    requires !s.closed && s.buf == [] && |vs| <= s.cap
    ensures Run(s, SendOps(vs) + RecvOps(|vs|), zero) == Some((s, AcceptedEvents(vs) + DeliveredEvents(vs)))
  {
    RunAppend(s, SendOps(vs), RecvOps(|vs|), zero);
    SendAll(s, vs, zero);
    var t := s.(buf := s.buf + vs);
    assert t.buf == vs;
    RecvAll(t, zero);
    assert t.(buf := []) == s;
  }

  /** Draining after close: after `Close` the `k` buffered values are still delivered with `true`,
      and only the call after them reports end of stream. */
  lemma DrainAfterClose<T>(s: State<T>, zero: T)
    requires s.closed
    ensures Run(s, RecvOps(|s.buf| + 1), zero)
         == Some((s.(buf := []), DeliveredEvents(s.buf) + [EndOfStream]))
  {
    var n := |s.buf|;
    assert RecvOps<T>(n + 1) == RecvOps(n) + [RecvOp] by {
      RecvOpsSnoc<T>(n);
    }
    RunAppend(s, RecvOps(n), [RecvOp], zero);
    RecvAll(s, zero);
    var t := s.(buf := []);
    var one: seq<Op<T>> := [RecvOp];
    assert one[1..] == [];
    assert t.closed && t.buf == [];
    assert Apply(t, RecvOp, zero) == Some((t, EndOfStream));
    assert Run(t, one, zero) == Some((t, [EndOfStream] + []));
    var eos: seq<Event<T>> := [EndOfStream];
    assert eos + [] == eos;
    assert Run(s, RecvOps(n), zero) == Some((t, DeliveredEvents(s.buf)));
    assert Run(s, RecvOps(n) + one, zero) == Some((t, DeliveredEvents(s.buf) + [EndOfStream]));
  }

  lemma {:induction false} RecvOpsSnoc<T>(n: nat)
    ensures RecvOps<T>(n + 1) == RecvOps<T>(n) + [RecvOp]
  {
    if n > 0 {
      RecvOpsSnoc<T>(n - 1);
    }
  }

  /** The first test in `lub4/lub4/main.cpp` (lines 8-18), as a client of the
      class: `Send(1); Send(2)` on a channel of
      capacity 2, then two `Recv` calls give `(1, true)` and `(2, true)`. */
  method SendSendRecvRecv() returns (first: Received<int>, second: Received<int>)
    ensures first == Received(1, true) && second == Received(2, true)
  {
    var ch := new BufferedChannel(2, 0);
    var _ := ch.Send(1);
    var _ := ch.Send(2);
    var v1, ok1 := ch.Recv();
    var v2, ok2 := ch.Recv();
    first, second := Received(v1, ok1), Received(v2, ok2);
  }

  /** The second test in `lub4/lub4/main.cpp` (lines 21-31): `Send(1); Close()` on a channel of capacity 2, then two `Recv`
      calls give `(1, true)` and `(0, false)`. */
  method SendCloseRecvRecv() returns (first: Received<int>, second: Received<int>)
    ensures first == Received(1, true) && second == Received(0, false)
  {
    var ch := new BufferedChannel(2, 0);
    var _ := ch.Send(1);
    ch.Close();
    var v1, ok1 := ch.Recv();
    var v2, ok2 := ch.Recv();
    first, second := Received(v1, ok1), Received(v2, ok2);
  }

  /** A channel built with size 0 (`lub4/lub4/buffered_channel.h`, lines 13 and
      19-24): on a channel of capacity 0 `Send(5)` is not enabled until
      `Close`, and then it fails. */
  method ZeroCapacitySend() returns (blockedBeforeClose: bool, outcome: SendOutcome)
    ensures blockedBeforeClose && outcome == ChannelClosed
  {
    var ch := new BufferedChannel(0, 0);
    blockedBeforeClose := !CanSend(ch.View());
    ch.Close();
    outcome := ch.Send(5);
  }
}
