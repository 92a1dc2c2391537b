/** A bounded FIFO channel with a one-way `closed` flag.

    Each operation of the C++ class runs as one critical section under a mutex,
    after waiting on a condition variable. Here every operation is one atomic
    step, and each wait is an explicit "enabled" predicate: a call can only
    complete in a state where its predicate holds. */
module Channel {

  /** The observable state of a channel: the queue `buffer_`, the capacity
      `buffer_size_` and the flag `closed_`. */
  datatype State<T> = State(buf: seq<T>, cap: nat, closed: bool)

  /** What `Send` reports: it returns normally, or it throws "Channel is closed". */
  datatype SendOutcome = Sent | ChannelClosed

  /** The `std::pair<T, bool>` that `Recv` returns. */
  datatype Received<T> = Received(value: T, ok: bool)

  /** The class invariant: the buffer never holds more than the capacity. */
  predicate Bounded<T>(s: State<T>)
  {
    |s.buf| <= s.cap
  }

  /** The capacity the constructor stores for its `int` argument. */
  function Capacity(size: int): nat
  {
    if size > 0 then size else 0
  }

  /** The state right after construction. */
  function Init<T>(size: int): State<T>
  {
    State([], Capacity(size), false)
  }

  /** The predicate `Send` waits for before it proceeds. */
  predicate CanSend<T>(s: State<T>)
  {
    |s.buf| < s.cap || s.closed
  }

  /** The predicate `Recv` waits for before it proceeds. */
  predicate CanRecv<T>(s: State<T>)
  {
    |s.buf| > 0 || (s.closed && |s.buf| == 0)
  }

  /** `Send(v)` once its wait is over: fail on a closed channel, else enqueue at the tail. */
  function SendStep<T>(s: State<T>, v: T): (State<T>, SendOutcome)
    requires CanSend(s)
  {
    if s.closed then (s, ChannelClosed) else (s.(buf := s.buf + [v]), Sent)
  }

  /** `Recv()` once its wait is over: pop the head, or report end of stream
      with `zero`, the value-initialised `T()`. */
  function RecvStep<T>(s: State<T>, zero: T): (State<T>, Received<T>)
    requires CanRecv(s)
  {
    if |s.buf| > 0 then (s.(buf := s.buf[1..]), Received(s.buf[0], true))
    else (s, Received(zero, false))
  }

  /** `Close()`: set the flag; the buffer stays as it is. */
  function CloseStep<T>(s: State<T>): State<T>
  {
    s.(closed := true)
  }

  // The lemmas below read off single cases of the step functions; they name
  // the one-call facts the run lemmas of `ChannelProperties` build on.

  /** A non-positive size gives capacity 0; a new channel is empty and open. */
  lemma CapacityNormalised(size: int)
    ensures size <= 0 ==> Capacity(size) == 0
    ensures size > 0 ==> Capacity(size) == size
    ensures Init<int>(size).buf == [] && !Init<int>(size).closed
  {
  }

  /** Each step keeps the capacity bound. */
  lemma StepsKeepBound<T>(s: State<T>, v: T, zero: T)
    requires Bounded(s)
    ensures CanSend(s) ==> Bounded(SendStep(s, v).0)
    ensures CanRecv(s) ==> Bounded(RecvStep(s, zero).0)
    ensures Bounded(CloseStep(s))
  {
  }

  /** Sending on an open channel with room appends the value at the tail (the
      push case of `SendStep`). */
  lemma SendOpenAppends<T>(s: State<T>, v: T)
    requires !s.closed && |s.buf| < s.cap
    ensures SendStep(s, v) == (State(s.buf + [v], s.cap, false), Sent)
  {
  }

  /** Sending on a closed channel fails and changes nothing, whatever the
      occupancy (the throw case of `SendStep`). */
  lemma SendClosedFails<T>(s: State<T>, v: T)
    requires s.closed
    ensures CanSend(s)
    ensures SendStep(s, v) == (s, ChannelClosed)
  {
  }

  /** Receiving from a non-empty buffer returns its head with `true` and removes
      exactly that (the pop case of `RecvStep`). */
  lemma RecvTakesHead<T>(s: State<T>, zero: T)
    requires |s.buf| > 0
    ensures CanRecv(s)
    ensures RecvStep(s, zero).1 == Received(s.buf[0], true)
    ensures [s.buf[0]] + RecvStep(s, zero).0.buf == s.buf
    ensures RecvStep(s, zero).0.closed == s.closed && RecvStep(s, zero).0.cap == s.cap
  {
  }

  /** An empty closed channel reports end of stream and stays as it is (the
      default-value case of `RecvStep`). */
  lemma RecvDrainedIsTerminal<T>(s: State<T>, zero: T)
    requires s.closed && s.buf == []
    ensures CanRecv(s)
    ensures RecvStep(s, zero) == (s, Received(zero, false))
  {
  }

  /** `Recv` is enabled on an open channel exactly when something is buffered. */
  lemma RecvEnabledWhenOpen<T>(s: State<T>)
    requires !s.closed
    ensures CanRecv(s) <==> |s.buf| > 0
  {
  }

  /** `Close` keeps the buffer and the capacity, and closing twice is closing once. */
  lemma CloseIdempotent<T>(s: State<T>)
    ensures CloseStep(s).buf == s.buf && CloseStep(s).cap == s.cap && CloseStep(s).closed
    ensures CloseStep(CloseStep(s)) == CloseStep(s)
  {
  }

  /** With capacity 0 `Send` is never enabled while the channel is open. */
  lemma ZeroCapacityBlocksSend<T>(s: State<T>)
    requires s.cap == 0 && !s.closed
    ensures !CanSend(s)
  {
  }

  /** The channel object. The mutex and the two condition variables are not
      modelled; `zero` stands for `T()`, which `Recv` returns at end of stream. */
  class BufferedChannel<T> {
    var buffer: seq<T>
    const capacity: nat
    var closed: bool
    const zero: T

    ghost predicate Valid()
      reads this
    {
      |buffer| <= capacity
    }

    /** The abstract state of the object. */
    function View(): State<T>
      reads this
    {
      State(buffer, capacity, closed)
    }

    constructor(size: int, zero: T)
      ensures Valid() && View() == Init(size) && this.zero == zero
      ensures capacity == (if size > 0 then size else 0)
      ensures buffer == [] && !closed
    {
      buffer := [];
      capacity := if size > 0 then size else 0;
      closed := false;
      this.zero := zero;
    }

    method Send(value: T) returns (outcome: SendOutcome)
      requires Valid() && CanSend(View())
      modifies this
      ensures Valid()
      ensures (View(), outcome) == SendStep(old(View()), value)
      ensures outcome == ChannelClosed <==> old(closed)
      ensures buffer == if old(closed) then old(buffer) else old(buffer) + [value]
      ensures closed == old(closed)
    {
      if closed {
        outcome := ChannelClosed;
        return;
      }
      buffer := buffer + [value];
      outcome := Sent;
    }

    method Recv() returns (value: T, ok: bool)
      requires Valid() && CanRecv(View())
      modifies this
      ensures Valid()
      ensures (View(), Received(value, ok)) == RecvStep(old(View()), zero)
      ensures ok <==> old(buffer) != []
      ensures ok ==> value == old(buffer)[0] && buffer == old(buffer)[1..]
      ensures !ok ==> value == zero && buffer == old(buffer)
      ensures closed == old(closed)
    {
      if buffer != [] {
        value := buffer[0];
        buffer := buffer[1..];
        return value, true;
      }
      return zero, false;
    }

    method Close()
      requires Valid()
      modifies this
      ensures Valid()
      ensures View() == CloseStep(old(View()))
      ensures closed && buffer == old(buffer)
    {
      closed := true;
    }
  }
}
