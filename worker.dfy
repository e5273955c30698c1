/**
 * The per-partition worker (consumer/worker.go) as a sequential state machine.
 *
 * The Go worker is a goroutine that ranges over an unbuffered channel and then
 * sends `true` on an unbuffered `done` channel. Here the channel is the FIFO
 * `queue`; the goroutine's steps are explicit: `HandledNext` is one pass of the
 * range loop, `Finished` is the loop ending on a closed, empty channel with the
 * goroutine blocked on `w.done <- true`, and `doneTaken` records that the value on
 * `done` has been received. The transitions are functions on `WorkerState`; the
 * `Worker` class performs them in place.
 */
module ConsumerWorker {
  import opened Wrappers
  import opened Kafka

  /** The state of a worker. */
  datatype WorkerState = WorkerState(
    id: int,
    queue: seq<Message>,
    handled: seq<Message>,
    started: bool,
    closed: bool,
    finished: bool,
    doneTaken: bool)

  /** How `stop` ends: by closing the input, by taking the ready done signal, or by closing a closed channel (a panic). */
  datatype StopResult = InputClosed | DoneReceived | DoubleClosePanic

  /** The done signal is sent only once the input is closed and drained, and received only once it is sent. */
  predicate WellFormed(w: WorkerState)
  {
    && (w.finished ==> w.started && w.closed && w.queue == [])
    && (w.doneTaken ==> w.finished)
  }

  // ------------------------------------------------------------ transitions

  /** `newWorker(id, handler)`. */
  function NewWorker(id: int): (w: WorkerState)
    ensures w.id == id && w.queue == [] && w.handled == []
    ensures !w.started && !w.closed && !w.finished && !w.doneTaken
  {
    WorkerState(id, [], [], false, false, false, false)
  }

  /** `start`: the draining goroutine is launched. */
  function Started(w: WorkerState): WorkerState
  {
    w.(started := true)
  }

  /** `w.messages <- msg`. Sending on a closed channel panics, so the input must be open. */
  function Sent(w: WorkerState, msg: Message): WorkerState
    requires !w.closed
  {
    w.(queue := w.queue + [msg])
  }

  /**
   * One pass of `for msg := range w.messages`: the oldest message goes to the
   * handler. A handler error is only logged, so the message counts as handled either way.
   */
  function HandledNext(w: WorkerState): WorkerState
    requires w.started && w.queue != []
  {
    w.(queue := w.queue[1..], handled := w.handled + [w.queue[0]])
  }

  /** The range loop ends on a closed, empty channel; the done value is then ready. */
  function Finished(w: WorkerState): WorkerState
    requires w.started && w.closed && w.queue == []
  {
    w.(finished := true)
  }

  /** The goroutine runs to its end after the input is closed. */
  function Drained(w: WorkerState): WorkerState
  {
    w.(queue := [], handled := w.handled + w.queue, finished := true)
  }

  /**
   * `stop`: when the done value is ready it is taken and nothing is closed;
   * otherwise the input is closed, which panics when it is closed already.
   */
  function Stopped(w: WorkerState): (r: (WorkerState, StopResult))
    ensures r.1 == DoneReceived <==> w.finished && !w.doneTaken
    ensures r.1 == DoubleClosePanic <==> w.closed && !(w.finished && !w.doneTaken)
    ensures r.1 != DoubleClosePanic ==> r.0.closed || r.0.doneTaken
    ensures r.0.queue == w.queue && r.0.handled == w.handled
  {
    if w.finished && !w.doneTaken then (w.(doneTaken := true), DoneReceived)
    else if w.closed then (w, DoubleClosePanic)
    else (w.(closed := true), InputClosed)
  }

  /**
   * `<-w.done`: once the input is closed, the running goroutine drains the queue
   * and hands over the done value. It blocks forever (`None`) when the input is still
   * open, the worker was never started, or the value was already taken.
   */
  function Awaited(w: WorkerState): (r: Option<WorkerState>)
    ensures r.Some? <==> w.started && w.closed && !w.doneTaken
    ensures r.Some? ==> r.value.queue == [] && r.value.handled == w.handled + w.queue && r.value.doneTaken
  {
    if w.started && w.closed && !w.doneTaken then Some(Drained(w).(doneTaken := true)) else None
  }

  // ------------------------------------------------------------ properties

  /** Every transition keeps a worker well formed. */
  lemma TransitionsKeepWellFormed(w: WorkerState, msg: Message)
    requires WellFormed(w)
    ensures WellFormed(NewWorker(w.id)) && WellFormed(Started(w))
    ensures !w.closed ==> WellFormed(Sent(w, msg))
    ensures w.started && w.queue != [] ==> WellFormed(HandledNext(w))
    ensures w.started && w.closed && w.queue == [] ==> WellFormed(Finished(w))
    ensures WellFormed(Stopped(w).0)
    ensures Awaited(w).Some? ==> WellFormed(Awaited(w).value)
  {
  }

  /**
   * The worker's state after `k` passes of the range loop. Messages are handled
   * in exactly the order they were queued: `k` passes hand over the first `k`,
   * and nothing else about the worker changes.
   */
  function HandledMany(w: WorkerState, k: nat): (r: WorkerState)
    requires w.started && k <= |w.queue|
    ensures r.handled == w.handled + w.queue[..k] && r.queue == w.queue[k..]
    ensures r == w.(queue := r.queue, handled := r.handled)
  {
    if k == 0 then w
    else
      var prev := HandledMany(w, k - 1);
      assert w.queue[..k] == w.queue[..k - 1] + [w.queue[k - 1]];
      HandledNext(prev)
  }

  /** Draining is running the range loop over the whole queue and then ending it. */
  lemma DrainedIsHandledAll(w: WorkerState)
    requires w.started && w.closed
    ensures Drained(w) == Finished(HandledMany(w, |w.queue|))
  {
    assert w.queue[..|w.queue|] == w.queue;
  }

  /** Stopping a running worker whose input is open closes the input and does not panic. */
  lemma StopOpenWorker(w: WorkerState)
    requires WellFormed(w) && !w.closed
    ensures Stopped(w) == (w.(closed := true), InputClosed)
  {
  }

  /** Stopping a worker whose done value is ready takes it and does not close the input again. */
  lemma StopReadyWorker(w: WorkerState)
    requires w.finished && !w.doneTaken
    ensures Stopped(w) == (w.(doneTaken := true), DoneReceived)
  {
  }

  /** A second `stop` before the worker has drained closes a closed channel: the close-once guard does not cover it. */
  lemma StopTwicePanics(w: WorkerState)
    requires WellFormed(w) && !w.closed
    ensures Stopped(Stopped(w).0).1 == DoubleClosePanic
  {
  }

  /** The done value is received only after the input is closed and every queued message is handled, in order. */
  lemma DoneAfterAllHandled(w: WorkerState)
    requires Awaited(w).Some?
    ensures w.started && w.closed
    ensures Awaited(w).value.queue == [] && Awaited(w).value.handled == w.handled + w.queue
    ensures Awaited(w).value.finished && Awaited(w).value.doneTaken
  {
  }

  // ------------------------------------------------------------ in place

  class Worker {
    const id: int
    const handle: Message -> Outcome
    /** Messages sent to the worker and not yet passed to the handler. */
    var queue: seq<Message>
    /** Messages passed to `HandleMessage`, in order. */
    var handled: seq<Message>
    /** Every message ever sent to the worker. */
    ghost var received: seq<Message>
    var started: bool
    var closed: bool
    var finished: bool
    var doneTaken: bool

    ghost predicate Valid()
      reads this
    {
      received == handled + queue && WellFormed(View())
    }

    function View(): WorkerState
      reads this
    {
      WorkerState(id, queue, handled, started, closed, finished, doneTaken)
    }

    /** `newWorker(id, handler)`. */
    constructor (id: int, handle: Message -> Outcome)
      ensures Valid() && View() == NewWorker(id) && this.handle == handle && received == []
    {
      this.id := id;
      this.handle := handle;
      queue, handled, received := [], [], [];
      started, closed, finished, doneTaken := false, false, false, false;
    }

    method Start()
      requires Valid()
      modifies this
      ensures Valid() && View() == Started(old(View())) && received == old(received)
    {
      started := true;
    }

    method Send(msg: Message)
      requires Valid() && !closed
      modifies this
      ensures Valid() && View() == Sent(old(View()), msg)
      ensures received == old(received) + [msg]
    {
      queue := queue + [msg];
      received := received + [msg];
    }

    method HandleNext() returns (outcome: Outcome)
      requires Valid() && started && queue != []
      modifies this
      ensures Valid() && View() == HandledNext(old(View())) && received == old(received)
      ensures outcome == handle(old(queue)[0])
    {
      var msg := queue[0];
      outcome := handle(msg);
      handled := handled + [msg];
      queue := queue[1..];
    }

    method Finish()
      requires Valid() && started && closed && queue == []
      modifies this
      ensures Valid() && View() == Finished(old(View())) && received == old(received)
    {
      finished := true;
    }

    /** The goroutine runs to its end: every queued message is handled in order, then done is ready. */
    method Drain()
      requires Valid() && started && closed
      modifies this
      ensures Valid() && View() == Drained(old(View())) && received == old(received)
    {
      while queue != []
        invariant Valid() && received == old(received)
        invariant handled + queue == old(handled) + old(queue)
        invariant started && closed && finished == old(finished) && doneTaken == old(doneTaken)
        decreases |queue|
      {
        var _ := HandleNext();
      }
      Finish();
    }

    method Stop() returns (result: StopResult)
      requires Valid()
      modifies this
      ensures Valid() && (View(), result) == Stopped(old(View())) && received == old(received)
    {
      if finished && !doneTaken {
        doneTaken := true;
        result := DoneReceived;
      } else if closed {
        result := DoubleClosePanic;
      } else {
        closed := true;
        result := InputClosed;
      }
    }

    /** `<-w.done`; `ok` is false, and nothing changes, when the receive would block forever. */
    method AwaitDone() returns (ok: bool)
      requires Valid()
      modifies this
      ensures Valid() && received == old(received)
      ensures ok == Awaited(old(View())).Some?
      ensures ok ==> View() == Awaited(old(View())).value
      ensures !ok ==> View() == old(View())
    {
      ok := started && closed && !doneTaken;
      if ok {
        Drain();
        doneTaken := true;
      }
    }
  }

  /** What a worker was sent, in order, is what it handled followed by what it still holds. */
  lemma HandledIsPrefixOfReceived(w: Worker)
    requires w.Valid()
    ensures w.handled == w.received[..|w.handled|]
    ensures w.finished ==> w.handled == w.received
  {
    assert w.received == w.handled + w.queue;
  }
}
