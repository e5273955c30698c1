/**
 * The Kafka consumer (consumer/kafka_consumer.go): the partition-to-worker pool
 * that the rebalance callback keeps and the poll loop routes messages through.
 * Each pooled worker is held as its state (`ConsumerWorker.WorkerState`) and moves
 * by the worker's transitions. Client calls are appended to `calls` instead of
 * being performed; `Poll` becomes a finite sequence of events handed to `Run`.
 */
module KafkaConsumer {
  import opened Numeric
  import opened Wrappers
  import opened Kafka
  import opened ConsumerWorker
  import opened PoolModel

  class Consumer {
    /** `workerPool`: the state of the worker pooled for each partition. */
    var pool: Pool
    /** Whether `handler` is non-nil, and what its `HandleMessage` does. */
    const hasHandler: bool
    const handle: Message -> Outcome
    /** The client calls made and the worker steps taken, in order. */
    var calls: seq<Action>

    /** Between events every pooled worker is running with its input open. */
    ghost predicate Valid()
      reads this
    {
      LivePool(pool)
    }

    /**
     * The state `shutdownWorkers` leaves, started from pool `v` with the calls
     * `prior`: every worker retired, each stopped and awaited once in `order`,
     * then `Unassign`.
     */
    ghost predicate ShutDownFrom(v: Pool, prior: seq<Action>, order: seq<int32>)
      reads this
    {
      && LivePool(v)
      && pool == ShutDown(v)
      && (forall p :: p in order <==> p in v) && Distinct(order)
      && calls == prior + StopDoneLog(order) + [ClientUnassign]
    }

    /**
     * The state after the events `evs`, none of which ends the loop, starting from
     * pool `v0` with the calls `prior`.
     */
    ghost predicate RanFrom(v0: Pool, prior: seq<Action>, evs: seq<Event>)
      reads this
    {
      && LivePool(v0)
      && pool == RunView(v0, evs, hasHandler)
      && calls == prior + RunLog(v0, evs, hasHandler)
    }

    /**
     * `NewConsumer` once the client exists: an empty pool, subscribed to `topic`, the
     * value of the handler's `Topic()`. The handler must be present: `handler.Topic()`
     * on a nil handler panics before the consumer exists.
     */
    constructor (topic: string, hasHandler: bool, handle: Message -> Outcome)
      requires hasHandler
      ensures Valid() && pool == map[]
      ensures this.hasHandler == hasHandler && this.handle == handle
      ensures calls == [ClientSubscribe(topic)]
    {
      pool := map[];
      this.hasHandler := hasHandler;
      this.handle := handle;
      calls := [ClientSubscribe(topic)];
    }

    /**
     * The rebalance callback on assignment: a new worker is made and started for
     * every listed partition, in order, replacing any worker already pooled for
     * it (the replaced one is not stopped); then `Assign`.
     */
    method Assign(parts: seq<int32>)
      requires Valid()
      modifies this
      ensures Valid()
      ensures pool == Assigned(old(pool), parts)
      ensures calls == old(calls) + StartLog(parts) + [ClientAssign(parts)]
    {
      ghost var v0, calls0 := pool, calls;
      var i := 0;
      while i < |parts|
        invariant 0 <= i <= |parts|
        invariant pool == Assigned(v0, parts[..i])
        invariant calls == calls0 + StartLog(parts[..i])
      {
        var p := parts[i];
        AssignedSnoc(v0, parts[..i], p);
        StartLogSnoc(parts[..i], p);
        assert parts[..i + 1] == parts[..i] + [p];
        var w := Started(NewWorker(p as int));
        pool := pool[p := w];
        AppendAssoc(calls0, StartLog(parts[..i]), [WorkerStarted(p)]);
        calls := calls + [WorkerStarted(p)];
        i := i + 1;
      }
      assert parts[..i] == parts;
      calls := calls + [ClientAssign(parts)];
    }

    /**
     * The rebalance callback on revocation: `Unassign` first, then every listed
     * partition that still has a worker gets it stopped and removed. The stop
     * closes the worker's input; the worker goes on draining and is not waited for.
     */
    method Revoke(parts: seq<int32>)
      requires Valid()
      modifies this
      ensures Valid()
      ensures pool == Revoked(old(pool), parts)
      ensures calls == old(calls) + [ClientUnassign] + RevokeLog(old(pool).Keys, parts)
    {
      ghost var v0 := pool;
      calls := calls + [ClientUnassign];
      ghost var calls0 := calls;
      var i := 0;
      while i < |parts|
        invariant 0 <= i <= |parts|
        invariant pool == Revoked(v0, parts[..i])
        invariant calls == calls0 + RevokeLog(v0.Keys, parts[..i])
      {
        var p := parts[i];
        RevokedSnoc(v0, parts[..i], p);
        RevokeLogSnoc(v0.Keys, parts[..i], p);
        assert parts[..i + 1] == parts[..i] + [p];
        if p in pool {
          var (stopped, result) := Stopped(pool[p]);
          assert result == InputClosed;
          pool := pool - {p};
          AppendAssoc(calls0, RevokeLog(v0.Keys, parts[..i]), [WorkerStopped(p)]);
          calls := calls + [WorkerStopped(p)];
        }
        i := i + 1;
      }
      assert parts[..i] == parts;
    }

    /**
     * A polled message: sent to its partition's worker, or committed when the
     * partition has none; dropped when there is no handler.
     */
    method Route(msg: Message)
      requires Valid()
      modifies this
      ensures Valid()
      ensures pool == Routed(old(pool), msg, hasHandler)
      ensures calls == old(calls) + RouteLog(old(pool).Keys, msg, hasHandler)
    {
      if hasHandler {
        var p := msg.partition;
        if p in pool {
          pool := pool[p := Sent(pool[p], msg)];
        } else {
          calls := calls + [ClientCommit(msg)];
        }
      }
    }

    /** A worker's goroutine handles its oldest message, at any point while the consumer runs. */
    method Progress(p: int32) returns (outcome: Outcome)
      requires Valid() && p in pool && pool[p].queue != []
      modifies this
      ensures Valid() && calls == old(calls)
      ensures outcome == handle(old(pool)[p].queue[0])
      ensures pool == old(pool)[p := HandledNext(old(pool)[p])]
    {
      outcome := handle(pool[p].queue[0]);
      pool := pool[p := HandledNext(pool[p])];
    }

    /** `stopWorkers`: each worker in turn, in map order, is stopped and its done signal awaited. */
    method StopWorkers() returns (order: seq<int32>)
      requires Valid()
      modifies this
      ensures pool == ShutDown(old(pool))
      ensures (forall p :: p in order <==> p in old(pool)) && Distinct(order)
      ensures calls == old(calls) + StopDoneLog(order)
    {
      ghost var v0, calls0 := pool, calls;
      var remaining := pool.Keys;
      order := [];
      while remaining != {}
        invariant LivePool(v0) && remaining <= v0.Keys
        invariant forall q :: q in order <==> q in v0 && q !in remaining
        invariant Distinct(order)
        invariant pool == PartlyShutDown(v0, remaining)
        invariant calls == calls0 + StopDoneLog(order)
        decreases remaining
      {
        remaining, order := StopNext(v0, calls0, remaining, order);
      }
    }

    /** One pass of `stopWorkers`: some worker not yet stopped gets `stop`, which closes its input, and `<-w.done`, which waits until it has drained. */
    method StopNext(ghost v0: Pool, ghost calls0: seq<Action>, remaining: set<int32>, order: seq<int32>)
      returns (remaining': set<int32>, order': seq<int32>)
      requires LivePool(v0) && remaining <= v0.Keys && remaining != {}
      requires forall q :: q in order <==> q in v0 && q !in remaining
      requires Distinct(order)
      requires pool == PartlyShutDown(v0, remaining)
      requires calls == calls0 + StopDoneLog(order)
      modifies this
      ensures remaining' < remaining
      ensures forall q :: q in order' <==> q in v0 && q !in remaining'
      ensures Distinct(order')
      ensures pool == PartlyShutDown(v0, remaining')
      ensures calls == calls0 + StopDoneLog(order')
    {
      var p :| p in remaining;
      var (stopped, result) := Stopped(pool[p]);
      assert result == InputClosed;
      var done := Awaited(stopped);
      assert PartlyShutDown(v0, remaining - {p}) == pool[p := done.value];
      pool := pool[p := done.value];
      StopDoneLogSnoc(order, p);
      AppendAssoc(calls0, StopDoneLog(order), [WorkerStopped(p), WorkerDone(p)]);
      calls := calls + [WorkerStopped(p), WorkerDone(p)];
      OrderSnoc(v0.Keys, remaining, order, p);
      remaining', order' := remaining - {p}, order + [p];
    }

    /** `shutdownWorkers`: stop every worker, then `Unassign`. The pool itself is not cleared. */
    method ShutdownWorkers() returns (order: seq<int32>)
      requires Valid()
      modifies this
      ensures ShutDownFrom(old(pool), old(calls), order)
    {
      order := StopWorkers();
      calls := calls + [ClientUnassign];
    }

    /** `Close`: `Unassign`, then close the client; the workers are left as they are. */
    method Close()
      modifies this
      ensures pool == old(pool) && calls == old(calls) + [ClientUnassign, ClientClose]
    {
      calls := calls + [ClientUnassign, ClientClose];
    }

    /**
     * One pass of the `Run` loop's switch, for an event that does not end the loop:
     * a message is routed, an assignment change goes to the rebalance callback, and
     * timeouts, end-of-partition, other errors and other events change nothing.
     */
    method Step(ev: Event)
      requires Valid() && !IsFatal(ev)
      modifies this
      ensures Valid() && pool == StepView(old(pool), ev, hasHandler)
      ensures calls == old(calls) + StepLog(old(pool).Keys, ev, hasHandler)
    {
      match ev
      case MessageEvent(m) =>
        Route(m);
      case AssignedPartitions(ps) =>
        AppendAssoc(calls, StartLog(ps), [ClientAssign(ps)]);
        Assign(ps);
      case RevokedPartitions(ps) =>
        AppendAssoc(calls, [ClientUnassign], RevokeLog(pool.Keys, ps));
        Revoke(ps);
      case ErrorEvent(_) =>
      case NoEvent =>
      case PartitionEOF(_) =>
      case OtherEvent =>
    }

    /**
     * `Run` over the events that `Poll` yields. Once "all brokers down" arrives, at
     * index `stoppedAt`, the workers are shut down and the error returned; when the
     * events run out first no error is returned (the source polls forever) and
     * `stoppedAt` is their number.
     */
    method Run(events: seq<Event>) returns (err: Option<ErrorCode>, stoppedAt: nat, order: seq<int32>)
      requires Valid()
      modifies this
      ensures stoppedAt <= |events| && (err.None? <==> stoppedAt == |events|)
      ensures forall k :: 0 <= k < stoppedAt ==> !IsFatal(events[k])
      ensures err.Some? ==> err == Some(AllBrokersDown) && IsFatal(events[stoppedAt])
      ensures err.None? ==> RanFrom(old(pool), old(calls), events)
      ensures err.Some? ==>
                ShutDownFrom(RunView(old(pool), events[..stoppedAt], hasHandler),
                             old(calls) + RunLog(old(pool), events[..stoppedAt], hasHandler), order)
    {
      var i := Loop(events);
      stoppedAt := i;
      if i < |events| {
        order := ShutdownWorkers();
        err := Some(AllBrokersDown);
      } else {
        assert events[..i] == events;
        err, order := None, [];
      }
    }

    /** The `Run` loop up to the first "all brokers down", or over all the events when none is one. */
    method Loop(events: seq<Event>) returns (i: nat)
      requires Valid()
      modifies this
      ensures i <= |events| && (i < |events| ==> IsFatal(events[i]))
      ensures forall k :: 0 <= k < i ==> !IsFatal(events[k])
      ensures RanFrom(old(pool), old(calls), events[..i])
    {
      ghost var v0, calls0 := pool, calls;
      i := 0;
      while i < |events| && !IsFatal(events[i])
        invariant 0 <= i <= |events|
        invariant forall k :: 0 <= k < i ==> !IsFatal(events[k])
        invariant RanFrom(v0, calls0, events[..i])
      {
        Advance(v0, calls0, events, i);
        i := i + 1;
      }
    }

    /** One pass of the `Run` loop on an event that does not end it, after the events before it have been handled. */
    method Advance(ghost v0: Pool, ghost calls0: seq<Action>, events: seq<Event>, i: nat)
      requires i < |events| && !IsFatal(events[i]) && RanFrom(v0, calls0, events[..i])
      modifies this
      ensures RanFrom(v0, calls0, events[..i + 1])
    {
      RunStep(v0, events, i, hasHandler);
      AppendAssoc(calls0, RunLog(v0, events[..i], hasHandler), StepLog(RunView(v0, events[..i], hasHandler).Keys, events[i], hasHandler));
      Step(events[i]);
    }
  }
}
