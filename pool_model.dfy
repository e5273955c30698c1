/**
 * The partition-to-worker registry as a value: what each event of the consumer
 * loop (consumer/kafka_consumer.go) does to the map from partition to worker state,
 * and which client calls it makes. The `Consumer` class is proved against these
 * functions; the lemmas here are the properties of the registry.
 */
module PoolModel {
  import opened Numeric
  import opened Wrappers
  import opened Kafka
  import opened ConsumerWorker

  type Pool = map<int32, WorkerState>

  /** A worker as `newWorker` makes it and `start` launches it. */
  function StartedWorker(p: int32): (w: WorkerState)
    ensures w.id == p as int && w.queue == [] && w.handled == [] && w.started && !w.closed
  {
    Started(NewWorker(p as int))
  }

  /** A pooled worker between events: well formed, of its own partition, running, its input open. */
  predicate LiveWorker(w: WorkerState, p: int32)
  {
    WellFormed(w) && w.id == p as int && w.started && !w.closed
  }

  predicate LivePool(v: Pool)
  {
    forall p | p in v :: LiveWorker(v[p], p)
  }

  predicate Distinct<T(==)>(s: seq<T>)
  {
    forall i, j :: 0 <= i < j < |s| ==> s[i] != s[j]
  }

  // ------------------------------------------------------------ one event

  /** Assignment: every listed partition gets a new started worker, replacing any present one. */
  function Assigned(v: Pool, parts: seq<int32>): (r: Pool)
    ensures r.Keys == v.Keys + (set q | q in parts)
    ensures forall p | p in r && p !in parts :: r[p] == v[p]
  {
    map p | p in v.Keys + (set q | q in parts) :: if p in parts then StartedWorker(p) else v[p]
  }

  /** Revocation: the listed partitions leave the pool. */
  function Revoked(v: Pool, parts: seq<int32>): (r: Pool)
    ensures r.Keys == v.Keys - (set q | q in parts)
    ensures forall p | p in r :: r[p] == v[p]
  {
    map p | p in v && p !in parts :: v[p]
  }

  /** A message: sent to its partition's worker when there is a worker and a handler. */
  function Routed(v: Pool, msg: Message, hasHandler: bool): (r: Pool)
    requires LivePool(v)
    ensures LivePool(r) && r.Keys == v.Keys
    ensures forall p | p in r && p != msg.partition :: r[p] == v[p]
  {
    if hasHandler && msg.partition in v then v[msg.partition := Sent(v[msg.partition], msg)] else v
  }

  /** A running worker after `stop` and `<-w.done`. */
  function Retired(w: WorkerState): (r: WorkerState)
    requires WellFormed(w) && w.started && !w.closed
    ensures Stopped(w).1 == InputClosed && Awaited(Stopped(w).0) == Some(r)
  {
    Awaited(Stopped(w).0).value
  }

  /** `stopWorkers`: every worker retired; the map itself is kept. */
  function ShutDown(v: Pool): (r: Pool)
    requires LivePool(v)
    ensures r.Keys == v.Keys
    ensures forall p | p in r :: r[p].closed && r[p].doneTaken && r[p].queue == []
  {
    map p | p in v :: Retired(v[p])
  }

  /** `stopWorkers` part way: the workers outside `remaining` are retired, the others untouched. */
  function PartlyShutDown(v: Pool, remaining: set<int32>): (r: Pool)
    requires LivePool(v)
    ensures r.Keys == v.Keys
    ensures remaining == {} ==> r == ShutDown(v)
    ensures remaining == v.Keys ==> r == v
  {
    map p | p in v :: if p in remaining then v[p] else Retired(v[p])
  }

  /** The one poll result that ends the loop: the "all brokers down" error. */
  predicate IsFatal(ev: Event) { ev.ErrorEvent? && ev.code.AllBrokersDown? }

  /** The registry after one event that does not end the loop; every such event keeps the pool live. */
  function StepView(v: Pool, ev: Event, hasHandler: bool): (r: Pool)
    requires LivePool(v)
    ensures LivePool(r)
  {
    match ev
    case MessageEvent(m) => Routed(v, m, hasHandler)
    case AssignedPartitions(ps) => Assigned(v, ps)
    case RevokedPartitions(ps) => Revoked(v, ps)
    case _ => v
  }

  /** The registry after a run of events, none of which ends the loop; the pool stays live. */
  function RunView(v: Pool, evs: seq<Event>, hasHandler: bool): (r: Pool)
    requires LivePool(v)
    ensures LivePool(r)
  {
    if evs == [] then v
    else StepView(RunView(v, evs[..|evs| - 1], hasHandler), evs[|evs| - 1], hasHandler)
  }

  // ------------------------------------------------------------ client calls

  function StartLog(parts: seq<int32>): (r: seq<Action>)
    ensures |r| == |parts| && forall k :: 0 <= k < |parts| ==> r[k] == WorkerStarted(parts[k])
  {
    if parts == [] then [] else [WorkerStarted(parts[0])] + StartLog(parts[1..])
  }

  /** The stops a revocation performs: one per listed partition whose worker is still present when it is reached. */
  function RevokeLog(present: set<int32>, parts: seq<int32>): seq<Action>
  {
    if parts == [] then []
    else
      var init, p := parts[..|parts| - 1], parts[|parts| - 1];
      RevokeLog(present, init) + (if p in present && p !in init then [WorkerStopped(p)] else [])
  }

  /** `stop` followed by receiving done, for each partition in the order given. */
  function StopDoneLog(order: seq<int32>): (r: seq<Action>)
    ensures |r| == 2 * |order|
  {
    if order == [] then []
    else StopDoneLog(order[..|order| - 1]) + [WorkerStopped(order[|order| - 1]), WorkerDone(order[|order| - 1])]
  }

  /** A message goes to a worker (no call), or is committed when its partition has none; without a handler it is dropped. */
  function RouteLog(present: set<int32>, msg: Message, hasHandler: bool): seq<Action>
  {
    if hasHandler && msg.partition !in present then [ClientCommit(msg)] else []
  }

  /** The client calls of one event that does not end the loop. */
  function StepLog(present: set<int32>, ev: Event, hasHandler: bool): seq<Action>
  {
    match ev
    case MessageEvent(m) => RouteLog(present, m, hasHandler)
    case AssignedPartitions(ps) => StartLog(ps) + [ClientAssign(ps)]
    case RevokedPartitions(ps) => [ClientUnassign] + RevokeLog(present, ps)
    case _ => []
  }

  /** The client calls of a run of events, none of which ends the loop. */
  function RunLog(v: Pool, evs: seq<Event>, hasHandler: bool): seq<Action>
    requires LivePool(v)
  {
    if evs == [] then []
    else
      var init := evs[..|evs| - 1];
      RunLog(v, init, hasHandler) + StepLog(RunView(v, init, hasHandler).Keys, evs[|evs| - 1], hasHandler)
  }

  /** The set of partitions currently assigned, from the rebalance events alone. */
  function AssignedSet(initial: set<int32>, evs: seq<Event>): set<int32>
  {
    if evs == [] then initial
    else
      var s := AssignedSet(initial, evs[..|evs| - 1]);
      match evs[|evs| - 1]
      case AssignedPartitions(ps) => s + (set q | q in ps)
      case RevokedPartitions(ps) => s - (set q | q in ps)
      case _ => s
  }

  /** The run up to event `i` inclusive is the run before it followed by that event's step. */
  lemma RunStep(v: Pool, evs: seq<Event>, i: nat, hasHandler: bool)
    requires LivePool(v) && i < |evs|
    ensures RunView(v, evs[..i + 1], hasHandler) == StepView(RunView(v, evs[..i], hasHandler), evs[i], hasHandler)
    ensures RunLog(v, evs[..i + 1], hasHandler) ==
            RunLog(v, evs[..i], hasHandler) + StepLog(RunView(v, evs[..i], hasHandler).Keys, evs[i], hasHandler)
  {
    assert evs[..i + 1][..i] == evs[..i];
  }

  // ------------------------------------------------------------ assignment

  /** After an assignment every listed partition has a new started worker with its own ID and an empty queue. */
  lemma AssignedRegistersAll(v: Pool, parts: seq<int32>, p: int32)
    requires p in parts
    ensures p in Assigned(v, parts) && Assigned(v, parts)[p] == StartedWorker(p)
    ensures LiveWorker(Assigned(v, parts)[p], p) && Assigned(v, parts)[p].queue == []
  {
  }

  /** An assignment leaves the entries of the partitions it does not list untouched and adds no others. */
  lemma AssignedKeepsOthers(v: Pool, parts: seq<int32>, p: int32)
    requires p !in parts
    ensures p in Assigned(v, parts) <==> p in v
    ensures p in v ==> Assigned(v, parts)[p] == v[p]
  {
  }

  /** An assignment of one more partition is the previous assignment with that partition's worker replaced. */
  lemma AssignedSnoc(v: Pool, parts: seq<int32>, p: int32)
    ensures Assigned(v, parts + [p]) == Assigned(v, parts)[p := StartedWorker(p)]
  {
    assert forall q :: q in parts + [p] <==> q in parts || q == p;
  }

  /** The start log of one more partition ends with that partition's start. */
  lemma StartLogSnoc(parts: seq<int32>, p: int32)
    ensures StartLog(parts + [p]) == StartLog(parts) + [WorkerStarted(p)]
  {
    var l, r := StartLog(parts + [p]), StartLog(parts) + [WorkerStarted(p)];
    assert |l| == |r|;
    forall k | 0 <= k < |l| ensures l[k] == r[k] {
      if k < |parts| {
        assert (parts + [p])[k] == parts[k];
      }
    }
  }

  // ------------------------------------------------------------ revocation

  /** After a revocation no listed partition is in the pool; every other entry is as it was. */
  lemma RevokedRemovesListed(v: Pool, parts: seq<int32>, p: int32)
    ensures p in parts ==> p !in Revoked(v, parts)
    ensures p !in parts ==> (p in Revoked(v, parts) <==> p in v)
    ensures p !in parts && p in v ==> Revoked(v, parts)[p] == v[p]
  {
  }

  /** Revoking partitions that have no worker changes nothing in the pool and stops nothing. */
  lemma RevokeAbsentIsNoOp(v: Pool, parts: seq<int32>)
    requires forall k :: 0 <= k < |parts| ==> parts[k] !in v
    ensures Revoked(v, parts) == v
    ensures StepLog(v.Keys, RevokedPartitions(parts), true) == [ClientUnassign]
  {
    RevokeLogAbsent(v.Keys, parts);
  }

  lemma {:induction false} RevokeLogAbsent(present: set<int32>, parts: seq<int32>)
    requires forall k :: 0 <= k < |parts| ==> parts[k] !in present
    ensures RevokeLog(present, parts) == []
  {
    if parts != [] {
      RevokeLogAbsent(present, parts[..|parts| - 1]);
    }
  }

  /** A revocation stops exactly the present listed workers, and only after `Unassign`. */
  lemma {:induction false} RevokeLogStopsPresent(present: set<int32>, parts: seq<int32>)
    ensures forall a :: a in RevokeLog(present, parts) ==>
              a.WorkerStopped? && a.partition in present && a.partition in parts
    ensures forall p :: p in present && p in parts ==> WorkerStopped(p) in RevokeLog(present, parts)
    ensures StepLog(present, RevokedPartitions(parts), true)[0] == ClientUnassign
  {
    if parts != [] {
      var init, p := parts[..|parts| - 1], parts[|parts| - 1];
      RevokeLogStopsPresent(present, init);
      assert forall q :: q in parts <==> q in init || q == p;
    }
  }

  /** A revocation stops each present listed worker once, whatever the repetitions in the list. */
  lemma {:induction false} RevokeLogStopsOnce(present: set<int32>, parts: seq<int32>)
    ensures Distinct(RevokeLog(present, parts))
  {
    if parts != [] {
      var init, p := parts[..|parts| - 1], parts[|parts| - 1];
      RevokeLogStopsOnce(present, init);
      RevokeLogStopsPresent(present, init);
      var before := RevokeLog(present, init);
      if p in present && p !in init {
        assert RevokeLog(present, parts) == before + [WorkerStopped(p)];
        forall i | 0 <= i < |before|
          ensures before[i] != WorkerStopped(p)
        {
          assert before[i] in before;
        }
      } else {
        assert RevokeLog(present, parts) == before;
      }
    }
  }

  /** A revocation of one more partition is the previous revocation without that partition. */
  lemma RevokedSnoc(v: Pool, parts: seq<int32>, p: int32)
    ensures Revoked(v, parts + [p]) == Revoked(v, parts) - {p}
  {
    assert forall q :: q in parts + [p] <==> q in parts || q == p;
  }

  /** The revocation log of one more partition stops it when it is present and not listed before. */
  lemma RevokeLogSnoc(present: set<int32>, parts: seq<int32>, p: int32)
    ensures RevokeLog(present, parts + [p]) ==
            RevokeLog(present, parts) + (if p in present && p !in parts then [WorkerStopped(p)] else [])
  {
    assert (parts + [p])[..|parts|] == parts;
  }

  // ------------------------------------------------------------ messages

  /** Routing a message: queued at its worker, or left untouched and committed; nothing at all without a handler. */
  lemma RoutedEffect(v: Pool, msg: Message, hasHandler: bool)
    requires LivePool(v)
    ensures !hasHandler ==> Routed(v, msg, hasHandler) == v && RouteLog(v.Keys, msg, hasHandler) == []
    ensures hasHandler && msg.partition in v ==>
              Routed(v, msg, hasHandler)[msg.partition].queue == v[msg.partition].queue + [msg] &&
              Routed(v, msg, hasHandler)[msg.partition].handled == v[msg.partition].handled &&
              RouteLog(v.Keys, msg, hasHandler) == []
    ensures hasHandler && msg.partition !in v ==>
              Routed(v, msg, hasHandler) == v && RouteLog(v.Keys, msg, hasHandler) == [ClientCommit(msg)]
    ensures Routed(v, msg, hasHandler).Keys == v.Keys
    ensures forall p | p in v && p != msg.partition :: Routed(v, msg, hasHandler)[p] == v[p]
  {
  }

  /** The pool holds a worker for exactly the partitions assigned and not since revoked. */
  lemma {:induction false} RunViewKeys(v: Pool, evs: seq<Event>, hasHandler: bool)
    requires LivePool(v)
    ensures RunView(v, evs, hasHandler).Keys == AssignedSet(v.Keys, evs)
  {
    if evs != [] {
      var init := evs[..|evs| - 1];
      RunViewKeys(v, init, hasHandler);
      var w := RunView(v, init, hasHandler);
      match evs[|evs| - 1]
      case MessageEvent(m) => RoutedEffect(w, m, hasHandler);
      case AssignedPartitions(ps) =>
        assert Assigned(w, ps).Keys == w.Keys + (set q | q in ps);
      case RevokedPartitions(ps) =>
        assert Revoked(w, ps).Keys == w.Keys - (set q | q in ps);
      case _ =>
    }
  }

  /** The messages of `evs` for partition `p`, in order. */
  function MessagesFor(evs: seq<Event>, p: int32): seq<Message>
  {
    if evs == [] then []
    else MessagesFor(evs[..|evs| - 1], p) +
         (if evs[|evs| - 1].MessageEvent? && evs[|evs| - 1].msg.partition == p then [evs[|evs| - 1].msg] else [])
  }

  predicate NoRebalance(evs: seq<Event>)
  {
    forall k :: 0 <= k < |evs| ==> !evs[k].AssignedPartitions? && !evs[k].RevokedPartitions?
  }

  /**
   * Per-partition FIFO order: between rebalances, a partition's worker holds its
   * messages in exactly the order they were polled, after what it held before.
   */
  lemma {:induction false} RunQueuesInOrder(v: Pool, evs: seq<Event>, p: int32)
    requires LivePool(v) && NoRebalance(evs) && p in v
    ensures p in RunView(v, evs, true)
    ensures RunView(v, evs, true)[p].queue == v[p].queue + MessagesFor(evs, p)
    ensures RunView(v, evs, true)[p].handled == v[p].handled
  {
    if evs != [] {
      var init := evs[..|evs| - 1];
      assert NoRebalance(init);
      RunQueuesInOrder(v, init, p);
      var w := RunView(v, init, true);
      var last := evs[|evs| - 1];
      if last.MessageEvent? {
        RoutedEffect(w, last.msg, true);
      }
    }
  }

  // ------------------------------------------------------------ shutdown

  /** Shutdown drains every worker: it has handled everything it held, in order, its input is closed and done was received. */
  lemma ShutDownDrains(v: Pool, p: int32)
    requires LivePool(v) && p in v
    ensures p in ShutDown(v) && ShutDown(v).Keys == v.Keys
    ensures ShutDown(v)[p].handled == v[p].handled + v[p].queue && ShutDown(v)[p].queue == []
    ensures ShutDown(v)[p].closed && ShutDown(v)[p].finished && ShutDown(v)[p].doneTaken
  {
    DoneAfterAllHandled(Stopped(v[p]).0);
  }

  /** The shutdown log of one more partition ends with its stop and its done signal. */
  lemma StopDoneLogSnoc(order: seq<int32>, p: int32)
    ensures StopDoneLog(order + [p]) == StopDoneLog(order) + [WorkerStopped(p), WorkerDone(p)]
  {
    assert (order + [p])[..|order|] == order;
  }

  /** Taking one more partition from those not yet stopped keeps the stop order a duplicate-free listing of the stopped ones. */
  lemma OrderSnoc(keys: set<int32>, remaining: set<int32>, order: seq<int32>, p: int32)
    requires p in remaining && remaining <= keys
    requires (forall q :: q in order <==> q in keys && q !in remaining) && Distinct(order)
    ensures forall q :: q in order + [p] <==> q in keys && q !in remaining - {p}
    ensures Distinct(order + [p])
  {
    assert p !in order;
  }

  /** In the shutdown log each partition is stopped immediately before its done signal is received. */
  lemma {:induction false} StopDoneLogOrder(order: seq<int32>, k: nat)
    requires k < |order|
    ensures StopDoneLog(order)[2 * k] == WorkerStopped(order[k])
    ensures StopDoneLog(order)[2 * k + 1] == WorkerDone(order[k])
  {
    var init := order[..|order| - 1];
    if k < |init| {
      StopDoneLogOrder(init, k);
    }
  }

  /** A calling-only action: neither `Subscribe`, `Close` nor a receive on a worker's done channel. */
  predicate MidRunAction(a: Action)
  {
    !a.ClientSubscribe? && !a.ClientClose? && !a.WorkerDone?
  }

  /** A revocation only stops workers, and only ones that are present. */
  lemma {:induction false} RevokeLogOnlyStops(present: set<int32>, parts: seq<int32>)
    ensures forall k :: 0 <= k < |RevokeLog(present, parts)| ==>
              RevokeLog(present, parts)[k].WorkerStopped? && RevokeLog(present, parts)[k].partition in present
  {
    if parts != [] {
      RevokeLogOnlyStops(present, parts[..|parts| - 1]);
    }
  }

  /** One event never subscribes, closes the client or waits for a worker to finish. */
  lemma StepLogMidRun(present: set<int32>, ev: Event, hasHandler: bool)
    ensures forall k :: 0 <= k < |StepLog(present, ev, hasHandler)| ==> MidRunAction(StepLog(present, ev, hasHandler)[k])
  {
    if ev.RevokedPartitions? {
      RevokeLogOnlyStops(present, ev.partitions);
    }
  }

  /**
   * Between subscribing and the shutdown, the loop makes no `Subscribe` or `Close` call
   * and waits on no worker: those happen only before the first event and after the last.
   */
  lemma {:induction false} RunLogMidRun(v: Pool, evs: seq<Event>, hasHandler: bool)
    requires LivePool(v)
    ensures forall k :: 0 <= k < |RunLog(v, evs, hasHandler)| ==> MidRunAction(RunLog(v, evs, hasHandler)[k])
  {
    if evs != [] {
      var init := evs[..|evs| - 1];
      RunLogMidRun(v, init, hasHandler);
      StepLogMidRun(RunView(v, init, hasHandler).Keys, evs[|evs| - 1], hasHandler);
    }
  }
}
