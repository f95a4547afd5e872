/** One reconcile pass of a sleep order as a function of what the API server
    holds and of how the network answers its writes. */
module SleepOrderSpec {
  import opened Wrappers
  import opened Text
  import opened Api
  import opened Schedule

  datatype PassError =
    | BadSchedule(schedule: ScheduleError)
    | UnsupportedKind
    | AnnotationMissing
    | AnnotationUnparsable
    | OrderNotFound
    | WriteFailed
    | WriteConflict

  /** The API server's view of one order and its target. `omitsEmpty` says whether
      a stored empty annotation map is read back as a nil map. */
  datatype World = World(target: Option<Workload>, order: Option<SleepOrder>,
                         omitsEmpty: bool, network: Network)

  datatype Sent = Sent(world: World, error: Option<PassError>)
  datatype Snapshot = Snapshot(world: World, copy: Workload, result: Result<Int32, PassError>)
  datatype Attempt = Attempt(world: World, copy: Workload, stop: bool, error: Option<PassError>)
  datatype Pass = Pass(world: World, result: Result<Option<int>, PassError>)

  // ----- Writes -----

  function ErrorOf(a: Answer): Option<PassError> {
    match a
    case Applied => None
    case Conflict => Some(WriteConflict)
    case _ => Some(WriteFailed)
  }

  function Stored(copy: Workload, omitsEmpty: bool): Workload {
    if omitsEmpty && copy.annotations == Some(map[]) then copy.(annotations := None) else copy
  }

  function UpdateTarget(w: World, copy: Workload): Sent {
    var a := w.network.Next();
    Sent(w.(network := w.network.Rest(),
            target := if Lands(a) then Some(Stored(copy, w.omitsEmpty)) else w.target),
         ErrorOf(a))
  }

  /** A terminating order goes away with its last finalizer. */
  function Kept(order: SleepOrder): Option<SleepOrder> {
    if order.deleting && order.finalizers == {} then None else Some(order)
  }

  function UpdateOrder(w: World, order: SleepOrder): Sent {
    var a := w.network.Next();
    Sent(w.(network := w.network.Rest(), order := if Lands(a) then Kept(order) else w.order), ErrorOf(a))
  }

  // ----- Saving and restoring the count -----

  /** `copy` is the copy in memory; annotations are read afresh, replicas are not. */
  function SnapshotReplicas(w: World, copy: Workload): (s: Snapshot)
    requires w.target.Some?
    ensures s.world.target.Some?
  {
    var saved := w.target.value.WithSaved(Itoa(copy.Replicas()));
    var sent := UpdateTarget(w, saved);
    Snapshot(sent.world, saved, if sent.error.None? then Ok(copy.Replicas()) else Err(sent.error.value))
  }

  function RestoreReplicas(w: World): (s: Snapshot)
    requires w.target.Some?
    ensures s.world.target.Some?
  {
    var copy := w.target.value;
    if copy.annotations.None? then Snapshot(w, copy, Err(AnnotationMissing))
    else if copy.Saved().None? || copy.Saved().value == "" then Snapshot(w, copy, Ok(0))
    else match Atoi(copy.Saved().value)
      case None => Snapshot(w, copy, Err(AnnotationUnparsable))
      case Some(n) =>
        var restored := copy.Scaled(ToInt32(n)).WithoutSaved();
        var sent := UpdateTarget(w, restored);
        Snapshot(sent.world, restored, if sent.error.None? then Ok(ToInt32(n)) else Err(sent.error.value))
  }

  // ----- Finalizer and deletion -----

  /** One run of the retried closure; `captured` is the count read before the
      first run, whatever earlier runs have done since. */
  function FinalizerAttempt(w: World, copy: Workload, captured: Int32): (a: Attempt)
    requires w.target.Some?
    ensures a.world.target.Some?
  {
    if w.order.None? then Attempt(w, copy, true, None)
    else
      var order := w.order.value;
      if !order.deleting then
        if SLEEP_ORDER_FINALIZER in order.finalizers then Attempt(w, copy, false, None)
        else
          var sent := UpdateOrder(w, order.(finalizers := order.finalizers + {SLEEP_ORDER_FINALIZER}));
          Attempt(sent.world, copy, false, sent.error)
      else if SLEEP_ORDER_FINALIZER !in order.finalizers then Attempt(w, copy, true, None)
      else if captured != 0 then ReleaseOrder(w, copy, order)
      else
        var r := RestoreReplicas(w);
        if r.result.Err? then Attempt(r.world, r.copy, false, Some(r.result.error))
        else
          var again := r.copy.Scaled(r.result.value);
          var sent := UpdateTarget(r.world, again);
          if sent.error.Some? then Attempt(sent.world, again, false, sent.error)
          else ReleaseOrder(sent.world, again, order)
  }

  function ReleaseOrder(w: World, copy: Workload, order: SleepOrder): Attempt {
    var sent := UpdateOrder(w, order.(finalizers := order.finalizers - {SLEEP_ORDER_FINALIZER}));
    Attempt(sent.world, copy, sent.error.None?, sent.error)
  }

  const RETRY_STEPS: nat := 5

  function HandleFinalizer(w: World, copy: Workload, captured: Int32, tries: nat): (r: Attempt)
    requires w.target.Some?
    ensures r.world.target.Some?
    decreases tries
  {
    var a := FinalizerAttempt(w, copy, captured);
    if a.error == Some(WriteConflict) && tries > 1
    then HandleFinalizer(a.world, a.copy, captured, tries - 1)
    else a
  }

  // ----- Status -----

  function NewStatus(former: OrderStatus, state: string, nextEvent: int, replicas: Option<Int32>, clock: int)
    : OrderStatus
  {
    OrderStatus(state, replicas,
                if former.currentState != state then Some(clock) else former.lastTransitionTime,
                Some(nextEvent))
  }

  function UpdateStatus(w: World, state: string, nextEvent: int, replicas: Option<Int32>, clock: int): Pass {
    if w.order.None? then Pass(w, Err(OrderNotFound))
    else
      var order := w.order.value;
      var former := order.status;
      if former.currentState == state && former.nextOperationTime == Some(nextEvent) && former.originalReplicas == replicas
      then Pass(w, Ok(Some(nextEvent)))
      else
        var a := w.network.Next();
        var status := NewStatus(former, state, nextEvent, replicas, clock);
        Pass(w.(network := w.network.Rest(), order := if Lands(a) then Some(order.(status := status)) else w.order),
             if a.Applied? then Ok(Some(nextEvent)) else Err(ErrorOf(a).value))
  }

  // ----- The pass -----

  function HandleSleep(w: World, copy: Workload, nextEvent: int, clock: int): Pass
    requires w.target.Some?
  {
    match copy.Saved()
    case Some(text) => (
      match Atoi(text)
      case None => Pass(w, Err(AnnotationUnparsable))
      case Some(n) => ScaleDown(w, copy, ToInt32(n), nextEvent, clock))
    case None =>
      var s := SnapshotReplicas(w, copy);
      if s.result.Err? then Pass(s.world, Err(s.result.error))
      else ScaleDown(s.world, s.copy, s.result.value, nextEvent, clock)
  }

  function ScaleDown(w: World, copy: Workload, original: Int32, nextEvent: int, clock: int): Pass {
    var sent := UpdateTarget(w, copy.Scaled(0));
    if sent.error.Some? then Pass(sent.world, Err(sent.error.value))
    else UpdateStatus(sent.world, SLEEPING_STATE, nextEvent, Some(original), clock)
  }

  function HandleWake(w: World, current: Int32, nextEvent: int, clock: int): Pass
    requires w.target.Some?
  {
    if current != 0 then UpdateStatus(w, AWAKE_STATE, nextEvent, Some(current), clock)
    else
      var r := RestoreReplicas(w);
      if r.result.Err? then Pass(r.world, Err(r.result.error))
      else
        var sent := UpdateTarget(r.world, r.copy.Scaled(r.result.value));
        if sent.error.Some? then Pass(sent.world, Err(sent.error.value))
        else UpdateStatus(sent.world, AWAKE_STATE, nextEvent, Some(r.result.value), clock)
  }

  function TargetNotFound(w: World, order: SleepOrder, now: int, clock: int): Pass {
    var sent := UpdateOrder(w, order.(finalizers := order.finalizers - {SLEEP_ORDER_FINALIZER}));
    if sent.error.Some? then Pass(sent.world, Err(sent.error.value))
    else UpdateStatus(sent.world, TARGET_NOT_FOUND_STATE, now + MINUTE, None, clock)
  }

  ghost function TimeStateFor(lib: TimeLibrary, spec: OrderSpec, now: int): Result<TimeState, ScheduleError> {
    TimeStateOf(lib, now, spec.wakeAt, spec.sleepAt, spec.timezone, spec.workingDays)
  }

  /** A whole pass. An error of the finalizer step that does not ask to stop is
      dropped, and the pass goes on with the copy as the step left it. */
  ghost function Reconcile(lib: TimeLibrary, w: World, now: int, clock: int): Pass {
    if w.order.None? then Pass(w, Ok(None))
    else
      var order := w.order.value;
      if !Supported(order.spec.target.kind) then Pass(w, Err(UnsupportedKind))
      else if w.target.None? then TargetNotFound(w, order, now, clock)
      else
        match TimeStateFor(lib, order.spec, now)
        case Err(e) => Pass(w, Err(BadSchedule(e)))
        case Ok(time) =>
          var captured := w.target.value.Replicas();
          var f := HandleFinalizer(w, w.target.value, captured, RETRY_STEPS);
          if f.stop then Pass(f.world, if f.error.None? then Ok(None) else Err(f.error.value))
          else ActOn(f.world, f.copy, captured, time, clock)
  }

  function ActOn(w: World, copy: Workload, captured: Int32, time: TimeState, clock: int): Pass
    requires w.target.Some?
  {
    if time.shouldSleep then HandleSleep(w, copy, time.nextEvent, clock)
    else HandleWake(w, captured, time.nextEvent, clock)
  }
}
