/** The sleep order controller: passes that change the API server's objects step
    by step, each proved to do what its specification function says. */
module SleepOrderController {
  import opened Wrappers
  import opened Text
  import opened Api
  import opened Schedule
  import Spec = SleepOrderSpec
  import opened Conservation

  type Error = Spec.PassError

  /** The API server, as far as one order and its target go. */
  class ApiServer {
    var target: Option<Workload>
    var order: Option<SleepOrder>
    var network: Network
    const omitsEmpty: bool

    constructor (target: Option<Workload>, order: Option<SleepOrder>, omitsEmpty: bool, network: Network)
      ensures World() == Spec.World(target, order, omitsEmpty, network)
    {
      this.target, this.order, this.omitsEmpty, this.network := target, order, omitsEmpty, network;
    }

    function World(): Spec.World
      reads this
    {
      Spec.World(target, order, omitsEmpty, network)
    }

    method Answered() returns (a: Answer)
      modifies this`network
      ensures a == old(network).Next() && network == old(network).Rest()
    {
      a := network.Next();
      network := network.Rest();
    }

    method UpdateTarget(copy: Workload) returns (error: Option<Error>)
      modifies this
      ensures Spec.Sent(World(), error) == Spec.UpdateTarget(old(World()), copy)
    {
      var a := Answered();
      if Lands(a) {
        target := Some(Spec.Stored(copy, omitsEmpty));
      }
      error := Spec.ErrorOf(a);
    }

    method UpdateOrder(copy: SleepOrder) returns (error: Option<Error>)
      modifies this
      ensures Spec.Sent(World(), error) == Spec.UpdateOrder(old(World()), copy)
    {
      var a := Answered();
      if Lands(a) {
        order := Spec.Kept(copy);
      }
      error := Spec.ErrorOf(a);
    }

    method UpdateOrderStatus(copy: SleepOrder) returns (error: Option<Error>)
      modifies this
      ensures World() == old(World()).(network := old(network).Rest(),
                           order := if Lands(old(network).Next()) then Some(copy) else old(order))
      ensures error == Spec.ErrorOf(old(network).Next())
    {
      var a := Answered();
      if Lands(a) {
        order := Some(copy);
      }
      error := Spec.ErrorOf(a);
    }
  }

  /** The methods work on copies of the server's objects, and return the copies
      they change. */
  class SleepOrderReconciler {
    const client: ApiServer
    const lib: TimeLibrary

    constructor (client: ApiServer, lib: TimeLibrary)
      ensures this.client == client && this.lib == lib
    {
      this.client, this.lib := client, lib;
    }

    method SnapshotReplicas(copy: Workload) returns (changed: Workload, result: Result<Int32, Error>)
      requires client.target.Some?
      modifies client
      ensures Spec.Snapshot(client.World(), changed, result) == Spec.SnapshotReplicas(old(client.World()), copy)
    {
      var replicas := copy.Replicas();
      changed := client.target.value;
      changed := changed.WithSaved(Itoa(replicas));
      var error := client.UpdateTarget(changed);
      result := if error.None? then Ok(replicas) else Err(error.value);
    }

    method RestoreReplicas() returns (changed: Workload, result: Result<Int32, Error>)
      requires client.target.Some?
      modifies client
      ensures Spec.Snapshot(client.World(), changed, result) == Spec.RestoreReplicas(old(client.World()))
    {
      changed := client.target.value;
      if changed.annotations.None? {
        return changed, Err(Spec.AnnotationMissing);
      }
      if changed.Saved().None? || changed.Saved().value == "" {
        return changed, Ok(0);
      }
      var parsed := Atoi(changed.Saved().value);
      if parsed.None? {
        return changed, Err(Spec.AnnotationUnparsable);
      }
      var replicas := ToInt32(parsed.value);
      changed := changed.Scaled(replicas);
      changed := changed.WithoutSaved();
      var error := client.UpdateTarget(changed);
      result := if error.None? then Ok(replicas) else Err(error.value);
    }

    /** The closure that is retried on conflict. */
    method FinalizerAttempt(copy: Workload, currentReplicas: Int32)
      returns (changed: Workload, shouldStop: bool, error: Option<Error>)
      requires client.target.Some?
      modifies client
      ensures client.target.Some?
      ensures Spec.Attempt(client.World(), changed, shouldStop, error)
           == Spec.FinalizerAttempt(old(client.World()), copy, currentReplicas)
    {
      changed, shouldStop := copy, false;
      if client.order.None? {
        return changed, true, None;
      }
      var sleepOrder := client.order.value;
      if !sleepOrder.deleting {
        if SLEEP_ORDER_FINALIZER !in sleepOrder.finalizers {
          sleepOrder := sleepOrder.(finalizers := sleepOrder.finalizers + {SLEEP_ORDER_FINALIZER});
          error := client.UpdateOrder(sleepOrder);
          return changed, false, error;
        }
        return changed, false, None;
      }
      if SLEEP_ORDER_FINALIZER in sleepOrder.finalizers {
        if currentReplicas == 0 {
          var result;
          changed, result := RestoreReplicas();
          if result.Err? {
            return changed, false, Some(result.error);
          }
          changed := changed.Scaled(result.value);
          error := client.UpdateTarget(changed);
          if error.Some? {
            return;
          }
        }
        sleepOrder := sleepOrder.(finalizers := sleepOrder.finalizers - {SLEEP_ORDER_FINALIZER});
        error := client.UpdateOrder(sleepOrder);
        if error.Some? {
          return;
        }
      }
      return changed, true, None;
    }

    method HandleFinalizer(copy: Workload, currentReplicas: Int32)
      returns (changed: Workload, shouldStop: bool, error: Option<Error>)
      requires client.target.Some?
      modifies client
      ensures client.target.Some?
      ensures Spec.Attempt(client.World(), changed, shouldStop, error)
           == Spec.HandleFinalizer(old(client.World()), copy, currentReplicas, Spec.RETRY_STEPS)
    {
      ghost var whole := Spec.HandleFinalizer(client.World(), copy, currentReplicas, Spec.RETRY_STEPS);
      var tries := Spec.RETRY_STEPS;
      changed, shouldStop, error := copy, false, None;
      while true
        invariant 1 <= tries <= Spec.RETRY_STEPS
        invariant client.target.Some?
        invariant Spec.HandleFinalizer(client.World(), changed, currentReplicas, tries) == whole
        decreases tries
      {
        changed, shouldStop, error := FinalizerAttempt(changed, currentReplicas);
        if error != Some(Spec.WriteConflict) || tries == 1 {
          return;
        }
        tries := tries - 1;
      }
    }

    method HandleSleep(copy: Workload, nextEvent: int, clock: int) returns (result: Result<Option<int>, Error>)
      requires client.target.Some?
      modifies client
      ensures Spec.Pass(client.World(), result) == Spec.HandleSleep(old(client.World()), copy, nextEvent, clock)
    {
      var changed := copy;
      var originalReplicas: Int32;
      if changed.Saved().Some? {
        var parsed := Atoi(changed.Saved().value);
        if parsed.None? {
          return Err(Spec.AnnotationUnparsable);
        }
        originalReplicas := ToInt32(parsed.value);
      } else {
        var saved;
        changed, saved := SnapshotReplicas(changed);
        if saved.Err? {
          return Err(saved.error);
        }
        originalReplicas := saved.value;
      }
      changed := changed.Scaled(0);
      var error := client.UpdateTarget(changed);
      if error.Some? {
        return Err(error.value);
      }
      result := UpdateStatus(SLEEPING_STATE, nextEvent, Some(originalReplicas), clock);
    }

    method HandleWake(currentReplicas: Int32, nextEvent: int, clock: int) returns (result: Result<Option<int>, Error>)
      requires client.target.Some?
      modifies client
      ensures Spec.Pass(client.World(), result) == Spec.HandleWake(old(client.World()), currentReplicas, nextEvent, clock)
    {
      var replicas := currentReplicas;
      if replicas == 0 {
        var changed, restored := RestoreReplicas();
        if restored.Err? {
          return Err(restored.error);
        }
        changed := changed.Scaled(restored.value);
        var error := client.UpdateTarget(changed);
        if error.Some? {
          return Err(error.value);
        }
        replicas := restored.value;
      }
      result := UpdateStatus(AWAKE_STATE, nextEvent, Some(replicas), clock);
    }

    method UpdateStatus(state: string, nextEvent: int, originalReplicas: Option<Int32>, clock: int)
      returns (result: Result<Option<int>, Error>)
      modifies client
      ensures Spec.Pass(client.World(), result)
           == Spec.UpdateStatus(old(client.World()), state, nextEvent, originalReplicas, clock)
    {
      if client.order.None? {
        return Err(Spec.OrderNotFound);
      }
      var latest := client.order.value;
      var newStatus := latest.status;
      newStatus := newStatus.(currentState := state, nextOperationTime := Some(nextEvent));
      newStatus := newStatus.(originalReplicas := originalReplicas);
      if latest.status.currentState != state {
        newStatus := newStatus.(lastTransitionTime := Some(clock));
      }
      if latest.status.currentState == newStatus.currentState
         && latest.status.nextOperationTime == newStatus.nextOperationTime
         && latest.status.originalReplicas == newStatus.originalReplicas {
        return Ok(Some(nextEvent));
      }
      latest := latest.(status := newStatus);
      var error := client.UpdateOrderStatus(latest);
      if error.Some? {
        return Err(error.value);
      }
      result := Ok(Some(nextEvent));
    }

    /** One pass; the result is the instant to be called again, if any. */
    method Reconcile(now: int, clock: int) returns (result: Result<Option<int>, Error>)
      modifies client
      ensures Spec.Pass(client.World(), result) == Spec.Reconcile(lib, old(client.World()), now, clock)
      ensures CarefulPass(lib, old(client.World()), now, old(client.network)) ==>
                SameCount(old(client.World()), client.World())
    {
      if CarefulPass(lib, client.World(), now, client.network) {
        CarefulPassKeepsCount(lib, client.World(), now, clock);
      }
      hide CarefulPass, SameCount;
      if client.order.None? {
        return Ok(None);
      }
      var sleepOrder := client.order.value;
      var spec := sleepOrder.spec;
      if !Supported(spec.target.kind) {
        return Err(Spec.UnsupportedKind);
      }
      if client.target.None? {
        var nextRetry := now + MINUTE;
        sleepOrder := sleepOrder.(finalizers := sleepOrder.finalizers - {SLEEP_ORDER_FINALIZER});
        var error := client.UpdateOrder(sleepOrder);
        if error.Some? {
          return Err(error.value);
        }
        result := UpdateStatus(TARGET_NOT_FOUND_STATE, nextRetry, None, clock);
        return;
      }
      var copy := client.target.value;
      var time := GetTimeState(lib, now, spec.wakeAt, spec.sleepAt, spec.timezone, spec.workingDays);
      if time.Err? {
        return Err(Spec.BadSchedule(time.error));
      }
      var currentReplicas := copy.Replicas();
      var done, error;
      copy, done, error := HandleFinalizer(copy, currentReplicas);
      if done {
        return if error.None? then Ok(None) else Err(error.value);
      }
      if time.value.shouldSleep {
        result := HandleSleep(copy, time.value.nextEvent, clock);
      } else {
        result := HandleWake(currentReplicas, time.value.nextEvent, clock);
      }
    }
  }
}
