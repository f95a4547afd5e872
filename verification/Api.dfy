/** The API objects the controllers read and write, and the network in between. */
module Api {
  import opened Wrappers

  const KIND_DEPLOYMENT := "Deployment"
  const KIND_STATEFUL_SET := "StatefulSet"
  const ORIGINAL_REPLICAS_KEY := "sleepod.io/original-replicas"
  const SLEEP_ORDER_FINALIZER := "sleepod.io/sleep-order-finalizer"
  const SLEEPING_STATE := "Sleeping"
  const AWAKE_STATE := "Awake"
  const TARGET_NOT_FOUND_STATE := "Error TargetNotFound"

  predicate Supported(kind: string) {
    kind == KIND_DEPLOYMENT || kind == KIND_STATEFUL_SET
  }

  type Int32 = x: int | -0x8000_0000 <= x < 0x8000_0000

  /** Truncation of a machine integer to 32 bits. */
  function ToInt32(n: int): Int32 {
    (n + 0x8000_0000) % 0x1_0000_0000 - 0x8000_0000
  }

  lemma ToInt32Wraps(n: int)
    ensures (ToInt32(n) - n) % 0x1_0000_0000 == 0
  {
  }

  /** A Deployment or StatefulSet. Absent replicas mean one; an absent annotation
      map is Go's nil map. */
  datatype Workload = Workload(replicas: Option<Int32>, annotations: Option<map<string, string>>) {
    function Replicas(): Int32 {
      if replicas.Some? then replicas.value else 1
    }

    /** The saved count, as text, if the key is there. */
    function Saved(): Option<string> {
      if annotations.Some? && ORIGINAL_REPLICAS_KEY in annotations.value
      then Some(annotations.value[ORIGINAL_REPLICAS_KEY])
      else None
    }

    function WithSaved(text: string): Workload {
      var present := if annotations.Some? then annotations.value else map[];
      this.(annotations := Some(present[ORIGINAL_REPLICAS_KEY := text]))
    }

    function WithoutSaved(): Workload
      requires annotations.Some?
    {
      this.(annotations := Some(annotations.value - {ORIGINAL_REPLICAS_KEY}))
    }

    function Scaled(n: Int32): Workload {
      this.(replicas := Some(n))
    }
  }

  datatype TargetRef = TargetRef(kind: string, name: string)

  datatype OrderSpec = OrderSpec(target: TargetRef, wakeAt: string, sleepAt: string,
                                 timezone: string, workingDays: string)

  datatype OrderStatus = OrderStatus(currentState: string, originalReplicas: Option<Int32>,
                                     lastTransitionTime: Option<int>, nextOperationTime: Option<int>)

  const EMPTY_STATUS := OrderStatus("", None, None, None)

  /** The digest of an order's parameters; how digests are computed is left open. */
  datatype Hash = Hash(text: string)

  datatype SleepOrder = SleepOrder(spec: OrderSpec, configHash: Option<Hash>, finalizers: set<string>,
                                   deleting: bool, status: OrderStatus)

  // ----- The network -----

  /** What becomes of one write: done, refused, done but reported as failed, or
      refused because the object changed since it was read. */
  datatype Answer = Applied | Rejected | Lost | Conflict

  /** Answers to come: a controller that stops after some writes, or a script
      after which every write is applied. */
  datatype Network = StopsAfter(left: nat) | Script(answers: seq<Answer>) {
    function Next(): Answer {
      match this
      case StopsAfter(left) => if left == 0 then Rejected else Applied
      case Script(answers) => if answers == [] then Applied else answers[0]
    }

    function Rest(): Network {
      match this
      case StopsAfter(left) => if left == 0 then this else StopsAfter(left - 1)
      case Script(answers) => if answers == [] then this else Script(answers[1..])
    }
  }

  const HEALTHY := Script([])

  predicate Lands(a: Answer) {
    a.Applied? || a.Lost?
  }
}
