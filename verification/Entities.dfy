/** The rows of Arbiter's tables, as the store package reads and writes them. A table is a
    sequence of rows in creation order and a row's id is its position, so "no such row" is an
    id that is not an index. */
module Entities {

  datatype Option<+T> = None | Some(value: T)

  type NodeId = nat
  type JobId = nat
  type TaskId = nat

  /** The node statuses that some code path writes. */
  datatype NodeStatus = Ready | NotReady | Dead | Cordoned

  /** The task statuses that some code path writes. */
  datatype TaskStatus = Pending | Scheduled | Running | Succeeded | Failed

  const BIN_PACK := "bin_pack"
  const SPREAD := "spread"

  /** An amount of CPU (millicores) and memory (megabytes). */
  datatype Resources = Resources(cpu: int, mem: int) {

    function Plus(other: Resources): Resources {
      Resources(cpu + other.cpu, mem + other.mem)
    }

    predicate IsSum(a: Resources, b: Resources) {
      cpu == a.cpu + b.cpu && mem == a.mem + b.mem
    }

    function Times(n: int): Resources {
      Resources(cpu * n, mem * n)
    }

    predicate AtMost(other: Resources) {
      cpu <= other.cpu && mem <= other.mem
    }

    predicate Same(other: Resources) {
      cpu == other.cpu && mem == other.mem
    }

    predicate Positive() {
      cpu > 0 && mem > 0
    }
  }

  const NOTHING := Resources(0, 0)

  lemma SameIsEqual(a: Resources, b: Resources)
    ensures a.Same(b) <==> a == b
  {}

  datatype Node = Node(
    id: NodeId,
    hostname: string,
    address: string,
    capacity: Resources,
    labels: Option<map<string, string>>,
    status: NodeStatus,
    epoch: int)

  datatype Job = Job(
    request: Resources,
    replicas: int,
    retryLimit: int,
    policy: string,
    constraints: map<string, string>)

  datatype Task = Task(
    job: JobId,
    status: TaskStatus,
    assignedNode: Option<NodeId>,
    assignedEpoch: Option<int>,
    retriesUsed: int,
    exitCode: Option<int>,
    lastError: Option<string>,
    scheduledAt: Option<int>,
    startedAt: Option<int>,
    finishedAt: Option<int>,
    nextRetryAt: Option<int>)

  /** A claimed task together with the fields of its job that placement looks at. */
  datatype TaskRequest = TaskRequest(
    id: TaskId,
    request: Resources,
    policy: string,
    constraints: map<string, string>)

  /** A row of the audit log, with the data that its message text carries. */
  datatype Event =
    | JobSubmitted(job: JobId)
    | NodeRegistered(node: NodeId)
    | NodeNotReady(node: NodeId)
    | NodeRecovered(node: NodeId)
    | NodeDead(node: NodeId)
    | NodeCordoned(node: NodeId)
    | TaskScheduled(task: TaskId, onto: NodeId, epoch: int)
    | TaskRunning(task: TaskId)
    | TaskSucceeded(task: TaskId)
    | TaskFailed(task: TaskId)
    | TaskOrphaned(task: TaskId)
    | TaskRequeued(task: TaskId)
    | TaskRetryScheduled(task: TaskId)

  /** The task holds capacity on its node. */
  predicate Active(t: Task) {
    t.status == Scheduled || t.status == Running
  }

  predicate Terminal(t: Task) {
    t.status == Succeeded || t.status == Failed
  }

  predicate ActiveOn(t: Task, n: NodeId) {
    Active(t) && t.assignedNode == Some(n)
  }
}
