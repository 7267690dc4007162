/** The shared store as a state machine. A step is one store transaction, except where the scheduler
    and the death of a node spread one over several statements that others can interleave with:
    a scheduling tick is claim, read nodes, read allocations, commit; a death is select, finish.
    Rows that an open transaction has locked block the other writers of those rows. */
module ClusterState {
  import opened Entities
  import opened Engine

  type Replica = nat

  const CLAIM_LIMIT := 50
  const MAX_BACKOFF_MS := 16000

  /** An open scheduling transaction: the rows it has locked, and what it has read so far. */
  datatype Tick = Tick(
    reqs: seq<TaskRequest>,
    nodes: Option<seq<Node>>,
    allocs: Option<map<NodeId, Resources>>)

  /** `ticks` holds each replica's open scheduling transaction, `deaths` for each node whose death is
      being recorded the task rows that transaction has locked. */
  datatype Cluster = Cluster(
    nodes: seq<Node>,
    jobs: seq<Job>,
    tasks: seq<Task>,
    events: seq<Event>,
    ticks: map<Replica, Tick>,
    deaths: map<NodeId, seq<TaskId>>)

  const INITIAL := Cluster([], [], [], [], map[], map[])

  // ---------- jobs ----------

  function DefaultedPolicy(policy: string): string {
    if policy == "" then BIN_PACK else policy
  }

  /** The job passes the checks of CreateJob and of the jobs table. */
  predicate JobAccepted(job: Job) {
    job.replicas >= 1 && job.request.Positive() && DefaultedPolicy(job.policy) in {BIN_PACK, SPREAD}
  }

  function NewTask(j: JobId): Task {
    Task(j, Pending, None, None, 0, None, None, None, None, None, None)
  }

  function Replicas(j: JobId, n: nat): seq<Task> {
    if n == 0 then [] else Replicas(j, n - 1) + [NewTask(j)]
  }

  function CreateJob(s: Cluster, job: Job): Cluster {
    if !JobAccepted(job) then s
    else
      var j := |s.jobs|;
      s.(jobs := s.jobs + [job.(policy := DefaultedPolicy(job.policy))],
         tasks := s.tasks + Replicas(j, job.replicas),
         events := s.events + [JobSubmitted(j)])
  }

  // ---------- nodes ----------

  datatype Registration = Registration(
    hostname: string,
    address: string,
    capacity: Resources,
    labels: Option<map<string, string>>)

  predicate RegistrationAccepted(reg: Registration) {
    reg.hostname != "" && reg.address != "" && reg.capacity.Positive()
  }

  predicate SameIdentity(node: Node, hostname: string, address: string) {
    node.hostname == hostname && node.address == address
  }

  /** The row that the unique index on hostname and address finds among the first `k` rows. */
  function FindNode(nodes: seq<Node>, hostname: string, address: string, k: nat): (r: Option<NodeId>)
    requires k <= |nodes|
    ensures r.Some? ==> r.value < k && SameIdentity(nodes[r.value], hostname, address)
    ensures r.None? ==> forall i :: 0 <= i < k ==> !SameIdentity(nodes[i], hostname, address)
  {
    if k == 0 then None
    else if SameIdentity(nodes[k - 1], hostname, address) then Some(k - 1)
    else FindNode(nodes, hostname, address, k - 1)
  }

  function ExistingNode(s: Cluster, reg: Registration): Option<NodeId> {
    FindNode(s.nodes, reg.hostname, reg.address, |s.nodes|)
  }

  function RegisterNode(s: Cluster, reg: Registration): Cluster {
    var labels := if reg.labels.None? then Some(map[]) else reg.labels;
    var found := ExistingNode(s, reg);
    var id := if found.Some? then found.value else |s.nodes|;
    var nodes :=
      if found.Some? then
        s.nodes[id := s.nodes[id].(capacity := reg.capacity, labels := labels, status := Ready, epoch := s.nodes[id].epoch + 1)]
      else s.nodes + [Node(id, reg.hostname, reg.address, reg.capacity, labels, Ready, 0)];
    s.(nodes := nodes, events := s.events + [NodeRegistered(id)])
  }

  /** The three status changes that callers of UpdateNodeStatus make. */
  datatype StatusChange = LoseTouch | Recover | Cordon

  function NewStatus(change: StatusChange): NodeStatus {
    match change
    case LoseTouch => NotReady
    case Recover => Ready
    case Cordon => Cordoned
  }

  function StatusEvent(change: StatusChange, n: NodeId): Event {
    match change
    case LoseTouch => NodeNotReady(n)
    case Recover => NodeRecovered(n)
    case Cordon => NodeCordoned(n)
  }

  /** No guard on the status the node has: even a dead node is overwritten. */
  function UpdateNodeStatus(s: Cluster, n: NodeId, change: StatusChange): Cluster {
    if n >= |s.nodes| then s
    else s.(nodes := s.nodes[n := s.nodes[n].(status := NewStatus(change))],
            events := s.events + [StatusEvent(change, n)])
  }

  /** The ids, in order, of the first `k` tasks that are scheduled or running on `n`. */
  function ActiveIds(tasks: seq<Task>, n: NodeId, k: nat): (ids: seq<TaskId>)
    requires k <= |tasks|
    ensures forall t: TaskId :: t in ids <==> t < k && ActiveOn(tasks[t], n)
    ensures forall i, j :: 0 <= i < j < |ids| ==> ids[i] < ids[j]
  {
    if k == 0 then []
    else
      var before := ActiveIds(tasks, n, k - 1);
      assert forall i :: 0 <= i < |before| ==> before[i] in before;
      if ActiveOn(tasks[k - 1], n) then before + [k - 1] else before
  }

  /** The death transaction has bumped the node's epoch and selected the rows to orphan; none of it
      is visible to others until it finishes, but node row and task rows are locked. */
  function BeginDeath(s: Cluster, n: NodeId): Cluster {
    if n >= |s.nodes| then s else s.(deaths := s.deaths[n := ActiveIds(s.tasks, n, |s.tasks|)])
  }

  function OrphanRow(t: Task): Task {
    t.(status := Pending, assignedNode := None, assignedEpoch := None,
       scheduledAt := None, startedAt := None, finishedAt := None, nextRetryAt := None,
       lastError := Some("requeued after node failure"))
  }

  /** Orphan one task and requeue it as pending. */
  function OrphanTask(s: Cluster, t: TaskId): Cluster
    requires t < |s.tasks|
  {
    s.(tasks := s.tasks[t := OrphanRow(s.tasks[t])],
       events := s.events + [TaskOrphaned(t), TaskRequeued(t)])
  }

  predicate InRange(ids: seq<TaskId>, n: nat) {
    forall i :: 0 <= i < |ids| ==> ids[i] < n
  }

  function OrphanTasks(s: Cluster, ids: seq<TaskId>): (s': Cluster)
    requires InRange(ids, |s.tasks|)
    ensures |s'.tasks| == |s.tasks|
  {
    if ids == [] then s else OrphanTask(OrphanTasks(s, ids[..|ids| - 1]), ids[|ids| - 1])
  }

  function RecordDeath(s: Cluster, n: NodeId): Cluster
    requires n < |s.nodes|
  {
    s.(nodes := s.nodes[n := s.nodes[n].(status := Dead, epoch := s.nodes[n].epoch + 1)],
       events := s.events + [NodeDead(n)])
  }

  /** Commit the death: the transaction is closed, the node is dead with the next epoch, and the rows
      selected when it began are pending again. */
  function FinishDeath(s: Cluster, n: NodeId): Cluster
    requires n < |s.nodes| && n in s.deaths && InRange(s.deaths[n], |s.tasks|)
  {
    OrphanTasks(RecordDeath(s.(deaths := s.deaths - {n}), n), s.deaths[n])
  }

  // ---------- task reports ----------

  /** A status report. A worker's report names the node and epoch it runs as; `None` stands for the
      empty node id, which skips the fence. */
  datatype Report = Report(
    task: TaskId,
    status: TaskStatus,
    exitCode: Option<int>,
    error: string,
    node: Option<NodeId>,
    epoch: int)

  datatype Outcome = Updated | AlreadyDone | NotFound | Stale | BadTransition | Unsupported

  /** What a report does to one row, and what it logs. */
  datatype RowUpdate = RowUpdate(outcome: Outcome, row: Task, logged: seq<Event>)

  /** The report's node and epoch are those of the task's assignment, or no node was given. */
  predicate PassesFence(t: Task, node: Option<NodeId>, epoch: int) {
    node.Some? ==> t.assignedNode == node && t.assignedEpoch == Some(epoch)
  }

  function Pow2(n: nat): (r: nat)
    ensures r >= 1
  {
    if n == 0 then 1 else 2 * Pow2(n - 1)
  }

  /** Exponential backoff in milliseconds: 500 doubled for each further retry, at most 16 s. */
  function RetryBackoff(retriesUsed: int): (ms: int)
    ensures 500 <= ms <= MAX_BACKOFF_MS
    ensures 1 <= retriesUsed <= 6 ==> ms == 500 * Pow2(retriesUsed - 1)
    ensures retriesUsed >= 6 ==> ms == MAX_BACKOFF_MS
  {
    var shift := if retriesUsed - 1 < 0 then 0 else if retriesUsed - 1 > 5 then 5 else retriesUsed - 1;
    assert Pow2(0) == 1 && Pow2(1) == 2 && Pow2(2) == 4 && Pow2(3) == 8 && Pow2(4) == 16 && Pow2(5) == 32;
    500 * Pow2(shift)
  }

  function Coalesce(a: Option<int>, b: int): Option<int> {
    if a.Some? then a else Some(b)
  }

  function Requeued(t: Task, r: Report, now: int): Task {
    t.(status := Pending, retriesUsed := t.retriesUsed + 1,
       exitCode := r.exitCode, lastError := if r.error != "" then Some(r.error) else None,
       assignedNode := None, assignedEpoch := None,
       scheduledAt := None, startedAt := None, finishedAt := None,
       nextRetryAt := Some(now + RetryBackoff(t.retriesUsed + 1)))
  }

  function Finished(t: Task, r: Report, now: int): Task {
    t.(status := r.status, exitCode := r.exitCode, lastError := if r.error != "" then Some(r.error) else None,
       finishedAt := Some(now), startedAt := Coalesce(t.startedAt, now), nextRetryAt := None)
  }

  function UpdateRow(t: Task, retryLimit: int, r: Report, now: int): RowUpdate {
    if !PassesFence(t, r.node, r.epoch) then RowUpdate(Stale, t, [])
    else if (r.status == Succeeded || r.status == Failed) && t.status == r.status then RowUpdate(AlreadyDone, t, [])
    else if r.status == Running then
      if !Active(t) then RowUpdate(BadTransition, t, [])
      else RowUpdate(Updated, t.(status := Running, startedAt := Coalesce(t.startedAt, now), nextRetryAt := None),
                     if t.status == Scheduled then [TaskRunning(r.task)] else [])
    else if r.status == Succeeded || r.status == Failed then
      if !Active(t) then RowUpdate(BadTransition, t, [])
      else if r.status == Failed && t.retriesUsed < retryLimit then
        RowUpdate(Updated, Requeued(t, r, now), [TaskRetryScheduled(r.task)])
      else
        RowUpdate(Updated, Finished(t, r, now),
                  [if r.status == Failed then TaskFailed(r.task) else TaskSucceeded(r.task)])
    else RowUpdate(Unsupported, t, [])
  }

  function RetryLimit(jobs: seq<Job>, t: Task): int {
    if t.job < |jobs| then jobs[t.job].retryLimit else 0
  }

  function ReportOutcome(s: Cluster, r: Report, now: int): Outcome {
    if r.task >= |s.tasks| then NotFound
    else UpdateRow(s.tasks[r.task], RetryLimit(s.jobs, s.tasks[r.task]), r, now).outcome
  }

  function UpdateTaskStatus(s: Cluster, r: Report, now: int): Cluster {
    if r.task >= |s.tasks| then s
    else
      var up := UpdateRow(s.tasks[r.task], RetryLimit(s.jobs, s.tasks[r.task]), r, now);
      s.(tasks := s.tasks[r.task := up.row], events := s.events + up.logged)
  }

  // ---------- scheduling ticks ----------

  predicate Locked(s: Cluster, t: TaskId) {
    || (exists r :: r in s.ticks && t in Ids(s.ticks[r].reqs))
    || (exists n :: n in s.deaths && t in s.deaths[n])
  }

  function Ids(reqs: seq<TaskRequest>): (ids: seq<TaskId>)
    ensures |ids| == |reqs| && forall i :: 0 <= i < |ids| ==> ids[i] == reqs[i].id
  {
    seq(|reqs|, i requires 0 <= i < |reqs| => reqs[i].id)
  }

  predicate Due(t: Task, now: int) {
    t.nextRetryAt.None? || t.nextRetryAt.value <= now
  }

  function RequestFor(s: Cluster, t: TaskId): TaskRequest
    requires t < |s.tasks| && s.tasks[t].job < |s.jobs|
  {
    var job := s.jobs[s.tasks[t].job];
    TaskRequest(t, job.request, job.policy, job.constraints)
  }

  predicate Distinct<T(==)>(s: seq<T>) {
    forall i, j :: 0 <= i < j < |s| ==> s[i] != s[j]
  }

  /** The rows may be claimed: distinct, pending, due, and not locked by another transaction. */
  predicate Claimable(s: Cluster, ids: seq<TaskId>, now: int) {
    && 0 < |ids| <= CLAIM_LIMIT
    && Distinct(ids)
    && forall i :: 0 <= i < |ids| ==>
                     && ids[i] < |s.tasks| && s.tasks[ids[i]].job < |s.jobs|
                     && s.tasks[ids[i]].status == Pending && Due(s.tasks[ids[i]], now) && !Locked(s, ids[i])
  }

  function Claim(s: Cluster, r: Replica, ids: seq<TaskId>): Cluster
    requires forall i :: 0 <= i < |ids| ==> ids[i] < |s.tasks| && s.tasks[ids[i]].job < |s.jobs|
  {
    var reqs := seq(|ids|, i requires 0 <= i < |ids| => RequestFor(s, ids[i]));
    s.(ticks := s.ticks[r := Tick(reqs, None, None)])
  }

  /** Everything that is neither dead nor cordoned, in creation order. */
  function ActiveNodes(nodes: seq<Node>, k: nat): seq<Node>
    requires k <= |nodes|
  {
    if k == 0 then []
    else
      var before := ActiveNodes(nodes, k - 1);
      if Watched(nodes[k - 1]) then before + [nodes[k - 1]] else before
  }

  predicate Watched(node: Node) {
    node.status != Dead && node.status != Cordoned
  }

  function ReadNodes(s: Cluster, r: Replica): Cluster
    requires r in s.ticks
  {
    s.(ticks := s.ticks[r := s.ticks[r].(nodes := Some(ActiveNodes(s.nodes, |s.nodes|)))])
  }

  function RequestOf(jobs: seq<Job>, t: Task): Resources {
    if t.job < |jobs| then jobs[t.job].request else NOTHING
  }

  function Weight(jobs: seq<Job>, t: Task, n: NodeId): Resources {
    if ActiveOn(t, n) then RequestOf(jobs, t) else NOTHING
  }

  /** What the scheduled and running tasks on `n` ask for in all. */
  function Allocation(jobs: seq<Job>, tasks: seq<Task>, n: NodeId): Resources {
    if tasks == [] then NOTHING
    else
      var before := Allocation(jobs, tasks[..|tasks| - 1], n);
      var last := Weight(jobs, tasks[|tasks| - 1], n);
      Resources(before.cpu + last.cpu, before.mem + last.mem)
  }

  /** Allocations of the nodes that have an active task; other nodes are absent. */
  function Allocations(s: Cluster): map<NodeId, Resources> {
    map n | 0 <= n < |s.nodes| && (exists t <- s.tasks :: ActiveOn(t, n)) :: Allocation(s.jobs, s.tasks, n)
  }

  function ReadAllocations(s: Cluster, r: Replica): Cluster
    requires r in s.ticks
  {
    s.(ticks := s.ticks[r := s.ticks[r].(allocs := Some(Allocations(s)))])
  }

  /** Assign a pending task; fails, changing nothing, when no pending row has that id. */
  function ScheduleTask(s: Cluster, t: TaskId, n: NodeId, epoch: int, now: int): Option<Cluster> {
    if t >= |s.tasks| || s.tasks[t].status != Pending then None
    else Some(s.(tasks := s.tasks[t := s.tasks[t].(
                            status := Scheduled, assignedNode := Some(n), assignedEpoch := Some(epoch),
                            scheduledAt := Some(now))],
                 events := s.events + [TaskScheduled(t, n, epoch)]))
  }

  /** The writes of the batch for its first tasks, as far as `placed` goes. */
  function SchedulePlaced(s: Cluster, reqs: seq<TaskRequest>, nodes: seq<Node>, placed: seq<Option<nat>>, now: int): Option<Cluster>
    requires |placed| <= |reqs|
    requires forall i :: 0 <= i < |placed| && placed[i].Some? ==> placed[i].value < |nodes|
  {
    if placed == [] then Some(s)
    else
      var last := |placed| - 1;
      var prev := SchedulePlaced(s, reqs, nodes, placed[..last], now);
      if prev.None? || placed[last].None? then prev
      else
        var node := nodes[placed[last].value];
        ScheduleTask(prev.value, reqs[last].id, node.id, node.epoch, now)
  }

  function Placements(tick: Tick): (placed: seq<Option<nat>>)
    requires tick.nodes.Some? && tick.allocs.Some?
    ensures |placed| == |tick.reqs|
    ensures forall i :: 0 <= i < |placed| && placed[i].Some? ==> placed[i].value < |tick.nodes.value|
  {
    Batch(tick.nodes.value, tick.allocs.value, tick.reqs)
  }

  predicate ReadyToCommit(s: Cluster, r: Replica) {
    r in s.ticks && s.ticks[r].nodes.Some? && s.ticks[r].allocs.Some?
  }

  function CloseTick(s: Cluster, r: Replica): Cluster {
    s.(ticks := s.ticks - {r})
  }

  /** The tick's writes, with its transaction closed. */
  function TickWrites(s: Cluster, r: Replica, now: int): Option<Cluster>
    requires ReadyToCommit(s, r)
  {
    var tick := s.ticks[r];
    SchedulePlaced(CloseTick(s, r), tick.reqs, tick.nodes.value, Placements(tick), now)
  }

  /** Commit, or roll everything back if one of the writes did not find its pending row. */
  function CommitTick(s: Cluster, r: Replica, now: int): Cluster
    requires ReadyToCommit(s, r)
  {
    var written := TickWrites(s, r, now);
    if written.Some? then written.value else CloseTick(s, r)
  }

  // ---------- steps ----------

  datatype Step =
    | CreateJobStep(job: Job)
    | RegisterNodeStep(reg: Registration)
    | UpdateNodeStatusStep(node: NodeId, change: StatusChange)
    | BeginDeathStep(node: NodeId)
    | FinishDeathStep(node: NodeId)
    | AbortDeathStep(node: NodeId)
    | ReportStep(report: Report, now: int)
    | ClaimStep(replica: Replica, ids: seq<TaskId>, now: int)
    | ReadNodesStep(replica: Replica)
    | ReadAllocationsStep(replica: Replica)
    | CommitTickStep(replica: Replica, now: int)
    | AbortTickStep(replica: Replica)

  /** The step can be taken now: its transaction is open where it must be, and no other transaction
      holds a lock that it needs. */
  predicate Enabled(s: Cluster, a: Step) {
    match a
    case CreateJobStep(_) => true
    case RegisterNodeStep(reg) =>
      var found := ExistingNode(s, reg);
      found.Some? ==> found.value !in s.deaths
    case UpdateNodeStatusStep(n, _) => n !in s.deaths
    case BeginDeathStep(n) => n !in s.deaths
    case FinishDeathStep(n) => n in s.deaths && n < |s.nodes| && InRange(s.deaths[n], |s.tasks|)
    case AbortDeathStep(n) => n in s.deaths
    case ReportStep(rep, _) => !Locked(s, rep.task)
    case ClaimStep(r, ids, now) => r !in s.ticks && Claimable(s, ids, now)
    case ReadNodesStep(r) => r in s.ticks && s.ticks[r].nodes.None?
    case ReadAllocationsStep(r) => r in s.ticks && s.ticks[r].nodes.Some? && s.ticks[r].allocs.None?
    case CommitTickStep(r, _) => ReadyToCommit(s, r)
    case AbortTickStep(r) => r in s.ticks
  }

  function Apply(s: Cluster, a: Step): Cluster
    requires Enabled(s, a)
  {
    match a
    case CreateJobStep(job) => CreateJob(s, job)
    case RegisterNodeStep(reg) => if RegistrationAccepted(reg) then RegisterNode(s, reg) else s
    case UpdateNodeStatusStep(n, change) => UpdateNodeStatus(s, n, change)
    case BeginDeathStep(n) => BeginDeath(s, n)
    case FinishDeathStep(n) => FinishDeath(s, n)
    case AbortDeathStep(n) => s.(deaths := s.deaths - {n})
    case ReportStep(rep, now) => UpdateTaskStatus(s, rep, now)
    case ClaimStep(r, ids, _) => Claim(s, r, ids)
    case ReadNodesStep(r) => ReadNodes(s, r)
    case ReadAllocationsStep(r) => ReadAllocations(s, r)
    case CommitTickStep(r, now) => CommitTick(s, r, now)
    case AbortTickStep(r) => CloseTick(s, r)
  }

  /** A run: states, and the step taken between each and the next. */
  datatype Run = Run(states: seq<Cluster>, steps: seq<Step>)

  ghost predicate StepAt(run: Run, i: nat) {
    && i < |run.steps| && i + 1 < |run.states|
    && Enabled(run.states[i], run.steps[i])
    && run.states[i + 1] == Apply(run.states[i], run.steps[i])
  }

  ghost predicate IsRun(run: Run) {
    && |run.states| == |run.steps| + 1
    && run.states[0] == INITIAL
    && forall i: nat :: i < |run.steps| ==> StepAt(run, i)
  }
}
