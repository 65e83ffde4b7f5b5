/**
 * The replicated kvstore as a state machine over its steps: clients calling Propose on any
 * replica, leadership moving about, entries being committed (also long after the proposal was
 * given up), replicas applying, answering, crashing, restarting and installing snapshots.
 *
 * Raft appears only through what it guarantees: one append-only committed log in which each
 * accepted proposal occurs at most once, and of which every replica applies a growing prefix.
 */
module Linearizability {
  import opened GoBytes
  import opened Commands
  import opened KvSpec

  type CallId = nat
  type ReplicaId = nat

  /** The serializer and the map every replica starts from. */
  datatype Cluster = Cluster(codec: Codec, preload: KvMap)

  /** Where one call of Propose stands. */
  datatype Status =
    | Pending                  // handed to raft.Apply, no result yet
    | Dropped                  // not the leader: returned nil, nothing sent
    | Failed                   // raft.Apply returned an error, or the process died
    | Rejected                 // committed, but the response was not a string
    | Answered(reply: Datagram)

  datatype Call = Call(msg: Str, clientIp: Str, replica: ReplicaId, status: Status)

  /** `responses` are the results fsm.Apply left in this process's futures. */
  datatype Replica = Replica(up: bool, leader: bool, applied: nat, m: KvMap, responses: map<CallId, Response>)

  datatype Snapshot = Snapshot(upto: nat, m: KvMap)

  /** A committed entry, and the proposal it came from. */
  datatype LogEntry = LogEntry(id: CallId, data: Str)

  datatype State = State(log: seq<LogEntry>, replicas: map<ReplicaId, Replica>,
                         calls: map<CallId, Call>, snapshots: set<Snapshot>)

  function Payloads(log: seq<LogEntry>): (data: seq<Str>)
    ensures |data| == |log|
    ensures forall i :: 0 <= i < |log| ==> data[i] == log[i].data
  {
    seq(|log|, i requires 0 <= i < |log| => log[i].data)
  }

  predicate IsCommitted(log: seq<LogEntry>, id: CallId) {
    exists i :: 0 <= i < |log| && log[i].id == id
  }

  datatype Action =
    | Propose(id: CallId, r: ReplicaId, msg: Str, clientIp: Str)
    | SetLeader(r: ReplicaId, leader: bool)
    | Commit(id: CallId)
    | Apply(r: ReplicaId)
    | Complete(id: CallId)
    | GiveUp(id: CallId)
    | Crash(r: ReplicaId)
    | Restart(r: ReplicaId)
    | TakeSnapshot(r: ReplicaId)
    | InstallSnapshot(r: ReplicaId, snapshot: Snapshot)

  /** How Propose turns the response of a committed entry into a reply. */
  function Outcome(clientIp: Str, r: Response): (s: Status) {
    if r.Text? && DASH in r.text then Answered(Answer(clientIp, r.text)) else Rejected
  }

  predicate IsUp(s: State, r: ReplicaId) {
    r in s.replicas && s.replicas[r].up
  }

  predicate Enabled(s: State, a: Action) {
    match a
    case Propose(id, r, _, _) => id !in s.calls && IsUp(s, r)
    case SetLeader(r, _) => IsUp(s, r)
    case Commit(id) => id in s.calls && !IsCommitted(s.log, id) && (s.calls[id].status == Pending || s.calls[id].status == Failed)
    case Apply(r) => IsUp(s, r) && s.replicas[r].applied < |s.log|
    case Complete(id) =>
      && id in s.calls && s.calls[id].status == Pending && IsUp(s, s.calls[id].replica)
      && id in s.replicas[s.calls[id].replica].responses
    case GiveUp(id) => id in s.calls && s.calls[id].status == Pending
    case Crash(r) => IsUp(s, r)
    case Restart(r) => r in s.replicas && !s.replicas[r].up
    case TakeSnapshot(r) => IsUp(s, r)
    case InstallSnapshot(r, snapshot) => IsUp(s, r) && snapshot in s.snapshots
  }

  /** The process of replica `r` dies: its pending calls will never be answered. */
  function Kill(s: State, r: ReplicaId): (s': State)
    requires r in s.replicas
  {
    s.(replicas := s.replicas[r := s.replicas[r].(up := false, leader := false)],
       calls := map id | id in s.calls ::
         if s.calls[id].replica == r && s.calls[id].status == Pending then s.calls[id].(status := Failed)
         else s.calls[id])
  }

  function Do(c: Cluster, s: State, a: Action): (s': State)
    requires Enabled(s, a)
  {
    match a
    case Propose(id, r, msg, clientIp) =>
      var status := if s.replicas[r].leader then Pending else Dropped;
      s.(calls := s.calls[id := Call(msg, clientIp, r, status)])
    case SetLeader(r, leader) => s.(replicas := s.replicas[r := s.replicas[r].(leader := leader)])
    case Commit(id) => s.(log := s.log + [LogEntry(id, s.calls[id].msg)])
    case Apply(r) =>
      var p := s.replicas[r];
      var e := s.log[p.applied];
      var response := ResponseTo(c.codec, e.data, p.m);
      if response.Panic? then
        Kill(s, r)
      else
        s.(replicas := s.replicas[r := p.(
             applied := p.applied + 1,
             m := ApplyData(c.codec, e.data, p.m),
             responses := p.responses[e.id := response])])
    case Complete(id) =>
      var call := s.calls[id];
      s.(calls := s.calls[id := call.(status := Outcome(call.clientIp, s.replicas[call.replica].responses[id]))])
    case GiveUp(id) => s.(calls := s.calls[id := s.calls[id].(status := Failed)])
    case Crash(r) => Kill(s, r)
    case Restart(r) => s.(replicas := s.replicas[r := Replica(true, false, 0, c.preload, map[])])
    case TakeSnapshot(r) => s.(snapshots := s.snapshots + {Snapshot(s.replicas[r].applied, s.replicas[r].m)})
    case InstallSnapshot(r, snapshot) =>
      s.(replicas := s.replicas[r := s.replicas[r].(applied := snapshot.upto, m := snapshot.m)])
  }

  ghost predicate Next(c: Cluster, s: State, s': State) {
    exists a :: Enabled(s, a) && s' == Do(c, s, a)
  }

  ghost predicate Init(c: Cluster, s: State) {
    && s.log == [] && s.calls == map[] && s.snapshots == {}
    && forall r :: r in s.replicas ==> s.replicas[r] == Replica(true, false, 0, c.preload, map[])
  }

  ghost predicate IsRun(c: Cluster, run: seq<State>) {
    && |run| > 0
    && Init(c, run[0])
    && forall i :: 0 < i < |run| ==> Next(c, run[i - 1], run[i])
  }

  // What linearizability means, in terms of the calls alone.

  /** The messages of the calls in `order`. */
  function Messages(calls: map<CallId, Call>, order: seq<CallId>): (msgs: seq<Str>)
    requires forall i :: 0 <= i < |order| ==> order[i] in calls
    ensures |msgs| == |order|
    ensures forall i :: 0 <= i < |order| ==> msgs[i] == calls[order[i]].msg
  {
    seq(|order|, i requires 0 <= i < |order| => calls[order[i]].msg)
  }

  /** The status the sequential map gives the call at position `i` of `order`. */
  function SequentialStatus(c: Cluster, calls: map<CallId, Call>, order: seq<CallId>, i: nat): (s: Status)
    requires i < |order|
    requires forall j :: 0 <= j < |order| ==> order[j] in calls
  {
    var msgs := Messages(calls, order);
    Outcome(calls[order[i]].clientIp, ResponseTo(c.codec, msgs[i], StateAfter(c.codec, c.preload, msgs[..i])))
  }

  predicate IsAnswered(s: State, id: CallId) {
    id in s.calls && s.calls[id].status.Answered?
  }

  /**
   * `order` explains the run: it holds every answered call, no dropped one and none twice;
   * every answer is the one the sequential map gives at that place; and a call answered before
   * another one was even made comes first.
   */
  ghost predicate IsLinearization(c: Cluster, run: seq<State>, order: seq<CallId>)
    requires |run| > 0
  {
    var calls := run[|run| - 1].calls;
    && (forall i, j :: 0 <= i < j < |order| ==> order[i] != order[j])
    && (forall i :: 0 <= i < |order| ==> order[i] in calls && calls[order[i]].status != Dropped)
    && (forall id :: id in calls && calls[id].status.Answered? ==> id in order)
    && (forall i :: 0 <= i < |order| && calls[order[i]].status.Answered? ==>
          calls[order[i]].status == SequentialStatus(c, calls, order, i))
    && (forall p, i, j ::
          0 <= p < |run| && 0 <= i < |order| && 0 <= j < |order| ==>
          IsAnswered(run[p], order[i]) && order[j] !in run[p].calls ==> i < j)
  }

  // The invariant.

  function PrefixState(c: Cluster, log: seq<LogEntry>, k: nat): (m: KvMap)
    requires k <= |log|
  {
    StateAfter(c.codec, c.preload, Payloads(log[..k]))
  }

  /** The response of the entry at `i`, by the sequential specification. */
  function ResponseAt(c: Cluster, log: seq<LogEntry>, i: nat): (r: Response)
    requires i < |log|
  {
    ResponseTo(c.codec, log[i].data, PrefixState(c, log, i))
  }

  predicate PanicFree(c: Cluster, log: seq<LogEntry>, k: nat) {
    k <= |log| && forall i :: 0 <= i < k ==> !ResponseAt(c, log, i).Panic?
  }

  /** `r` is the response to the proposal `id`, and nothing up to its entry panics. */
  ghost predicate Served(c: Cluster, log: seq<LogEntry>, id: CallId, r: Response) {
    exists i :: 0 <= i < |log| && log[i].id == id && r == ResponseAt(c, log, i) && PanicFree(c, log, i + 1)
  }

  ghost predicate ReplicaInv(c: Cluster, log: seq<LogEntry>, p: Replica) {
    && PanicFree(c, log, p.applied)
    && p.m == PrefixState(c, log, p.applied)
    && forall id :: id in p.responses ==> Served(c, log, id, p.responses[id])
  }

  ghost predicate SnapshotInv(c: Cluster, log: seq<LogEntry>, snapshot: Snapshot) {
    PanicFree(c, log, snapshot.upto) && snapshot.m == PrefixState(c, log, snapshot.upto)
  }

  ghost predicate AnswerInv(c: Cluster, log: seq<LogEntry>, id: CallId, call: Call) {
    call.status.Answered? ==> exists r :: Served(c, log, id, r) && call.status == Outcome(call.clientIp, r)
  }

  ghost predicate LogInv(log: seq<LogEntry>, calls: map<CallId, Call>) {
    && (forall i, j :: 0 <= i < j < |log| ==> log[i].id != log[j].id)
    && (forall i :: 0 <= i < |log| ==>
          log[i].id in calls && calls[log[i].id].msg == log[i].data && calls[log[i].id].status != Dropped)
  }

  ghost predicate Inv(c: Cluster, s: State) {
    && LogInv(s.log, s.calls)
    && (forall r :: r in s.replicas ==> ReplicaInv(c, s.log, s.replicas[r]))
    && (forall snapshot :: snapshot in s.snapshots ==> SnapshotInv(c, s.log, snapshot))
    && (forall id :: id in s.calls ==> AnswerInv(c, s.log, id, s.calls[id]))
  }

  // Appending to the log disturbs nothing that was said about its prefix.

  lemma PanicFreeGrows(c: Cluster, log: seq<LogEntry>, e: LogEntry, k: nat)
    requires PanicFree(c, log, k)
    ensures PanicFree(c, log + [e], k) && PrefixState(c, log + [e], k) == PrefixState(c, log, k)
  {
    forall i | 0 <= i <= k ensures (log + [e])[..i] == log[..i] {
    }
    forall i | 0 <= i < k ensures ResponseAt(c, log + [e], i) == ResponseAt(c, log, i) {
    }
  }

  lemma ServedGrows(c: Cluster, log: seq<LogEntry>, e: LogEntry, id: CallId, r: Response)
    requires Served(c, log, id, r)
    ensures Served(c, log + [e], id, r)
  {
    var i :| 0 <= i < |log| && log[i].id == id && r == ResponseAt(c, log, i) && PanicFree(c, log, i + 1);
    PanicFreeGrows(c, log, e, i + 1);
    assert (log + [e])[..i] == log[..i];
    assert ResponseAt(c, log + [e], i) == r;
  }

  lemma CommitKeepsInv(c: Cluster, s: State, id: CallId)
    requires Inv(c, s) && Enabled(s, Commit(id))
    ensures Inv(c, Do(c, s, Commit(id)))
  {
    var e := LogEntry(id, s.calls[id].msg);
    var log := s.log + [e];
    forall r | r in s.replicas ensures ReplicaInv(c, log, s.replicas[r]) {
      var p := s.replicas[r];
      PanicFreeGrows(c, s.log, e, p.applied);
      forall i | i in p.responses ensures Served(c, log, i, p.responses[i]) {
        ServedGrows(c, s.log, e, i, p.responses[i]);
      }
    }
    forall snapshot | snapshot in s.snapshots ensures SnapshotInv(c, log, snapshot) {
      PanicFreeGrows(c, s.log, e, snapshot.upto);
    }
    forall i | i in s.calls ensures AnswerInv(c, log, i, s.calls[i]) {
      if s.calls[i].status.Answered? {
        var r :| Served(c, s.log, i, r) && s.calls[i].status == Outcome(s.calls[i].clientIp, r);
        ServedGrows(c, s.log, e, i, r);
      }
    }
  }

  /** Executing one more entry is the state after one more entry. */
  lemma PrefixStateNext(c: Cluster, log: seq<LogEntry>, k: nat)
    requires k < |log|
    ensures PrefixState(c, log, k + 1) == ApplyData(c.codec, log[k].data, PrefixState(c, log, k))
  {
    assert Payloads(log[..k + 1])[..k] == Payloads(log[..k]);
  }

  lemma ApplyKeepsInv(c: Cluster, s: State, r: ReplicaId)
    requires Inv(c, s) && Enabled(s, Apply(r))
    ensures Inv(c, Do(c, s, Apply(r)))
  {
    var p := s.replicas[r];
    assert ReplicaInv(c, s.log, p);
    if ResponseTo(c.codec, s.log[p.applied].data, p.m).Panic? {
      KillKeepsInv(c, s, r);
    } else {
      var e := s.log[p.applied];
      AppliedReplica(c, s.log, p);
      ReplicaKeepsInv(c, s, r, p.(
        applied := p.applied + 1,
        m := ApplyData(c.codec, e.data, p.m),
        responses := p.responses[e.id := ResponseTo(c.codec, e.data, p.m)]));
    }
  }

  /** A replica that has executed its next entry, and kept the response. */
  lemma AppliedReplica(c: Cluster, log: seq<LogEntry>, p: Replica)
    requires ReplicaInv(c, log, p) && p.applied < |log|
    requires !ResponseTo(c.codec, log[p.applied].data, p.m).Panic?
    ensures var e := log[p.applied];
      ReplicaInv(c, log, p.(
        applied := p.applied + 1,
        m := ApplyData(c.codec, e.data, p.m),
        responses := p.responses[e.id := ResponseTo(c.codec, e.data, p.m)]))
  {
    var k := p.applied;
    PrefixStateNext(c, log, k);
    assert PanicFree(c, log, k + 1);
    assert Served(c, log, log[k].id, ResponseAt(c, log, k));
  }

  lemma KillKeepsInv(c: Cluster, s: State, r: ReplicaId)
    requires Inv(c, s) && r in s.replicas
    ensures Inv(c, Kill(s, r))
  {
    assert ReplicaInv(c, s.log, s.replicas[r]);
  }

  lemma CompleteKeepsInv(c: Cluster, s: State, id: CallId)
    requires Inv(c, s) && Enabled(s, Complete(id))
    ensures Inv(c, Do(c, s, Complete(id)))
  {
    var p := s.replicas[s.calls[id].replica];
    assert ReplicaInv(c, s.log, p);
    assert Served(c, s.log, id, p.responses[id]);
    StatusKeepsInv(c, s, id, Outcome(s.calls[id].clientIp, p.responses[id]));
  }

  lemma ProposeKeepsInv(c: Cluster, s: State, id: CallId, r: ReplicaId, msg: Str, clientIp: Str)
    requires Inv(c, s) && Enabled(s, Propose(id, r, msg, clientIp))
    ensures Inv(c, Do(c, s, Propose(id, r, msg, clientIp)))
  {
  }

  /** Changing one replica, soundly, and nothing else. */
  lemma ReplicaKeepsInv(c: Cluster, s: State, r: ReplicaId, p: Replica)
    requires Inv(c, s) && ReplicaInv(c, s.log, p)
    ensures Inv(c, s.(replicas := s.replicas[r := p]))
  {
  }

  lemma ReplicaStepKeepsInv(c: Cluster, s: State, a: Action)
    requires Inv(c, s) && Enabled(s, a) && (a.SetLeader? || a.Restart? || a.InstallSnapshot?)
    ensures Inv(c, Do(c, s, a))
  {
    assert ReplicaInv(c, s.log, s.replicas[a.r]);
    match a
    case SetLeader(r, leader) =>
      ReplicaKeepsInv(c, s, r, s.replicas[r].(leader := leader));
    case Restart(r) =>
      assert Payloads(s.log[..0]) == [];
      ReplicaKeepsInv(c, s, r, Replica(true, false, 0, c.preload, map[]));
    case InstallSnapshot(r, snapshot) =>
      assert SnapshotInv(c, s.log, snapshot);
      ReplicaKeepsInv(c, s, r, s.replicas[r].(applied := snapshot.upto, m := snapshot.m));
  }

  lemma TakeSnapshotKeepsInv(c: Cluster, s: State, r: ReplicaId)
    requires Inv(c, s) && Enabled(s, TakeSnapshot(r))
    ensures Inv(c, Do(c, s, TakeSnapshot(r)))
  {
    assert ReplicaInv(c, s.log, s.replicas[r]);
  }

  /** Changing the status of one call, soundly, and nothing else. */
  lemma StatusKeepsInv(c: Cluster, s: State, id: CallId, status: Status)
    requires Inv(c, s) && id in s.calls && status != Dropped
    requires AnswerInv(c, s.log, id, s.calls[id].(status := status))
    ensures Inv(c, s.(calls := s.calls[id := s.calls[id].(status := status)]))
  {
    var calls := s.calls[id := s.calls[id].(status := status)];
    StatusKeepsLog(s.log, s.calls, id, status);
    forall i | i in calls ensures AnswerInv(c, s.log, i, calls[i]) {
      assert AnswerInv(c, s.log, i, if i == id then calls[id] else s.calls[i]);
    }
  }

  lemma StatusKeepsLog(log: seq<LogEntry>, calls: map<CallId, Call>, id: CallId, status: Status)
    requires LogInv(log, calls) && id in calls && status != Dropped
    ensures LogInv(log, calls[id := calls[id].(status := status)])
  {
  }

  /** What every step of the protocol keeps. */
  lemma StepKeepsInv(c: Cluster, s: State, s': State)
    requires Inv(c, s) && Next(c, s, s')
    ensures Inv(c, s')
  {
    var a :| Enabled(s, a) && s' == Do(c, s, a);
    match a
    case Propose(id, r, msg, clientIp) => ProposeKeepsInv(c, s, id, r, msg, clientIp);
    case Commit(id) => CommitKeepsInv(c, s, id);
    case Apply(r) => ApplyKeepsInv(c, s, r);
    case Complete(id) => CompleteKeepsInv(c, s, id);
    case GiveUp(id) => StatusKeepsInv(c, s, id, Failed);
    case TakeSnapshot(r) => TakeSnapshotKeepsInv(c, s, r);
    case Crash(r) => KillKeepsInv(c, s, r);
    case _ => ReplicaStepKeepsInv(c, s, a);
  }

  lemma {:induction false} RunKeepsInv(c: Cluster, run: seq<State>, i: nat)
    requires IsRun(c, run) && i < |run|
    ensures Inv(c, run[i])
  {
    if i == 0 {
      assert Payloads(run[0].log[..0]) == [];
    } else {
      RunKeepsInv(c, run, i - 1);
      StepKeepsInv(c, run[i - 1], run[i]);
    }
  }

  // Histories.

  /** What never changes again: the log's entries, the calls made, the drops, and the answers given. */
  ghost predicate Extends(s: State, s': State) {
    && s.log <= s'.log
    && (forall id :: id in s.calls ==>
          && id in s'.calls && s'.calls[id].msg == s.calls[id].msg
          && (s.calls[id].status.Answered? || s.calls[id].status.Dropped? ==> s'.calls[id] == s.calls[id]))
  }

  lemma StepExtends(c: Cluster, s: State, s': State)
    requires Next(c, s, s')
    ensures Extends(s, s')
  {
    var a :| Enabled(s, a) && s' == Do(c, s, a);
    match a
    case Propose(id, r, msg, clientIp) =>
    case Commit(id) =>
    case Apply(r) =>
    case _ =>
  }

  lemma ExtendsTransitive(s: State, t: State, u: State)
    requires Extends(s, t) && Extends(t, u)
    ensures Extends(s, u)
  {
  }

  lemma {:induction false} RunExtends(c: Cluster, run: seq<State>, i: nat, j: nat)
    requires IsRun(c, run) && i <= j < |run|
    ensures Extends(run[i], run[j])
    decreases j - i
  {
    if i < j {
      RunExtends(c, run, i, j - 1);
      StepExtends(c, run[j - 1], run[j]);
      ExtendsTransitive(run[i], run[j - 1], run[j]);
    }
  }

  function CommitOrder(log: seq<LogEntry>): (order: seq<CallId>)
    ensures |order| == |log|
    ensures forall i :: 0 <= i < |log| ==> order[i] == log[i].id
  {
    seq(|log|, i requires 0 <= i < |log| => log[i].id)
  }

  /** An answered call is in the log, with the answer the sequential map gives there. */
  lemma AnswerIsSequential(c: Cluster, s: State, id: CallId) returns (i: nat)
    requires Inv(c, s) && IsAnswered(s, id)
    ensures i < |s.log| && s.log[i].id == id
    ensures s.calls[id].status == Outcome(s.calls[id].clientIp, ResponseAt(c, s.log, i))
    ensures PanicFree(c, s.log, i + 1)
  {
    assert AnswerInv(c, s.log, id, s.calls[id]);
    var r :| Served(c, s.log, id, r) && s.calls[id].status == Outcome(s.calls[id].clientIp, r);
    i :| 0 <= i < |s.log| && s.log[i].id == id && r == ResponseAt(c, s.log, i) && PanicFree(c, s.log, i + 1);
  }

  lemma SequentialStatusInLog(c: Cluster, s: State, i: nat)
    requires LogInv(s.log, s.calls) && i < |s.log|
    ensures SequentialStatus(c, s.calls, CommitOrder(s.log), i)
         == Outcome(s.calls[s.log[i].id].clientIp, ResponseAt(c, s.log, i))
  {
    assert Messages(s.calls, CommitOrder(s.log))[..i] == Payloads(s.log[..i]);
  }

  /** The log respects real time: a call answered before another is made precedes it. */
  lemma RealTimeOrder(c: Cluster, run: seq<State>, p: nat, q: nat, i: nat, j: nat)
    requires IsRun(c, run) && p <= q < |run|
    requires i < |run[q].log| && j < |run[q].log|
    requires IsAnswered(run[p], run[q].log[i].id) && run[q].log[j].id !in run[p].calls
    ensures i < j
  {
    RunKeepsInv(c, run, p);
    RunKeepsInv(c, run, q);
    RunExtends(c, run, p, q);
    var k := AnswerIsSequential(c, run[p], run[q].log[i].id);
    assert run[q].log[k] == run[p].log[k];
    assert k == i;
  }

  /** Linearizability: in every run, the order of the committed log explains every answer. */
  lemma CommitOrderIsLinearization(c: Cluster, run: seq<State>)
    requires IsRun(c, run)
    ensures IsLinearization(c, run, CommitOrder(run[|run| - 1].log))
  {
    var q := |run| - 1;
    var s := run[q];
    var order := CommitOrder(s.log);
    RunKeepsInv(c, run, q);
    forall id | id in s.calls && s.calls[id].status.Answered? ensures id in order {
      var i := AnswerIsSequential(c, s, id);
      assert order[i] == id;
    }
    forall i | 0 <= i < |order| && s.calls[order[i]].status.Answered?
      ensures s.calls[order[i]].status == SequentialStatus(c, s.calls, order, i)
    {
      var k := AnswerIsSequential(c, s, order[i]);
      assert k == i;
      SequentialStatusInLog(c, s, i);
    }
    forall p, i, j | 0 <= p < |run| && 0 <= i < |order| && 0 <= j < |order|
        && IsAnswered(run[p], order[i]) && order[j] !in run[p].calls
      ensures i < j
    {
      RealTimeOrder(c, run, p, q, i, j);
    }
  }

  // Which calls can still be answered.

  /** The call has been made and Propose has returned from it. */
  predicate HasReturned(s: State, id: CallId) {
    id in s.calls && s.calls[id].status != Pending
  }

  lemma ReturnedStays(c: Cluster, s: State, s': State, id: CallId)
    requires Next(c, s, s') && HasReturned(s, id)
    ensures HasReturned(s', id) && s'.calls[id].status == s.calls[id].status
  {
    var a :| Enabled(s, a) && s' == Do(c, s, a);
    match a
    case Apply(r) =>
    case _ =>
  }

  lemma {:induction false} ReturnedStaysInRun(c: Cluster, run: seq<State>, p: nat, q: nat, id: CallId)
    requires IsRun(c, run) && p <= q < |run| && HasReturned(run[p], id)
    ensures HasReturned(run[q], id) && run[q].calls[id].status == run[p].calls[id].status
    decreases q - p
  {
    if p < q {
      ReturnedStaysInRun(c, run, p, q - 1, id);
      ReturnedStays(c, run[q - 1], run[q], id);
    }
  }

  /** A process that dies takes its pending calls with it. */
  ghost predicate PendingCallsRun(s: State) {
    forall id :: id in s.calls && s.calls[id].status == Pending ==> IsUp(s, s.calls[id].replica)
  }

  lemma StepKeepsPendingCallsRun(c: Cluster, s: State, s': State)
    requires PendingCallsRun(s) && Next(c, s, s')
    ensures PendingCallsRun(s')
  {
    var a :| Enabled(s, a) && s' == Do(c, s, a);
    match a
    case Apply(r) =>
    case Crash(r) =>
    case _ =>
  }

  lemma {:induction false} RunKeepsPendingCallsRun(c: Cluster, run: seq<State>, i: nat)
    requires IsRun(c, run) && i < |run|
    ensures PendingCallsRun(run[i])
  {
    if i > 0 {
      RunKeepsPendingCallsRun(c, run, i - 1);
      StepKeepsPendingCallsRun(c, run[i - 1], run[i]);
    }
  }

  lemma CallsStay(c: Cluster, run: seq<State>, p: nat, q: nat, id: CallId)
    requires IsRun(c, run) && p <= q < |run| && id in run[p].calls
    ensures id in run[q].calls
  {
    RunExtends(c, run, p, q);
  }

  /**
   * Only the process that took a call answers it: at every moment between the call and its
   * answer, that process is running and still waits. A call whose process has died, or whose
   * proposal was dropped, refused or given up, is never answered, also not after a restart.
   */
  lemma AnsweredOnlyWhileWaiting(c: Cluster, run: seq<State>, p: nat, q: nat, id: CallId)
    requires IsRun(c, run) && p <= q < |run| && id in run[p].calls
    ensures IsAnswered(run[q], id) && !IsAnswered(run[p], id) ==>
      run[p].calls[id].status == Pending && IsUp(run[p], run[p].calls[id].replica)
  {
    RunKeepsPendingCallsRun(c, run, p);
    if HasReturned(run[p], id) {
      ReturnedStaysInRun(c, run, p, q, id);
    }
  }

  /** In particular a call whose replica is down stays unanswered for good. */
  lemma DeadCallsStayUnanswered(c: Cluster, run: seq<State>, p: nat, q: nat, id: CallId)
    requires IsRun(c, run) && p <= q < |run| && id in run[p].calls
    requires !IsAnswered(run[p], id) && !IsUp(run[p], run[p].calls[id].replica)
    ensures !IsAnswered(run[q], id)
  {
    AnsweredOnlyWhileWaiting(c, run, p, q, id);
  }

  /** What the death of a process changes, whichever step it comes from. */
  lemma ProcessDies(c: Cluster, s: State, s': State, r: ReplicaId)
    requires Next(c, s, s') && IsUp(s, r) && !IsUp(s', r)
    ensures s'.log == s.log && s'.snapshots == s.snapshots && s'.calls.Keys == s.calls.Keys
    ensures r in s'.replicas && !s'.replicas[r].leader
    ensures forall other :: other in s.replicas && other != r ==> other in s'.replicas && s'.replicas[other] == s.replicas[other]
    ensures forall id :: id in s.calls && s.calls[id].replica == r && s.calls[id].status == Pending ==>
      s'.calls[id] == s.calls[id].(status := Failed)
    ensures forall id :: id in s.calls && !(s.calls[id].replica == r && s.calls[id].status == Pending) ==>
      s'.calls[id] == s.calls[id]
  {
    var a :| Enabled(s, a) && s' == Do(c, s, a);
    assert a.Crash? || a.Apply?;
  }

  /** A dead process does nothing: it stays as it is until it starts again. */
  lemma DeadStaysStill(c: Cluster, s: State, s': State, r: ReplicaId)
    requires Next(c, s, s') && r in s.replicas && !IsUp(s, r)
    ensures r in s'.replicas && (IsUp(s', r) || s'.replicas[r] == s.replicas[r])
  {
    var a :| Enabled(s, a) && s' == Do(c, s, a);
    match a
    case Apply(q) =>
    case _ =>
  }

  /** A running process keeps its futures' responses, and moves by one entry or to a snapshot. */
  lemma RunningMoves(c: Cluster, s: State, s': State, r: ReplicaId)
    requires Next(c, s, s') && IsUp(s, r) && IsUp(s', r)
    ensures s.replicas[r].responses.Keys <= s'.replicas[r].responses.Keys
    ensures
      || (s'.replicas[r].applied == s.replicas[r].applied && s'.replicas[r].m == s.replicas[r].m)
      || s'.replicas[r].applied == s.replicas[r].applied + 1
      || Snapshot(s'.replicas[r].applied, s'.replicas[r].m) in s.snapshots
  {
    var a :| Enabled(s, a) && s' == Do(c, s, a);
    match a
    case Apply(q) =>
    case _ =>
  }

  /** A snapshot holds what some running replica had applied when it was taken. */
  lemma SnapshotOfRunning(c: Cluster, s: State, s': State, snapshot: Snapshot) returns (r: ReplicaId)
    requires Next(c, s, s') && snapshot in s'.snapshots && snapshot !in s.snapshots
    ensures IsUp(s, r) && snapshot == Snapshot(s.replicas[r].applied, s.replicas[r].m)
  {
    var a :| Enabled(s, a) && s' == Do(c, s, a);
    assert a.TakeSnapshot?;
    r := a.r;
  }

  /** A restarted process has forgotten everything: it starts over from the preloaded map. */
  lemma ProcessStarts(c: Cluster, s: State, s': State, r: ReplicaId)
    requires Next(c, s, s') && !IsUp(s, r) && IsUp(s', r)
    ensures s'.replicas[r] == Replica(true, false, 0, c.preload, map[])
    ensures s'.log == s.log && s'.calls == s.calls
  {
    var a :| Enabled(s, a) && s' == Do(c, s, a);
    assert a.Restart?;
  }

  /** The datagram that answers a command from `port` with `value`. */
  function Reply(call: Call, port: Str, value: Str): (s: Status) {
    Answered(Routed(call.clientIp, port, value))
  }

  /** What an answered call's client is sent: an empty answer to a SET, the key's value to a GET. */
  lemma AnswerContents(c: Cluster, s: State, i: nat, cmd: Command)
    requires Inv(c, s) && i < |s.log| && IsAnswered(s, s.log[i].id)
    requires c.codec.unmarshal(s.log[i].data) == Some(cmd)
    ensures cmd.op == Set || cmd.op == Get
    ensures s.calls[s.log[i].id].status == Reply(s.calls[s.log[i].id], cmd.ip,
      if cmd.op == Set then [] else Lookup(PrefixState(c, s.log, i), cmd.key))
  {
    var k := AnswerIsSequential(c, s, s.log[i].id);
    assert k == i;
    var value := if cmd.op == Set then [] else Lookup(PrefixState(c, s.log, i), cmd.key);
    assert ResponseAt(c, s.log, i) == Text(Join([cmd.ip, value], DASH));
    ResponseSplits(cmd, PrefixState(c, s.log, i));
    ReplyRouting(s.calls[s.log[i].id].clientIp, cmd.ip, value);
  }

  /**
   * Seen from a client: in every run, an answered GET is answered with the value
   * of the last SET of the key that was committed before it, by whichever replica and leader.
   */
  lemma GetReturnsLastCommittedSet(c: Cluster, run: seq<State>, q: nat, i: nat, w: nat, read: Command)
    requires IsRun(c, run) && q < |run|
    requires w < i < |run[q].log| && IsAnswered(run[q], run[q].log[i].id)
    requires c.codec.unmarshal(run[q].log[i].data) == Some(read) && read.op == Get
    requires Writes(c.codec, run[q].log[w].data, read.key)
    requires forall j :: w < j < i ==> !Writes(c.codec, run[q].log[j].data, read.key)
    ensures var call := run[q].calls[run[q].log[i].id];
      call.status == Reply(call, read.ip, c.codec.unmarshal(run[q].log[w].data).value.value)
  {
    RunKeepsInv(c, run, q);
    AnswerContents(c, run[q], i, read);
    LastWriteWins(c.codec, c.preload, Payloads(run[q].log[..i]), read.key, w);
  }

  /** And the preloaded value, or nothing, when no SET of the key was committed before it. */
  lemma GetReturnsPreload(c: Cluster, run: seq<State>, q: nat, i: nat, read: Command)
    requires IsRun(c, run) && q < |run|
    requires i < |run[q].log| && IsAnswered(run[q], run[q].log[i].id)
    requires c.codec.unmarshal(run[q].log[i].data) == Some(read) && read.op == Get
    requires forall j :: 0 <= j < i ==> !Writes(c.codec, run[q].log[j].data, read.key)
    ensures var call := run[q].calls[run[q].log[i].id];
      call.status == Reply(call, read.ip, Lookup(c.preload, read.key))
  {
    RunKeepsInv(c, run, q);
    AnswerContents(c, run[q], i, read);
    UnwrittenKeepsInitial(c.codec, c.preload, Payloads(run[q].log[..i]), read.key);
  }

  /** The explanation of an earlier moment is never revised, only extended. */
  lemma LinearizationOnlyGrows(c: Cluster, run: seq<State>, i: nat, j: nat)
    requires IsRun(c, run) && i <= j < |run|
    ensures CommitOrder(run[i].log) <= CommitOrder(run[j].log)
  {
    RunExtends(c, run, i, j);
  }

  /** The step at which a call was made. */
  lemma {:induction false} MadeAt(c: Cluster, run: seq<State>, q: nat, id: CallId) returns (p: nat)
    requires IsRun(c, run) && q < |run| && id in run[q].calls
    ensures p < q && id !in run[p].calls && id in run[p + 1].calls
  {
    if id in run[q - 1].calls {
      p := MadeAt(c, run, q - 1, id);
    } else {
      p := q - 1;
    }
  }

  /** A new call comes from Propose on a running replica, and is dropped exactly by a non-leader. */
  lemma NewCall(c: Cluster, s: State, s': State, id: CallId)
    requires Next(c, s, s') && id !in s.calls && id in s'.calls
    ensures IsUp(s, s'.calls[id].replica)
    ensures s'.calls[id].status == if s.replicas[s'.calls[id].replica].leader then Pending else Dropped
  {
    var a :| Enabled(s, a) && s' == Do(c, s, a);
    assert a.Propose?;
  }

  /**
   * Non-leader drops: every entry of the log was proposed on a replica that took itself for the
   * leader when Propose was called on it; what any other replica was sent never takes effect.
   */
  lemma CommittedByLeaderOnly(c: Cluster, run: seq<State>, q: nat, i: nat) returns (p: nat)
    requires IsRun(c, run) && q < |run| && i < |run[q].log|
    ensures var id := run[q].log[i].id;
      && p < q && id !in run[p].calls && id in run[p + 1].calls
      && IsUp(run[p], run[p + 1].calls[id].replica)
      && run[p].replicas[run[p + 1].calls[id].replica].leader
      && run[p + 1].calls[id].msg == run[q].log[i].data
  {
    var id := run[q].log[i].id;
    RunKeepsInv(c, run, q);
    p := MadeAt(c, run, q, id);
    assert run[p] == run[p + 1 - 1];
    NewCall(c, run[p], run[p + 1], id);
    RunExtends(c, run, p + 1, q);
  }

  /**
   * An entry whose operation is neither SET nor GET stops the service: no replica ever gets
   * past it, whatever it restarts or restores, and no call behind it is ever answered.
   */
  lemma PanickingEntryBlocks(c: Cluster, run: seq<State>, q: nat, bad: nat)
    requires IsRun(c, run) && q < |run|
    requires bad < |run[q].log| && IsPoison(c.codec, run[q].log[bad].data)
    ensures forall r :: r in run[q].replicas ==> run[q].replicas[r].applied <= bad
    ensures forall i :: bad <= i < |run[q].log| ==> !IsAnswered(run[q], run[q].log[i].id)
  {
    var s := run[q];
    RunKeepsInv(c, run, q);
    assert ResponseAt(c, s.log, bad).Panic?;
    forall r | r in s.replicas ensures s.replicas[r].applied <= bad {
      assert ReplicaInv(c, s.log, s.replicas[r]);
    }
    forall i | bad <= i < |s.log| ensures !IsAnswered(s, s.log[i].id) {
      if IsAnswered(s, s.log[i].id) {
        var k := AnswerIsSequential(c, s, s.log[i].id);
      }
    }
  }
}
