/**
 * When the replicated kvstore can still make progress: the continuations of a run, and the log
 * entries that end the service.
 */
module Progress {
  import opened GoBytes
  import opened Commands
  import opened KvSpec
  import opened Linearizability

  function Last(run: seq<State>): (s: State)
    requires |run| > 0
  {
    run[|run| - 1]
  }

  /** `run'` is a run that begins with `run`. */
  ghost predicate Continues(c: Cluster, run: seq<State>, run': seq<State>) {
    IsRun(c, run) && IsRun(c, run') && run <= run'
  }

  /** None of the first `k` entries panics. */
  predicate NoPoison(codec: Codec, log: seq<LogEntry>, k: nat)
    requires k <= |log|
  {
    forall i :: 0 <= i < k ==> !IsPoison(codec, log[i].data)
  }

  lemma PanicFreeIffNoPoison(c: Cluster, log: seq<LogEntry>, k: nat)
    requires k <= |log|
    ensures PanicFree(c, log, k) <==> NoPoison(c.codec, log, k)
  {
    forall i | 0 <= i < k ensures ResponseAt(c, log, i).Panic? <==> IsPoison(c.codec, log[i].data) {
    }
  }

  /** One step more. */
  lemma ContinueBy(c: Cluster, run: seq<State>, a: Action) returns (run': seq<State>)
    requires IsRun(c, run) && Enabled(Last(run), a)
    ensures Continues(c, run, run') && Last(run') == Do(c, Last(run), a)
  {
    run' := run + [Do(c, Last(run), a)];
    forall i | 0 < i < |run'| ensures Next(c, run'[i - 1], run'[i]) {
      if i < |run| {
        assert Next(c, run[i - 1], run[i]);
      }
    }
  }

  lemma ContinuesTransitive(c: Cluster, a: seq<State>, b: seq<State>, d: seq<State>)
    requires Continues(c, a, b) && Continues(c, b, d)
    ensures Continues(c, a, d)
  {
  }

  /** What the last state of a run owes to that of the run it continues. */
  lemma ContinuationExtends(c: Cluster, run: seq<State>, run': seq<State>)
    requires Continues(c, run, run')
    ensures Inv(c, Last(run)) && Inv(c, Last(run')) && Extends(Last(run), Last(run'))
  {
    RunKeepsInv(c, run, |run| - 1);
    RunKeepsInv(c, run', |run'| - 1);
    RunExtends(c, run', |run| - 1, |run'| - 1);
  }

  /** A replica that is down restarts. */
  lemma BringUp(c: Cluster, run: seq<State>, r: ReplicaId) returns (run': seq<State>)
    requires IsRun(c, run) && r in Last(run).replicas
    ensures Continues(c, run, run') && IsUp(Last(run'), r)
    ensures Last(run').log == Last(run).log && Last(run').calls == Last(run).calls
  {
    if IsUp(Last(run), r) {
      run' := run;
    } else {
      run' := ContinueBy(c, run, Restart(r));
    }
  }

  /** A running replica executes the log up to its first panicking entry. */
  lemma CatchUpTo(c: Cluster, run: seq<State>, r: ReplicaId, k: nat) returns (run': seq<State>)
    requires IsRun(c, run) && IsUp(Last(run), r)
    requires k <= |Last(run).log| && NoPoison(c.codec, Last(run).log, k)
    ensures Continues(c, run, run') && IsUp(Last(run'), r) && Last(run').replicas[r].applied >= k
    ensures Last(run').log == Last(run).log && Last(run').calls == Last(run).calls
    decreases k - Last(run).replicas[r].applied
  {
    var s := Last(run);
    if s.replicas[r].applied >= k {
      run' := run;
    } else {
      var next := ContinueBy(c, run, Apply(r));
      assert !IsPoison(c.codec, s.log[s.replicas[r].applied].data);
      run' := CatchUpTo(c, next, r, k);
      ContinuesTransitive(c, run, next, run');
    }
  }

  ghost predicate Reaches(c: Cluster, run: seq<State>, run': seq<State>, r: ReplicaId, k: nat) {
    Continues(c, run, run') && r in Last(run').replicas && Last(run').replicas[r].applied >= k
  }

  /**
   * How far a replica can get: after any run, some continuation brings a replica through the
   * first `k` log entries if and only if none of them has an operation other than SET and GET.
   */
  lemma ReplicaReachesIff(c: Cluster, run: seq<State>, r: ReplicaId, k: nat)
    requires IsRun(c, run) && r in Last(run).replicas && k <= |Last(run).log|
    ensures (exists run' :: Reaches(c, run, run', r, k)) <==> NoPoison(c.codec, Last(run).log, k)
  {
    if NoPoison(c.codec, Last(run).log, k) {
      var up := BringUp(c, run, r);
      var run' := CatchUpTo(c, up, r, k);
      ContinuesTransitive(c, run, up, run');
      assert Reaches(c, run, run', r, k);
    }
    if run' :| Reaches(c, run, run', r, k) {
      ContinuationExtends(c, run, run');
      var s := Last(run');
      assert ReplicaInv(c, s.log, s.replicas[r]);
      PanicFreeIffNoPoison(c, s.log, s.replicas[r].applied);
    }
  }

  /** `run'` goes on from `run` until the call `id` of Propose with `msg` has been answered. */
  ghost predicate Answers(c: Cluster, run: seq<State>, run': seq<State>, id: CallId, msg: Str) {
    Continues(c, run, run') && IsAnswered(Last(run'), id) && Last(run').calls[id].msg == msg
  }

  /** A replica takes the lead, and a new proposal of its own is committed. */
  lemma CommitOne(c: Cluster, run: seq<State>, r: ReplicaId, id: CallId, msg: Str, clientIp: Str)
      returns (run': seq<State>)
    requires IsRun(c, run) && IsUp(Last(run), r) && id !in Last(run).calls
    requires !IsCommitted(Last(run).log, id)
    ensures Continues(c, run, run') && IsUp(Last(run'), r)
    ensures Last(run').log == Last(run).log + [LogEntry(id, msg)]
    ensures Last(run').calls == Last(run).calls[id := Call(msg, clientIp, r, Pending)]
    ensures Last(run').replicas[r] == Last(run).replicas[r].(leader := true)
  {
    var run1 := ContinueBy(c, run, SetLeader(r, true));
    var run2 := ContinueBy(c, run1, Propose(id, r, msg, clientIp));
    run' := ContinueBy(c, run2, Commit(id));
  }

  /** A replica with one entry to go applies it and answers the call behind it. */
  lemma ApplyAndAnswer(c: Cluster, run: seq<State>, r: ReplicaId, id: CallId, msg: Str, clientIp: Str)
      returns (run': seq<State>)
    requires IsRun(c, run) && IsUp(Last(run), r) && id in Last(run).calls
    requires Last(run).calls[id] == Call(msg, clientIp, r, Pending) && IsExecutable(c.codec, msg)
    requires var n := Last(run).replicas[r].applied; n < |Last(run).log| && Last(run).log[n] == LogEntry(id, msg)
    ensures Continues(c, run, run') && IsAnswered(Last(run'), id)
    ensures Last(run').calls[id].msg == msg && Last(run').calls[id].replica == r
    ensures Last(run').calls[id].clientIp == clientIp
    ensures Last(run').log == Last(run).log && Last(run').calls == Last(run).calls[id := Last(run').calls[id]]
    ensures IsUp(Last(run'), r) && Last(run').replicas[r].applied == Last(run).replicas[r].applied + 1
  {
    ResponseSplits(c.codec.unmarshal(msg).value, Last(run).replicas[r].m);
    var applied := ContinueBy(c, run, Apply(r));
    run' := ContinueBy(c, applied, Complete(id));
  }

  /** From a replica that has executed the whole log: it leads, proposes, commits, applies and answers. */
  lemma ServeOne(c: Cluster, run: seq<State>, r: ReplicaId, id: CallId, msg: Str, clientIp: Str)
      returns (run': seq<State>)
    requires IsRun(c, run) && IsUp(Last(run), r) && id !in Last(run).calls
    requires Last(run).replicas[r].applied == |Last(run).log| && !IsCommitted(Last(run).log, id)
    requires IsExecutable(c.codec, msg)
    ensures Answers(c, run, run', id, msg)
    ensures Last(run').calls[id].replica == r && Last(run').calls[id].clientIp == clientIp
    ensures Last(run').log == Last(run).log + [LogEntry(id, msg)]
    ensures Last(run').calls == Last(run).calls[id := Last(run').calls[id]]
    ensures IsUp(Last(run'), r) && Last(run').replicas[r].applied == |Last(run').log|
  {
    var committed := CommitOne(c, run, r, id, msg, clientIp);
    run' := ApplyAndAnswer(c, committed, r, id, msg, clientIp);
    ContinuesTransitive(c, run, committed, run');
  }

  /** A call that has not been made is not in the log, so it can only come after it. */
  lemma NewCallComesLater(s: State, s': State, id: CallId, i: nat)
    requires LogInv(s.log, s.calls) && Extends(s, s') && id !in s.calls
    requires i < |s'.log| && s'.log[i].id == id
    ensures i >= |s.log|
  {
  }

  /** A fresh call can be answered only if it is executable and nothing in the log panics. */
  lemma AnsweredNeedsNoPoison(c: Cluster, run: seq<State>, run': seq<State>, id: CallId, msg: Str)
    requires Answers(c, run, run', id, msg) && id !in Last(run).calls
    ensures NoPoison(c.codec, Last(run).log, |Last(run).log|) && IsExecutable(c.codec, msg)
  {
    ContinuationExtends(c, run, run');
    var s, s' := Last(run), Last(run');
    var i := AnswerIsSequential(c, s', id);
    NewCallComesLater(s, s', id, i);
    PanicFreeIffNoPoison(c, s'.log, i + 1);
  }

  /**
   * When the service still works: after any run, a new call of Propose can be answered, by some
   * continuation, if and only if its message is a SET or GET and no entry of the log has another
   * operation. It can then be answered by every replica.
   */
  lemma ServiceIff(c: Cluster, run: seq<State>, r: ReplicaId, id: CallId, msg: Str, clientIp: Str)
    requires IsRun(c, run) && r in Last(run).replicas && id !in Last(run).calls
    ensures (exists run' :: Answers(c, run, run', id, msg)) <==>
      NoPoison(c.codec, Last(run).log, |Last(run).log|) && IsExecutable(c.codec, msg)
    ensures (exists run' :: Answers(c, run, run', id, msg)) ==>
      exists run' :: Answers(c, run, run', id, msg) && Last(run').calls[id].replica == r
                     && Last(run').calls[id].clientIp == clientIp
  {
    if run' :| Answers(c, run, run', id, msg) {
      AnsweredNeedsNoPoison(c, run, run', id, msg);
    }
    if NoPoison(c.codec, Last(run).log, |Last(run).log|) && IsExecutable(c.codec, msg) {
      var run' := CaughtUp(c, run, r);
      ContinuationExtends(c, run, run');
      var run'' := ServeOne(c, run', r, id, msg, clientIp);
      ContinuesTransitive(c, run, run', run'');
      assert Answers(c, run, run'', id, msg);
    }
  }

  lemma CaughtUp(c: Cluster, run: seq<State>, r: ReplicaId) returns (run': seq<State>)
    requires IsRun(c, run) && r in Last(run).replicas
    requires NoPoison(c.codec, Last(run).log, |Last(run).log|)
    ensures Continues(c, run, run') && IsUp(Last(run'), r)
    ensures Last(run').replicas[r].applied == |Last(run').log|
    ensures Last(run').log == Last(run).log && Last(run').calls == Last(run).calls
  {
    var up := BringUp(c, run, r);
    run' := CatchUpTo(c, up, r, |Last(run).log|);
    ContinuesTransitive(c, run, up, run');
    ContinuationExtends(c, run, run');
    assert ReplicaInv(c, Last(run').log, Last(run').replicas[r]);
  }

  /** No call made after `run` is answered in any continuation. */
  ghost predicate ServiceIsOver(c: Cluster, run: seq<State>)
    requires |run| > 0
  {
    forall run', id :: Continues(c, run, run') && id !in Last(run).calls ==> !IsAnswered(Last(run'), id)
  }

  /** One panicking command, sent to a leader and committed, ends the service. */
  lemma PoisonEndsService(c: Cluster, run: seq<State>, r: ReplicaId, id: CallId, msg: Str, clientIp: Str)
      returns (run': seq<State>)
    requires IsRun(c, run) && IsUp(Last(run), r) && Last(run).replicas[r].leader && id !in Last(run).calls
    requires IsPoison(c.codec, msg)
    ensures Continues(c, run, run') && ServiceIsOver(c, run')
    ensures Last(run').log == Last(run).log + [LogEntry(id, msg)]
  {
    ContinuationExtends(c, run, run);
    var proposed := ContinueBy(c, run, Propose(id, r, msg, clientIp));
    run' := ContinueBy(c, proposed, Commit(id));
    var log := Last(run').log;
    assert IsPoison(c.codec, log[|log| - 1].data);
    forall later, call | Continues(c, run', later) && call !in Last(run').calls
      ensures !IsAnswered(Last(later), call)
    {
      if IsAnswered(Last(later), call) {
        AnsweredNeedsNoPoison(c, run', later, call, Last(later).calls[call].msg);
      }
    }
  }

  /** So it does in a cluster that has just started. */
  lemma PoisonEndsNewService(c: Cluster, msg: Str, clientIp: Str) returns (run: seq<State>)
    requires IsPoison(c.codec, msg)
    ensures IsRun(c, run) && ServiceIsOver(c, run)
    ensures Last(run).log == [LogEntry(0, msg)]
  {
    var start := State([], map[0 := Replica(true, false, 0, c.preload, map[])], map[], {});
    assert IsRun(c, [start]);
    var led := ContinueBy(c, [start], SetLeader(0, true));
    run := PoisonEndsService(c, led, 0, 0, msg, clientIp);
  }

  /** The DELETE that the documentation still offers is such a command. */
  lemma DeleteEndsService(preload: KvMap, ip: Str, key: Str, clientIp: Str) returns (run: seq<State>)
    ensures var c := Cluster(PLAIN, preload);
      && IsRun(c, run) && ServiceIsOver(c, run)
      && Last(run).log == [LogEntry(0, PLAIN.marshal(Command(0, ip, Delete, key, [])))]
  {
    PlainIsSound();
    run := PoisonEndsNewService(Cluster(PLAIN, preload), PLAIN.marshal(Command(0, ip, Delete, key, [])), clientIp);
  }

  // One client message, proposed by two leaders.

  /**
   * A second execution of a SET goes unnoticed, whatever follows it, if and only if the last SET
   * of its key before it, at `last`, set the same value.
   */
  lemma DuplicateHarmlessIff(codec: Codec, init: KvMap, log: seq<Str>, last: nat, msg: Str, key: Str)
    requires last < |log| && Writes(codec, log[last], key) && Writes(codec, msg, key)
    requires forall j :: last < j < |log| ==> !Writes(codec, log[j], key)
    ensures (forall rest :: StateAfter(codec, init, log + [msg] + rest) == StateAfter(codec, init, log + rest))
       <==> codec.unmarshal(log[last]).value.value == codec.unmarshal(msg).value.value
  {
    var before, after := StateAfter(codec, init, log), StateAfter(codec, init, log + [msg]);
    SameStateIff(codec, init, log, last, msg, key);
    forall rest ensures StateAfter(codec, init, log + [msg] + rest) == StateAfter(codec, after, rest)
                     && StateAfter(codec, init, log + rest) == StateAfter(codec, before, rest) {
      StateAfterConcat(codec, init, log + [msg], rest);
      StateAfterConcat(codec, init, log, rest);
    }
    assert StateAfter(codec, init, log + [msg] + []) == after && StateAfter(codec, init, log + []) == before;
  }

  /** The state does not change at all exactly when the value is the same. */
  lemma SameStateIff(codec: Codec, init: KvMap, log: seq<Str>, last: nat, msg: Str, key: Str)
    requires last < |log| && Writes(codec, log[last], key) && Writes(codec, msg, key)
    requires forall j :: last < j < |log| ==> !Writes(codec, log[j], key)
    ensures StateAfter(codec, init, log + [msg]) == StateAfter(codec, init, log)
       <==> codec.unmarshal(log[last]).value.value == codec.unmarshal(msg).value.value
  {
    var before, after := StateAfter(codec, init, log), StateAfter(codec, init, log + [msg]);
    var put := codec.unmarshal(msg).value;
    LastWriteWins(codec, init, log, key, last);
    WrittenIsPresent(codec, init, log, key, last);
    assert (log + [msg])[..|log|] == log;
    assert after == before[key := put.value];
    assert after == before <==> before[key] == put.value;
  }

  lemma {:induction false} WrittenIsPresent(codec: Codec, init: KvMap, log: seq<Str>, key: Str, i: nat)
    requires i < |log| && Writes(codec, log[i], key)
    ensures key in StateAfter(codec, init, log)
  {
    var before := log[..|log| - 1];
    if i < |before| {
      WrittenIsPresent(codec, init, before, key, i);
    }
  }

  /** Two replicas that have just started. */
  lemma TwoReplicas(c: Cluster) returns (run: seq<State>)
    ensures IsRun(c, run) && Last(run).log == [] && Last(run).calls == map[]
    ensures Last(run).replicas == map[0 := Replica(true, false, 0, c.preload, map[]),
                                      1 := Replica(true, false, 0, c.preload, map[])]
  {
    run := [State([], map[0 := Replica(true, false, 0, c.preload, map[]), 1 := Replica(true, false, 0, c.preload, map[])],
                  map[], {})];
  }

  lemma ReplicasStay(c: Cluster, s: State, s': State)
    requires Next(c, s, s')
    ensures s'.replicas.Keys == s.replicas.Keys
  {
  }

  lemma {:induction false} ReplicasStayInRun(c: Cluster, run: seq<State>, i: nat)
    requires IsRun(c, run) && i < |run|
    ensures run[i].replicas.Keys == run[0].replicas.Keys
  {
    if i > 0 {
      ReplicasStayInRun(c, run, i - 1);
      ReplicasStay(c, run[i - 1], run[i]);
    }
  }

  lemma SameReplicas(c: Cluster, run: seq<State>, run': seq<State>)
    requires Continues(c, run, run')
    ensures Last(run').replicas.Keys == Last(run).replicas.Keys
  {
    ReplicasStayInRun(c, run', |run| - 1);
    ReplicasStayInRun(c, run', |run'| - 1);
  }

  /** A new leader executes what was committed before it, and then serves a call of its own. */
  lemma NextLeaderServes(c: Cluster, run: seq<State>, r: ReplicaId, id: CallId, msg: Str, clientIp: Str)
      returns (run': seq<State>)
    requires IsRun(c, run) && r in Last(run).replicas && id !in Last(run).calls
    requires NoPoison(c.codec, Last(run).log, |Last(run).log|) && IsExecutable(c.codec, msg)
    ensures Answers(c, run, run', id, msg) && Last(run').calls[id].replica == r
    ensures Last(run').log == Last(run).log + [LogEntry(id, msg)]
    ensures Last(run').calls == Last(run).calls[id := Last(run').calls[id]]
  {
    var ready := CaughtUp(c, run, r);
    ContinuationExtends(c, run, ready);
    run' := ServeOne(c, ready, r, id, msg, clientIp);
    ContinuesTransitive(c, run, ready, run');
  }

  /**
   * Linearizability is a property of the calls of Propose, and not of the clients' messages. A
   * client sends SET `a` to both replicas; replica 0 leads, and answers it and then the SET `b` of
   * another client, made after that answer. Then replica 1 leads, gets to its copy of `a` and
   * proposes it: a GET made after all answers returns the value of `a` again.
   */
  lemma MessageMayBeExecutedTwice(c: Cluster, a: Str, b: Str, g: Str, key: Str, clientIp: Str)
      returns (afterA: seq<State>, afterB: seq<State>, afterCopy: seq<State>, run: seq<State>)
    requires Writes(c.codec, a, key) && Writes(c.codec, b, key)
    requires IsExecutable(c.codec, g) && c.codec.unmarshal(g).value.op == Get && c.codec.unmarshal(g).value.key == key
    ensures Continues(c, afterA, afterB) && Continues(c, afterB, afterCopy) && Continues(c, afterCopy, run)
    ensures IsAnswered(Last(afterA), 0) && Last(afterA).calls.Keys == {0} && Last(afterA).calls[0].msg == a
    ensures IsAnswered(Last(afterB), 1) && Last(afterB).calls.Keys == {0, 1} && Last(afterB).calls[1].msg == b
    ensures IsAnswered(Last(afterCopy), 2) && Last(afterCopy).calls.Keys == {0, 1, 2} && Last(afterCopy).calls[2].msg == a
    ensures Last(afterCopy).calls[0].replica == Last(afterCopy).calls[1].replica == 0
    ensures Last(afterCopy).calls[2].replica == 1
    ensures 3 in Last(run).calls && Last(run).calls[3].msg == g
    ensures Last(run).calls[3].status
         == Reply(Last(run).calls[3], c.codec.unmarshal(g).value.ip, c.codec.unmarshal(a).value.value)
  {
    var begun := TwoReplicas(c);
    afterA := NextLeaderServes(c, begun, 0, 0, a, clientIp);
    SameReplicas(c, begun, afterA);
    afterB := NextLeaderServes(c, afterA, 0, 1, b, clientIp);
    SameReplicas(c, afterA, afterB);
    afterCopy := NextLeaderServes(c, afterB, 1, 2, a, clientIp);
    SameReplicas(c, afterB, afterCopy);
    run := NextLeaderServes(c, afterCopy, 1, 3, g, clientIp);
    ReadsTheCopy(c, run, a, b, g, key);
  }

  lemma ReadsTheCopy(c: Cluster, run: seq<State>, a: Str, b: Str, g: Str, key: Str)
    requires IsRun(c, run) && IsAnswered(Last(run), 3)
    requires Last(run).log == [LogEntry(0, a), LogEntry(1, b), LogEntry(2, a), LogEntry(3, g)]
    requires Writes(c.codec, a, key)
    requires IsExecutable(c.codec, g) && c.codec.unmarshal(g).value.op == Get && c.codec.unmarshal(g).value.key == key
    ensures Last(run).calls[3].status
         == Reply(Last(run).calls[3], c.codec.unmarshal(g).value.ip, c.codec.unmarshal(a).value.value)
  {
    GetReturnsLastCommittedSet(c, run, |run| - 1, 3, 2, c.codec.unmarshal(g).value);
  }

  // Steps that leave no answer behind.

  /** A running process can crash at any moment: it is down, and its waiting calls have failed. */
  lemma CrashOne(c: Cluster, run: seq<State>, r: ReplicaId) returns (run': seq<State>)
    requires IsRun(c, run) && IsUp(Last(run), r)
    ensures Continues(c, run, run') && !IsUp(Last(run'), r)
    ensures Last(run').log == Last(run).log && Last(run').calls.Keys == Last(run).calls.Keys
    ensures forall id :: id in Last(run).calls && Last(run).calls[id].replica == r ==> HasReturned(Last(run'), id)
  {
    run' := ContinueBy(c, run, Crash(r));
  }

  /**
   * A snapshot brings another running replica to where the first one is, without executing one
   * entry: forward over what it has missed, or back.
   */
  lemma SnapshotTransfer(c: Cluster, run: seq<State>, from: ReplicaId, to: ReplicaId) returns (run': seq<State>)
    requires IsRun(c, run) && IsUp(Last(run), from) && IsUp(Last(run), to)
    ensures Continues(c, run, run') && IsUp(Last(run'), to)
    ensures Last(run').replicas[to].responses == Last(run).replicas[to].responses
    ensures Last(run').replicas[to].applied == Last(run).replicas[from].applied <= |Last(run).log|
    ensures Last(run').replicas[to].m == PrefixState(c, Last(run).log, Last(run).replicas[from].applied)
    ensures Last(run').log == Last(run).log && Last(run').calls == Last(run).calls
  {
    var s := Last(run);
    RunKeepsInv(c, run, |run| - 1);
    assert ReplicaInv(c, s.log, s.replicas[from]);
    var taken := ContinueBy(c, run, TakeSnapshot(from));
    var snapshot := Snapshot(s.replicas[from].applied, s.replicas[from].m);
    run' := ContinueBy(c, taken, InstallSnapshot(to, snapshot));
    ContinuesTransitive(c, run, taken, run');
  }

  /** A leader can step down; what it is sent then is dropped, never committed and never answered. */
  lemma FollowerDrops(c: Cluster, run: seq<State>, r: ReplicaId, id: CallId, msg: Str, clientIp: Str)
      returns (run': seq<State>)
    requires IsRun(c, run) && IsUp(Last(run), r) && id !in Last(run).calls
    ensures Continues(c, run, run') && Last(run').calls == Last(run).calls[id := Call(msg, clientIp, r, Dropped)]
    ensures forall later :: Continues(c, run', later) ==>
      !IsCommitted(Last(later).log, id) && !IsAnswered(Last(later), id)
  {
    var down := ContinueBy(c, run, SetLeader(r, false));
    run' := ContinueBy(c, down, Propose(id, r, msg, clientIp));
    forall later | Continues(c, run', later)
      ensures !IsCommitted(Last(later).log, id) && !IsAnswered(Last(later), id)
    {
      ContinuationExtends(c, run', later);
    }
  }

  /** The call behind an entry that does not decode: Propose returns an error, and nothing is sent. */
  lemma UndecodableIsRejected(c: Cluster, run: seq<State>, r: ReplicaId, id: CallId, msg: Str, clientIp: Str)
      returns (run': seq<State>)
    requires IsRun(c, run) && IsUp(Last(run), r) && id !in Last(run).calls && !IsCommitted(Last(run).log, id)
    requires Last(run).replicas[r].applied == |Last(run).log| && c.codec.unmarshal(msg).None?
    ensures Continues(c, run, run') && Last(run').log == Last(run).log + [LogEntry(id, msg)]
    ensures Last(run').calls == Last(run).calls[id := Call(msg, clientIp, r, Rejected)]
    ensures IsUp(Last(run'), r) && Last(run').replicas[r].m == Last(run).replicas[r].m
  {
    var committed := CommitOne(c, run, r, id, msg, clientIp);
    var applied := ContinueBy(c, committed, Apply(r));
    run' := ContinueBy(c, applied, Complete(id));
  }

  /** A call that a leader has accepted and then given up, its proposal committed nevertheless. */
  lemma GiveUpThenCommit(c: Cluster, run: seq<State>, r: ReplicaId, id: CallId, msg: Str, clientIp: Str)
      returns (failed: seq<State>, run': seq<State>)
    requires IsRun(c, run) && IsUp(Last(run), r) && id !in Last(run).calls && !IsCommitted(Last(run).log, id)
    ensures Continues(c, run, failed) && Continues(c, failed, run')
    ensures Last(failed).log == Last(run).log
    ensures Last(failed).calls == Last(run).calls[id := Call(msg, clientIp, r, Failed)]
    ensures Last(run').log == Last(run).log + [LogEntry(id, msg)] && Last(run').calls == Last(failed).calls
  {
    var led := ContinueBy(c, run, SetLeader(r, true));
    var proposed := ContinueBy(c, led, Propose(id, r, msg, clientIp));
    failed := ContinueBy(c, proposed, GiveUp(id));
    run' := ContinueBy(c, failed, Commit(id));
  }

  /** Nor is a call safe from being given up once its proposal is committed. */
  lemma CommitThenGiveUp(c: Cluster, run: seq<State>, r: ReplicaId, id: CallId, msg: Str, clientIp: Str)
      returns (run': seq<State>)
    requires IsRun(c, run) && IsUp(Last(run), r) && id !in Last(run).calls && !IsCommitted(Last(run).log, id)
    ensures Continues(c, run, run') && Last(run').log == Last(run).log + [LogEntry(id, msg)]
    ensures Last(run').calls == Last(run).calls[id := Call(msg, clientIp, r, Failed)]
  {
    var committed := CommitOne(c, run, r, id, msg, clientIp);
    run' := ContinueBy(c, committed, GiveUp(id));
  }

  /**
   * An error from raft.Apply does not mean that nothing happens: a SET whose call has failed, and
   * that nobody ever answers, may be read by a GET made after the failure.
   */
  lemma FailedSetMayTakeEffect(c: Cluster, a: Str, g: Str, key: Str, clientIp: Str)
      returns (failed: seq<State>, run: seq<State>)
    requires Writes(c.codec, a, key)
    requires IsExecutable(c.codec, g) && c.codec.unmarshal(g).value.op == Get && c.codec.unmarshal(g).value.key == key
    ensures Continues(c, failed, run)
    ensures Last(failed).calls == map[0 := Call(a, clientIp, 0, Failed)] && Last(failed).log == []
    ensures 0 in Last(run).calls && Last(run).calls[0].status == Failed
    ensures 1 in Last(run).calls && Last(run).calls[1].msg == g
    ensures Last(run).calls[1].status
         == Reply(Last(run).calls[1], c.codec.unmarshal(g).value.ip, c.codec.unmarshal(a).value.value)
  {
    var begun := TwoReplicas(c);
    var committed;
    failed, committed := GiveUpThenCommit(c, begun, 0, 0, a, clientIp);
    SameReplicas(c, begun, failed);
    SameReplicas(c, failed, committed);
    run := NextLeaderServes(c, committed, 0, 1, g, clientIp);
    assert Last(run).log == [LogEntry(0, a), LogEntry(1, g)];
    GetReturnsLastCommittedSet(c, run, |run| - 1, 1, 0, c.codec.unmarshal(g).value);
  }
}
