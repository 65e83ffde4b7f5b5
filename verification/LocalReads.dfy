/**
 * webkvstore's GETs read the local map of whichever replica they reach: what such reads can
 * return, and when they are current.
 */
module LocalReads {
  import opened GoBytes
  import opened KvSpec
  import opened WebKvStore

  datatype Replica = Replica(applied: nat, m: KvMap)

  /**
   * A Get: the replica, the key, the value returned, how much of the log the replica had applied,
   * and how much was committed at that moment.
   */
  datatype Read = Read(replica: nat, key: Str, value: Str, at: nat, committed: nat)

  datatype State = State(log: seq<Str>, replicas: map<nat, Replica>, snapshots: set<Replica>, gets: seq<Read>)

  datatype Action =
    | Commit(data: Str)
    | ApplyNext(r: nat)
    | TakeSnapshot(r: nat)
    | RestoreNewer(r: nat, snapshot: Replica)
    | GetLocal(r: nat, key: Str)

  predicate Enabled(json: Json, s: State, a: Action) {
    match a
    case Commit(_) => true
    case ApplyNext(r) =>
      && r in s.replicas && s.replicas[r].applied < |s.log|
      && Step(json, s.log[s.replicas[r].applied], s.replicas[r].m).Some?
    case TakeSnapshot(r) => r in s.replicas
    case RestoreNewer(r, snapshot) => r in s.replicas && snapshot in s.snapshots && s.replicas[r].applied <= snapshot.applied
    case GetLocal(r, _) => r in s.replicas
  }

  function Do(json: Json, s: State, a: Action): (s': State)
    requires Enabled(json, s, a)
  {
    match a
    case Commit(data) => s.(log := s.log + [data])
    case ApplyNext(r) =>
      var p := s.replicas[r];
      s.(replicas := s.replicas[r := Replica(p.applied + 1, Step(json, s.log[p.applied], p.m).value)])
    case TakeSnapshot(r) => s.(snapshots := s.snapshots + {s.replicas[r]})
    case RestoreNewer(r, snapshot) => s.(replicas := s.replicas[r := snapshot])
    case GetLocal(r, key) =>
      s.(gets := s.gets + [Read(r, key, Lookup(s.replicas[r].m, key), s.replicas[r].applied, |s.log|)])
  }

  ghost predicate Next(json: Json, s: State, s': State) {
    exists a :: Enabled(json, s, a) && s' == Do(json, s, a)
  }

  ghost predicate IsRun(json: Json, run: seq<State>) {
    && |run| > 0
    && run[0].log == [] && run[0].snapshots == {} && run[0].gets == []
    && (forall r :: r in run[0].replicas ==> run[0].replicas[r] == Replica(0, map[]))
    && forall i :: 0 < i < |run| ==> Next(json, run[i - 1], run[i])
  }

  ghost predicate AtPrefix(json: Json, log: seq<Str>, p: Replica) {
    p.applied <= |log| && Run(json, log[..p.applied]) == Some(p.m)
  }

  /** The read returned what the map held after the first `at` entries. */
  ghost predicate ReadsPrefix(json: Json, log: seq<Str>, read: Read) {
    && read.at <= read.committed <= |log| && Run(json, log[..read.at]).Some?
    && read.value == Lookup(Run(json, log[..read.at]).value, read.key)
  }

  /** Every read saw a prefix its replica has applied, and later reads see no less of the log. */
  ghost predicate ReadsInv(json: Json, s: State) {
    && (forall i :: 0 <= i < |s.gets| ==> ReadsPrefix(json, s.log, s.gets[i]))
    && (forall i :: 0 <= i < |s.gets| ==>
          s.gets[i].replica in s.replicas && s.gets[i].at <= s.replicas[s.gets[i].replica].applied)
    && (forall i, j :: 0 <= i < j < |s.gets| && s.gets[i].replica == s.gets[j].replica ==>
          s.gets[i].at <= s.gets[j].at)
    && (forall i, j :: 0 <= i < j < |s.gets| ==> s.gets[i].committed <= s.gets[j].committed)
  }

  ghost predicate Inv(json: Json, s: State) {
    && (forall r :: r in s.replicas ==> AtPrefix(json, s.log, s.replicas[r]))
    && (forall p :: p in s.snapshots ==> AtPrefix(json, s.log, p))
    && ReadsInv(json, s)
  }

  lemma CommitKeepsInv(json: Json, s: State, data: Str)
    requires Inv(json, s)
    ensures Inv(json, Do(json, s, Commit(data)))
  {
    assert forall k :: 0 <= k <= |s.log| ==> (s.log + [data])[..k] == s.log[..k];
  }

  lemma ApplyKeepsInv(json: Json, s: State, r: nat)
    requires Inv(json, s) && Enabled(json, s, ApplyNext(r))
    ensures Inv(json, Do(json, s, ApplyNext(r)))
  {
    var k := s.replicas[r].applied;
    assert AtPrefix(json, s.log, s.replicas[r]);
    assert s.log[..k + 1][..k] == s.log[..k];
  }

  lemma GetKeepsInv(json: Json, s: State, r: nat, key: Str)
    requires Inv(json, s) && Enabled(json, s, GetLocal(r, key))
    ensures Inv(json, Do(json, s, GetLocal(r, key)))
  {
    assert AtPrefix(json, s.log, s.replicas[r]);
    OneMoreRead(json, s, Read(r, key, Lookup(s.replicas[r].m, key), s.replicas[r].applied, |s.log|));
  }

  lemma OneMoreRead(json: Json, s: State, read: Read)
    requires ReadsInv(json, s) && ReadsPrefix(json, s.log, read)
    requires read.replica in s.replicas && read.at == s.replicas[read.replica].applied && read.committed == |s.log|
    ensures ReadsInv(json, s.(gets := s.gets + [read]))
  {
    var n, gets := |s.gets|, s.gets + [read];
    assert forall i :: 0 <= i < n ==> gets[i] == s.gets[i] && ReadsPrefix(json, s.log, s.gets[i]);
  }

  lemma RestoreKeepsInv(json: Json, s: State, r: nat, snapshot: Replica)
    requires Inv(json, s) && Enabled(json, s, RestoreNewer(r, snapshot))
    ensures Inv(json, Do(json, s, RestoreNewer(r, snapshot)))
  {
    assert AtPrefix(json, s.log, snapshot);
  }

  lemma StepKeepsInv(json: Json, s: State, s': State)
    requires Inv(json, s) && Next(json, s, s')
    ensures Inv(json, s')
  {
    var a :| Enabled(json, s, a) && s' == Do(json, s, a);
    match a
    case Commit(data) => CommitKeepsInv(json, s, data);
    case ApplyNext(r) => ApplyKeepsInv(json, s, r);
    case GetLocal(r, key) => GetKeepsInv(json, s, r, key);
    case RestoreNewer(r, snapshot) => RestoreKeepsInv(json, s, r, snapshot);
    case TakeSnapshot(r) =>
  }

  lemma {:induction false} RunKeepsInv(json: Json, run: seq<State>, i: nat)
    requires IsRun(json, run) && i < |run|
    ensures Inv(json, run[i])
  {
    if i == 0 {
      assert run[0].log[..0] == [];
    } else {
      RunKeepsInv(json, run, i - 1);
      StepKeepsInv(json, run[i - 1], run[i]);
    }
  }

  /**
   * Local reads are prefix-consistent: without a restore to an older snapshot, every Get ever
   * made returned the key's value after some prefix of the committed log, and successive reads
   * on one replica saw prefixes that never shrink.
   */
  lemma LocalReadsPrefixConsistent(json: Json, run: seq<State>, q: nat, i: nat, j: nat)
    requires IsRun(json, run) && q < |run|
    requires i <= j < |run[q].gets|
    ensures var gets := run[q].gets;
      && ReadsPrefix(json, run[q].log, gets[i])
      && ReadsPrefix(json, run[q].log, gets[j])
      && (gets[i].replica == gets[j].replica ==> gets[i].at <= gets[j].at)
  {
    RunKeepsInv(json, run, q);
  }

  // When a read is current.

  /** What an entry that touches a key leaves there. */
  function Left(json: Json, data: Str): (v: Str)
    requires json.command(data).Some?
  {
    if json.command(data).value.op == SetKey then json.command(data).value.value else []
  }

  /** Of the entries from `lo` up to `hi`, the last that touches the key, if any, leaves `v` there. */
  predicate Stays(json: Json, log: seq<Str>, lo: nat, hi: nat, key: Str, v: Str)
    requires lo <= hi <= |log|
  {
    forall j :: lo <= j < hi && Touches(json, log[j], key) && !TouchedIn(json, log, j + 1, hi, key) ==>
      Left(json, log[j]) == v
  }

  predicate TouchedIn(json: Json, log: seq<Str>, lo: nat, hi: nat, key: Str)
    requires lo <= hi <= |log|
  {
    exists j :: lo <= j < hi && Touches(json, log[j], key)
  }

  /** The key's value after the first `k` entries. */
  function ValueAt(json: Json, log: seq<Str>, k: nat, key: Str): (v: Str)
    requires k <= Runnable(json, log)
  {
    RunnableIff(json, log, k);
    Lookup(Run(json, log[..k]).value, key)
  }

  /** The last entry that touches a key. */
  lemma {:induction false} LastTouch(json: Json, log: seq<Str>, lo: nat, hi: nat, key: Str) returns (j: nat)
    requires lo <= hi <= |log| && TouchedIn(json, log, lo, hi, key)
    ensures lo <= j < hi && Touches(json, log[j], key) && !TouchedIn(json, log, j + 1, hi, key)
    decreases hi
  {
    if Touches(json, log[hi - 1], key) {
      j := hi - 1;
    } else {
      j := LastTouch(json, log, lo, hi - 1, key);
    }
  }

  lemma {:induction false} UntouchedKeepsValue(json: Json, log: seq<Str>, lo: nat, hi: nat, key: Str)
    requires lo <= hi <= Runnable(json, log) && !TouchedIn(json, log, lo, hi, key)
    ensures ValueAt(json, log, hi, key) == ValueAt(json, log, lo, key)
    decreases hi
  {
    if lo < hi {
      UntouchedKeepsValue(json, log, lo, hi - 1, key);
      NextKeepsValue(json, log, hi - 1, key);
    }
  }

  lemma NextKeepsValue(json: Json, log: seq<Str>, k: nat, key: Str)
    requires k < Runnable(json, log) && !Touches(json, log[k], key)
    ensures ValueAt(json, log, k + 1, key) == ValueAt(json, log, k, key)
  {
    assert log[..k + 1][..k] == log[..k];
    RunnableIff(json, log, k + 1);
    RunnableIff(json, log, k);
  }

  lemma TouchLeaves(json: Json, log: seq<Str>, j: nat, key: Str)
    requires j < Runnable(json, log) && Touches(json, log[j], key)
    ensures ValueAt(json, log, j + 1, key) == Left(json, log[j])
  {
    RunnableIff(json, log, j + 1);
    LastTouchDecides(json, log[..j + 1], key, j);
  }

  /** A value read at `lo` is still the key's value at `hi` exactly when the entries between leave it. */
  lemma StaysIff(json: Json, log: seq<Str>, lo: nat, hi: nat, key: Str)
    requires lo <= hi <= Runnable(json, log)
    ensures ValueAt(json, log, hi, key) == ValueAt(json, log, lo, key) <==>
      Stays(json, log, lo, hi, key, ValueAt(json, log, lo, key))
  {
    if TouchedIn(json, log, lo, hi, key) {
      var j := LastTouch(json, log, lo, hi, key);
      TouchLeaves(json, log, j, key);
      UntouchedKeepsValue(json, log, j + 1, hi, key);
      OnlyLastTouch(json, log, lo, hi, key, j);
    } else {
      UntouchedKeepsValue(json, log, lo, hi, key);
    }
  }

  lemma TouchesAfter(json: Json, log: seq<Str>, i: nat, j: nat, hi: nat, key: Str)
    requires i < hi && j < hi <= |log| && Touches(json, log[j], key)
    ensures i < j ==> TouchedIn(json, log, i + 1, hi, key)
  {
  }

  lemma OnlyLastTouch(json: Json, log: seq<Str>, lo: nat, hi: nat, key: Str, j: nat)
    requires lo <= j < hi <= |log| && Touches(json, log[j], key) && !TouchedIn(json, log, j + 1, hi, key)
    ensures forall v :: Stays(json, log, lo, hi, key, v) <==> Left(json, log[j]) == v
  {
    forall i | lo <= i < hi && Touches(json, log[i], key) && !TouchedIn(json, log, i + 1, hi, key) ensures i == j {
      TouchesAfter(json, log, i, j, hi, key);
      TouchesAfter(json, log, j, i, hi, key);
    }
  }

  /** The read returned the newest value of its key: that after all the entries committed then that can be executed. */
  ghost predicate IsCurrent(json: Json, log: seq<Str>, read: Read)
  {
    read.value == ValueAt(json, log, Newest(json, log, read), read.key)
  }

  /** How much of the log could be executed when the read was made. */
  function Newest(json: Json, log: seq<Str>, read: Read): (k: nat)
    ensures k <= Runnable(json, log)
  {
    var seen := if read.committed <= |log| then read.committed else 0;
    RunnableMonotone(json, log, seen, |log|);
    Runnable(json, log[..seen])
  }

  /**
   * A local GET is current if and only if, of the entries its replica had still to apply, the
   * last that touches the key, if any, leaves the very value read.
   */
  lemma ReadIsCurrentIff(json: Json, run: seq<State>, q: nat, i: nat)
    requires IsRun(json, run) && q < |run| && i < |run[q].gets|
    ensures var log, read := run[q].log, run[q].gets[i];
      && read.committed <= |log|
      && read.at <= Newest(json, log, read)
      && (IsCurrent(json, log, read) <==> Stays(json, log, read.at, Newest(json, log, read), read.key, read.value))
  {
    RunKeepsInv(json, run, q);
    var log, read := run[q].log, run[q].gets[i];
    assert ReadsPrefix(json, log, read);
    assert log[..read.committed][..read.at] == log[..read.at];
    RunnableIff(json, log[..read.committed], read.at);
    StaysIff(json, log, read.at, Newest(json, log, read), read.key);
  }

  // When all reads together make sense.

  predicate NonDecreasing(ks: seq<nat>) {
    forall i, j :: 0 <= i < j < |ks| ==> ks[i] <= ks[j]
  }

  lemma NonDecreasingMore(ks: seq<nat>, k: nat)
    requires NonDecreasing(ks) && (ks != [] ==> ks[|ks| - 1] <= k)
    ensures NonDecreasing(ks + [k])
  {
  }

  /** Places in the log for the reads, in the order in which they were made, that explain their values. */
  ghost predicate Explains(json: Json, log: seq<Str>, gets: seq<Read>, ks: seq<nat>)
  {
    && |ks| == |gets|
    && NonDecreasing(ks)
    && forall i :: 0 <= i < |ks| ==> IsPlace(json, log, gets[i], ks[i])
  }

  /** After the first `k` entries, which could be executed when the read was made, the key had the value read. */
  ghost predicate IsPlace(json: Json, log: seq<Str>, read: Read, k: nat) {
    k <= Newest(json, log, read) && read.value == ValueAt(json, log, k, read.key)
  }

  /** Reads made one after the other can be put in the log without going back. */
  ghost predicate InOrder(json: Json, log: seq<Str>, gets: seq<Read>)
  {
    exists ks :: Explains(json, log, gets, ks)
  }

  /** The first place from `lo` on, up to `hi`, where the key has the value. */
  function FirstWith(json: Json, log: seq<Str>, lo: nat, hi: nat, key: Str, v: Str): (r: Option<nat>)
    requires hi <= Runnable(json, log)
    ensures r.Some? ==> lo <= r.value <= hi && ValueAt(json, log, r.value, key) == v
    ensures forall k: nat :: lo <= k <= hi && ValueAt(json, log, k, key) == v ==> r.Some? && r.value <= k
    decreases hi - lo
  {
    if lo > hi then None
    else if ValueAt(json, log, lo, key) == v then Some(lo)
    else FirstWith(json, log, lo + 1, hi, key, v)
  }

  /** Puts each read as early as the reads before it allow; None when one finds no place. */
  function Placed(json: Json, log: seq<Str>, gets: seq<Read>): (r: Option<nat>)
  {
    if gets == [] then Some(0)
    else
      var read := gets[|gets| - 1];
      match Placed(json, log, gets[..|gets| - 1])
      case None => None
      case Some(k) => FirstWith(json, log, k, Newest(json, log, read), read.key, read.value)
  }

  /** The reads of a run are in order if and only if placing each one as early as possible succeeds. */
  lemma InOrderIff(json: Json, log: seq<Str>, gets: seq<Read>)
    ensures InOrder(json, log, gets) <==> Placed(json, log, gets).Some?
  {
    if Placed(json, log, gets).Some? {
      var ks := PlacesExplain(json, log, gets);
    }
    if ks :| Explains(json, log, gets, ks) {
      PlacedIsEarliest(json, log, gets, ks);
    }
  }

  lemma {:induction false} PlacesExplain(json: Json, log: seq<Str>, gets: seq<Read>) returns (ks: seq<nat>)
    requires Placed(json, log, gets).Some?
    ensures Explains(json, log, gets, ks)
    ensures ks != [] ==> ks[|ks| - 1] == Placed(json, log, gets).value
  {
    ks := [];
    if gets != [] {
      var before := PlacesExplain(json, log, gets[..|gets| - 1]);
      ks := before + [Placed(json, log, gets).value];
      OneMorePlace(json, log, gets, before, Placed(json, log, gets).value);
    }
  }

  lemma OneMorePlace(json: Json, log: seq<Str>, gets: seq<Read>, ks: seq<nat>, k: nat)
    requires gets != [] && Explains(json, log, gets[..|gets| - 1], ks)
    requires ks != [] ==> ks[|ks| - 1] <= k
    requires IsPlace(json, log, gets[|gets| - 1], k)
    ensures Explains(json, log, gets, ks + [k])
  {
    NonDecreasingMore(ks, k);
    forall i | 0 <= i < |ks| ensures IsPlace(json, log, gets[i], ks[i]) {
      assert gets[..|gets| - 1][i] == gets[i];
    }
  }

  lemma {:induction false} PlacedIsEarliest(json: Json, log: seq<Str>, gets: seq<Read>, ks: seq<nat>)
    requires Explains(json, log, gets, ks)
    ensures Placed(json, log, gets).Some?
    ensures ks != [] ==> Placed(json, log, gets).value <= ks[|ks| - 1]
  {
    if gets != [] {
      PlacedIsEarliest(json, log, gets[..|gets| - 1], ks[..|ks| - 1]);
    }
  }

  /** Reads that are all current are in order. */
  lemma CurrentReadsAreInOrder(json: Json, run: seq<State>, q: nat)
    requires IsRun(json, run) && q < |run|
    requires forall i :: 0 <= i < |run[q].gets| ==> IsCurrent(json, run[q].log, run[q].gets[i])
    ensures InOrder(json, run[q].log, run[q].gets)
  {
    RunKeepsInv(json, run, q);
    var log, gets := run[q].log, run[q].gets;
    var ks := seq(|gets|, i requires 0 <= i < |gets| => Newest(json, log, gets[i]));
    forall i, j | 0 <= i < j < |gets| ensures ks[i] <= ks[j] {
      RunnableMonotone(json, log, gets[i].committed, gets[j].committed);
    }
    assert Explains(json, log, gets, ks);
  }

  /** As they are the reads of one replica. */
  lemma OneReplicaIsInOrder(json: Json, run: seq<State>, q: nat)
    requires IsRun(json, run) && q < |run|
    requires forall i, j :: 0 <= i < j < |run[q].gets| ==> run[q].gets[i].replica == run[q].gets[j].replica
    ensures InOrder(json, run[q].log, run[q].gets)
  {
    RunKeepsInv(json, run, q);
    var log, gets := run[q].log, run[q].gets;
    var ks := seq(|gets|, i requires 0 <= i < |gets| => gets[i].at);
    forall i | 0 <= i < |gets| ensures IsPlace(json, log, gets[i], ks[i]) {
      ReadIsCurrentIff(json, run, q, i);
      assert ReadsPrefix(json, log, gets[i]);
    }
    assert Explains(json, log, gets, ks);
  }

  lemma OneStepMore(json: Json, run: seq<State>, a: Action) returns (run': seq<State>)
    requires IsRun(json, run) && Enabled(json, run[|run| - 1], a)
    ensures IsRun(json, run') && run <= run' && run'[|run'| - 1] == Do(json, run[|run| - 1], a)
  {
    run' := run + [Do(json, run[|run| - 1], a)];
    forall i | 0 < i < |run'| ensures Next(json, run'[i - 1], run'[i]) {
      if i < |run| {
        assert Next(json, run[i - 1], run[i]);
      }
    }
  }

  /**
   * Across replicas they need not be: a value set and already read on one replica may be missing
   * in a later read on another, and no places in the log explain both reads.
   */
  lemma LaterReadMayBeStale(json: Json, data: Str, key: Str, value: Str) returns (run: seq<State>)
    requires json.command(data) == Some(WebCommand(SetKey, key, value)) && value != []
    ensures IsRun(json, run)
    ensures var s := run[|run| - 1];
      && s.log == [data]
      && s.gets == [Read(0, key, value, 1, 1), Read(1, key, [], 0, 1)]
      && !InOrder(json, s.log, s.gets)
  {
    var start := State([], map[0 := Replica(0, map[]), 1 := Replica(0, map[])], {}, []);
    run := OneStepMore(json, [start], Commit(data));
    run := OneStepMore(json, run, ApplyNext(0));
    run := OneStepMore(json, run, GetLocal(0, key));
    run := OneStepMore(json, run, GetLocal(1, key));
    NewThenOldIsOutOfOrder(json, data, key, value);
  }

  lemma ValueAfterOne(json: Json, data: Str, key: Str, value: Str, k: nat)
    requires json.command(data) == Some(WebCommand(SetKey, key, value))
    ensures k <= Runnable(json, [data]) ==> ValueAt(json, [data], k, key) == if k == 0 then [] else value
  {
    assert [data][..0] == [] && [data][..1] == [data];
    assert Run(json, [data][..0]) == Some(map[]);
  }

  lemma NewThenOldIsOutOfOrder(json: Json, data: Str, key: Str, value: Str)
    requires json.command(data) == Some(WebCommand(SetKey, key, value)) && value != []
    ensures !InOrder(json, [data], [Read(0, key, value, 1, 1), Read(1, key, [], 0, 1)])
  {
    forall ks ensures !Explains(json, [data], [Read(0, key, value, 1, 1), Read(1, key, [], 0, 1)], ks) {
      if |ks| == 2 {
        ValueAfterOne(json, data, key, value, ks[0]);
        ValueAfterOne(json, data, key, value, ks[1]);
      }
    }
  }

  // How far a replica can get.

  /** `run'` goes on from `run`, with nothing more committed, until replica `r` has applied `k` entries or more. */
  ghost predicate Reaches(json: Json, run: seq<State>, run': seq<State>, r: nat, k: nat) {
    && IsRun(json, run) && IsRun(json, run') && run <= run'
    && run'[|run'| - 1].log == run[|run| - 1].log
    && r in run'[|run'| - 1].replicas && run'[|run'| - 1].replicas[r].applied >= k
  }

  lemma ApplyOneMore(json: Json, run: seq<State>, r: nat) returns (run': seq<State>)
    requires IsRun(json, run) && r in run[|run| - 1].replicas
    requires run[|run| - 1].replicas[r].applied < Runnable(json, run[|run| - 1].log)
    ensures Reaches(json, run, run', r, run[|run| - 1].replicas[r].applied + 1)
  {
    var s := run[|run| - 1];
    var k := s.replicas[r].applied;
    RunKeepsInv(json, run, |run| - 1);
    assert AtPrefix(json, s.log, s.replicas[r]);
    RunnableIff(json, s.log, k + 1);
    assert s.log[..k + 1][..k] == s.log[..k];
    run' := OneStepMore(json, run, ApplyNext(r));
  }

  predicate NonePanics(json: Json, log: seq<Str>, k: nat)
    requires k <= |log|
  {
    forall i :: 0 <= i < k ==> !Panics(json, log[i])
  }

  lemma CatchUpTo(json: Json, run: seq<State>, r: nat, k: nat) returns (run': seq<State>)
    requires IsRun(json, run) && r in run[|run| - 1].replicas && k <= Runnable(json, run[|run| - 1].log)
    ensures Reaches(json, run, run', r, k)
    decreases k - run[|run| - 1].replicas[r].applied
  {
    if run[|run| - 1].replicas[r].applied >= k {
      run' := run;
    } else {
      var next := ApplyOneMore(json, run, r);
      run' := CatchUpTo(json, next, r, k);
    }
  }

  /** A replica can execute the first `k` entries, in some continuation, if and only if none of them panics. */
  lemma ReplicaReachesIff(json: Json, run: seq<State>, r: nat, k: nat)
    requires IsRun(json, run) && r in run[|run| - 1].replicas && k <= |run[|run| - 1].log|
    ensures (exists run' :: Reaches(json, run, run', r, k)) <==>
      NonePanics(json, run[|run| - 1].log, k)
  {
    var log := run[|run| - 1].log;
    if NonePanics(json, log, k) {
      var run' := CatchUpTo(json, run, r, k);
    }
    if run': seq<State> :| Reaches(json, run, run', r, k) {
      var s: State := run'[|run'| - 1];
      RunKeepsInv(json, run', |run'| - 1);
      assert AtPrefix(json, s.log, s.replicas[r]);
      RunnableIff(json, s.log, s.replicas[r].applied);
    }
  }

  /** A snapshot brings a replica that is behind to where another one is, without executing an entry. */
  lemma SnapshotTransfer(json: Json, run: seq<State>, from: nat, to: nat) returns (run': seq<State>)
    requires IsRun(json, run) && from in run[|run| - 1].replicas && to in run[|run| - 1].replicas
    requires run[|run| - 1].replicas[to].applied <= run[|run| - 1].replicas[from].applied
    ensures IsRun(json, run') && run'[|run'| - 1].log == run[|run| - 1].log
    ensures run'[|run'| - 1].replicas == run[|run| - 1].replicas[to := run[|run| - 1].replicas[from]]
  {
    var s := run[|run| - 1];
    var taken := OneStepMore(json, run, TakeSnapshot(from));
    run' := OneStepMore(json, taken, RestoreNewer(to, s.replicas[from]));
  }
}
