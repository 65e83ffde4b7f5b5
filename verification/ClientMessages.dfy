/**
 * Linearizability at the level of the clients' messages: several leaders may propose copies of
 * one message, and the committed log then holds it more than once.
 */
module ClientMessages {
  import opened GoBytes
  import opened Commands
  import opened KvSpec
  import opened Linearizability
  import opened Progress

  /** Which message a call of Propose carries. */
  type Origin = CallId -> nat

  predicate IsSet(codec: Codec, data: Str) {
    codec.unmarshal(data).Some? && codec.unmarshal(data).value.op == Set
  }

  /** Calls that carry one message carry the same bytes. */
  ghost predicate SameBytes(of: Origin, log: seq<LogEntry>) {
    forall i, j :: 0 <= i < |log| && 0 <= j < |log| && of(log[i].id) == of(log[j].id) ==> log[i].data == log[j].data
  }

  /** Entry `i` is a SET that an earlier entry already carries. */
  predicate Repeated(codec: Codec, of: Origin, log: seq<LogEntry>, i: nat)
    requires i < |log|
  {
    IsSet(codec, log[i].data) && exists j :: 0 <= j < i && of(log[j].id) == of(log[i].id)
  }

  /** The last SET before entry `i` of the key that entry `i` sets had the same value. */
  predicate Harmless(codec: Codec, log: seq<LogEntry>, i: nat)
    requires i < |log| && IsSet(codec, log[i].data)
  {
    var put := codec.unmarshal(log[i].data).value;
    forall j :: 0 <= j < i && IsLastWrite(codec, log, j, i, put.key) ==>
      codec.unmarshal(log[j].data).value.value == put.value
  }

  predicate IsLastWrite(codec: Codec, log: seq<LogEntry>, j: nat, i: nat, key: Str)
    requires j < i <= |log|
  {
    Writes(codec, log[j].data, key) && forall k :: j < k < i ==> !Writes(codec, log[k].data, key)
  }

  predicate HarmlessRepeat(codec: Codec, of: Origin, log: seq<LogEntry>, i: nat)
    requires i < |log|
  {
    Repeated(codec, of, log, i) ==> Harmless(codec, log, i)
  }

  predicate RepeatsAreHarmless(codec: Codec, of: Origin, log: seq<LogEntry>) {
    forall i :: 0 <= i < |log| ==> HarmlessRepeat(codec, of, log, i)
  }

  /** The log without the repeated SETs. */
  function FirstCopies(codec: Codec, of: Origin, log: seq<LogEntry>): (first: seq<LogEntry>)
    ensures |first| <= |log|
  {
    if log == [] then []
    else
      var n := |log| - 1;
      FirstCopies(codec, of, log[..n]) + if Repeated(codec, of, log, n) then [] else [log[n]]
  }

  /** The state that the first copies among the first `k` entries lead to. */
  function FirstState(c: Cluster, of: Origin, log: seq<LogEntry>, k: nat): (m: KvMap)
    requires k <= |log|
  {
    StateAfter(c.codec, c.preload, Payloads(FirstCopies(c.codec, of, log[..k])))
  }

  /** Of the first `k` entries, the first copies lead to the same state as all of them. */
  predicate ActsAlike(c: Cluster, of: Origin, log: seq<LogEntry>, k: nat)
    requires k <= |log|
  {
    FirstState(c, of, log, k) == PrefixState(c, log, k)
  }

  lemma {:induction false} LastWrite(codec: Codec, log: seq<LogEntry>, w: nat, i: nat, key: Str) returns (j: nat)
    requires w < i <= |log| && Writes(codec, log[w].data, key)
    ensures j < i && IsLastWrite(codec, log, j, i, key)
    decreases i
  {
    if Writes(codec, log[i - 1].data, key) {
      j := i - 1;
    } else {
      j := LastWrite(codec, log, w, i - 1, key);
    }
  }

  lemma OnlyLastWrite(codec: Codec, log: seq<LogEntry>, j: nat, k: nat, i: nat, key: Str)
    requires j < i <= |log| && IsLastWrite(codec, log, j, i, key)
    requires k < i && IsLastWrite(codec, log, k, i, key)
    ensures j == k
  {
  }

  /** A repeated SET leaves the state alone exactly when it is harmless. */
  lemma RepeatUnnoticedIff(c: Cluster, of: Origin, log: seq<LogEntry>, i: nat)
    requires i < |log| && Repeated(c.codec, of, log, i) && SameBytes(of, log)
    ensures PrefixState(c, log, i + 1) == PrefixState(c, log, i) <==> Harmless(c.codec, log, i)
  {
    var put := c.codec.unmarshal(log[i].data).value;
    var w :| 0 <= w < i && of(log[w].id) == of(log[i].id);
    var j := LastWrite(c.codec, log, w, i, put.key);
    forall k | 0 <= k < i && IsLastWrite(c.codec, log, k, i, put.key) ensures k == j {
      OnlyLastWrite(c.codec, log, j, k, i, put.key);
    }
    assert Payloads(log[..i + 1]) == Payloads(log[..i]) + [log[i].data];
    SameStateIff(c.codec, c.preload, Payloads(log[..i]), j, log[i].data, put.key);
  }

  lemma PrefixFacts(codec: Codec, of: Origin, log: seq<LogEntry>, n: nat)
    requires n <= |log| && SameBytes(of, log)
    ensures SameBytes(of, log[..n])
    ensures forall i :: 0 <= i < n ==> (Repeated(codec, of, log[..n], i) <==> Repeated(codec, of, log, i))
    ensures forall i :: 0 <= i < n && IsSet(codec, log[i].data) ==>
      (Harmless(codec, log[..n], i) <==> Harmless(codec, log, i))
  {
    forall i | 0 <= i < n && IsSet(codec, log[i].data)
      ensures Harmless(codec, log[..n], i) <==> Harmless(codec, log, i)
    {
      var put := codec.unmarshal(log[i].data).value;
      forall j | 0 <= j < i
        ensures IsLastWrite(codec, log[..n], j, i, put.key) <==> IsLastWrite(codec, log, j, i, put.key)
      {
      }
    }
  }

  lemma FirstCopiesNext(codec: Codec, of: Origin, log: seq<LogEntry>, k: nat)
    requires k < |log| && SameBytes(of, log)
    ensures FirstCopies(codec, of, log[..k + 1])
         == FirstCopies(codec, of, log[..k]) + if Repeated(codec, of, log, k) then [] else [log[k]]
  {
    assert log[..k + 1][..k] == log[..k];
    PrefixFacts(codec, of, log, k + 1);
  }

  lemma FirstStateNext(c: Cluster, of: Origin, log: seq<LogEntry>, k: nat)
    requires k < |log| && SameBytes(of, log)
    ensures FirstState(c, of, log, k + 1)
         == if Repeated(c.codec, of, log, k) then FirstState(c, of, log, k)
            else ApplyData(c.codec, log[k].data, FirstState(c, of, log, k))
  {
    var first := FirstCopies(c.codec, of, log[..k]);
    FirstCopiesNext(c.codec, of, log, k);
    if Repeated(c.codec, of, log, k) {
      assert first + [] == first;
    } else {
      var data := Payloads(first + [log[k]]);
      assert data[..|first|] == Payloads(first);
    }
  }

  /** One more entry on both sides. */
  lemma OnceStep(c: Cluster, of: Origin, log: seq<LogEntry>, k: nat)
    requires k < |log| && SameBytes(of, log) && ActsAlike(c, of, log, k)
    ensures ActsAlike(c, of, log, k + 1) <==> HarmlessRepeat(c.codec, of, log, k)
  {
    FirstStateNext(c, of, log, k);
    PrefixStateNext(c, log, k);
    if Repeated(c.codec, of, log, k) {
      RepeatUnnoticedIff(c, of, log, k);
    }
  }

  lemma AlikeAtStart(c: Cluster, of: Origin, log: seq<LogEntry>)
    ensures ActsAlike(c, of, log, 0)
  {
    assert FirstCopies(c.codec, of, log[..0]) == log[..0];
  }

  /** Facts that stay true from one place to the next exactly when the step between is good. */
  lemma {:induction false} AllPlacesIff(alike: seq<bool>, good: seq<bool>)
    requires |alike| == |good| + 1 && alike[0]
    requires forall k :: 0 <= k < |good| ==> alike[k] ==> (alike[k + 1] <==> good[k])
    ensures (forall k :: 0 <= k < |alike| ==> alike[k]) <==> (forall k :: 0 <= k < |good| ==> good[k])
  {
    if good != [] {
      var n := |good| - 1;
      AllPlacesIff(alike[..n + 1], good[..n]);
      assert alike == alike[..n + 1] + [alike[n + 1]] && good == good[..n] + [good[n]];
    }
  }

  /**
   * The committed log acts, at every place, as the log in which each SET message stands once, if
   * and only if every repeated SET finds the value it sets as the last one set to its key.
   */
  lemma OnceIffHarmless(c: Cluster, of: Origin, log: seq<LogEntry>)
    requires SameBytes(of, log)
    ensures (forall k :: 0 <= k <= |log| ==> ActsAlike(c, of, log, k)) <==> RepeatsAreHarmless(c.codec, of, log)
  {
    var alike := seq(|log| + 1, k requires 0 <= k <= |log| => ActsAlike(c, of, log, k));
    var good := seq(|log|, k requires 0 <= k < |log| => HarmlessRepeat(c.codec, of, log, k));
    AlikeAtStart(c, of, log);
    forall k | 0 <= k < |good| && alike[k] ensures alike[k + 1] <==> good[k] {
      OnceStep(c, of, log, k);
    }
    AllPlacesIff(alike, good);
    assert forall k :: 0 <= k <= |log| ==> (alike[k] <==> ActsAlike(c, of, log, k));
    assert forall k :: 0 <= k < |log| ==> (good[k] <==> HarmlessRepeat(c.codec, of, log, k));
  }

  // Places of first copies.

  /** Where entry `k` stands among the first copies. */
  function Rank(codec: Codec, of: Origin, log: seq<LogEntry>, k: nat): (r: nat)
    requires k <= |log|
  {
    |FirstCopies(codec, of, log[..k])|
  }

  lemma {:induction false} FirstCopiesMonotone(codec: Codec, of: Origin, log: seq<LogEntry>, i: nat, j: nat)
    requires i <= j <= |log|
    ensures FirstCopies(codec, of, log[..i]) <= FirstCopies(codec, of, log[..j])
    decreases j
  {
    if i < j {
      FirstCopiesMonotone(codec, of, log, i, j - 1);
      assert log[..j][..j - 1] == log[..j - 1];
    }
  }

  /** An entry that is no repeat stands at its rank, with the first copies before it in front. */
  lemma RankedAt(codec: Codec, of: Origin, log: seq<LogEntry>, k: nat)
    requires k < |log| && SameBytes(of, log) && !Repeated(codec, of, log, k)
    ensures var first := FirstCopies(codec, of, log);
      && Rank(codec, of, log, k) < |first|
      && first[Rank(codec, of, log, k)] == log[k]
      && first[..Rank(codec, of, log, k)] == FirstCopies(codec, of, log[..k])
  {
    PrefixFacts(codec, of, log, k + 1);
    assert log[..k + 1][..k] == log[..k] && log[..|log|] == log;
    FirstCopiesMonotone(codec, of, log, k + 1, |log|);
  }

  lemma RankMonotone(codec: Codec, of: Origin, log: seq<LogEntry>, i: nat, j: nat)
    requires i < j <= |log| && SameBytes(of, log) && !Repeated(codec, of, log, i)
    ensures Rank(codec, of, log, i) < Rank(codec, of, log, j)
  {
    PrefixFacts(codec, of, log, i + 1);
    assert log[..i + 1][..i] == log[..i];
    FirstCopiesMonotone(codec, of, log, i + 1, j);
  }

  /** Every first copy comes from an entry of the log. */
  lemma {:induction false} Source(codec: Codec, of: Origin, log: seq<LogEntry>, m: nat, n: nat) returns (k: nat)
    requires n <= |log| && SameBytes(of, log) && m < Rank(codec, of, log, n)
    ensures k < n && !Repeated(codec, of, log, k) && Rank(codec, of, log, k) == m
    decreases n
  {
    assert log[..n][..n - 1] == log[..n - 1];
    PrefixFacts(codec, of, log, n);
    if m < Rank(codec, of, log, n - 1) {
      k := Source(codec, of, log, m, n - 1);
    } else {
      k := n - 1;
    }
  }

  /** The first entry that carries the message of entry `k`. */
  lemma {:induction false} FirstCopy(codec: Codec, of: Origin, log: seq<LogEntry>, k: nat) returns (f: nat)
    requires k < |log|
    ensures f <= k && of(log[f].id) == of(log[k].id)
    ensures forall j :: 0 <= j < f ==> of(log[j].id) != of(log[k].id)
  {
    if j :| 0 <= j < k && of(log[j].id) == of(log[k].id) {
      f := FirstCopy(codec, of, log, j);
    } else {
      f := k;
    }
  }

  // Whole runs.

  /** The response that the sequential map gives the call at position `i` of `order`. */
  function SequentialResponse(c: Cluster, calls: map<CallId, Call>, order: seq<CallId>, i: nat): (r: Response)
    requires i < |order|
    requires forall j :: 0 <= j < |order| ==> order[j] in calls
  {
    var msgs := Messages(calls, order);
    ResponseTo(c.codec, msgs[i], StateAfter(c.codec, c.preload, msgs[..i]))
  }

  /** The call at position `i` of `order` stands for the call `id`: it is that call, or the first copy of that SET. */
  predicate StandsFor(c: Cluster, of: Origin, calls: map<CallId, Call>, order: seq<CallId>, i: nat, id: CallId)
    requires i < |order| && id in calls
  {
    order[i] == id || (of(order[i]) == of(id) && IsSet(c.codec, calls[id].msg))
  }

  /**
   * `order` explains the run in terms of messages: no SET message occurs twice; every answer is
   * the one the sequential map gives at the place that stands for its call; and a message of
   * which some call was answered before any call of another was made comes first.
   */
  ghost predicate IsMessageLinearization(c: Cluster, of: Origin, run: seq<State>, order: seq<CallId>)
    requires |run| > 0
  {
    var calls := run[|run| - 1].calls;
    && (forall i :: 0 <= i < |order| ==> order[i] in calls && calls[order[i]].status != Dropped)
    && (forall i, j :: 0 <= i < j < |order| ==> order[i] != order[j])
    && (forall i, j :: 0 <= i < j < |order| && IsSet(c.codec, calls[order[j]].msg) ==> of(order[i]) != of(order[j]))
    && (forall id :: id in calls && calls[id].status.Answered? ==> IsExplained(c, of, calls, order, id))
    && (forall p, id, i, j :: 0 <= p < |run| && 0 <= i < |order| && 0 <= j < |order| && id in calls ==>
          IsAnswered(run[p], id) && StandsFor(c, of, calls, order, i, id) && NotYetSent(of, run[p], order[j]) ==> i < j)
  }

  ghost predicate IsExplained(c: Cluster, of: Origin, calls: map<CallId, Call>, order: seq<CallId>, id: CallId)
    requires id in calls && forall i :: 0 <= i < |order| ==> order[i] in calls
  {
    exists i ::
      && 0 <= i < |order| && StandsFor(c, of, calls, order, i, id)
      && calls[id].status == Outcome(calls[id].clientIp, SequentialResponse(c, calls, order, i))
  }

  /** No call with the message of call `id` has been made. */
  ghost predicate NotYetSent(of: Origin, s: State, id: CallId) {
    forall other :: other in s.calls ==> of(other) != of(id)
  }

  /** The order of the first copies. */
  function MessageOrder(c: Cluster, of: Origin, log: seq<LogEntry>): (order: seq<CallId>) {
    CommitOrder(FirstCopies(c.codec, of, log))
  }

  /** The calls of one message are sent the same bytes. */
  ghost predicate Consistent(of: Origin, calls: map<CallId, Call>) {
    forall i, j :: i in calls && j in calls && of(i) == of(j) ==> calls[i].msg == calls[j].msg
  }

  lemma LogIsConsistent(c: Cluster, of: Origin, s: State)
    requires LogInv(s.log, s.calls) && Consistent(of, s.calls)
    ensures SameBytes(of, s.log)
  {
  }

  lemma MessageOrderInLog(c: Cluster, of: Origin, s: State)
    requires LogInv(s.log, s.calls) && SameBytes(of, s.log)
    ensures var order := MessageOrder(c, of, s.log);
      && (forall i :: 0 <= i < |order| ==> order[i] in s.calls && s.calls[order[i]].status != Dropped)
      && (forall i :: 0 <= i < |order| ==> s.calls[order[i]].msg == FirstCopies(c.codec, of, s.log)[i].data)
  {
    var first := FirstCopies(c.codec, of, s.log);
    assert s.log[..|s.log|] == s.log;
    forall i | 0 <= i < |first| ensures first[i] in s.log {
      var k := Source(c.codec, of, s.log, i, |s.log|);
      RankedAt(c.codec, of, s.log, k);
    }
  }

  /** At the place of an entry that is no repeat, the sequential map gives the response at its index. */
  lemma ResponseAtRank(c: Cluster, of: Origin, s: State, k: nat)
    requires LogInv(s.log, s.calls) && SameBytes(of, s.log) && RepeatsAreHarmless(c.codec, of, s.log)
    requires k < |s.log| && !Repeated(c.codec, of, s.log, k)
    ensures var order := MessageOrder(c, of, s.log);
      && (forall i :: 0 <= i < |order| ==> order[i] in s.calls)
      && Rank(c.codec, of, s.log, k) < |order| && order[Rank(c.codec, of, s.log, k)] == s.log[k].id
      && SequentialResponse(c, s.calls, order, Rank(c.codec, of, s.log, k)) == ResponseAt(c, s.log, k)
  {
    var order, first := MessageOrder(c, of, s.log), FirstCopies(c.codec, of, s.log);
    var r := Rank(c.codec, of, s.log, k);
    MessageOrderInLog(c, of, s);
    RankedAt(c.codec, of, s.log, k);
    OnceIffHarmless(c, of, s.log);
    assert Messages(s.calls, order)[..r] == Payloads(FirstCopies(c.codec, of, s.log[..k]));
    assert ActsAlike(c, of, s.log, k);
  }

  /** SETs are answered alike in every state. */
  lemma SetResponse(codec: Codec, data: Str, m: KvMap, m': KvMap)
    requires IsSet(codec, data)
    ensures ResponseTo(codec, data, m) == ResponseTo(codec, data, m')
  {
  }

  /** The place that stands for an entry, and the response there. */
  lemma StandIn(c: Cluster, of: Origin, s: State, k: nat) returns (f: nat)
    requires LogInv(s.log, s.calls) && SameBytes(of, s.log) && RepeatsAreHarmless(c.codec, of, s.log)
    requires k < |s.log|
    ensures f <= k && !Repeated(c.codec, of, s.log, f)
    ensures f == k || (IsSet(c.codec, s.log[k].data) && of(s.log[f].id) == of(s.log[k].id))
    ensures ResponseAt(c, s.log, f) == ResponseAt(c, s.log, k)
  {
    if Repeated(c.codec, of, s.log, k) {
      f := FirstCopy(c.codec, of, s.log, k);
      SetResponse(c.codec, s.log[k].data, PrefixState(c, s.log, f), PrefixState(c, s.log, k));
    } else {
      f := k;
    }
  }

  lemma AnswerHasPlace(c: Cluster, of: Origin, s: State, id: CallId) returns (i: nat)
    requires Inv(c, s) && SameBytes(of, s.log) && RepeatsAreHarmless(c.codec, of, s.log) && IsAnswered(s, id)
    ensures var order := MessageOrder(c, of, s.log);
      && (forall j :: 0 <= j < |order| ==> order[j] in s.calls)
      && i < |order| && StandsFor(c, of, s.calls, order, i, id)
      && s.calls[id].status == Outcome(s.calls[id].clientIp, SequentialResponse(c, s.calls, order, i))
  {
    var k := AnswerIsSequential(c, s, id);
    var f := StandIn(c, of, s, k);
    ResponseAtRank(c, of, s, f);
    i := Rank(c.codec, of, s.log, f);
  }

  lemma NoRepeatIsFirst(codec: Codec, of: Origin, log: seq<LogEntry>, f: nat, k: nat)
    requires f < |log| && k < |log| && !Repeated(codec, of, log, f) && IsSet(codec, log[f].data)
    requires of(log[f].id) == of(log[k].id)
    ensures f <= k
  {
  }

  /** A place that stands for a call comes from no later entry than the call's own. */
  lemma StandInIsEarly(c: Cluster, of: Origin, s: State, f: nat, k: nat)
    requires LogInv(s.log, s.calls) && SameBytes(of, s.log)
    requires f < |s.log| && k < |s.log| && !Repeated(c.codec, of, s.log, f)
    requires s.log[f].id == s.log[k].id || (of(s.log[f].id) == of(s.log[k].id) && IsSet(c.codec, s.log[k].data))
    ensures f <= k
  {
    if s.log[f].id != s.log[k].id {
      NoRepeatIsFirst(c.codec, of, s.log, f, k);
    }
  }

  /** The entry of the log behind a place in the message order. */
  lemma EntryBehind(c: Cluster, of: Origin, log: seq<LogEntry>, i: nat) returns (k: nat)
    requires SameBytes(of, log) && i < |MessageOrder(c, of, log)|
    ensures k < |log| && !Repeated(c.codec, of, log, k)
    ensures Rank(c.codec, of, log, k) == i && log[k].id == MessageOrder(c, of, log)[i]
  {
    assert log[..|log|] == log;
    k := Source(c.codec, of, log, i, |log|);
    RankedAt(c.codec, of, log, k);
  }

  /** Real time between messages. */
  lemma MessagesInRealTime(c: Cluster, of: Origin, run: seq<State>, p: nat, id: CallId, i: nat, j: nat)
    requires IsRun(c, run) && p < |run| && IsAnswered(run[p], id)
    requires var s := run[|run| - 1];
      && SameBytes(of, s.log) && id in s.calls
      && i < |MessageOrder(c, of, s.log)| && j < |MessageOrder(c, of, s.log)|
      && StandsFor(c, of, s.calls, MessageOrder(c, of, s.log), i, id)
      && NotYetSent(of, run[p], MessageOrder(c, of, s.log)[j])
    ensures i < j
  {
    var a := AnsweredAt(c, run, p, id);
    EarlierBeforeLater(c, of, run[p], run[|run| - 1], a, i, j);
  }

  /** The entry of a call answered at moment `p`, then and at the end. */
  lemma AnsweredAt(c: Cluster, run: seq<State>, p: nat, id: CallId) returns (a: nat)
    requires IsRun(c, run) && p < |run| && IsAnswered(run[p], id)
    ensures var s, s' := run[p], run[|run| - 1];
      && LogInv(s.log, s.calls) && LogInv(s'.log, s'.calls) && Extends(s, s')
      && a < |s.log| <= |s'.log| && s.log[a].id == s'.log[a].id == id
  {
    RunKeepsLogInv(c, run, p);
    RunKeepsLogInv(c, run, |run| - 1);
    RunExtends(c, run, p, |run| - 1);
    a := AnsweredEntry(c, run, p, id);
    SameEntry(run[p], run[|run| - 1], a);
  }

  lemma RunKeepsLogInv(c: Cluster, run: seq<State>, p: nat)
    requires IsRun(c, run) && p < |run|
    ensures LogInv(run[p].log, run[p].calls)
  {
    RunKeepsInv(c, run, p);
  }

  lemma AnsweredEntry(c: Cluster, run: seq<State>, p: nat, id: CallId) returns (a: nat)
    requires IsRun(c, run) && p < |run| && IsAnswered(run[p], id)
    ensures a < |run[p].log| && run[p].log[a].id == id
  {
    RunKeepsInv(c, run, p);
    a := AnswerIsSequential(c, run[p], id);
  }

  lemma SameEntry(s: State, s': State, a: nat)
    requires Extends(s, s') && a < |s.log|
    ensures |s.log| <= |s'.log| && s'.log[a] == s.log[a]
  {
  }

  /** Between two moments: an entry already there, and a message still to come. */
  lemma EarlierBeforeLater(c: Cluster, of: Origin, s: State, s': State, a: nat, i: nat, j: nat)
    requires LogInv(s.log, s.calls) && LogInv(s'.log, s'.calls) && Extends(s, s') && SameBytes(of, s'.log)
    requires a < |s.log| && i < |MessageOrder(c, of, s'.log)| && j < |MessageOrder(c, of, s'.log)|
    requires StandsFor(c, of, s'.calls, MessageOrder(c, of, s'.log), i, s'.log[a].id)
    requires NotYetSent(of, s, MessageOrder(c, of, s'.log)[j])
    ensures i < j
  {
    var f := EntryBehind(c, of, s'.log, i);
    var g := EntryBehind(c, of, s'.log, j);
    StandInIsEarly(c, of, s', f, a);
    NotYetInLog(s, s', g);
    RankMonotone(c.codec, of, s'.log, f, g);
  }

  lemma NotYetInLog(s: State, s': State, g: nat)
    requires LogInv(s.log, s.calls) && Extends(s, s') && g < |s'.log| && s'.log[g].id !in s.calls
    ensures g >= |s.log|
  {
  }

  lemma OrderHasNoRepeats(c: Cluster, of: Origin, s: State, i: nat, j: nat)
    requires LogInv(s.log, s.calls) && SameBytes(of, s.log)
    requires i < j < |MessageOrder(c, of, s.log)|
    ensures var order := MessageOrder(c, of, s.log);
      && order[i] != order[j] && order[j] in s.calls
      && (IsSet(c.codec, s.calls[order[j]].msg) ==> of(order[i]) != of(order[j]))
  {
    var f := EntryBehind(c, of, s.log, i);
    var g := EntryBehind(c, of, s.log, j);
    if g < f {
      RankMonotone(c.codec, of, s.log, g, f);
    }
  }

  /**
   * Linearizability of messages: in every run in which each repeated SET finds its own value as
   * the last one set to its key, the first copies, in commit order, explain every answer and
   * respect real time between messages.
   */
  lemma FirstCopiesLinearizeMessages(c: Cluster, of: Origin, run: seq<State>)
    requires IsRun(c, run) && Consistent(of, run[|run| - 1].calls)
    requires RepeatsAreHarmless(c.codec, of, run[|run| - 1].log)
    ensures IsMessageLinearization(c, of, run, MessageOrder(c, of, run[|run| - 1].log))
  {
    var q := |run| - 1;
    var s, order := run[q], MessageOrder(c, of, run[q].log);
    RunKeepsInv(c, run, q);
    LogIsConsistent(c, of, s);
    MessageOrderInLog(c, of, s);
    forall i, j | 0 <= i < j < |order|
      ensures order[i] != order[j] && (IsSet(c.codec, s.calls[order[j]].msg) ==> of(order[i]) != of(order[j]))
    {
      OrderHasNoRepeats(c, of, s, i, j);
    }
    forall id | id in s.calls && s.calls[id].status.Answered?
      ensures IsExplained(c, of, s.calls, order, id)
    {
      var i := AnswerHasPlace(c, of, s, id);
    }
    forall p, id, i, j | 0 <= p < |run| && 0 <= i < |order| && 0 <= j < |order| && id in s.calls
        && IsAnswered(run[p], id) && StandsFor(c, of, s.calls, order, i, id) && NotYetSent(of, run[p], order[j])
      ensures i < j
    {
      MessagesInRealTime(c, of, run, p, id, i, j);
    }
  }
}
