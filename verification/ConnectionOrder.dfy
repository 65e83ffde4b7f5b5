/**
 * From one connection to the log: the listener of a server calls Propose for one request after
 * the other, so a client's answered commands stand in the committed log in the order it sent them.
 */
module ConnectionOrder {
  import opened GoBytes
  import opened Framing
  import opened Linearizability
  import Pipeline

  /** Calls made by one goroutine: each only after the ones before it have returned. */
  ghost predicate OneAtATime(run: seq<State>, ids: seq<CallId>) {
    && (forall j, k :: 0 <= j < k < |ids| ==> ids[j] != ids[k])
    && forall p, j, k :: 0 <= p < |run| && 0 <= j < k < |ids| && ids[k] in run[p].calls ==> HasReturned(run[p], ids[j])
  }

  /** Whatever call is new, the others are as they were. */
  lemma NewCallChangesNoOther(c: Cluster, s: State, s': State, made: CallId, id: CallId)
    requires Next(c, s, s') && made !in s.calls && made in s'.calls && id != made
    ensures id in s.calls <==> id in s'.calls
    ensures id in s.calls ==> s'.calls[id] == s.calls[id]
  {
    var a :| Enabled(s, a) && s' == Do(c, s, a);
    assert a.Propose?;
  }

  /** Of two calls made one after the other, both answered, the first comes first in the log. */
  lemma AnsweredInOrder(c: Cluster, run: seq<State>, ids: seq<CallId>, j: nat, k: nat) returns (a: nat, b: nat)
    requires IsRun(c, run) && OneAtATime(run, ids) && j < k < |ids|
    requires IsAnswered(run[|run| - 1], ids[j]) && IsAnswered(run[|run| - 1], ids[k])
    ensures var s := run[|run| - 1];
      && a < b < |s.log|
      && s.log[a] == LogEntry(ids[j], s.calls[ids[j]].msg)
      && s.log[b] == LogEntry(ids[k], s.calls[ids[k]].msg)
  {
    var q := |run| - 1;
    RunKeepsInv(c, run, q);
    a := AnswerIsSequential(c, run[q], ids[j]);
    b := AnswerIsSequential(c, run[q], ids[k]);
    var p := MadeAt(c, run, q, ids[k]);
    assert run[p] == run[p + 1 - 1];
    assert HasReturned(run[p + 1], ids[j]);
    NewCallChangesNoOther(c, run[p], run[p + 1], ids[k], ids[j]);
    ReturnedStaysInRun(c, run, p, q, ids[j]);
    RealTimeOrder(c, run, p, q, a, b);
  }

  /** Where in the sequence of all handled requests those of one client are. */
  function Places(handled: seq<(Pipeline.ClientId, Str)>, client: Pipeline.ClientId): (places: seq<nat>) {
    if handled == [] then []
    else
      var n := |handled| - 1;
      Places(handled[..n], client) + if handled[n].0 == client then [n] else []
  }

  lemma {:induction false} PlacesAreHandled(handled: seq<(Pipeline.ClientId, Str)>, client: Pipeline.ClientId)
    ensures var places := Places(handled, client);
      && |places| == |Pipeline.HandledOf(handled, client)|
      && (forall m :: 0 <= m < |places| ==>
            places[m] < |handled| && handled[places[m]].1 == Pipeline.HandledOf(handled, client)[m])
      && (forall m, n :: 0 <= m < n < |places| ==> places[m] < places[n])
  {
    if handled != [] {
      PlacesAreHandled(handled[..|handled| - 1], client);
    }
  }

  /** `ids` are the calls of Propose that the server has made for its handled requests. */
  ghost predicate Proposes(server: Pipeline.State, s: State, ids: seq<CallId>) {
    && |ids| == |server.handled|
    && forall k :: 0 <= k < |ids| ==> ids[k] in s.calls && s.calls[ids[k]].msg == Trim(server.handled[k].1)
  }

  /** The `m`-th command of the client was proposed by the call at `places[m]`. */
  lemma ProposedByPlace(pipe: seq<Pipeline.State>, t: nat, client: Pipeline.ClientId, payloads: seq<Str>,
                        s: State, ids: seq<CallId>, m: nat)
    requires Pipeline.IsRun(pipe) && t < |pipe| && client in pipe[t].conns
    requires forall k :: 0 <= k < |payloads| ==> payloads[k] != [] && NEWLINE !in payloads[k]
    requires pipe[t].conns[client].sent <= Frames(payloads)
    requires Proposes(pipe[t], s, ids) && m < |Places(pipe[t].handled, client)|
    ensures m < |payloads|
    ensures var place := Places(pipe[t].handled, client)[m];
      place < |ids| && ids[place] in s.calls && s.calls[ids[place]].msg == payloads[m]
  {
    PlacesAreHandled(pipe[t].handled, client);
    Pipeline.CommandsProposedInOrder(pipe, t, client, payloads);
    assert Pipeline.Proposed(pipe[t], client)[m] == payloads[m];
  }

  /**
   * Per-connection order: of the newline-free commands a client has framed on one connection, any
   * two that were answered stand in the committed log in the order in which they were sent,
   * whatever the server's other connections, and the other servers, did meanwhile.
   */
  lemma ConnectionOrderKept(c: Cluster, run: seq<State>, pipe: seq<Pipeline.State>, t: nat, ids: seq<CallId>,
                            client: Pipeline.ClientId, payloads: seq<Str>, m: nat, n: nat) returns (a: nat, b: nat)
    requires IsRun(c, run) && OneAtATime(run, ids)
    requires Pipeline.IsRun(pipe) && t < |pipe| && client in pipe[t].conns
    requires forall k :: 0 <= k < |payloads| ==> payloads[k] != [] && NEWLINE !in payloads[k]
    requires pipe[t].conns[client].sent <= Frames(payloads)
    requires Proposes(pipe[t], run[|run| - 1], ids) && m < n < |Places(pipe[t].handled, client)|
    requires var places := Places(pipe[t].handled, client);
      && places[m] < |ids| && IsAnswered(run[|run| - 1], ids[places[m]])
      && places[n] < |ids| && IsAnswered(run[|run| - 1], ids[places[n]])
    ensures n < |payloads|
    ensures var log := run[|run| - 1].log;
      && a < b < |log|
      && log[a] == LogEntry(ids[Places(pipe[t].handled, client)[m]], payloads[m])
      && log[b] == LogEntry(ids[Places(pipe[t].handled, client)[n]], payloads[n])
  {
    var places := Places(pipe[t].handled, client);
    PlacesAreHandled(pipe[t].handled, client);
    ProposedByPlace(pipe, t, client, payloads, run[|run| - 1], ids, m);
    ProposedByPlace(pipe, t, client, payloads, run[|run| - 1], ids, n);
    a, b := AnsweredInOrder(c, run, ids, places[m], places[n]);
  }
}
