/**
 * The request pipeline of the kvstore server: for each connection a session reader and a
 * forwarder, and one listener for all, joined by unbuffered channels; and the throughput
 * monitor beside them.
 */
module Pipeline {
  import opened GoBytes
  import opened Framing

  type ClientId = nat

  /**
   * One connection: all bytes the client has sent, those the reader has taken off it, and the
   * requests that the reader (Session.Read) and the forwarder (Server.Join) hold.
   */
  datatype Conn = Conn(sent: Str, consumed: nat, reader: Option<Str>, forwarder: Option<Str>)

  /** `handled` are the requests HandleRequest has finished with, in order; `req` is a uint64. */
  datatype State = State(conns: map<ClientId, Conn>, listener: Option<(ClientId, Str)>,
                         handled: seq<(ClientId, Str)>, req: nat, reports: seq<nat>)

  datatype Action =
    | Connect(c: ClientId)
    | Send(c: ClientId, bytes: Str)
    | ReadLine(c: ClientId)  // ReadBytes('\n') returned a line
    | Forward(c: ClientId)   // client.incoming <- request, received by the forwarder
    | Offer(c: ClientId)     // svr.incoming <- request, received by the listener
    | Handle                 // HandleRequest returned: proposed, and counted
    | Tick                   // the monitor reports and resets the counter

  function Unread(conn: Conn): (s: Str) {
    if conn.consumed <= |conn.sent| then conn.sent[conn.consumed..] else []
  }

  predicate Enabled(s: State, a: Action) {
    match a
    case Connect(c) => c !in s.conns && s.listener.None?
    case Send(c, _) => c in s.conns
    case ReadLine(c) => c in s.conns && s.conns[c].reader.None? && NEWLINE in Unread(s.conns[c])
    case Forward(c) => c in s.conns && s.conns[c].reader.Some? && s.conns[c].forwarder.None?
    case Offer(c) => c in s.conns && s.conns[c].forwarder.Some? && s.listener.None?
    case Handle => s.listener.Some?
    case Tick => true
  }

  function Do(s: State, a: Action): (s': State)
    requires Enabled(s, a)
  {
    match a
    case Connect(c) => s.(conns := s.conns[c := Conn([], 0, None, None)])
    case Send(c, bytes) => s.(conns := s.conns[c := s.conns[c].(sent := s.conns[c].sent + bytes)])
    case ReadLine(c) =>
      var conn := s.conns[c];
      var i := Cut(Unread(conn), NEWLINE);
      var line := Unread(conn)[..i + 1];
      s.(conns := s.conns[c := conn.(consumed := conn.consumed + i + 1,
                                     reader := if |line| > 1 then Some(line) else None)])
    case Forward(c) => s.(conns := s.conns[c := s.conns[c].(reader := None, forwarder := s.conns[c].reader)])
    case Offer(c) =>
      s.(conns := s.conns[c := s.conns[c].(forwarder := None)],
         listener := Some((c, s.conns[c].forwarder.value)))
    case Handle => s.(listener := None, handled := s.handled + [s.listener.value], req := (s.req + 1) % TWO_64)
    case Tick => s.(reports := s.reports + [s.req], req := 0)
  }

  ghost predicate Next(s: State, s': State) {
    exists a :: Enabled(s, a) && s' == Do(s, a)
  }

  ghost predicate IsRun(run: seq<State>) {
    && |run| > 0
    && run[0] == State(map[], None, [], 0, [])
    && forall i :: 0 < i < |run| ==> Next(run[i - 1], run[i])
  }

  // Conservation of requests.

  /** The requests of client `c` that have been handled, in order. */
  function HandledOf(handled: seq<(ClientId, Str)>, c: ClientId): (lines: seq<Str>) {
    if handled == [] then []
    else
      var last := handled[|handled| - 1];
      HandledOf(handled[..|handled| - 1], c) + if last.0 == c then [last.1] else []
  }

  function ToSeq(o: Option<Str>): (s: seq<Str>) {
    if o.Some? then [o.value] else []
  }

  /** The request of client `c` in the listener's hands. */
  function Proposing(s: State, c: ClientId): (lines: seq<Str>) {
    if s.listener.Some? && s.listener.value.0 == c then [s.listener.value.1] else []
  }

  /** Held by the listener, the forwarder and the reader, oldest first. */
  function InFlight(s: State, c: ClientId): (lines: seq<Str>)
    requires c in s.conns
  {
    Proposing(s, c) + (ToSeq(s.conns[c].forwarder) + ToSeq(s.conns[c].reader))
  }

  /** All requests the server has taken from client `c`: the handled ones and those in flight. */
  function Taken(s: State, c: ClientId): (lines: seq<Str>)
    requires c in s.conns
  {
    HandledOf(s.handled, c) + InFlight(s, c)
  }

  ghost predicate ConnInv(s: State, c: ClientId)
    requires c in s.conns
  {
    var conn := s.conns[c];
    && conn.consumed <= |conn.sent|
    && Whole(conn.sent[..conn.consumed])
    && Requests(conn.sent[..conn.consumed]) == Taken(s, c)
  }

  ghost predicate Inv(s: State) {
    && (forall c :: c in s.conns ==> ConnInv(s, c))
    && ClientsKnown(s)
  }

  /** Only connected clients have requests. */
  ghost predicate ClientsKnown(s: State) {
    && (forall i :: 0 <= i < |s.handled| ==> s.handled[i].0 in s.conns)
    && (s.listener.Some? ==> s.listener.value.0 in s.conns)
  }

  lemma StepKeepsClients(s: State, a: Action)
    requires ClientsKnown(s) && Enabled(s, a)
    ensures ClientsKnown(Do(s, a))
  {
  }

  lemma {:induction false} NothingHandledForStranger(handled: seq<(ClientId, Str)>, c: ClientId)
    requires forall i :: 0 <= i < |handled| ==> handled[i].0 != c
    ensures HandledOf(handled, c) == []
  {
    if handled != [] {
      NothingHandledForStranger(handled[..|handled| - 1], c);
    }
  }

  /** A line taken off the connection is exactly the next request. */
  lemma ReadLineKeepsInv(s: State, c: ClientId)
    requires c in s.conns && ConnInv(s, c) && Enabled(s, ReadLine(c))
    ensures ConnInv(Do(s, ReadLine(c)), c)
  {
    var conn, conn' := s.conns[c], Do(s, ReadLine(c)).conns[c];
    TakeLine(conn.sent[..conn.consumed], Unread(conn));
    CutsJoin(conn.sent, conn.consumed, conn'.consumed);
    ReaderFills(s, c);
  }

  lemma CutsJoin(s: Str, i: nat, j: nat)
    requires i <= j <= |s|
    ensures s[..j] == s[..i] + s[i..][..j - i]
  {
  }

  /** The line read becomes the youngest request in flight. */
  lemma ReaderFills(s: State, c: ClientId)
    requires Enabled(s, ReadLine(c))
    ensures Taken(Do(s, ReadLine(c)), c) == Taken(s, c) + ToSeq(Do(s, ReadLine(c)).conns[c].reader)
  {
    AppendInFlight(HandledOf(s.handled, c), Proposing(s, c), ToSeq(s.conns[c].forwarder),
                   ToSeq(Do(s, ReadLine(c)).conns[c].reader));
  }

  lemma AppendInFlight(h: seq<Str>, p: seq<Str>, f: seq<Str>, r: seq<Str>)
    ensures (h + (p + (f + []))) + r == h + (p + (f + r))
  {
  }

  /** A hand-over between two goroutines moves a request and changes nothing else. */
  lemma HandOver(s: State, a: Action)
    requires Enabled(s, a) && (a.Forward? || a.Offer?)
    ensures InFlight(Do(s, a), a.c) == InFlight(s, a.c)
  {
    var s', r := Do(s, a), ToSeq(s.conns[a.c].reader);
    if a.Forward? {
      assert ToSeq(s.conns[a.c].forwarder) + r == r;
      assert ToSeq(s'.conns[a.c].forwarder) + ToSeq(s'.conns[a.c].reader) == r;
    } else {
      var f := ToSeq(s.conns[a.c].forwarder);
      assert InFlight(s, a.c) == f + r;
      assert InFlight(s', a.c) == f + r;
    }
  }

  /** Finishing a request moves it from the listener to the handled ones. */
  lemma HandleMoves(s: State, c: ClientId)
    requires Enabled(s, Handle) && c in s.conns
    ensures Taken(Do(s, Handle), c) == Taken(s, c)
  {
    var s' := Do(s, Handle);
    var h, p := HandledOf(s.handled, c), Proposing(s, c);
    var fr := ToSeq(s.conns[c].forwarder) + ToSeq(s.conns[c].reader);
    assert s'.handled[..|s'.handled| - 1] == s.handled;
    assert HandledOf(s'.handled, c) == h + p;
    assert [] + fr == fr;
    Assoc(h, p, fr);
  }

  /** A step on one connection leaves every other one's requests where they are. */
  lemma OthersUnchanged(s: State, a: Action, c: ClientId)
    requires Enabled(s, a) && !a.Handle? && !a.Tick? && c != a.c && c in s.conns
    ensures c in Do(s, a).conns && Do(s, a).conns[c] == s.conns[c]
    ensures Taken(Do(s, a), c) == Taken(s, c)
  {
  }

  lemma SendKeepsInv(s: State, c: ClientId, bytes: Str)
    requires c in s.conns && ConnInv(s, c)
    ensures ConnInv(Do(s, Send(c, bytes)), c)
  {
    var conn := s.conns[c];
    assert (conn.sent + bytes)[..conn.consumed] == conn.sent[..conn.consumed];
  }

  /** What every step keeps, seen from one connection. */
  lemma StepKeepsConnInv(s: State, a: Action, c: ClientId)
    requires Inv(s) && Enabled(s, a) && c in Do(s, a).conns
    ensures ConnInv(Do(s, a), c)
  {
    if a == Connect(c) {
      NothingHandledForStranger(s.handled, c);
    } else {
      assert ConnInv(s, c);
      match a
      case Handle => HandleMoves(s, c);
      case Tick =>
      case _ =>
        if c != a.c {
          OthersUnchanged(s, a, c);
        } else {
          match a {
            case Send(_, bytes) => SendKeepsInv(s, c, bytes);
            case ReadLine(_) => ReadLineKeepsInv(s, c);
            case _ => HandOver(s, a);
          }
        }
    }
  }

  lemma StepKeepsInv(s: State, s': State)
    requires Inv(s) && Next(s, s')
    ensures Inv(s')
  {
    var a :| Enabled(s, a) && s' == Do(s, a);
    StepKeepsClients(s, a);
    forall c | c in s'.conns ensures ConnInv(s', c) {
      StepKeepsConnInv(s, a, c);
    }
  }

  lemma {:induction false} RunKeepsInv(run: seq<State>, i: nat)
    requires IsRun(run) && i < |run|
    ensures Inv(run[i])
  {
    if i > 0 {
      RunKeepsInv(run, i - 1);
      StepKeepsInv(run[i - 1], run[i]);
    }
  }

  /**
   * Pipeline order: in every interleaving, the requests sent on a connection are those handled,
   * then the one with the listener, the forwarder and the reader, then the unread ones: none is
   * lost, doubled or overtaken.
   */
  lemma PipelineOrder(run: seq<State>, i: nat, c: ClientId)
    requires IsRun(run) && i < |run| && c in run[i].conns
    ensures Requests(run[i].conns[c].sent) == Taken(run[i], c) + Requests(Unread(run[i].conns[c]))
  {
    RunKeepsInv(run, i);
    assert ConnInv(run[i], c);
    RequestsSplit(run[i].conns[c].sent, run[i].conns[c].consumed);
  }

  /** What is proposed for client `c`: HandleRequest trims the newline. */
  function Proposed(s: State, c: ClientId): (data: seq<Str>) {
    TrimAll(HandledOf(s.handled, c))
  }

  /**
   * End to end: of a client that sends newline-free commands, each framed by a newline, the
   * server proposes exactly those commands, in order, as far as it has come, also while a frame
   * has been sent only in part; once nothing is left on the way it has proposed every command
   * whose frame is complete.
   */
  lemma CommandsProposedInOrder(run: seq<State>, i: nat, c: ClientId, payloads: seq<Str>)
    requires IsRun(run) && i < |run| && c in run[i].conns
    requires forall k :: 0 <= k < |payloads| ==> payloads[k] != [] && NEWLINE !in payloads[k]
    requires run[i].conns[c].sent <= Frames(payloads)
    ensures Proposed(run[i], c) <= TrimAll(Requests(run[i].conns[c].sent)) <= payloads
    ensures Idle(run[i], c) ==> Proposed(run[i], c) == TrimAll(Requests(run[i].conns[c].sent))
    ensures Idle(run[i], c) && run[i].conns[c].sent == Frames(payloads) ==> Proposed(run[i], c) == payloads
  {
    var s, conn := run[i], run[i].conns[c];
    PipelineOrder(run, i, c);
    FramesReadBack(payloads);
    RequestsMonotone(conn.sent, Frames(payloads));
    TrimMonotone(Requests(conn.sent), Requests(Frames(payloads)));
    TrimPrefix(HandledOf(s.handled, c), InFlight(s, c), Requests(Unread(conn)));
  }

  /** Nothing of this connection is on the way, and no complete line is waiting on it. */
  predicate Idle(s: State, c: ClientId)
    requires c in s.conns
  {
    && Proposing(s, c) == [] && s.conns[c].forwarder.None? && s.conns[c].reader.None?
    && NEWLINE !in Unread(s.conns[c])
  }

  lemma TrimPrefix(done: seq<Str>, held: seq<Str>, unread: seq<Str>)
    ensures TrimAll(done) <= TrimAll(done + held + unread)
    ensures held == [] && unread == [] ==> TrimAll(done) == TrimAll(done + held + unread)
  {
  }

  // Progress.

  function Last(run: seq<State>): (s: State)
    requires |run| > 0
  {
    run[|run| - 1]
  }

  /** `run'` goes on from `run`. */
  ghost predicate Continues(run: seq<State>, run': seq<State>) {
    IsRun(run) && IsRun(run') && run <= run'
  }

  lemma ContinueBy(run: seq<State>, a: Action) returns (run': seq<State>)
    requires IsRun(run) && Enabled(Last(run), a)
    ensures Continues(run, run') && Last(run') == Do(Last(run), a)
  {
    run' := run + [Do(Last(run), a)];
    forall i | 0 < i < |run'| ensures Next(run'[i - 1], run'[i]) {
      if i < |run| {
        assert Next(run[i - 1], run[i]);
      }
    }
  }

  /** The same connections, on which the clients have sent nothing more. */
  ghost predicate NothingSent(s: State, s': State) {
    s'.conns.Keys == s.conns.Keys && forall c :: c in s.conns ==> s'.conns[c].sent == s.conns[c].sent
  }

  /** HandleRequest: the listener is free, and exactly its request has been proposed and counted. */
  lemma HandleOne(s: State)
    requires Enabled(s, Handle)
    ensures var s' := Do(s, Handle);
      && s'.listener.None? && s'.conns == s.conns && s'.reports == s.reports
      && s'.handled == s.handled + [s.listener.value]
      && (s.req < TWO_64 - 1 ==> s'.req == s.req + 1)
      && Proposed(s', s.listener.value.0) == Proposed(s, s.listener.value.0) + [Trim(s.listener.value.1)]
  {
    var s' := Do(s, Handle);
    assert s'.handled[..|s'.handled| - 1] == s.handled;
  }

  /** The work left before client `c` is idle. */
  function Work(s: State, c: ClientId): (n: nat)
    requires c in s.conns
  {
    var conn := s.conns[c];
    4 * |Unread(conn)| + (if conn.reader.Some? then 3 else 0) + (if conn.forwarder.Some? then 2 else 0)
      + (if s.listener.Some? then 1 else 0)
  }

  /** The goroutines' next step towards it, if there is one. */
  lemma WorkStep(s: State, c: ClientId) returns (a: Action)
    requires c in s.conns && (s.listener.Some? || !Idle(s, c))
    ensures Enabled(s, a) && NothingSent(s, Do(s, a)) && Work(Do(s, a), c) < Work(s, c)
  {
    if s.listener.Some? {
      a := Handle;
    } else if s.conns[c].forwarder.Some? {
      a := Offer(c);
    } else if s.conns[c].reader.Some? {
      a := Forward(c);
    } else {
      a := ReadLine(c);
    }
  }

  lemma Drain(run: seq<State>, c: ClientId) returns (run': seq<State>)
    requires IsRun(run) && c in Last(run).conns
    ensures Continues(run, run') && NothingSent(Last(run), Last(run'))
    ensures Last(run').listener.None? && Idle(Last(run'), c)
    decreases Work(Last(run), c)
  {
    if Last(run).listener.None? && Idle(Last(run), c) {
      run' := run;
    } else {
      var a := WorkStep(Last(run), c);
      var next := ContinueBy(run, a);
      run' := Drain(next, c);
    }
  }

  /** Once a client is idle, everything it has sent in whole lines has been proposed. */
  lemma IdleMeansProposed(run: seq<State>, c: ClientId)
    requires IsRun(run) && c in Last(run).conns && Idle(Last(run), c)
    ensures Proposed(Last(run), c) == TrimAll(Requests(Last(run).conns[c].sent))
  {
    var s := Last(run);
    PipelineOrder(run, |run| - 1, c);
    TrimPrefix(HandledOf(s.handled, c), InFlight(s, c), Requests(Unread(s.conns[c])));
  }

  /**
   * Nothing gets stuck: after any run, and for any connected client, the goroutines can go on,
   * without anything more being sent, until every line the client has sent has been proposed.
   */
  lemma EveryLineCanBeProposed(run: seq<State>, c: ClientId) returns (run': seq<State>)
    requires IsRun(run) && c in Last(run).conns
    ensures Continues(run, run') && NothingSent(Last(run), Last(run')) && Idle(Last(run'), c)
    ensures Proposed(Last(run'), c) == TrimAll(Requests(Last(run).conns[c].sent))
  {
    run' := Drain(run, c);
    IdleMeansProposed(run', c);
  }

  lemma FreeListener(run: seq<State>) returns (run': seq<State>)
    requires IsRun(run)
    ensures Continues(run, run') && Last(run').listener.None? && Last(run').conns == Last(run).conns
  {
    if Last(run).listener.Some? {
      run' := ContinueBy(run, Handle);
    } else {
      run' := run;
    }
  }

  /** At any moment a new client can connect, send its commands, and have exactly them proposed in order. */
  lemma NewClientIsServed(run: seq<State>, c: ClientId, payloads: seq<Str>) returns (run': seq<State>)
    requires IsRun(run) && c !in Last(run).conns
    requires forall k :: 0 <= k < |payloads| ==> payloads[k] != [] && NEWLINE !in payloads[k]
    ensures Continues(run, run') && c in Last(run').conns
    ensures Last(run').conns[c].sent == Frames(payloads) && Proposed(Last(run'), c) == payloads
  {
    var free := FreeListener(run);
    var connected := ContinueBy(free, Connect(c));
    var sent := ContinueBy(connected, Send(c, Frames(payloads)));
    assert [] + Frames(payloads) == Frames(payloads);
    run' := EveryLineCanBeProposed(sent, c);
    FramesReadBack(payloads);
  }

  // Throughput.

  function Sum(ns: seq<nat>): (n: nat) {
    if ns == [] then 0 else Sum(ns[..|ns| - 1]) + ns[|ns| - 1]
  }

  /** Counting one more modulo 2^64. */
  lemma ModStep(a: nat, b: nat, n: nat)
    requires b < TWO_64 && (a + b) % TWO_64 == n % TWO_64
    ensures (b + 1) % TWO_64 < TWO_64
    ensures (a + (b + 1) % TWO_64) % TWO_64 == (n + 1) % TWO_64
  {
    AddOne(a + b, n);
    if b + 1 == TWO_64 {
      DropModulus(a + b + 1);
    }
  }

  lemma AddOne(x: nat, y: nat)
    requires x % TWO_64 == y % TWO_64
    ensures (x + 1) % TWO_64 == (y + 1) % TWO_64
  {
  }

  lemma DropModulus(x: nat)
    requires x >= TWO_64
    ensures (x - TWO_64) % TWO_64 == x % TWO_64
  {
  }

  ghost predicate Conserved(s: State) {
    s.req < TWO_64 && (Sum(s.reports) + s.req) % TWO_64 == |s.handled| % TWO_64
  }

  lemma StepConserves(s: State, s': State)
    requires Conserved(s) && Next(s, s')
    ensures Conserved(s')
  {
    var a :| Enabled(s, a) && s' == Do(s, a);
    if a.Handle? {
      ModStep(Sum(s.reports), s.req, |s.handled|);
    } else if a.Tick? {
      assert s'.reports[..|s'.reports| - 1] == s.reports;
    }
  }

  /** Throughput conservation: all reports and the current counter add up to the requests handled, modulo 2^64. */
  lemma {:induction false} ThroughputConserved(run: seq<State>, i: nat)
    requires IsRun(run) && i < |run|
    ensures Conserved(run[i])
  {
    if i > 0 {
      ThroughputConserved(run, i - 1);
      StepConserves(run[i - 1], run[i]);
    }
  }

  /** After any run the monitor's next report accounts for all requests handled so far. */
  lemma ReportsCatchUp(run: seq<State>) returns (run': seq<State>)
    requires IsRun(run)
    ensures Continues(run, run') && Last(run').handled == Last(run).handled && Last(run').req == 0
    ensures |Last(run').reports| == |Last(run).reports| + 1
    ensures Sum(Last(run').reports) % TWO_64 == |Last(run').handled| % TWO_64
  {
    run' := ContinueBy(run, Tick);
    ThroughputConserved(run', |run'| - 1);
  }
}
