/**
 * The chat room: every replica broadcasts each committed message tagged with its log index
 * (chatRoom/server/fsmServer.go), and the client merges the replicas' streams through one
 * deduplicating window (chatRoom/client/chatClient.go).
 */
module ChatRoom {
  import opened GoBytes
  import opened Decimal
  import opened CommandLog
  import opened Framing
  import opened MessageQueue

  // The server side.

  class Session {
    var outgoing: seq<Str> // everything sent to this client so far
  }

  /** strings.Join({FormatUint(index), data}, "-"). */
  function Tag(e: Entry): (s: Str) {
    Join([Itoa(e.index), e.data], DASH)
  }

  function Tags(log: seq<Entry>): (msgs: seq<Str>)
    ensures |msgs| == |log|
    ensures forall i :: 0 <= i < |log| ==> msgs[i] == Tag(log[i])
  {
    seq(|log|, i requires 0 <= i < |log| => Tag(log[i]))
  }

  /** fsm.Apply: every client gets the tagged message, after all it got before. */
  method Apply(clients: seq<Session>, e: Entry)
    requires forall i, j :: 0 <= i < j < |clients| ==> clients[i] != clients[j]
    modifies clients
    ensures forall c :: c in clients ==> c.outgoing == old(c.outgoing) + [Tag(e)]
  {
    var auxBuffer := [Itoa(e.index), e.data];
    for i := 0 to |clients|
      invariant forall j :: 0 <= j < i ==> clients[j].outgoing == old(clients[j].outgoing) + [Tag(e)]
      invariant forall j :: i <= j < |clients| ==> clients[j].outgoing == old(clients[j].outgoing)
    {
      clients[i].outgoing := clients[i].outgoing + [Join(auxBuffer, DASH)];
    }
  }

  /** Entries with different indices give different messages, whatever they carry. */
  lemma TagInjective(e: Entry, f: Entry)
    requires Tag(e) == Tag(f)
    ensures e == f
  {
    JoinPair(Itoa(e.index), e.data, DASH);
    JoinPair(Itoa(f.index), f.data, DASH);
    TagCut(e);
    TagCut(f);
    assert Tag(e)[..|Itoa(e.index)|] == Itoa(e.index);
    assert Tag(f)[..|Itoa(f.index)|] == Itoa(f.index);
    ItoaInjective(e.index, f.index);
    assert Tag(e)[|Itoa(e.index)| + 1..] == e.data;
    assert Tag(f)[|Itoa(f.index)| + 1..] == f.data;
  }

  /** A broadcast, read back: up to its first dash the index in decimal, behind it the message. */
  lemma TagReadBack(e: Entry)
    ensures var i := Cut(Tag(e), 45);
      && i < |Tag(e)|
      && Atoi(Tag(e)[..i]) == (if e.index <= MAX_INT64 then Some(e.index) else None)
      && (forall k :: 0 <= k < i ==> Tag(e)[i - 1 - k] == 48 + e.index / Pow10(k) % 10)
      && Tag(e)[i + 1..] == e.data
  {
    var d := Itoa(e.index);
    TagCut(e);
    JoinPair(d, e.data, DASH);
    AtoiOfItoa(e.index);
    assert Tag(e)[..|d|] == d;
    forall k | 0 <= k < |d| ensures Tag(e)[|d| - 1 - k] == 48 + e.index / Pow10(k) % 10 {
      ItoaDigits(e.index, k);
    }
  }

  lemma TagCut(e: Entry)
    ensures Cut(Tag(e), DASH) == |Itoa(e.index)|
  {
    var d := Itoa(e.index);
    JoinPair(d, e.data, DASH);
    assert Tag(e)[..|d|] == d;
    assert forall i :: 0 <= i < |d| ==> IsDigit(d[i]);
    CutIsFirst(Tag(e), DASH, |d|);
  }

  // The client side.

  /** The window and what has been printed; `stuck` after a panic. */
  datatype Client = Client(window: seq<Str>, printed: seq<Str>, stuck: bool)

  /** One turn of Consume: a message arrives from some replica's reader. */
  function Arrive(size: nat, c: Client, x: Str): (c': Client) {
    if c.stuck then c
    else
      var (window, r) := Slide(size, c.window, x);
      match r
      case Popped(_) => Client(window, c.printed + [x], false)
      case Duplicate => c
      case Panicked => c.(stuck := true)
  }

  /** How many copies replica `r` has delivered under a schedule. */
  function Delivered(schedule: seq<nat>, r: nat): (n: nat)
    ensures n <= |schedule|
  {
    if schedule == [] then 0
    else Delivered(schedule[..|schedule| - 1], r) + if schedule[|schedule| - 1] == r then 1 else 0
  }

  /**
   * A schedule says which replica's next copy arrives at each turn; every replica delivers
   * the log from its start, in order.
   */
  ghost predicate IsSchedule(log: seq<Str>, schedule: seq<nat>) {
    forall r: nat :: Delivered(schedule, r) <= |log|
  }

  /** The client after a schedule. */
  ghost function After(size: nat, log: seq<Str>, schedule: seq<nat>): (c: Client)
    requires IsSchedule(log, schedule)
  {
    if schedule == [] then Client(Blanks(size), [], false)
    else
      var before, r := schedule[..|schedule| - 1], schedule[|schedule| - 1];
      ShorterSchedule(log, schedule);
      Arrive(size, After(size, log, before), log[Delivered(before, r)])
  }

  lemma ShorterSchedule(log: seq<Str>, schedule: seq<nat>)
    requires IsSchedule(log, schedule) && schedule != []
    ensures IsSchedule(log, schedule[..|schedule| - 1])
    ensures Delivered(schedule[..|schedule| - 1], schedule[|schedule| - 1]) < |log|
  {
    var before, r := schedule[..|schedule| - 1], schedule[|schedule| - 1];
    assert Delivered(schedule, r) <= |log|;
    forall q: nat ensures Delivered(before, q) <= |log| {
      assert Delivered(schedule, q) <= |log|;
    }
  }

  /** The front: the number of copies the most advanced replica has delivered. */
  function Front(schedule: seq<nat>): (n: nat) {
    if schedule == [] then 0
    else
      var before, r := schedule[..|schedule| - 1], schedule[|schedule| - 1];
      var mine := Delivered(before, r) + 1;
      if mine > Front(before) then mine else Front(before)
  }

  lemma {:induction false} FrontIsMaximum(schedule: seq<nat>, r: nat)
    ensures Delivered(schedule, r) <= Front(schedule)
    ensures schedule != [] ==> exists q: nat :: Delivered(schedule, q) == Front(schedule)
  {
    if schedule != [] {
      var before, last := schedule[..|schedule| - 1], schedule[|schedule| - 1];
      FrontIsMaximum(before, r);
      FrontIsMaximum(before, last);
      if Delivered(before, last) + 1 > Front(before) {
        assert Delivered(schedule, last) == Front(schedule);
      } else if before != [] {
        var q: nat :| Delivered(before, q) == Front(before);
        assert Delivered(schedule, q) == Front(schedule);
      }
    }
  }

  /** The lag bound: no copy arrives more than `size` messages behind the front. */
  predicate LagBounded(size: nat, schedule: seq<nat>) {
    schedule == [] ||
    var before, r := schedule[..|schedule| - 1], schedule[|schedule| - 1];
    LagBounded(size, before) && Front(before) <= Delivered(before, r) + size
  }

  predicate Distinct(log: seq<Str>) {
    && (forall i, j :: 0 <= i < j < |log| ==> log[i] != log[j])
    && BLANK !in log
  }

  /** The last `size` of the construction blanks followed by the first `n` messages. */
  function Window(size: nat, log: seq<Str>, n: nat): (w: seq<Str>)
    requires n <= |log|
    ensures |w| == size
  {
    (Blanks(size) + log[..n])[n..]
  }

  /** A message is in the window exactly when it is among the last `size` accepted. */
  lemma InWindow(size: nat, log: seq<Str>, n: nat, i: nat)
    requires n <= |log| && i < |log| && Distinct(log)
    ensures log[i] in Window(size, log, n) <==> i < n <= i + size
  {
    var all := Blanks(size) + log[..n];
    var w := Window(size, log, n);
    assert forall k :: 0 <= k < size ==> w[k] == all[k + n];
    if i < n <= i + size {
      assert w[size + i - n] == log[i];
    }
  }

  /** A new message moves the window by one. */
  lemma WindowNext(size: nat, log: seq<Str>, n: nat)
    requires n < |log| && Distinct(log) && size > 0
    ensures Slide(size, Window(size, log, n), log[n])
         == (Window(size, log, n + 1), Popped(Window(size, log, n)[0]))
  {
    InWindow(size, log, n, n);
    assert log[..n + 1] == log[..n] + [log[n]];
    assert Window(size, log, n)[1..] + [log[n]] == Window(size, log, n + 1);
  }

  lemma {:induction false} FrontInLog(log: seq<Str>, schedule: seq<nat>)
    requires IsSchedule(log, schedule)
    ensures Front(schedule) <= |log|
  {
    if schedule != [] {
      FrontIsMaximum(schedule, 0);
      var q: nat :| Delivered(schedule, q) == Front(schedule);
    }
  }

  /** Within the lag bound the client's whole state is determined by the front. */
  lemma {:induction false} BoundedLagState(size: nat, log: seq<Str>, schedule: seq<nat>)
    requires IsSchedule(log, schedule) && Distinct(log) && size > 0
    requires LagBounded(size, schedule)
    ensures Front(schedule) <= |log|
    ensures After(size, log, schedule)
         == Client(Window(size, log, Front(schedule)), log[..Front(schedule)], false)
  {
    FrontInLog(log, schedule);
    if schedule == [] {
      assert Window(size, log, 0) == Blanks(size);
    } else {
      var before, r := schedule[..|schedule| - 1], schedule[|schedule| - 1];
      var n, i := Front(before), Delivered(before, r);
      ShorterSchedule(log, schedule);
      BoundedLagState(size, log, before);
      FrontIsMaximum(before, r);
      ArriveInBounds(size, log, n, i);
    }
  }

  /** A copy within the bound: the next message is printed, an earlier one ignored. */
  lemma ArriveInBounds(size: nat, log: seq<Str>, n: nat, i: nat)
    requires Distinct(log) && size > 0 && i < |log| && i <= n <= |log| && n <= i + size
    ensures Arrive(size, Client(Window(size, log, n), log[..n], false), log[i])
         == var n' := if i == n then n + 1 else n; Client(Window(size, log, n'), log[..n'], false)
  {
    InWindow(size, log, n, i);
    if i == n {
      WindowNext(size, log, n);
      assert log[..n + 1] == log[..n] + [log[n]];
    }
  }

  /** The window stays full; only a window of size 0 panics, at the first message. */
  lemma {:induction false} PanicsIffNoWindow(size: nat, log: seq<Str>, schedule: seq<nat>)
    requires IsSchedule(log, schedule)
    ensures var c := After(size, log, schedule);
      && |c.window| == size
      && (c.stuck <==> size == 0 && schedule != [])
      && (size == 0 ==> c.printed == [])
  {
    if schedule != [] {
      ShorterSchedule(log, schedule);
      PanicsIffNoWindow(size, log, schedule[..|schedule| - 1]);
    }
  }

  /** Printing only ever adds lines. */
  lemma {:induction false} PrintedGrows(size: nat, log: seq<Str>, schedule: seq<nat>, k: nat)
    requires IsSchedule(log, schedule) && k <= |schedule|
    ensures IsSchedule(log, schedule[..k])
    ensures After(size, log, schedule[..k]).printed <= After(size, log, schedule).printed
    decreases |schedule|
  {
    if k == |schedule| {
      assert schedule[..k] == schedule;
    } else {
      ShorterSchedule(log, schedule);
      var before := schedule[..|schedule| - 1];
      PrintedGrows(size, log, before, k);
      assert before[..k] == schedule[..k];
    }
  }

  /** The first copy beyond the bound is printed a second time, unless the client has panicked. */
  lemma LateCopyIsReprinted(size: nat, log: seq<Str>, schedule: seq<nat>)
    requires IsSchedule(log, schedule) && Distinct(log) && schedule != []
    requires LagBounded(size, schedule[..|schedule| - 1]) && !LagBounded(size, schedule)
    ensures var printed := After(size, log, schedule).printed;
      if size == 0 then printed == []
      else
        && |printed| == Front(schedule) + 1
        && exists i :: 0 <= i < Front(schedule) && printed[i] == printed[Front(schedule)]
  {
    if size == 0 {
      PanicsIffNoWindow(size, log, schedule);
      return;
    }
    var before, r := schedule[..|schedule| - 1], schedule[|schedule| - 1];
    var n, i := Front(before), Delivered(before, r);
    ShorterSchedule(log, schedule);
    BoundedLagState(size, log, before);
    InWindow(size, log, n, i);
    var printed := After(size, log, schedule).printed;
    assert printed == log[..n] + [log[i]];
    assert printed[i] == printed[n];
  }

  /** A schedule outside the bound leaves it at some first turn. */
  lemma {:induction false} FirstLateTurn(size: nat, schedule: seq<nat>) returns (k: nat)
    requires !LagBounded(size, schedule)
    ensures 0 < k <= |schedule|
    ensures LagBounded(size, schedule[..k - 1]) && !LagBounded(size, schedule[..k])
  {
    var before := schedule[..|schedule| - 1];
    if LagBounded(size, before) {
      k := |schedule|;
      assert schedule[..k] == schedule;
    } else {
      k := FirstLateTurn(size, before);
      assert before[..k] == schedule[..k] && before[..k - 1] == schedule[..k - 1];
    }
  }

  lemma RepeatIsNoPrefix(log: seq<Str>, printed: seq<Str>, i: nat, n: nat)
    requires Distinct(log) && i < n < |printed| && printed[i] == printed[n]
    ensures !(printed <= log)
  {
  }

  lemma LateRunIsNoPrefix(size: nat, log: seq<Str>, schedule: seq<nat>)
    requires IsSchedule(log, schedule) && Distinct(log) && size > 0 && !LagBounded(size, schedule)
    ensures !(After(size, log, schedule).printed <= log)
  {
    var k := FirstLateTurn(size, schedule);
    PrintedGrows(size, log, schedule, k);
    var early := schedule[..k];
    assert early[..|early| - 1] == schedule[..k - 1];
    LateCopyIsReprinted(size, log, early);
    var printed, n := After(size, log, early).printed, Front(early);
    var i :| 0 <= i < n && printed[i] == printed[n];
    RepeatIsNoPrefix(log, After(size, log, schedule).printed, i, n);
  }

  /**
   * Exactly-once, in-order delivery: whatever the number of replicas and the interleaving, the
   * client prints a prefix of the log, once each and in order, if and only if no copy arrives
   * more than `size` messages behind the front. The printed prefix then reaches the front.
   * With a window of size 0 the client panics at its first message and prints nothing.
   */
  lemma ExactlyOnceIffLagBounded(size: nat, log: seq<Str>, schedule: seq<nat>)
    requires IsSchedule(log, schedule) && Distinct(log)
    ensures After(size, log, schedule).printed <= log <==> size == 0 || LagBounded(size, schedule)
    ensures Front(schedule) <= |log|
    ensures After(size, log, schedule).printed == log[..Front(schedule)] <==>
      if size == 0 then schedule == [] else LagBounded(size, schedule)
    ensures After(size, log, schedule).stuck <==> size == 0 && schedule != []
  {
    PanicsIffNoWindow(size, log, schedule);
    FrontInLog(log, schedule);
    if size == 0 {
      if schedule != [] {
        FrontIsMaximum(schedule, schedule[|schedule| - 1]);
      }
    } else if LagBounded(size, schedule) {
      BoundedLagState(size, log, schedule);
    } else {
      LateRunIsNoPrefix(size, log, schedule);
    }
  }

  /** The streams the room really sends satisfy what the theorem asks of a log. */
  lemma TagsAreDistinct(log: seq<Entry>)
    requires forall i, j :: 0 <= i < j < |log| ==> log[i].index < log[j].index
    ensures Distinct(Tags(log))
  {
    forall i, j | 0 <= i < j < |log| ensures Tags(log)[i] != Tags(log)[j] {
      if Tag(log[i]) == Tag(log[j]) {
        TagInjective(log[i], log[j]);
      }
    }
    forall i | 0 <= i < |log| ensures Tags(log)[i] != BLANK {
      JoinPair(Itoa(log[i].index), log[i].data, DASH);
    }
  }

  /** End to end: the chat log is delivered exactly once and in order iff the lag stays bounded. */
  lemma ChatDelivery(size: nat, log: seq<Entry>, schedule: seq<nat>)
    requires forall i, j :: 0 <= i < j < |log| ==> log[i].index < log[j].index
    requires IsSchedule(Tags(log), schedule)
    ensures After(size, Tags(log), schedule).printed <= Tags(log) <==> size == 0 || LagBounded(size, schedule)
    ensures Front(schedule) <= |log|
    ensures After(size, Tags(log), schedule).printed == Tags(log)[..Front(schedule)] <==>
      if size == 0 then schedule == [] else LagBounded(size, schedule)
    ensures After(size, Tags(log), schedule).stuck <==> size == 0 && schedule != []
  {
    TagsAreDistinct(log);
    ExactlyOnceIffLagBounded(size, Tags(log), schedule);
  }

  // The consumer loop on the real queue.

  /** The messages in the order in which a schedule makes them arrive. */
  ghost function Arrivals(log: seq<Str>, schedule: seq<nat>): (msgs: seq<Str>)
    requires IsSchedule(log, schedule)
    ensures |msgs| == |schedule|
  {
    if schedule == [] then []
    else
      var before, r := schedule[..|schedule| - 1], schedule[|schedule| - 1];
      ShorterSchedule(log, schedule);
      Arrivals(log, before) + [log[Delivered(before, r)]]
  }

  function ArriveAll(size: nat, c: Client, msgs: seq<Str>): (c': Client) {
    if msgs == [] then c
    else Arrive(size, ArriveAll(size, c, msgs[..|msgs| - 1]), msgs[|msgs| - 1])
  }

  lemma {:induction false} AfterIsArriveAll(size: nat, log: seq<Str>, schedule: seq<nat>)
    requires IsSchedule(log, schedule)
    ensures After(size, log, schedule) == ArriveAll(size, Client(Blanks(size), [], false), Arrivals(log, schedule))
  {
    if schedule != [] {
      ShorterSchedule(log, schedule);
      AfterIsArriveAll(size, log, schedule[..|schedule| - 1]);
      var msgs := Arrivals(log, schedule);
      assert msgs[..|msgs| - 1] == Arrivals(log, schedule[..|schedule| - 1]);
    }
  }

  /** Info.Consume over the messages that come out of `incoming`. */
  method Consume(mq: Queue, incoming: seq<Str>) returns (printed: seq<Str>, panicked: bool)
    requires mq.Valid()
    modifies mq
    ensures mq.Valid()
    ensures Client(mq.Data, printed, panicked) == ArriveAll(mq.Size, Client(old(mq.Data), [], false), incoming)
  {
    printed, panicked := [], false;
    ghost var start := Client(mq.Data, [], false);
    assert incoming[..0] == [];
    for i := 0 to |incoming|
      invariant mq.Valid()
      invariant Client(mq.Data, printed, panicked) == ArriveAll(mq.Size, start, incoming[..i])
    {
      assert incoming[..i + 1][..i] == incoming[..i];
      if !panicked {
        var r := mq.PushPop(incoming[i]);
        match r
        case Popped(_) => printed := printed + [incoming[i]];
        case Duplicate =>
        case Panicked => panicked := true;
      }
    }
    assert incoming[..|incoming|] == incoming;
  }

  /** The running client: its output is a prefix of the log exactly when the lag stayed bounded. */
  method RunClient(size: nat, ghost log: seq<Str>, ghost schedule: seq<nat>, incoming: seq<Str>)
      returns (printed: seq<Str>, panicked: bool)
    requires IsSchedule(log, schedule) && Distinct(log)
    requires incoming == Arrivals(log, schedule)
    ensures printed <= log <==> size == 0 || LagBounded(size, schedule)
    ensures Front(schedule) <= |log|
    ensures size > 0 && LagBounded(size, schedule) ==> printed == log[..Front(schedule)]
    ensures panicked <==> size == 0 && schedule != []
  {
    AfterIsArriveAll(size, log, schedule);
    ExactlyOnceIffLagBounded(size, log, schedule);
    var mq := new Queue(size);
    printed, panicked := Consume(mq, incoming);
  }

  // The byte stream between a server session and the client's reader.

  /** What a session reader hands on: text whose only newline is its last byte. */
  predicate IsLine(data: Str) {
    data != [] && Cut(data, NEWLINE) == |data| - 1
  }

  function Concat(msgs: seq<Str>): (s: Str) {
    if msgs == [] then [] else msgs[0] + Concat(msgs[1..])
  }

  lemma TagIsLine(e: Entry)
    requires IsLine(e.data)
    ensures Requests(Tag(e)) == [Tag(e)] && Whole(Tag(e))
  {
    var d, n := Itoa(e.index), |e.data|;
    var p := d + [DASH] + e.data[..n - 1];
    JoinPair(d, e.data, DASH);
    assert e.data == e.data[..n - 1] + [NEWLINE];
    Assoc(d + [DASH], e.data[..n - 1], [NEWLINE]);
    assert forall i :: 0 <= i < |d| ==> IsDigit(d[i]);
    RequestsOfLine(p);
  }

  lemma {:induction false} LinesReadBack(msgs: seq<Str>)
    requires forall i :: 0 <= i < |msgs| ==> Requests(msgs[i]) == [msgs[i]] && Whole(msgs[i])
    ensures Requests(Concat(msgs)) == msgs
  {
    if msgs != [] {
      LinesReadBack(msgs[1..]);
      RequestsConcat(msgs[0], Concat(msgs[1..]));
    }
  }

  /** The reader takes the broadcast messages off the connection exactly as they were sent. */
  lemma StreamReadBack(log: seq<Entry>)
    requires forall i :: 0 <= i < |log| ==> IsLine(log[i].data)
    ensures Requests(Concat(Tags(log))) == Tags(log)
  {
    forall i | 0 <= i < |log| ensures Requests(Tags(log)[i]) == [Tags(log)[i]] && Whole(Tags(log)[i]) {
      TagIsLine(log[i]);
    }
    LinesReadBack(Tags(log));
  }

  // From the bytes on the connections to the printed lines.

  /** What the reader of connection `r` has to hand on, of the bytes that have come so far. */
  function Lines(conns: seq<Str>, r: nat): (lines: seq<Str>) {
    if r < |conns| then Requests(conns[r]) else []
  }

  /** `incoming` are the lines in the order in which a schedule of the readers hands them on. */
  ghost predicate HandedOn(conns: seq<Str>, schedule: seq<nat>, incoming: seq<Str>) {
    && |incoming| == |schedule|
    && forall i :: 0 <= i < |schedule| ==>
      var n := Delivered(schedule[..i], schedule[i]);
      n < |Lines(conns, schedule[i])| && incoming[i] == Lines(conns, schedule[i])[n]
  }

  /** Every server has sent a prefix, cut at any byte, of the same broadcast of the log. */
  ghost predicate Broadcasts(log: seq<Entry>, conns: seq<Str>) {
    && (forall i, j :: 0 <= i < j < |log| ==> log[i].index < log[j].index)
    && (forall i :: 0 <= i < |log| ==> IsLine(log[i].data))
    && forall r :: 0 <= r < |conns| ==> conns[r] <= Concat(Tags(log))
  }

  lemma LinesArePrefix(log: seq<Entry>, conns: seq<Str>, r: nat)
    requires Broadcasts(log, conns)
    ensures Lines(conns, r) <= Tags(log)
  {
    if r < |conns| {
      StreamReadBack(log);
      RequestsMonotone(conns[r], Concat(Tags(log)));
    }
  }

  /** The readers together deliver copies of the log, each in order from its start. */
  lemma {:induction false} ReadersFollowLog(log: seq<Entry>, conns: seq<Str>, schedule: seq<nat>, incoming: seq<Str>)
    requires Broadcasts(log, conns) && HandedOn(conns, schedule, incoming)
    ensures IsSchedule(Tags(log), schedule) && incoming == Arrivals(Tags(log), schedule)
    decreases |schedule|
  {
    if schedule != [] {
      var n := |schedule| - 1;
      HandedOnBefore(conns, schedule, incoming);
      ReadersFollowLog(log, conns, schedule[..n], incoming[..n]);
      LinesArePrefix(log, conns, schedule[n]);
      OneMoreDelivered(Tags(log), schedule);
      OneMoreArrival(Tags(log), schedule, incoming);
    }
  }

  lemma HandedOnBefore(conns: seq<Str>, schedule: seq<nat>, incoming: seq<Str>)
    requires schedule != [] && HandedOn(conns, schedule, incoming)
    ensures HandedOn(conns, schedule[..|schedule| - 1], incoming[..|schedule| - 1])
  {
    var before := schedule[..|schedule| - 1];
    forall i | 0 <= i < |before| ensures before[..i] == schedule[..i] {
    }
  }

  lemma OneMoreArrival(log: seq<Str>, schedule: seq<nat>, incoming: seq<Str>)
    requires IsSchedule(log, schedule) && schedule != [] && |incoming| == |schedule|
    requires var before, r := schedule[..|schedule| - 1], schedule[|schedule| - 1];
      && IsSchedule(log, before) && Delivered(before, r) < |log|
      && incoming[..|schedule| - 1] == Arrivals(log, before)
      && incoming[|schedule| - 1] == log[Delivered(before, r)]
    ensures incoming == Arrivals(log, schedule)
  {
    var n := |schedule| - 1;
    assert incoming == incoming[..n] + [incoming[n]];
  }

  lemma OneMoreDelivered(log: seq<Str>, schedule: seq<nat>)
    requires schedule != [] && IsSchedule(log, schedule[..|schedule| - 1])
    requires Delivered(schedule[..|schedule| - 1], schedule[|schedule| - 1]) < |log|
    ensures IsSchedule(log, schedule)
  {
    forall q: nat ensures Delivered(schedule, q) <= |log| {
      assert Delivered(schedule[..|schedule| - 1], q) <= |log|;
    }
  }

  /**
   * The whole client: of connections on which each server has sent any prefix of its broadcast,
   * read in any interleaving, it prints the tagged log up to the front, once each and in order,
   * if and only if the lag stays bounded; it panics exactly on a line into a window of size 0.
   */
  method RunOnConnections(size: nat, ghost log: seq<Entry>, ghost conns: seq<Str>, ghost schedule: seq<nat>,
                          incoming: seq<Str>)
      returns (printed: seq<Str>, panicked: bool)
    requires Broadcasts(log, conns) && HandedOn(conns, schedule, incoming)
    ensures printed <= Tags(log) <==> size == 0 || LagBounded(size, schedule)
    ensures Front(schedule) <= |log|
    ensures printed == Tags(log)[..Front(schedule)] <==>
      if size == 0 then schedule == [] else LagBounded(size, schedule)
    ensures panicked <==> size == 0 && incoming != []
  {
    ReadersFollowLog(log, conns, schedule, incoming);
    AfterIsArriveAll(size, Tags(log), schedule);
    ChatDelivery(size, log, schedule);
    var mq := new Queue(size);
    printed, panicked := Consume(mq, incoming);
  }
}
