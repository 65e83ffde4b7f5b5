/** The sequential key-value map that every kvstore replica is meant to be. */
module KvSpec {
  import opened GoBytes
  import opened Commands

  type KvMap = map<Str, Str>

  /** What fsm.Apply returns: a string, the unmarshalling error, or a panic. */
  datatype Response = Text(text: Str) | DecodeError | Panic

  function Lookup(m: KvMap, key: Str): (v: Str) {
    if key in m then m[key] else []
  }

  function Execute(c: Command, m: KvMap): (m': KvMap) {
    if c.op == Set then m[c.key := c.value] else m
  }

  function Respond(c: Command, m: KvMap): (r: Response) {
    match c.op
    case Set => Text(Join([c.ip, []], DASH))
    case Get => Text(Join([c.ip, Lookup(m, c.key)], DASH))
    case _ => Panic
  }

  /** Effect of one committed entry: entries that do not decode change nothing. */
  function ApplyData(codec: Codec, data: Str, m: KvMap): (m': KvMap) {
    match codec.unmarshal(data)
    case None => m
    case Some(c) => Execute(c, m)
  }

  function ResponseTo(codec: Codec, data: Str, m: KvMap): (r: Response) {
    match codec.unmarshal(data)
    case None => DecodeError
    case Some(c) => Respond(c, m)
  }

  /** The map after executing a whole log in order. */
  function StateAfter(codec: Codec, init: KvMap, log: seq<Str>): (m: KvMap) {
    if log == [] then init
    else ApplyData(codec, log[|log| - 1], StateAfter(codec, init, log[..|log| - 1]))
  }

  predicate Writes(codec: Codec, data: Str, key: Str) {
    var c := codec.unmarshal(data);
    c.Some? && c.value.op == Set && c.value.key == key
  }

  /** An entry with a command that Apply has no case for: it panics, in any state. */
  predicate IsPoison(codec: Codec, data: Str) {
    var c := codec.unmarshal(data);
    c.Some? && c.value.op != Set && c.value.op != Get
  }

  /** An entry with a SET or a GET: the only ones that get an answer. */
  predicate IsExecutable(codec: Codec, data: Str) {
    var c := codec.unmarshal(data);
    c.Some? && (c.value.op == Set || c.value.op == Get)
  }

  /** Executing a log in two parts. */
  lemma {:induction false} StateAfterConcat(codec: Codec, init: KvMap, a: seq<Str>, b: seq<Str>)
    ensures StateAfter(codec, init, a + b) == StateAfter(codec, StateAfter(codec, init, a), b)
    decreases |b|
  {
    if b == [] {
      assert a + b == a;
    } else {
      StateAfterConcat(codec, init, a, b[..|b| - 1]);
      assert (a + b)[..|a + b| - 1] == a + b[..|b| - 1];
    }
  }

  /** A key nobody set keeps its initial value. */
  lemma {:induction false} UnwrittenKeepsInitial(codec: Codec, init: KvMap, log: seq<Str>, key: Str)
    requires forall i :: 0 <= i < |log| ==> !Writes(codec, log[i], key)
    ensures key in StateAfter(codec, init, log) <==> key in init
    ensures key in init ==> StateAfter(codec, init, log)[key] == init[key]
  {
    if log != [] {
      UnwrittenKeepsInitial(codec, init, log[..|log| - 1], key);
      assert !Writes(codec, log[|log| - 1], key);
    }
  }

  /** The value of a key is that of the last SET of the key in the log. */
  lemma {:induction false} LastWriteWins(codec: Codec, init: KvMap, log: seq<Str>, key: Str, i: nat)
    requires i < |log| && Writes(codec, log[i], key)
    requires forall j :: i < j < |log| ==> !Writes(codec, log[j], key)
    ensures Lookup(StateAfter(codec, init, log), key) == codec.unmarshal(log[i]).value.value
  {
    var upto := log[..i + 1];
    StateAfterConcat(codec, init, upto, log[i + 1..]);
    assert upto + log[i + 1..] == log;
    assert upto[i] == log[i];
    UnwrittenKeepsInitial(codec, StateAfter(codec, init, upto), log[i + 1..], key);
  }

  // The reply that Propose sends back over UDP.

  datatype Datagram = Datagram(addr: Str, body: Str)

  const OK_PREFIX: Str := [79, 75, 58, 32] // "OK: "

  /** Propose splits the response on dashes: first part the port, second part the answer. */
  function Answer(clientIp: Str, text: Str): (d: Datagram)
    requires DASH in text
  {
    var response := Split(text, DASH);
    Datagram(clientIp + [COLON] + response[0], OK_PREFIX + response[1] + [NEWLINE])
  }

  /**
   * What Apply returns, byte by byte: the port, a dash, and for a GET the value, which is empty
   * for a key that is not there.
   */
  lemma ResponseBytes(c: Command, m: KvMap)
    ensures c.op == Set ==> Respond(c, m) == Text(c.ip + [45])
    ensures c.op == Get && c.key in m ==> Respond(c, m) == Text(c.ip + [45] + m[c.key])
    ensures c.op == Get && c.key !in m ==> Respond(c, m) == Text(c.ip + [45])
    ensures c.op != Set && c.op != Get <==> Respond(c, m) == Panic
  {
    JoinPair(c.ip, [], DASH);
    JoinPair(c.ip, Lookup(m, c.key), DASH);
  }

  /** Both executable operations produce a response that splits into at least two parts. */
  lemma ResponseSplits(c: Command, m: KvMap)
    requires Respond(c, m).Text?
    ensures DASH in Respond(c, m).text && |Split(Respond(c, m).text, DASH)| >= 2
  {
    var v := if c.op == Set then [] else Lookup(m, c.key);
    JoinPair(c.ip, v, DASH);
    assert Respond(c, m).text[|c.ip|] == DASH;
  }

  /** Splitting at the first separator. */
  lemma SplitHead(s: Str, sep: byte)
    requires sep in s
    ensures Split(s, sep) == [s[..Cut(s, sep)]] + Split(s[Cut(s, sep) + 1..], sep)
  {
  }

  /** What follows the first dash, if there is one. */
  function AfterDash(s: Str): (p: Str)
    ensures DASH in s ==> s == BeforeDash(s) + [DASH] + p
    ensures DASH !in s ==> p == []
  {
    var i := Cut(s, DASH);
    if i == |s| then [] else s[i + 1..]
  }

  /** Where a reply goes and what it carries: a dash in the port pushes the value out of the reply. */
  function Routed(clientIp: Str, port: Str, value: Str): (d: Datagram) {
    Datagram(clientIp + [COLON] + BeforeDash(port),
             OK_PREFIX + BeforeDash(if DASH in port then AfterDash(port) else value) + [NEWLINE])
  }

  /** Splitting `a-b-rest`, where `a` has no dash. */
  lemma SplitTwo(a: Str, b: Str)
    requires DASH !in a
    ensures Split(a + [DASH] + b, DASH) == [a] + Split(b, DASH)
  {
    var text := a + [DASH] + b;
    assert text[..|a|] == a && text[|a|] == DASH && text[|a| + 1..] == b;
    CutIsFirst(text, DASH, |a|);
    SplitHead(text, DASH);
  }

  lemma BeforeDashAppend(s: Str, t: Str)
    ensures BeforeDash(s + [DASH] + t) == BeforeDash(s)
  {
    var text := s + [DASH] + t;
    var k := Cut(s, DASH);
    assert text[..k] == s[..k];
    CutIsFirst(text, DASH, k);
  }

  /**
   * Reply routing, for every port and value: the answer goes to the port up to its first dash.
   * From a dash-free port it carries the value up to the value's first dash; otherwise it carries
   * a piece of the port, and nothing of the value.
   */
  lemma ReplyRouting(clientIp: Str, port: Str, value: Str)
    ensures Answer(clientIp, Join([port, value], DASH)) == Routed(clientIp, port, value)
  {
    JoinPair(port, value, DASH);
    if DASH in port {
      var a, b := BeforeDash(port), AfterDash(port);
      Assoc(a + [DASH], b, [DASH] + value);
      Assoc(b, [DASH], value);
      Assoc(port, [DASH], value);
      SplitTwo(a, b + [DASH] + value);
      BeforeDashAppend(b, value);
    } else {
      SplitTwo(port, value);
    }
  }

  /** The datagram, byte by byte, when neither port nor value has a dash: "OK: value\n" to "ip:port". */
  lemma ReplyBytes(clientIp: Str, port: Str, value: Str)
    requires 45 !in port && 45 !in value
    ensures Answer(clientIp, Join([port, value], DASH))
         == Datagram(clientIp + [58] + port, [79, 75, 58, 32] + value + [10])
  {
    ReplyRouting(clientIp, port, value);
  }

  /** The client gets the whole value at its own port exactly when neither holds a dash. */
  lemma ReplyIntactIff(clientIp: Str, port: Str, value: Str)
    ensures Answer(clientIp, Join([port, value], DASH))
         == Datagram(clientIp + [COLON] + port, OK_PREFIX + value + [NEWLINE])
       <==> DASH !in port && DASH !in value
  {
    ReplyRouting(clientIp, port, value);
    var d := Routed(clientIp, port, value);
    if DASH !in port {
      var whole := OK_PREFIX + value + [NEWLINE];
      assert d.body == whole ==> |BeforeDash(value)| == |value|;
    } else {
      assert d.addr[|clientIp| + 1..] == BeforeDash(port);
      assert (clientIp + [COLON] + port)[|clientIp| + 1..] == port;
    }
  }
}
