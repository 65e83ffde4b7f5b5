/** Client commands (pb.Command) and the serializer that carries them. */
module Commands {
  import opened GoBytes
  import opened Decimal

  /** pb.Command_Operation; the state machines execute only SET and GET. */
  datatype Op = Set | Get | Delete | Other(code: nat)

  datatype Command = Command(id: nat, ip: Str, op: Op, key: Str, value: Str)

  /** proto.Marshal and proto.Unmarshal, taken as parameters of every result. */
  datatype Codec = Codec(marshal: Command -> Str, unmarshal: Str -> Option<Command>) {

    /** Round trip, and a non-empty form for every command stamped with a log index. */
    ghost predicate Sound() {
      && (forall c: Command :: unmarshal(marshal(c)) == Some(c))
      && (forall c: Command :: c.id > 0 ==> marshal(c) != [])
    }
  }

  // A concrete serializer, to show that `Sound` can be met.

  function PutNumber(n: nat): (s: Str) {
    Itoa(n) + [DASH]
  }

  function PutText(t: Str): (s: Str) {
    PutNumber(|t|) + t
  }

  function OpCode(op: Op): (n: nat) {
    match op
    case Set => 0
    case Get => 1
    case Delete => 2
    case Other(code) => 3 + code
  }

  function OpOf(n: nat): (op: Op) {
    if n == 0 then Set else if n == 1 then Get else if n == 2 then Delete else Other(n - 3)
  }

  function PutTexts(ip: Str, key: Str, value: Str): (s: Str) {
    PutText(ip) + (PutText(key) + PutText(value))
  }

  function PlainMarshal(c: Command): (s: Str) {
    PutNumber(c.id) + (PutNumber(OpCode(c.op)) + PutTexts(c.ip, c.key, c.value))
  }

  function TakeNumber(s: Str): (r: Option<(nat, Str)>) {
    var i := Cut(s, DASH);
    if 0 < i < |s| && AllDigits(s[..i]) then Some((Value(s[..i]), s[i + 1..])) else None
  }

  function TakeText(s: Str): (r: Option<(Str, Str)>) {
    match TakeNumber(s)
    case None => None
    case Some((n, rest)) => if n <= |rest| then Some((rest[..n], rest[n..])) else None
  }

  /** Three texts and nothing after them. */
  function TakeTexts(s: Str): (r: Option<(Str, Str, Str)>) {
    match TakeText(s)
    case None => None
    case Some((ip, s1)) =>
      match TakeText(s1)
      case None => None
      case Some((key, s2)) =>
        match TakeText(s2)
        case None => None
        case Some((value, s3)) => if s3 == [] then Some((ip, key, value)) else None
  }

  function PlainUnmarshal(s: Str): (r: Option<Command>) {
    match TakeNumber(s)
    case None => None
    case Some((id, s1)) =>
      match TakeNumber(s1)
      case None => None
      case Some((op, s2)) =>
        match TakeTexts(s2)
        case None => None
        case Some((ip, key, value)) => Some(Command(id, ip, OpOf(op), key, value))
  }

  const PLAIN := Codec(PlainMarshal, PlainUnmarshal)

  lemma TakePutNumber(n: nat, rest: Str)
    ensures TakeNumber(PutNumber(n) + rest) == Some((n, rest))
  {
    var d := Itoa(n);
    var s := PutNumber(n) + rest;
    assert s[..|d|] == d && s[|d|] == DASH && s[|d| + 1..] == rest;
    CutIsFirst(s, DASH, |d|);
    ValueOfItoa(n);
  }

  lemma TakePutText(t: Str, rest: Str)
    ensures TakeText(PutText(t) + rest) == Some((t, rest))
  {
    TakePutNumber(|t|, t + rest);
    assert PutText(t) + rest == PutNumber(|t|) + (t + rest);
    assert (t + rest)[..|t|] == t && (t + rest)[|t|..] == rest;
  }

  lemma TextsParts(s: Str, ip: Str, s1: Str, key: Str, s2: Str, value: Str)
    requires TakeText(s) == Some((ip, s1))
    requires TakeText(s1) == Some((key, s2))
    requires TakeText(s2) == Some((value, []))
    ensures TakeTexts(s) == Some((ip, key, value))
  {
  }

  lemma TakePutTexts(ip: Str, key: Str, value: Str)
    ensures TakeTexts(PutTexts(ip, key, value)) == Some((ip, key, value))
  {
    var s2 := PutText(value);
    var s1 := PutText(key) + s2;
    TakePutText(ip, s1);
    TakePutText(key, s2);
    TakePutText(value, []);
    assert s2 + [] == s2;
    TextsParts(PutText(ip) + s1, ip, s1, key, s2, value);
  }

  lemma OpRoundTrip(op: Op)
    ensures OpOf(OpCode(op)) == op
  {
    match op
    case Other(code) => assert OpCode(op) == 3 + code;
    case _ =>
  }

  lemma UnmarshalParts(s: Str, id: nat, s1: Str, op: nat, s2: Str, texts: (Str, Str, Str))
    requires TakeNumber(s) == Some((id, s1))
    requires TakeNumber(s1) == Some((op, s2))
    requires TakeTexts(s2) == Some(texts)
    ensures PlainUnmarshal(s) == Some(Command(id, texts.0, OpOf(op), texts.1, texts.2))
  {
  }

  lemma PlainRoundTrip(c: Command)
    ensures PlainUnmarshal(PlainMarshal(c)) == Some(c)
  {
    var texts := PutTexts(c.ip, c.key, c.value);
    var tail := PutNumber(OpCode(c.op)) + texts;
    TakePutNumber(c.id, tail);
    TakePutNumber(OpCode(c.op), texts);
    TakePutTexts(c.ip, c.key, c.value);
    UnmarshalParts(PutNumber(c.id) + tail, c.id, tail, OpCode(c.op), texts, (c.ip, c.key, c.value));
    OpRoundTrip(c.op);
  }

  lemma PlainIsSound()
    ensures PLAIN.Sound()
  {
    forall c: Command ensures PlainUnmarshal(PlainMarshal(c)) == Some(c) && PlainMarshal(c) != [] {
      PlainRoundTrip(c);
    }
  }

  /** All fields at their defaults: proto3 writes no byte for it. */
  const DEFAULT := Command(0, [], Set, [], [])

  function SparseMarshal(c: Command): (s: Str) {
    if c == DEFAULT then [] else PlainMarshal(c)
  }

  function SparseUnmarshal(s: Str): (r: Option<Command>) {
    if s == [] then Some(DEFAULT) else PlainUnmarshal(s)
  }

  const SPARSE := Codec(SparseMarshal, SparseUnmarshal)

  /** A serializer with an empty form is sound too, as long as no stamped command has it. */
  lemma SparseIsSound()
    ensures SPARSE.Sound() && SPARSE.marshal(DEFAULT) == []
  {
    forall c: Command
      ensures SparseUnmarshal(SparseMarshal(c)) == Some(c) && (c.id > 0 ==> SparseMarshal(c) != [])
    {
      PlainRoundTrip(c);
    }
  }
}
