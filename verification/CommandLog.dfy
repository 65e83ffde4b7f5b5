/** The durable command log: length-prefixed records, as kvstore and logger write them. */
module CommandLog {
  import opened GoBytes
  import opened Commands

  /** raft.Log, as handed to an FSM: the entry's index and its payload. */
  datatype Entry = Entry(index: nat, data: Str)

  /** The payloads of a log, in order. */
  function Payloads(log: seq<Entry>): (data: seq<Str>)
    ensures |data| == |log|
    ensures forall i :: 0 <= i < |log| ==> data[i] == log[i].data
  {
    seq(|log|, i requires 0 <= i < |log| => log[i].data)
  }

  const TWO_31: int := 0x8000_0000
  const TWO_32: int := 0x1_0000_0000

  /** binary.Write(BigEndian, int32(n)): the conversion keeps the low 32 bits. */
  function BigEndian32(n: nat): (s: Str)
    ensures |s| == 4
  {
    var w := n % TWO_32;
    [w / 0x100_0000, w / 0x1_0000 % 0x100, w / 0x100 % 0x100, w % 0x100]
  }

  /** binary.Read of an int32: two's complement. */
  function Int32(s: Str): (n: int)
    requires |s| == 4
    ensures -TWO_31 <= n < TWO_31
  {
    var w := s[0] as int * 0x100_0000 + s[1] as int * 0x1_0000 + s[2] as int * 0x100 + s[3] as int;
    if w < TWO_31 then w else w - TWO_32
  }

  /** Four base-256 digits make up the number. */
  lemma Digits256(w: nat)
    requires w < TWO_32
    ensures w == w / 0x100_0000 * 0x100_0000 + w / 0x1_0000 % 0x100 * 0x1_0000 + w / 0x100 % 0x100 * 0x100 + w % 0x100
  {
    var b := w / 0x100;
    var c := b / 0x100;
    assert w / 0x1_0000 == c && w / 0x100_0000 == c / 0x100;
  }

  /** A length survives its header exactly when it is an int32. */
  lemma LengthRoundTrip(n: nat)
    ensures Int32(BigEndian32(n)) == n <==> n < TWO_31
  {
    var w := n % TWO_32;
    var s := BigEndian32(n);
    Digits256(w);
    assert w == s[0] as int * 0x100_0000 + s[1] as int * 0x1_0000 + s[2] as int * 0x100 + s[3] as int;
  }

  /** The command that is logged for an entry: the decoded one, stamped with the entry's index. */
  function Stamped(codec: Codec, e: Entry): (r: Option<Command>) {
    match codec.unmarshal(e.data)
    case None => None
    case Some(c) => Some(c.(id := e.index))
  }

  /** The bytes one entry adds to the log file; an undecodable entry adds none. */
  function Frame(codec: Codec, e: Entry): (s: Str) {
    match Stamped(codec, e)
    case None => []
    case Some(c) => BigEndian32(|codec.marshal(c)|) + codec.marshal(c)
  }

  /**
   * The record of a decodable entry, byte by byte: the serialized command, its Id replaced by the
   * entry's index, behind its length with the most significant byte first.
   */
  lemma FrameBytes(codec: Codec, e: Entry, c: Command)
    requires codec.unmarshal(e.data) == Some(c)
    ensures var body := codec.marshal(Command(e.index, c.ip, c.op, c.key, c.value));
      var f := Frame(codec, e);
      && |f| == 4 + |body|
      && f[4..] == body
      && (|body| < TWO_31 ==> f[0] as int * 0x100_0000 + f[1] as int * 0x1_0000 + f[2] as int * 0x100 + f[3] as int == |body|)
  {
    var body := codec.marshal(Command(e.index, c.ip, c.op, c.key, c.value));
    Digits256(|body| % TWO_32);
  }

  function Encoding(codec: Codec, log: seq<Entry>): (s: Str) {
    if log == [] then [] else Frame(codec, log[0]) + Encoding(codec, log[1..])
  }

  /** The commands a log records, in order. */
  function Logged(codec: Codec, log: seq<Entry>): (cmds: seq<Command>) {
    if log == [] then []
    else
      var rest := Logged(codec, log[1..]);
      match Stamped(codec, log[0])
      case None => rest
      case Some(c) => [c] + rest
  }

  /** Raft numbers entries from 1, and a record's length has to fit its header. */
  ghost predicate Recordable(codec: Codec, e: Entry) {
    e.index > 0 && (Stamped(codec, e).Some? ==> |codec.marshal(Stamped(codec, e).value)| < TWO_31)
  }

  ghost predicate AllRecordable(codec: Codec, log: seq<Entry>) {
    forall i :: 0 <= i < |log| ==> Recordable(codec, log[i])
  }

  lemma {:induction false} EncodingConcat(codec: Codec, a: seq<Entry>, b: seq<Entry>)
    ensures Encoding(codec, a + b) == Encoding(codec, a) + Encoding(codec, b)
  {
    if a == [] {
      assert a + b == b;
    } else {
      EncodingConcat(codec, a[1..], b);
      assert (a + b)[1..] == a[1..] + b;
      Assoc(Frame(codec, a[0]), Encoding(codec, a[1..]), Encoding(codec, b));
    }
  }

  lemma {:induction false} LoggedConcat(codec: Codec, a: seq<Entry>, b: seq<Entry>)
    ensures Logged(codec, a + b) == Logged(codec, a) + Logged(codec, b)
  {
    if a == [] {
      assert a + b == b;
    } else {
      LoggedConcat(codec, a[1..], b);
      assert (a + b)[1..] == a[1..] + b;
      var head := Logged(codec, [a[0]]);
      assert [a[0]][1..] == [];
      Assoc(head, Logged(codec, a[1..]), Logged(codec, b));
    }
  }

  /** Two writers at different progress: the shorter file is a byte prefix of the longer one. */
  lemma EncodingMonotone(codec: Codec, log: seq<Entry>, i: nat, j: nat)
    requires i <= j <= |log|
    ensures Encoding(codec, log[..i]) <= Encoding(codec, log[..j]) <= Encoding(codec, log)
  {
    assert log[..j][..i] == log[..i];
    EncodingOfPrefix(codec, log[..j], i);
    EncodingOfPrefix(codec, log, j);
  }

  lemma EncodingOfPrefix(codec: Codec, log: seq<Entry>, i: nat)
    requires i <= |log|
    ensures Encoding(codec, log[..i]) <= Encoding(codec, log)
  {
    EncodingConcat(codec, log[..i], log[i..]);
    assert log[..i] + log[i..] == log;
  }

  lemma EncodingOne(codec: Codec, e: Entry)
    ensures Encoding(codec, [e]) == Frame(codec, e)
  {
    assert [e][1..] == [];
  }

  /** Where the next record goes. */
  lemma EncodingNext(codec: Codec, log: seq<Entry>, k: nat)
    requires k < |log|
    ensures Encoding(codec, log[..k + 1]) == Encoding(codec, log[..k]) + Frame(codec, log[k])
    ensures Encoding(codec, log[..k]) + Frame(codec, log[k]) <= Encoding(codec, log)
  {
    EncodingConcat(codec, log[..k], [log[k]]);
    EncodingOne(codec, log[k]);
    assert log[..k] + [log[k]] == log[..k + 1];
    EncodingMonotone(codec, log, k, k + 1);
  }

  /** How many whole records the first `n` bytes of the log hold. */
  function Complete(codec: Codec, log: seq<Entry>, n: nat): (k: nat)
    ensures k <= |log|
  {
    if log == [] || n < |Frame(codec, log[0])| then 0
    else 1 + Complete(codec, log[1..], n - |Frame(codec, log[0])|)
  }

  /** `Complete` counts every record that is whole, and the one after it is torn. */
  lemma {:induction false} CompleteIsMaximal(codec: Codec, log: seq<Entry>, n: nat)
    requires n <= |Encoding(codec, log)|
    ensures var k := Complete(codec, log, n);
      && |Encoding(codec, log[..k])| <= n
      && (k < |log| ==> n < |Encoding(codec, log[..k])| + |Frame(codec, log[k])|)
      && (k == |log| ==> n == |Encoding(codec, log)|)
  {
    var k := Complete(codec, log, n);
    if log != [] && n >= |Frame(codec, log[0])| {
      CompleteIsMaximal(codec, log[1..], n - |Frame(codec, log[0])|);
      assert log[..k][1..] == log[1..][..k - 1];
      assert |Encoding(codec, log[..k])| == |Frame(codec, log[0])| + |Encoding(codec, log[1..][..k - 1])|;
    } else {
      assert log[..k] == [];
    }
  }
}
