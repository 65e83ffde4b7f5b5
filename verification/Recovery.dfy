/** recovery/state.go: rebuilding a replica's map from a transferred log file. */
module Recovery {
  import opened GoBytes
  import opened Commands
  import opened CommandLog
  import opened KvSpec

  /** Outcome of the decoding loop: the commands read, or a makeslice panic on a negative length. */
  datatype Decoded = Decoded(cmds: seq<Command>, panicked: bool)

  /** The body a record is decoded from: what is left of it, zero-padded to its announced length. */
  function Body(rest: Str, n: nat): (body: Str)
    ensures |body| == n
    ensures n <= |rest| ==> body == rest[..n]
  {
    if n <= |rest| then rest[..n] else rest + Repeat(0, n - |rest|)
  }

  /** One turn of the decoding loop: it breaks, panics, or yields a command and the bytes left. */
  datatype Turn = Break | Makeslice | Yield(cmd: Command, left: Str)

  /**
   * The loop breaks without an error at a torn header, at an exhausted reader, and at a body
   * that does not unmarshal; a short body is padded.
   */
  function ReadOne(codec: Codec, s: Str): (t: Turn)
    ensures t.Yield? ==> |t.left| < |s|
  {
    if |s| < 4 then Break
    else
      var n := Int32(s[..4]);
      var rest := s[4..];
      if n < 0 then Makeslice
      else if rest == [] then Break
      else
        match codec.unmarshal(Body(rest, n))
        case None => Break
        case Some(c) => Yield(c, rest[if n <= |rest| then n else |rest|..])
  }

  /** The whole decoding loop over the bytes still unread. */
  function Decode(codec: Codec, s: Str): (r: Decoded)
    decreases |s|
  {
    match ReadOne(codec, s)
    case Break => Decoded([], false)
    case Makeslice => Decoded([], true)
    case Yield(c, left) => var r := Decode(codec, left); Decoded([c] + r.cmds, r.panicked)
  }

  /** The second loop: only SETs touch the state. */
  function Replay(cmds: seq<Command>, m: KvMap): (m': KvMap) {
    if cmds == [] then m else Replay(cmds[1..], Execute(cmds[0], m))
  }

  class MockState {
    var state: map<Str, Str>

    /** NewMockState with preInitialize = false. */
    constructor ()
      ensures state == map[]
    {
      state := map[];
    }

    /** Installs a received log; a negative record length panics before anything is installed. */
    method InstallReceivedState(codec: Codec, newState: Str) returns (numOfCommands: nat, panicked: bool)
      modifies this
      ensures panicked == Decode(codec, newState).panicked
      ensures panicked ==> state == old(state)
      ensures !panicked ==> state == Replay(Decode(codec, newState).cmds, old(state))
      ensures !panicked ==> numOfCommands == |Decode(codec, newState).cmds|
    {
      var commandsToApply: seq<Command>;
      commandsToApply, panicked := ReadCommands(codec, newState);
      numOfCommands := 0;
      if panicked {
        return;
      }
      var i := 0;
      while i < |commandsToApply|
        invariant 0 <= i <= |commandsToApply|
        invariant Replay(commandsToApply[i..], state) == Replay(commandsToApply, old(state))
      {
        var cmd := commandsToApply[i];
        if cmd.op == Set {
          state := state[cmd.key := cmd.value];
        }
        assert commandsToApply[i..][1..] == commandsToApply[i + 1..];
        i := i + 1;
      }
      numOfCommands := |commandsToApply|;
    }
  }

  /** The decoding loop, reading through a cursor as bytes.Reader does. */
  method ReadCommands(codec: Codec, newState: Str) returns (cmds: seq<Command>, panicked: bool)
    ensures Decoded(cmds, panicked) == Decode(codec, newState)
  {
    ghost var unread := newState;
    var pos := 0;
    cmds, panicked := [], false;
    while true
      invariant 0 <= pos <= |newState| && unread == newState[pos..] && !panicked
      invariant Decode(codec, newState).cmds == cmds + Decode(codec, unread).cmds
      invariant Decode(codec, newState).panicked == Decode(codec, unread).panicked
      decreases |unread|
    {
      var turn := ReadRecord(codec, newState, pos);
      if turn.Break? {
        return;
      }
      if turn.Makeslice? {
        panicked := true;
        return;
      }
      Assoc(cmds, [turn.cmd], Decode(codec, turn.left).cmds);
      cmds := cmds + [turn.cmd];
      pos := |newState| - |turn.left|;
      unread := turn.left;
    }
  }

  /** The body of the loop, reading at offset `pos`. */
  method ReadRecord(codec: Codec, newState: Str, pos: nat) returns (turn: Turn)
    requires pos <= |newState|
    ensures turn == ReadOne(codec, newState[pos..])
    ensures turn.Yield? ==> turn.left == newState[|newState| - |turn.left|..]
  {
    ghost var unread := newState[pos..];
    if |newState| - pos < 4 { // binary.Read: EOF or ErrUnexpectedEOF
      return Break;
    }
    var commandLength := Int32(newState[pos..pos + 4]);
    var rest := newState[pos + 4..];
    assert unread[..4] == newState[pos..pos + 4] && unread[4..] == rest;
    if commandLength < 0 { // make([]byte, commandLength) panics
      return Makeslice;
    }
    if rest == [] { // reader.Read: EOF
      return Break;
    }
    var serializedCmd := Body(rest, commandLength);
    var read := if commandLength <= |rest| then commandLength else |rest|;
    match codec.unmarshal(serializedCmd)
    case None => return Break;
    case Some(c) =>
      assert rest[read..] == newState[pos + 4 + read..];
      return Yield(c, rest[read..]);
  }

  /** The turn panics exactly on a whole header whose number is negative: its first bit is set. */
  lemma MakesliceIff(codec: Codec, s: Str)
    ensures ReadOne(codec, s) == Makeslice <==> |s| >= 4 && s[0] >= 128
  {
  }

  /** It breaks exactly at a torn header, at a header with nothing behind it, and at a body that does not decode. */
  lemma BreakIff(codec: Codec, s: Str)
    ensures ReadOne(codec, s) == Break <==>
      || |s| < 4
      || (s[0] < 128 && (|s| == 4 || codec.unmarshal(Body(s[4..], Int32(s[..4]))).None?))
  {
    MakesliceIff(codec, s);
  }

  /** A body shorter than announced is padded with zeros. */
  lemma BodyBytes(rest: Str, n: nat)
    ensures |Body(rest, n)| == n
    ensures forall i :: 0 <= i < n ==> Body(rest, n)[i] == if i < |rest| then rest[i] else 0
  {
  }

  /**
   * A record too long for its header stops recovery: behind any valid log, one whose length is
   * read back as negative makes it panic, and nothing of the whole log is installed.
   */
  lemma OverlongRecordPanics(codec: Codec, log: seq<Entry>, e: Entry, rest: Str)
    requires codec.Sound() && AllRecordable(codec, log) && Stamped(codec, e).Some?
    requires TWO_31 <= |codec.marshal(Stamped(codec, e).value)| < TWO_32
    ensures Decode(codec, Encoding(codec, log) + (Frame(codec, e) + rest)).panicked
  {
    var body := codec.marshal(Stamped(codec, e).value);
    var s := Frame(codec, e) + rest;
    LengthRoundTrip(|body|);
    assert s[0] == BigEndian32(|body|)[0] >= 128;
    MakesliceIff(codec, s);
    DecodeEncodingThen(codec, log, s);
  }

  /** A whole record is decoded to its command, whatever follows it. */
  lemma DecodeFrame(codec: Codec, e: Entry, rest: Str)
    requires codec.Sound() && Recordable(codec, e) && Stamped(codec, e).Some?
    ensures Decode(codec, Frame(codec, e) + rest)
         == var r := Decode(codec, rest); Decoded([Stamped(codec, e).value] + r.cmds, r.panicked)
  {
    var c := Stamped(codec, e).value;
    var body := codec.marshal(c);
    var s := Frame(codec, e) + rest;
    LengthRoundTrip(|body|);
    assert s[..4] == BigEndian32(|body|) && s[4..] == body + rest;
    assert (body + rest)[..|body|] == body && (body + rest)[|body|..] == rest;
  }

  lemma {:induction false} DecodeEncodingThen(codec: Codec, log: seq<Entry>, rest: Str)
    requires codec.Sound() && AllRecordable(codec, log)
    ensures Decode(codec, Encoding(codec, log) + rest)
         == var r := Decode(codec, rest); Decoded(Logged(codec, log) + r.cmds, r.panicked)
  {
    if log == [] {
      assert Encoding(codec, log) + rest == rest;
    } else {
      var tail := Encoding(codec, log[1..]) + rest;
      DecodeEncodingThen(codec, log[1..], rest);
      assert Encoding(codec, log) + rest == Frame(codec, log[0]) + tail;
      assert Recordable(codec, log[0]);
      var r := Decode(codec, rest);
      var logged := Logged(codec, log[1..]);
      if Stamped(codec, log[0]).Some? {
        var c := Stamped(codec, log[0]).value;
        DecodeFrame(codec, log[0], tail);
        Assoc([c], logged, r.cmds);
      } else {
        assert Frame(codec, log[0]) + tail == tail;
      }
    }
  }

  /** Decoding a complete log gives exactly the logged commands, in order. */
  lemma DecodeEncoding(codec: Codec, log: seq<Entry>)
    requires codec.Sound() && AllRecordable(codec, log)
    ensures Decode(codec, Encoding(codec, log)) == Decoded(Logged(codec, log), false)
  {
    DecodeEncodingThen(codec, log, []);
    assert Encoding(codec, log) + [] == Encoding(codec, log);
  }

  // Torn logs.

  /** The zero-padded body that a torn record `torn` (header complete, some body) is decoded from. */
  function PaddedBody(torn: Str): (body: Str)
    requires |torn| > 4 && Int32(torn[..4]) >= 0
  {
    Body(torn[4..], Int32(torn[..4]))
  }

  /** What a proper prefix of one record decodes to: nothing, or its padded body. */
  lemma DecodeTornFrame(codec: Codec, e: Entry, torn: Str)
    requires codec.Sound() && Recordable(codec, e)
    requires torn < Frame(codec, e)
    ensures |torn| > 4 ==> Int32(torn[..4]) == |Frame(codec, e)| - 4
    ensures Decode(codec, torn) == Decoded(
      if |torn| <= 4 || codec.unmarshal(PaddedBody(torn)).None? then []
      else [codec.unmarshal(PaddedBody(torn)).value], false)
  {
    var body := codec.marshal(Stamped(codec, e).value);
    LengthRoundTrip(|body|);
    if |torn| >= 4 {
      assert torn[..4] == Frame(codec, e)[..4] == BigEndian32(|body|);
      assert |torn[4..]| < |body|;
    }
  }

  /** The bytes after the last whole record in an `n`-byte prefix of the log. */
  function TornPart(codec: Codec, log: seq<Entry>, n: nat): (torn: Str)
    requires n <= |Encoding(codec, log)|
  {
    var start := |Encoding(codec, log[..Complete(codec, log, n)])|;
    CompleteIsMaximal(codec, log, n);
    Encoding(codec, log)[start..n]
  }

  lemma TornPartSplit(codec: Codec, log: seq<Entry>, n: nat)
    requires n <= |Encoding(codec, log)|
    ensures var k := Complete(codec, log, n);
      && Encoding(codec, log)[..n] == Encoding(codec, log[..k]) + TornPart(codec, log, n)
      && (k < |log| ==> TornPart(codec, log, n) < Frame(codec, log[k]))
      && (k == |log| ==> TornPart(codec, log, n) == [])
  {
    var k := Complete(codec, log, n);
    CompleteIsMaximal(codec, log, n);
    var done := Encoding(codec, log[..k]);
    if k < |log| {
      var frame := Frame(codec, log[k]);
      EncodingNext(codec, log, k);
      PrefixCuts(done + frame, Encoding(codec, log), |done|, n);
      CutSecond(done, frame, n);
    } else {
      assert log[..k] == log;
    }
  }

  /** Cuts inside a prefix are cuts of the whole. */
  lemma PrefixCuts(p: Str, s: Str, i: nat, n: nat)
    requires p <= s && i <= n <= |p|
    ensures s[..n] == p[..n] && s[i..n] == p[i..n]
  {
  }

  /**
   * Torn-prefix recovery: from any byte prefix of a valid log, every whole record is
   * recovered exactly and in order, and at most one command more, which is the decoding
   * of the torn body padded with zeros.
   */
  lemma TornPrefixRecovery(codec: Codec, log: seq<Entry>, n: nat)
    requires codec.Sound() && AllRecordable(codec, log)
    requires n <= |Encoding(codec, log)|
    ensures
      var r := Decode(codec, Encoding(codec, log)[..n]);
      var whole := Logged(codec, log[..Complete(codec, log, n)]);
      var torn := TornPart(codec, log, n);
      && !r.panicked
      && (r.cmds == whole
          || (|torn| > 4 && Int32(torn[..4]) > |torn| - 4
              && codec.unmarshal(PaddedBody(torn)).Some?
              && r.cmds == whole + [codec.unmarshal(PaddedBody(torn)).value]))
  {
    var k := Complete(codec, log, n);
    var torn := TornPart(codec, log, n);
    TornPartSplit(codec, log, n);
    DecodeEncodingThen(codec, log[..k], torn);
    if k < |log| {
      DecodeTornFrame(codec, log[k], torn);
    }
  }

  /** The torn record leaves no trace exactly when none of its body, or no decodable body, is there. */
  lemma TornRecordIgnoredIff(codec: Codec, log: seq<Entry>, n: nat)
    requires codec.Sound() && AllRecordable(codec, log)
    requires n <= |Encoding(codec, log)|
    ensures
      var torn := TornPart(codec, log, n);
      Decode(codec, Encoding(codec, log)[..n]).cmds == Logged(codec, log[..Complete(codec, log, n)])
      <==> |torn| <= 4 || Int32(torn[..4]) < 0 || codec.unmarshal(PaddedBody(torn)).None?
  {
    var k := Complete(codec, log, n);
    var torn := TornPart(codec, log, n);
    TornPartSplit(codec, log, n);
    DecodeEncodingThen(codec, log[..k], torn);
    if k < |log| {
      DecodeTornFrame(codec, log[k], torn);
    }
  }

  /** The command with the last `t` bytes of its value zeroed. */
  function ZeroTail(c: Command, t: nat): (c': Command)
    requires t <= |c.value|
  {
    c.(value := c.value[..|c.value| - t] + Repeat(0, t))
  }

  /** A command with a value, serialized, ends in the bytes of that value. */
  ghost predicate ValueLast(codec: Codec) {
    forall c: Command, t: nat | 0 < t <= |c.value| :: EndsInValue(codec, c, t)
  }

  ghost predicate EndsInValue(codec: Codec, c: Command, t: nat)
    requires t <= |c.value|
  {
    t < |codec.marshal(c)| && codec.marshal(ZeroTail(c, t)) == ZeroBytes(codec.marshal(c), t)
  }

  /** A cut `t` bytes before the end. */
  function AllBut(s: Str, t: nat): (r: Str)
    requires t <= |s|
    ensures |r| == |s| - t
  {
    s[..|s| - t]
  }

  function ZeroBytes(s: Str, t: nat): (r: Str)
    requires t <= |s|
  {
    AllBut(s, t) + Repeat(0, t)
  }

  /**
   * Installing a torn log can therefore invent a write: with a serializer that puts the value
   * last, a log cut `t` bytes inside the value of its last SET is installed with those `t`
   * bytes replaced by zeros.
   */
  lemma TornSetIsCorrupted(codec: Codec, log: seq<Entry>, c: Command, t: nat)
    requires codec.Sound() && ValueLast(codec) && AllRecordable(codec, log)
    requires log != [] && Stamped(codec, log[|log| - 1]) == Some(c) && 0 < t <= |c.value|
    ensures t <= |Encoding(codec, log)|
    ensures Decode(codec, AllBut(Encoding(codec, log), t))
         == Decoded(Logged(codec, log[..|log| - 1]) + [ZeroTail(c, t)], false)
    ensures ZeroTail(c, t) == c <==> c.value[|c.value| - t..] == Repeat(0, t)
  {
    var whole, e := log[..|log| - 1], log[|log| - 1];
    CutInside(codec, e, c, t);
    LastFrameCut(codec, log, t);
    DecodeEncodingThen(codec, whole, AllBut(Frame(codec, e), t));
    assert c.value == c.value[..|c.value| - t] + c.value[|c.value| - t..];
  }

  lemma LastFrameCut(codec: Codec, log: seq<Entry>, t: nat)
    requires log != [] && t <= |Frame(codec, log[|log| - 1])|
    ensures t <= |Encoding(codec, log)|
    ensures AllBut(Encoding(codec, log), t)
         == Encoding(codec, log[..|log| - 1]) + AllBut(Frame(codec, log[|log| - 1]), t)
  {
    var done, frame := Encoding(codec, log[..|log| - 1]), Frame(codec, log[|log| - 1]);
    assert log[..|log| - 1 + 1] == log;
    EncodingNext(codec, log, |log| - 1);
    CutSecond(done, frame, |done + frame| - t);
  }

  /** One record cut inside its value. */
  lemma CutInside(codec: Codec, e: Entry, c: Command, t: nat)
    requires codec.Sound() && ValueLast(codec) && Recordable(codec, e)
    requires Stamped(codec, e) == Some(c) && 0 < t <= |c.value|
    ensures t <= |Frame(codec, e)|
    ensures Decode(codec, AllBut(Frame(codec, e), t)) == Decoded([ZeroTail(c, t)], false)
  {
    var body := codec.marshal(c);
    assert EndsInValue(codec, c, t);
    var frame := Frame(codec, e);
    var torn := AllBut(frame, t);
    DecodeTornFrame(codec, e, torn);
    CutSecond(BigEndian32(|body|), body, |frame| - t);
    assert torn[4..] == body[..|body| - t];
    assert codec.unmarshal(codec.marshal(ZeroTail(c, t))) == Some(ZeroTail(c, t));
  }

  lemma PlainValueLast()
    ensures ValueLast(PLAIN)
  {
    forall c: Command, t: nat | 0 < t <= |c.value| ensures EndsInValue(PLAIN, c, t)
    {
      PlainZeroTail(c, t);
    }
  }

  /** So does the serializer that, as proto3 does, writes nothing for the default command. */
  lemma SparseValueLast()
    ensures ValueLast(SPARSE)
  {
    forall c: Command, t: nat | 0 < t <= |c.value| ensures EndsInValue(SPARSE, c, t)
    {
      PlainZeroTail(c, t);
    }
  }

  /** Zeroing the end of a value zeroes the end of its plain form. */
  lemma PlainZeroTail(c: Command, t: nat)
    requires t <= |c.value|
    ensures EndsInValue(PLAIN, c, t)
  {
    var n := |c.value|;
    var head := PutNumber(c.id) + (PutNumber(OpCode(c.op)) + (PutText(c.ip) + (PutText(c.key) + PutNumber(n))));
    PlainFlat(c, head);
    PlainFlat(ZeroTail(c, t), head);
    CutSecond(head, c.value, |head| + n - t);
    Assoc(head, c.value[..n - t], Repeat(0, t));
  }

  lemma PlainFlat(c: Command, head: Str)
    requires head == PutNumber(c.id)
      + (PutNumber(OpCode(c.op)) + (PutText(c.ip) + (PutText(c.key) + PutNumber(|c.value|))))
    ensures PlainMarshal(c) == head + c.value
  {
    var n, v := PutNumber(|c.value|), c.value;
    Assoc(PutText(c.key), n, v);
    Assoc(PutText(c.ip), PutText(c.key) + n, v);
    Assoc(PutNumber(OpCode(c.op)), PutText(c.ip) + (PutText(c.key) + n), v);
    Assoc(PutNumber(c.id), PutNumber(OpCode(c.op)) + (PutText(c.ip) + (PutText(c.key) + n)), v);
  }

  // Recovered state against live state.

  lemma {:induction false} ReplayConcat(a: seq<Command>, b: seq<Command>, m: KvMap)
    ensures Replay(a + b, m) == Replay(b, Replay(a, m))
  {
    if a == [] {
      assert a + b == b;
    } else {
      ReplayConcat(a[1..], b, Execute(a[0], m));
      assert (a + b)[1..] == a[1..] + b;
    }
  }

  /** Replaying over any base map is laying the replay from the empty map over it. */
  lemma {:induction false} ReplayOverlay(cmds: seq<Command>, base: KvMap)
    ensures Replay(cmds, base) == base + Replay(cmds, map[])
  {
    if cmds == [] {
      assert base + map[] == base;
    } else {
      var init, last := cmds[..|cmds| - 1], cmds[|cmds| - 1];
      ReplayOverlay(init, base);
      assert cmds == init + [last];
      ReplayConcat(init, [last], base);
      ReplayConcat(init, [last], map[]);
      ReplayOne(last, Replay(init, base));
      ReplayOne(last, Replay(init, map[]));
    }
  }

  lemma ReplayOne(c: Command, m: KvMap)
    ensures Replay([c], m) == Execute(c, m)
  {
    assert [c][1..] == [];
  }

  /** The logged commands act on the map exactly as the entries they came from. */
  lemma {:induction false} ReplayLogged(codec: Codec, log: seq<Entry>, init: KvMap)
    ensures Replay(Logged(codec, log), init) == StateAfter(codec, init, Payloads(log))
  {
    if log != [] {
      var front, last := log[..|log| - 1], log[|log| - 1];
      ReplayLogged(codec, front, init);
      assert log == front + [last];
      LoggedConcat(codec, front, [last]);
      assert [last][1..] == [];
      ReplayConcat(Logged(codec, front), Logged(codec, [last]), init);
      assert Payloads(log)[..|log| - 1] == Payloads(front);
      if Stamped(codec, last).Some? {
        ReplayOne(Stamped(codec, last).value, Replay(Logged(codec, front), init));
      }
    }
  }

  /** The number of entries of a log that decode to a command. */
  function CountDecodable(codec: Codec, log: seq<Entry>): (n: nat) {
    if log == [] then 0
    else (if codec.unmarshal(log[0].data).Some? then 1 else 0) + CountDecodable(codec, log[1..])
  }

  /** Which command each decodable entry leaves, and where: its own, with the entry's index for Id. */
  lemma {:induction false} LoggedAt(codec: Codec, log: seq<Entry>, i: nat, c: Command)
    requires i < |log| && codec.unmarshal(log[i].data) == Some(c)
    ensures var k := CountDecodable(codec, log[..i]);
      k < |Logged(codec, log)| && Logged(codec, log)[k] == Command(log[i].index, c.ip, c.op, c.key, c.value)
    decreases |log|
  {
    if i > 0 {
      LoggedAt(codec, log[1..], i - 1, c);
      assert log[..i][1..] == log[1..][..i - 1];
    } else {
      assert log[..0] == [];
    }
  }

  /** Recovery of a complete log gives each decodable entry's command back, with its index for Id. */
  lemma RecoveredAt(codec: Codec, log: seq<Entry>, i: nat, c: Command)
    requires codec.Sound() && AllRecordable(codec, log)
    requires i < |log| && codec.unmarshal(log[i].data) == Some(c)
    ensures var cmds := Decode(codec, Encoding(codec, log)).cmds;
      && |cmds| == CountDecodable(codec, log)
      && CountDecodable(codec, log[..i]) < |cmds|
      && cmds[CountDecodable(codec, log[..i])] == Command(log[i].index, c.ip, c.op, c.key, c.value)
  {
    DecodeEncoding(codec, log);
    LoggedCount(codec, log);
    LoggedAt(codec, log, i, c);
  }

  lemma {:induction false} LoggedCount(codec: Codec, log: seq<Entry>)
    ensures |Logged(codec, log)| == CountDecodable(codec, log)
  {
    if log != [] {
      LoggedCount(codec, log[1..]);
    }
  }

  /**
   * Recovery equals live state: installing the whole log file into an empty MockState and
   * laying the result over the preloaded map gives the live replica's map.
   */
  method RecoverLiveState(codec: Codec, log: seq<Entry>, preload: KvMap, file: Str)
      returns (recovered: KvMap, count: nat)
    requires codec.Sound() && AllRecordable(codec, log)
    requires file == Encoding(codec, log)
    ensures preload + recovered == StateAfter(codec, preload, Payloads(log))
    ensures count == CountDecodable(codec, log)
  {
    DecodeEncoding(codec, log);
    LoggedCount(codec, log);
    ReplayOverlay(Logged(codec, log), preload);
    ReplayLogged(codec, log, preload);
    var mock := new MockState();
    var panicked;
    count, panicked := mock.InstallReceivedState(codec, file);
    recovered := mock.state;
  }
}
