/** kvstore/fsm.go and the preload of kvstore/store.go: one replica's state machine. */
module KvStore {
  import opened GoBytes
  import opened Decimal
  import opened Commands
  import opened CommandLog
  import opened KvSpec
  import opened OsFile

  /** The []byte values of the map are heap arrays that several keys and snapshots may share. */
  type Heap = map<Str, array<byte>>

  function ViewOf(m: Heap): (v: KvMap)
    reads m.Values
    ensures v.Keys == m.Keys
    ensures forall k :: k in m ==> v[k] == m[k][..]
  {
    map k | k in m :: m[k][..]
  }

  /** json.Marshal and json.Decoder on a snapshot; `faithful` holds of maps whose keys are valid UTF-8. */
  datatype SnapshotCodec = SnapshotCodec(encode: KvMap -> Str, decode: Str -> Option<KvMap>, faithful: KvMap -> bool) {
    ghost predicate Sound() {
      forall m: KvMap :: faithful(m) ==> decode(encode(m)) == Some(m)
    }
  }

  datatype FsmSnapshot = FsmSnapshot(store: Heap) {

    method Persist(json: SnapshotCodec) returns (sink: Str)
      ensures sink == json.encode(ViewOf(store))
    {
      sink := json.encode(ViewOf(store));
    }
  }

  const NUM_INIT_KEYS: nat := 1000000
  const INIT_VALUE_SIZE: nat := 1024
  const BANG: byte := 33

  /** The preloaded map: the decimal keys below `n`, all with the same value. */
  function Preload(n: nat): (m: KvMap) {
    map k | k in KeysBelow(n) :: Repeat(BANG, INIT_VALUE_SIZE)
  }

  /** The preload: exactly the decimal keys below `n`, each with 1024 exclamation marks. */
  lemma PreloadBytes(n: nat, key: Str)
    ensures key in Preload(n) <==> exists i :: 0 <= i < n && key == Itoa(i)
    ensures key in Preload(n) ==> |Preload(n)[key]| == 1024 && forall k :: 0 <= k < 1024 ==> Preload(n)[key][k] == 33
  {
    InKeysBelow(n, key);
  }

  lemma SharedView(m: Heap, a: array<byte>, n: nat)
    requires m.Keys == KeysBelow(n) && a[..] == Repeat(BANG, INIT_VALUE_SIZE)
    requires forall k :: k in m ==> m[k] == a
    ensures ViewOf(m) == Preload(n)
  {
    assert ViewOf(m).Keys == Preload(n).Keys;
  }

  method NewSlice(s: Str) returns (a: array<byte>)
    ensures fresh(a) && a[..] == s
  {
    a := new byte[|s|](i requires 0 <= i < |s| => s[i]);
  }

  class Store {
    var m: Heap
    const Logging: bool
    const LogFile: File

    ghost function View(): KvMap
      reads this, m.Values
    {
      ViewOf(m)
    }

    /** New: opens the log file and fills the map, every key with the one initValue slice. */
    constructor (logging: bool, logFile: File, numInitKeys: nat)
      ensures Logging == logging && LogFile == logFile
      ensures View() == Preload(numInitKeys)
      ensures |m| == numInitKeys
      ensures forall k, k' :: k in m && k' in m ==> m[k] == m[k']
      ensures forall k :: k in m ==> fresh(m[k])
    {
      Logging, LogFile, m := logging, logFile, map[];
      new;
      var initValue := PreInitialize(numInitKeys);
    }

    /** The preload loop of New. */
    method PreInitialize(numInitKeys: nat) returns (initValue: array<byte>)
      requires m == map[]
      modifies this`m
      ensures fresh(initValue)
      ensures View() == Preload(numInitKeys)
      ensures |m| == numInitKeys
      ensures forall k :: k in m ==> m[k] == initValue
    {
      initValue := NewSlice(Repeat(BANG, INIT_VALUE_SIZE));
      for i := 0 to numInitKeys
        invariant m.Keys == KeysBelow(i) && |m.Keys| == i
        invariant forall k :: k in m ==> m[k] == initValue
        invariant initValue[..] == Repeat(BANG, INIT_VALUE_SIZE)
      {
        KeysBelowFresh(i);
        m := m[Itoa(i) := initValue];
      }
      SharedView(m, initValue, numInitKeys);
    }

    /** fsm.Apply; the deferred log write happens on every path after a successful unmarshal. */
    method Apply(codec: Codec, e: Entry) returns (r: Response)
      modifies this`m, LogFile
      ensures View() == ApplyData(codec, e.data, old(View()))
      ensures r == ResponseTo(codec, e.data, old(View()))
      ensures Logging ==> LogFile.content == Overwrite(old(LogFile.content), old(LogFile.offset), Frame(codec, e))
      ensures Logging ==> LogFile.offset == old(LogFile.offset) + |Frame(codec, e)|
      ensures !Logging ==> unchanged(LogFile)
    {
      var decoded := codec.unmarshal(e.data);
      if decoded.None? {
        return DecodeError;
      }
      var command := decoded.value;
      r := Run(command);
      if Logging {
        LogCommand(codec, command.(id := e.index));
      }
    }

    /** The switch on the operation. */
    method Run(command: Command) returns (r: Response)
      modifies this`m
      ensures View() == Execute(command, old(View()))
      ensures r == Respond(command, old(View()))
    {
      match command.op {
        case Set =>
          var answer := ApplySet(command.key, command.value);
          r := Text(Join([command.ip, answer], DASH));
        case Get =>
          var answer := ApplyGet(command.key);
          r := Text(Join([command.ip, answer], DASH));
        case _ =>
          r := Panic;
      }
    }

    /** The deferred function: a big-endian length, then the serialized command. */
    method LogCommand(codec: Codec, command: Command)
      modifies LogFile
      ensures var s := codec.marshal(command);
        && LogFile.content == Overwrite(old(LogFile.content), old(LogFile.offset), BigEndian32(|s|) + s)
        && LogFile.offset == old(LogFile.offset) + 4 + |s|
    {
      var serializedCmd := codec.marshal(command);
      OverwriteTwice(LogFile.content, LogFile.offset, BigEndian32(|serializedCmd|), serializedCmd);
      LogFile.Write(BigEndian32(|serializedCmd|));
      LogFile.Write(serializedCmd);
    }

    method ApplySet(key: Str, value: Str) returns (answer: Str)
      modifies this`m
      ensures answer == []
      ensures View() == old(View())[key := value]
      ensures key in m && fresh(m[key]) && m == old(m)[key := m[key]]
    {
      var slice := NewSlice(value);
      m := m[key := slice];
      answer := [];
    }

    method ApplyGet(key: Str) returns (answer: Str)
      ensures answer == Lookup(View(), key)
    {
      answer := if key in m then m[key][..] else [];
    }

    /** Clones the map key by key: the slices themselves are shared. */
    method Snapshot() returns (s: FsmSnapshot)
      ensures s.store == m
    {
      var o: Heap := map[];
      var todo := m.Keys;
      while todo != {}
        invariant todo <= m.Keys && o.Keys == m.Keys - todo
        invariant forall k :: k in o ==> o[k] == m[k]
        decreases todo
      {
        var k :| k in todo;
        o := o[k := m[k]];
        todo := todo - {k};
      }
      s := FsmSnapshot(o);
    }

    /** Replaces the map by a decoded snapshot; on a decoding error the map stays as it was. */
    method Restore(json: SnapshotCodec, rc: Str) returns (ok: bool)
      modifies this`m
      ensures ok == json.decode(rc).Some?
      ensures ok ==> View() == json.decode(rc).value && (forall k :: k in m ==> fresh(m[k]))
      ensures !ok ==> m == old(m)
    {
      var decoded := json.decode(rc);
      if decoded.None? {
        return false;
      }
      var o: Heap := map[];
      var todo := decoded.value.Keys;
      while todo != {}
        invariant todo <= decoded.value.Keys && o.Keys == decoded.value.Keys - todo
        invariant forall k :: k in o ==> fresh(o[k]) && o[k][..] == decoded.value[k]
        decreases todo
      {
        var k :| k in todo;
        var slice := NewSlice(decoded.value[k]);
        o := o[k := slice];
        todo := todo - {k};
      }
      m := o;
      ok := true;
    }

    /** Raft delivering a run of committed entries. */
    method ApplyAll(codec: Codec, log: seq<Entry>)
      modifies this`m, LogFile
      ensures View() == StateAfter(codec, old(View()), Payloads(log))
      ensures Logging ==> LogFile.content == Overwrite(old(LogFile.content), old(LogFile.offset), Encoding(codec, log))
      ensures Logging ==> LogFile.offset == old(LogFile.offset) + |Encoding(codec, log)|
    {
      ghost var view, content, offset := View(), LogFile.content, LogFile.offset;
      var i := 0;
      NothingApplied(codec, view, log, content, offset);
      while i < |log|
        invariant 0 <= i <= |log|
        invariant View() == StateAfter(codec, view, Payloads(log[..i]))
        invariant Logging ==> LogFile.content == Overwrite(content, offset, Encoding(codec, log[..i]))
        invariant Logging ==> LogFile.offset == offset + |Encoding(codec, log[..i])|
      {
        EncodingNext(codec, log, i);
        OverwriteMore(content, offset, Encoding(codec, log[..i]), Frame(codec, log[i]));
        StateAfterNext(codec, view, log, i);
        var r := Apply(codec, log[i]);
        i := i + 1;
      }
      assert log[..|log|] == log;
    }
  }

  lemma NothingApplied(codec: Codec, init: KvMap, log: seq<Entry>, content: Str, offset: nat)
    ensures StateAfter(codec, init, Payloads(log[..0])) == init
    ensures Encoding(codec, log[..0]) == [] && Overwrite(content, offset, Encoding(codec, log[..0])) == content
  {
    assert log[..0] == [];
  }

  lemma StateAfterNext(codec: Codec, init: KvMap, log: seq<Entry>, i: nat)
    requires i < |log|
    ensures StateAfter(codec, init, Payloads(log[..i + 1]))
         == ApplyData(codec, log[i].data, StateAfter(codec, init, Payloads(log[..i])))
  {
    assert Payloads(log[..i + 1])[..i] == Payloads(log[..i]);
  }

  lemma OverwriteMore(s: Str, off: nat, a: Str, b: Str)
    ensures Overwrite(Overwrite(s, off, a), off + |a|, b) == Overwrite(s, off, a + b)
  {
    if a == [] {
      assert a + b == b;
    } else {
      OverwriteTwice(s, off, a, b);
    }
  }

  /** Snapshot isolation: no later Apply changes a snapshot already taken, although it shares every slice. */
  method SnapshotIsolation(codec: Codec, store: Store, log: seq<Entry>) returns (s: FsmSnapshot)
    modifies store`m, store.LogFile
    ensures ViewOf(s.store) == old(store.View())
    ensures store.View() == StateAfter(codec, old(store.View()), Payloads(log))
  {
    s := store.Snapshot();
    label taken:
    store.ApplyAll(codec, log);
    SlicesFrame@taken(s.store);
  }

  /** A map of slices looks the same as long as no slice is written to. */
  twostate lemma SlicesFrame(m: Heap)
    requires forall k :: k in m ==> unchanged(m[k])
    ensures ViewOf(m) == old(ViewOf(m))
  {
    assert ViewOf(m).Keys == old(ViewOf(m)).Keys;
  }

  method RestoreAndFollow(codec: Codec, json: SnapshotCodec, dst: Store, ghost view: KvMap, sink: Str, rest: seq<Entry>)
    requires json.decode(sink) == Some(view)
    modifies dst`m, dst.LogFile
    ensures dst.View() == StateAfter(codec, view, Payloads(rest))
  {
    var ok := dst.Restore(json, sink);
    dst.ApplyAll(codec, rest);
  }

  lemma StateInTwoParts(codec: Codec, preload: KvMap, log: seq<Entry>, i: nat)
    requires i <= |log|
    ensures StateAfter(codec, StateAfter(codec, preload, Payloads(log[..i])), Payloads(log[i..]))
         == StateAfter(codec, preload, Payloads(log))
  {
    assert Payloads(log) == Payloads(log[..i]) + Payloads(log[i..]);
    StateAfterConcat(codec, preload, Payloads(log[..i]), Payloads(log[i..]));
  }

  /**
   * Catch-up: a replica restored from a snapshot taken after `i` entries, persisted only after
   * the source has moved on, and then given the rest of the log, ends with the map of the whole log.
   */
  method CatchUp(codec: Codec, json: SnapshotCodec, src: Store, dst: Store, preload: KvMap, log: seq<Entry>, i: nat)
    requires i <= |log|
    requires src != dst && src.LogFile != dst.LogFile
    requires src.View() == StateAfter(codec, preload, Payloads(log[..i]))
    requires json.Sound() && json.faithful(src.View())
    modifies src`m, src.LogFile, dst`m, dst.LogFile
    ensures src.View() == StateAfter(codec, preload, Payloads(log))
    ensures dst.View() == StateAfter(codec, preload, Payloads(log))
  {
    ghost var view := src.View();
    var s := SnapshotIsolation(codec, src, log[i..]);
    var sink := s.Persist(json);
    StateInTwoParts(codec, preload, log, i);
    label ahead:
    RestoreAndFollow(codec, json, dst, view, sink, log[i..]);
    SlicesFrame@ahead(src.m);
  }

  /**
   * A restarted replica re-applies the log from its first entry over whatever prefix of the
   * encoding its previous lives left in the file: the file ends as the exact encoding.
   */
  method ReapplyAfterRestart(codec: Codec, log: seq<Entry>, leftover: Str, numInitKeys: nat)
      returns (store: Store, file: File)
    requires leftover <= Encoding(codec, log)
    ensures file.content == Encoding(codec, log)
    ensures store.View() == StateAfter(codec, Preload(numInitKeys), Payloads(log))
  {
    file := new File.Open(leftover);
    store := new Store(true, file, numInitKeys);
    store.ApplyAll(codec, log);
    var whole := Encoding(codec, log);
    assert whole == whole[0..0 + |whole|];
    OverwritePrefix(leftover, whole, 0, whole);
    assert whole[..0 + |whole|] == whole;
  }
}
