/**
 * webkvstore/store/store.go: the map with deletes, its snapshots, and GETs answered from the
 * local map instead of through the log.
 */
module WebKvStore {
  import opened GoBytes
  import opened KvSpec

  datatype WebOp = SetKey | DeleteKey | OtherOp

  datatype WebCommand = WebCommand(op: WebOp, key: Str, value: Str)

  /** JSON on commands and on snapshots, as parameters; `faithful` holds of valid UTF-8 keys and values. */
  datatype Json = Json(command: Str -> Option<WebCommand>, encode: KvMap -> Str, decode: Str -> Option<KvMap>,
                       faithful: KvMap -> bool) {
    ghost predicate Sound() {
      forall m: KvMap :: faithful(m) ==> decode(encode(m)) == Some(m)
    }
  }

  /** fsm.Apply on an entry; None is a panic. */
  function Step(json: Json, data: Str, m: KvMap): (r: Option<KvMap>) {
    match json.command(data)
    case None => None
    case Some(c) =>
      match c.op
      case SetKey => Some(m[c.key := c.value])
      case DeleteKey => Some(m - {c.key})
      case OtherOp => None
  }

  /** The map after a log, or None when some entry panics. */
  function Run(json: Json, log: seq<Str>): (r: Option<KvMap>) {
    if log == [] then Some(map[])
    else
      match Run(json, log[..|log| - 1])
      case None => None
      case Some(m) => Step(json, log[|log| - 1], m)
  }

  predicate Touches(json: Json, data: Str, key: Str) {
    json.command(data).Some? && json.command(data).value.key == key
  }

  /** The last entry that touches a key decides it: the value set, or its absence. */
  lemma {:induction false} LastTouchDecides(json: Json, log: seq<Str>, key: Str, i: nat)
    requires i < |log| && Touches(json, log[i], key)
    requires forall j :: i < j < |log| ==> !Touches(json, log[j], key)
    requires Run(json, log).Some?
    ensures json.command(log[i]).value.op == DeleteKey <==> key !in Run(json, log).value
    ensures json.command(log[i]).value.op == SetKey ==> Lookup(Run(json, log).value, key) == json.command(log[i]).value.value
    decreases |log|
  {
    var before := log[..|log| - 1];
    if i < |log| - 1 {
      LastTouchDecides(json, before, key, i);
      assert !Touches(json, log[|log| - 1], key);
    }
  }

  class Store {
    var m: map<Str, Str>

    constructor ()
      ensures m == map[]
    {
      m := map[];
    }

    /** Get reads the local map; a missing key gives the empty string. */
    method Get(key: Str) returns (value: Str)
      ensures value == Lookup(m, key)
    {
      value := if key in m then m[key] else [];
    }

    method Apply(json: Json, data: Str) returns (panicked: bool)
      modifies this
      ensures panicked <==> Step(json, data, old(m)).None?
      ensures m == if panicked then old(m) else Step(json, data, old(m)).value
    {
      var c := json.command(data);
      if c.None? {
        return true;
      }
      match c.value.op {
        case SetKey =>
          m := m[c.value.key := c.value.value];
        case DeleteKey =>
          m := m - {c.value.key};
        case OtherOp =>
          return true;
      }
      panicked := false;
    }

    method Snapshot() returns (o: map<Str, Str>)
      ensures o == m
    {
      o := map[];
      var todo := m.Keys;
      while todo != {}
        invariant todo <= m.Keys && o.Keys == m.Keys - todo
        invariant forall k :: k in o ==> o[k] == m[k]
        decreases todo
      {
        var k :| k in todo;
        o := o[k := m[k]];
        todo := todo - {k};
      }
    }

    method Restore(json: Json, rc: Str) returns (ok: bool)
      modifies this
      ensures ok <==> json.decode(rc).Some?
      ensures m == if ok then json.decode(rc).value else old(m)
    {
      var o := json.decode(rc);
      ok := o.Some?;
      if ok {
        m := o.value;
      }
    }

    /** Raft delivering entries none of which panics. */
    method ApplyAll(json: Json, log: seq<Str>, from: nat)
      requires from <= |log| && Run(json, log).Some?
      requires Run(json, log[..from]) == Some(m)
      modifies this
      ensures Run(json, log) == Some(m)
    {
      var i := from;
      while i < |log|
        invariant from <= i <= |log|
        invariant Run(json, log[..i]) == Some(m)
      {
        assert log[..i + 1][..i] == log[..i];
        RunPrefix(json, log, i + 1);
        var panicked := Apply(json, log[i]);
        i := i + 1;
      }
      assert log[..|log|] == log;
    }
  }

  /** A log that does not panic has no prefix that does. */
  lemma {:induction false} RunPrefix(json: Json, log: seq<Str>, k: nat)
    requires k <= |log| && Run(json, log).Some?
    ensures Run(json, log[..k]).Some?
    decreases |log|
  {
    if k == |log| {
      assert log[..k] == log;
    } else {
      var before := log[..|log| - 1];
      RunPrefix(json, before, k);
      assert before[..k] == log[..k];
    }
  }

  /** Catch-up holds with deletes too: a restored replica that follows the rest of the log has the map of the whole log. */
  method CatchUp(json: Json, src: Store, dst: Store, log: seq<Str>, i: nat)
    requires src != dst && i <= |log|
    requires Run(json, log).Some? && Run(json, log[..i]) == Some(src.m)
    requires json.Sound() && json.faithful(src.m)
    modifies src, dst
    ensures src.m == dst.m && Run(json, log) == Some(dst.m)
  {
    var snapshot := src.Snapshot();
    src.ApplyAll(json, log, i);
    var ok := dst.Restore(json, json.encode(snapshot));
    dst.ApplyAll(json, log, i);
  }

  /** Entries that are not a set or a delete panic, in every state. */
  predicate Panics(json: Json, data: Str) {
    match json.command(data)
    case None => true
    case Some(c) => c.op == OtherOp
  }

  /** How many entries of a log can be executed: those before the first that panics. */
  function Runnable(json: Json, log: seq<Str>): (k: nat)
    ensures k <= |log|
    ensures forall i :: 0 <= i < k ==> !Panics(json, log[i])
    ensures k < |log| ==> Panics(json, log[k])
  {
    if log == [] then 0
    else
      var k := Runnable(json, log[..|log| - 1]);
      if k == |log| - 1 && !Panics(json, log[k]) then |log| else k
  }

  lemma {:induction false} RunsIff(json: Json, log: seq<Str>)
    ensures Run(json, log).Some? <==> forall i :: 0 <= i < |log| ==> !Panics(json, log[i])
  {
    if log != [] {
      var before := log[..|log| - 1];
      RunsIff(json, before);
      assert forall i :: 0 <= i < |before| ==> before[i] == log[i];
    }
  }

  lemma RunnableIff(json: Json, log: seq<Str>, k: nat)
    requires k <= |log|
    ensures Run(json, log[..k]).Some? <==> k <= Runnable(json, log)
  {
    RunsIff(json, log[..k]);
    var n := Runnable(json, log);
    if k > n {
      assert log[..k][n] == log[n];
    }
  }

  lemma RunnableMonotone(json: Json, log: seq<Str>, i: nat, j: nat)
    requires i <= j <= |log|
    ensures Runnable(json, log[..i]) <= Runnable(json, log[..j]) <= Runnable(json, log)
  {
    RunnableOfPrefix(json, log, j);
    RunnableOfPrefix(json, log[..j], i);
    assert log[..j][..i] == log[..i];
  }

  lemma RunnableOfPrefix(json: Json, log: seq<Str>, i: nat)
    requires i <= |log|
    ensures Runnable(json, log[..i]) <= Runnable(json, log)
  {
    if Runnable(json, log) < i {
      StopsAtPanic(json, log, i, Runnable(json, log));
    }
  }

  lemma StopsAtPanic(json: Json, log: seq<Str>, i: nat, n: nat)
    requires n < i <= |log| && Panics(json, log[n])
    ensures Runnable(json, log[..i]) <= n
  {
    assert log[..i][n] == log[n];
  }
}
