/**
 * diskstorage: the key-value store kept in one byte file, slot `key` at offset
 * key * valueSize, as a refinement of the in-memory map store.
 */
module DiskStorage {
  import opened GoBytes
  import opened Decimal
  import opened Commands
  import opened KvSpec
  import opened OsFile

  const AT_SIGN: byte := 64

  /** storeValuesOffset. */
  const ONE_KB: nat := 1024
  /** The state file that scripts/createStateFile.sh makes, and the keys the clients use. */
  const DEPLOYED_FILE_SIZE: nat := 1024 * 1048576
  const DEPLOYED_KEYS: nat := 1000000

  /** Conversion to int64: arithmetic wraps around. */
  function Int64(x: int): (y: int)
    ensures MIN_INT64 <= y <= MAX_INT64
    ensures MIN_INT64 <= x <= MAX_INT64 ==> y == x
  {
    (x - MIN_INT64) % TWO_64 + MIN_INT64
  }

  /** The fixed block every SET stores, whatever its value. */
  function Block(valueSize: nat): (s: Str)
    ensures |s| == valueSize
  {
    Repeat(AT_SIGN, valueSize)
  }

  datatype Outcome = Outcome(file: Str, response: Response)

  function DiskSet(valueSize: nat, c: Command, file: Str): (o: Outcome) {
    match Atoi(c.key)
    case None => Outcome(file, Panic)
    case Some(pos) =>
      var stride := Int64(valueSize * pos);
      if stride < 0 then Outcome(file, Panic)
      else Outcome(Overwrite(file, stride, Block(valueSize)), Text(Join([c.ip, []], DASH)))
  }

  function DiskGet(valueSize: nat, c: Command, file: Str): (o: Outcome) {
    match Atoi(c.key)
    case None => Outcome(file, Panic)
    case Some(pos) =>
      var stride := Int64(valueSize * pos);
      if stride < 0 || stride + valueSize > |file| then Outcome(file, Panic)
      else Outcome(file, Text(Join([c.ip, file[stride..stride + valueSize]], DASH)))
  }

  /** fsm.Apply on a decoded command. */
  function DiskApply(valueSize: nat, c: Command, file: Str): (o: Outcome) {
    match c.op
    case Set => DiskSet(valueSize, c, file)
    case Get => DiskGet(valueSize, c, file)
    case _ => Outcome(file, Panic)
  }

  class RandomFile {
    var content: Str

    constructor (existing: Str)
      ensures content == existing
    {
      content := existing;
    }

    /** File.WriteAt: a negative offset is an error. */
    method WriteAt(bs: Str, off: int) returns (ok: bool)
      modifies this
      ensures ok <==> off >= 0
      ensures content == if ok then Overwrite(old(content), off, bs) else old(content)
    {
      ok := off >= 0;
      if ok {
        content := Overwrite(content, off, bs);
      }
    }

    /** File.ReadAt: a short read is an error. */
    method ReadAt(n: nat, off: int) returns (ok: bool, bs: Str)
      ensures ok <==> 0 <= off <= |content| - n
      ensures ok ==> bs == content[off..off + n]
    {
      ok, bs := 0 <= off <= |content| - n, [];
      if ok {
        bs := content[off..off + n];
      }
    }
  }

  class Store {
    const valueSize: nat
    const storeValue: Str
    const Local: RandomFile

    predicate Valid() {
      storeValue == Block(valueSize)
    }

    constructor (size: nat, local: RandomFile)
      ensures Valid() && valueSize == size && Local == local
    {
      valueSize, storeValue, Local := size, Repeat(AT_SIGN, size), local;
    }

    method Apply(codec: Codec, data: Str) returns (r: Response)
      requires Valid()
      modifies Local
      ensures match codec.unmarshal(data)
        case None => r == DecodeError && Local.content == old(Local.content)
        case Some(c) => Outcome(Local.content, r) == DiskApply(valueSize, c, old(Local.content))
    {
      var decoded := codec.unmarshal(data);
      if decoded.None? {
        return DecodeError;
      }
      var command := decoded.value;
      match command.op {
        case Set =>
          var ok := ApplySet(command.key);
          r := if ok then Text(Join([command.ip, []], DASH)) else Panic;
        case Get =>
          var ok, content := ApplyGet(command.key);
          r := if ok then Text(Join([command.ip, content], DASH)) else Panic;
        case _ =>
          r := Panic;
      }
    }

    method ApplySet(key: Str) returns (ok: bool)
      requires Valid()
      modifies Local
      ensures ok <==> Atoi(key).Some? && Int64(valueSize * Atoi(key).value) >= 0
      ensures Local.content ==
        if ok then Overwrite(old(Local.content), Int64(valueSize * Atoi(key).value), Block(valueSize))
        else old(Local.content)
    {
      var pos := Atoi(key);
      if pos.None? {
        return false;
      }
      ok := Local.WriteAt(storeValue, Int64(valueSize * pos.value));
    }

    method ApplyGet(key: Str) returns (ok: bool, content: Str)
      ensures ok <==> Atoi(key).Some? && 0 <= Int64(valueSize * Atoi(key).value) <= |Local.content| - valueSize
      ensures ok ==> var stride := Int64(valueSize * Atoi(key).value);
        content == Local.content[stride..stride + valueSize]
    {
      var pos := Atoi(key);
      if pos.None? {
        return false, [];
      }
      ok, content := Local.ReadAt(valueSize, Int64(valueSize * pos.value));
    }
  }

  // The abstraction: slots of the file as a map with decimal keys.

  /** The contents of slot `i`. */
  function Slot(valueSize: nat, file: Str, i: int): (s: Str) {
    if 0 <= i * valueSize <= i * valueSize + valueSize <= |file| then file[i * valueSize..i * valueSize + valueSize] else []
  }

  function SlotOfKey(valueSize: nat, file: Str, key: Str): (s: Str) {
    match Atoi(key)
    case None => []
    case Some(i) => Slot(valueSize, file, i)
  }

  /** The map store preloaded with the first `n` slots of the file. */
  function SlotMap(valueSize: nat, file: Str, n: nat): (m: KvMap) {
    map key | key in KeysBelow(n) :: SlotOfKey(valueSize, file, key)
  }

  /** An executable operation whose key is a number below `n`, however it is written. */
  predicate InRange(c: Command, n: nat) {
    && (c.op == Set || c.op == Get)
    && Atoi(c.key).Some? && 0 <= Atoi(c.key).value < n
  }

  /** The command the file store really executes: the key's number, and the fixed block. */
  function Normal(valueSize: nat, c: Command): (c': Command)
    requires Atoi(c.key).Some? && Atoi(c.key).value >= 0
  {
    c.(key := Itoa(Atoi(c.key).value), value := if c.op == Set then Block(valueSize) else c.value)
  }

  /** Which commands are executed as they are written. */
  lemma NormalIff(valueSize: nat, c: Command)
    requires Atoi(c.key).Some? && Atoi(c.key).value >= 0
    ensures Normal(valueSize, c) == c <==> Canonical(c.key) && (c.op == Set ==> c.value == Block(valueSize))
  {
    CanonicalIffPrinted(c.key);
  }

  lemma MulMono(a: nat, b: nat, k: nat)
    requires a <= b
    ensures a * k <= b * k
  {
  }

  /** Slots in range lie inside the file, so the stride neither wraps nor overruns. */
  lemma SlotInFile(valueSize: nat, file: Str, n: nat, i: nat)
    requires i < n && n * valueSize <= |file| <= MAX_INT64
    ensures 0 <= i * valueSize && i * valueSize + valueSize <= |file|
    ensures Int64(valueSize * i) == i * valueSize
  {
    MulMono(i + 1, n, valueSize);
    assert (i + 1) * valueSize == i * valueSize + valueSize;
  }

  /** Different slots do not overlap. */
  lemma SlotsDisjoint(valueSize: nat, i: nat, j: nat)
    requires i != j
    ensures i * valueSize + valueSize <= j * valueSize || j * valueSize + valueSize <= i * valueSize
  {
    if i < j {
      MulMono(i + 1, j, valueSize);
      assert (i + 1) * valueSize == i * valueSize + valueSize;
    } else {
      MulMono(j + 1, i, valueSize);
      assert (j + 1) * valueSize == j * valueSize + valueSize;
    }
  }

  /** A SET in range fills its own slot with the block, and changes no other slot and no other byte. */
  lemma SetChangesOneSlot(valueSize: nat, file: Str, n: nat, i: nat)
    requires i < n && n * valueSize <= |file| <= MAX_INT64
    ensures var file' := Overwrite(file, i * valueSize, Block(valueSize));
      && |file'| == |file|
      && Slot(valueSize, file', i) == Block(valueSize)
      && (forall j: nat :: j < n && j != i ==> Slot(valueSize, file', j) == Slot(valueSize, file, j))
      && (forall k :: 0 <= k < |file| && !(i * valueSize <= k < i * valueSize + valueSize) ==> file'[k] == file[k])
  {
    var off := i * valueSize;
    SlotInFile(valueSize, file, n, i);
    OverwriteBytes(file, off, Block(valueSize));
    OwnSlotFilled(valueSize, file, off);
    forall j: nat | j < n && j != i
      ensures Slot(valueSize, Overwrite(file, off, Block(valueSize)), j) == Slot(valueSize, file, j)
    {
      OtherSlotKept(valueSize, file, n, i, j);
    }
  }

  lemma OwnSlotFilled(valueSize: nat, file: Str, off: nat)
    requires off + valueSize <= |file|
    ensures |Overwrite(file, off, Block(valueSize))| == |file|
    ensures Overwrite(file, off, Block(valueSize))[off..off + valueSize] == Block(valueSize)
  {
    OverwriteBytes(file, off, Block(valueSize));
  }

  lemma OtherSlotKept(valueSize: nat, file: Str, n: nat, i: nat, j: nat)
    requires i < n && j < n && i != j && n * valueSize <= |file| <= MAX_INT64
    ensures Slot(valueSize, Overwrite(file, i * valueSize, Block(valueSize)), j) == Slot(valueSize, file, j)
  {
    SlotInFile(valueSize, file, n, i);
    SlotInFile(valueSize, file, n, j);
    SlotsDisjoint(valueSize, i, j);
    OverwriteElsewhere(file, i * valueSize, Block(valueSize), j * valueSize, j * valueSize + valueSize);
  }

  lemma OverwriteElsewhere(s: Str, off: nat, bs: Str, lo: nat, hi: nat)
    requires off + |bs| <= |s| && lo <= hi <= |s| && (hi <= off || off + |bs| <= lo)
    ensures |Overwrite(s, off, bs)| == |s| && Overwrite(s, off, bs)[lo..hi] == s[lo..hi]
  {
    OverwriteBytes(s, off, bs);
    SameSlice(s, Overwrite(s, off, bs), lo, hi);
  }

  lemma SameSlice(s: Str, t: Str, lo: nat, hi: nat)
    requires lo <= hi <= |s| && hi <= |t|
    requires forall k :: lo <= k < hi ==> s[k] == t[k]
    ensures s[lo..hi] == t[lo..hi]
  {
  }

  lemma SlotMapLookup(valueSize: nat, file: Str, n: nat, i: nat)
    requires i < n <= MAX_INT64
    ensures Itoa(i) in SlotMap(valueSize, file, n)
    ensures SlotMap(valueSize, file, n)[Itoa(i)] == Slot(valueSize, file, i)
  {
    InKeysBelow(n, Itoa(i));
    AtoiOfItoa(i);
  }

  /** Maps of slots that differ in one slot. */
  lemma SlotMapUpdate(valueSize: nat, file: Str, file': Str, n: nat, i: nat)
    requires i < n <= MAX_INT64
    requires forall j: nat :: j < n && j != i ==> Slot(valueSize, file', j) == Slot(valueSize, file, j)
    ensures SlotMap(valueSize, file', n) == SlotMap(valueSize, file, n)[Itoa(i) := Slot(valueSize, file', i)]
  {
    var m, m' := SlotMap(valueSize, file, n), SlotMap(valueSize, file', n);
    SlotMapLookup(valueSize, file, n, i);
    SlotMapLookup(valueSize, file', n, i);
    assert m'.Keys == m.Keys + {Itoa(i)};
    forall key | key in m && key != Itoa(i) ensures m'[key] == m[key] {
      InKeysBelow(n, key);
      var j :| 0 <= j < n && key == Itoa(j);
      SlotMapLookup(valueSize, file, n, j);
      SlotMapLookup(valueSize, file', n, j);
    }
  }

  /** One command on the file is its normal form on the map of slots. */
  lemma DiskStepRefines(valueSize: nat, c: Command, file: Str, n: nat)
    requires InRange(c, n) && n <= MAX_INT64 && n * valueSize <= |file| <= MAX_INT64
    ensures var o := DiskApply(valueSize, c, file);
      var m := SlotMap(valueSize, file, n);
      && o.response == Respond(Normal(valueSize, c), m)
      && !o.response.Panic?
      && SlotMap(valueSize, o.file, n) == Execute(Normal(valueSize, c), m)
      && |o.file| == |file|
  {
    if c.op == Set {
      DiskSetRefines(valueSize, c, file, n);
    } else {
      DiskGetRefines(valueSize, c, file, n);
    }
  }

  lemma DiskSetRefines(valueSize: nat, c: Command, file: Str, n: nat)
    requires c.op == Set && InRange(c, n) && n <= MAX_INT64 && n * valueSize <= |file| <= MAX_INT64
    ensures var o := DiskSet(valueSize, c, file);
      && o.response == Text(Join([c.ip, []], DASH))
      && SlotMap(valueSize, o.file, n) == Execute(Normal(valueSize, c), SlotMap(valueSize, file, n))
      && |o.file| == |file|
  {
    var i := Atoi(c.key).value;
    SlotInFile(valueSize, file, n, i);
    SetChangesOneSlot(valueSize, file, n, i);
    SlotMapUpdate(valueSize, file, Overwrite(file, i * valueSize, Block(valueSize)), n, i);
  }

  lemma DiskGetRefines(valueSize: nat, c: Command, file: Str, n: nat)
    requires c.op == Get && InRange(c, n) && n <= MAX_INT64 && n * valueSize <= |file| <= MAX_INT64
    ensures DiskGet(valueSize, c, file)
         == Outcome(file, Respond(Normal(valueSize, c), SlotMap(valueSize, file, n)))
  {
    var i := Atoi(c.key).value;
    SlotInFile(valueSize, file, n, i);
    SlotMapLookup(valueSize, file, n, i);
    assert file[i * valueSize..i * valueSize + valueSize] == Slot(valueSize, file, i);
    assert Lookup(SlotMap(valueSize, file, n), Itoa(i)) == Slot(valueSize, file, i);
  }

  // Whole runs.

  function RunDisk(valueSize: nat, cmds: seq<Command>, file: Str): (o: (Str, seq<Response>)) {
    if cmds == [] then (file, [])
    else
      var o := DiskApply(valueSize, cmds[0], file);
      var rest := RunDisk(valueSize, cmds[1..], o.file);
      (rest.0, [o.response] + rest.1)
  }

  function RunMap(cmds: seq<Command>, m: KvMap): (o: (KvMap, seq<Response>)) {
    if cmds == [] then (m, [])
    else
      var rest := RunMap(cmds[1..], Execute(cmds[0], m));
      (rest.0, [Respond(cmds[0], m)] + rest.1)
  }

  predicate AllInRange(cmds: seq<Command>, n: nat) {
    forall i :: 0 <= i < |cmds| ==> InRange(cmds[i], n)
  }

  function NormalAll(valueSize: nat, cmds: seq<Command>, n: nat): (r: seq<Command>)
    requires AllInRange(cmds, n)
    ensures |r| == |cmds|
  {
    if cmds == [] then [] else [Normal(valueSize, cmds[0])] + NormalAll(valueSize, cmds[1..], n)
  }

  /**
   * Disk refines map, for every sequence of in-range commands: the file answers as the map
   * store preloaded with its slots answers the normal forms, its slots end as that map ends,
   * nothing panics, and the file keeps its length.
   */
  lemma {:induction false} DiskRefinesMap(valueSize: nat, cmds: seq<Command>, file: Str, n: nat)
    requires AllInRange(cmds, n) && n <= MAX_INT64 && n * valueSize <= |file| <= MAX_INT64
    ensures var disk := RunDisk(valueSize, cmds, file);
      var mem := RunMap(NormalAll(valueSize, cmds, n), SlotMap(valueSize, file, n));
      && disk.1 == mem.1
      && SlotMap(valueSize, disk.0, n) == mem.0
      && |disk.0| == |file|
      && forall r :: r in disk.1 ==> !r.Panic?
  {
    if cmds != [] {
      var normal := NormalAll(valueSize, cmds, n);
      DiskStepRefines(valueSize, cmds[0], file, n);
      DiskRefinesMap(valueSize, cmds[1..], DiskApply(valueSize, cmds[0], file).file, n);
      assert normal[1..] == NormalAll(valueSize, cmds[1..], n);
    }
  }

  /** Canonical keys and block values: the normal forms are the commands themselves. */
  lemma {:induction false} CanonicalRunRefinesMap(valueSize: nat, cmds: seq<Command>, file: Str, n: nat)
    requires AllInRange(cmds, n) && n <= MAX_INT64 && n * valueSize <= |file| <= MAX_INT64
    requires forall i :: 0 <= i < |cmds| ==>
      Canonical(cmds[i].key) && (cmds[i].op == Set ==> cmds[i].value == Block(valueSize))
    ensures var disk := RunDisk(valueSize, cmds, file);
      (SlotMap(valueSize, disk.0, n), disk.1) == RunMap(cmds, SlotMap(valueSize, file, n))
  {
    DiskRefinesMap(valueSize, cmds, file, n);
    NormalIsIdentity(valueSize, cmds, n);
  }

  lemma {:induction false} NormalIsIdentity(valueSize: nat, cmds: seq<Command>, n: nat)
    requires AllInRange(cmds, n)
    requires forall i :: 0 <= i < |cmds| ==>
      Canonical(cmds[i].key) && (cmds[i].op == Set ==> cmds[i].value == Block(valueSize))
    ensures NormalAll(valueSize, cmds, n) == cmds
  {
    if cmds != [] {
      NormalIff(valueSize, cmds[0]);
      NormalIsIdentity(valueSize, cmds[1..], n);
    }
  }

  lemma KeysBelowCanonical(n: nat, key: Str)
    ensures key in KeysBelow(n) ==> Canonical(key)
  {
    InKeysBelow(n, key);
  }

  /** Without canonical keys the stores part: only a canonical GET is answered alike by both. */
  lemma GetAgreesIffCanonical(valueSize: nat, c: Command, file: Str, n: nat)
    requires c.op == Get && InRange(c, n) && valueSize > 0
    requires n <= MAX_INT64 && n * valueSize <= |file| <= MAX_INT64
    ensures DiskApply(valueSize, c, file).response == Respond(c, SlotMap(valueSize, file, n)) <==> Canonical(c.key)
  {
    var i := Atoi(c.key).value;
    var m := SlotMap(valueSize, file, n);
    DiskStepRefines(valueSize, c, file, n);
    CanonicalIffPrinted(c.key);
    SlotInFile(valueSize, file, n, i);
    SlotMapLookup(valueSize, file, n, i);
    JoinPair(c.ip, m[Itoa(i)], DASH);
    KeysBelowCanonical(n, c.key);
    if !Canonical(c.key) {
      JoinPair(c.ip, [], DASH);
      assert |Join([c.ip, m[Itoa(i)]], DASH)| > |Join([c.ip, []], DASH)|;
    }
  }

  /** A SET is read back as the map store would exactly when its value is the fixed block. */
  lemma SetReadBackIff(valueSize: nat, put: Command, read: Command, file: Str, n: nat)
    requires put.op == Set && read.op == Get && put.key == read.key && InRange(put, n)
    requires n <= MAX_INT64 && n * valueSize <= |file| <= MAX_INT64
    ensures DiskApply(valueSize, read, DiskApply(valueSize, put, file).file).response
         == Respond(read, Execute(put, SlotMap(valueSize, file, n)))
       <==> put.value == Block(valueSize)
  {
    NormalIff(valueSize, read);
    CanonicalIffPrinted(put.key);
    DiskStepRefines(valueSize, put, file, n);
    DiskStepRefines(valueSize, read, DiskApply(valueSize, put, file).file, n);
    JoinPair(read.ip, put.value, DASH);
    JoinPair(read.ip, Block(valueSize), DASH);
    assert Join([read.ip, put.value], DASH)[|read.ip| + 1..] == put.value;
    assert Join([read.ip, Block(valueSize)], DASH)[|read.ip| + 1..] == Block(valueSize);
  }

  // When a whole run on the file is that of the map store, command by command as written.

  /**
   * Every key is canonical, and every SET of another value than the block is overwritten by a SET
   * of the block before its key is read and before the end; `pending` are the keys still waiting.
   */
  predicate Faithful(valueSize: nat, cmds: seq<Command>, pending: set<Str>) {
    if cmds == [] then pending == {}
    else
      var c := cmds[0];
      && Canonical(c.key)
      && (c.op == Get ==> c.key !in pending)
      && Faithful(valueSize, cmds[1..], Waiting(valueSize, c, pending))
  }

  function Waiting(valueSize: nat, c: Command, pending: set<Str>): (after: set<Str>) {
    if c.op != Set then pending
    else if c.value == Block(valueSize) then pending - {c.key}
    else pending + {c.key}
  }

  /** Two maps that differ exactly on the keys in `pending`, where `slots` holds the block. */
  ghost predicate Differ(block: Str, slots: KvMap, m: KvMap, pending: set<Str>) {
    && m.Keys == slots.Keys && pending <= slots.Keys
    && forall key :: key in slots ==>
      if key in pending then slots[key] == block && m[key] != block else m[key] == slots[key]
  }

  lemma {:induction false} RunMapKeepsKeys(cmds: seq<Command>, m: KvMap)
    ensures m.Keys <= RunMap(cmds, m).0.Keys
  {
    if cmds != [] {
      RunMapKeepsKeys(cmds[1..], Execute(cmds[0], m));
    }
  }

  lemma SlotMapKeys(valueSize: nat, file: Str, n: nat, key: Str)
    ensures key in SlotMap(valueSize, file, n) ==> Canonical(key)
    ensures SlotMap(valueSize, file, n).Keys == KeysBelow(n)
  {
    KeysBelowCanonical(n, key);
  }

  /** A key in range is a key of the map of slots exactly when it is canonical. */
  lemma InSlotMapIff(valueSize: nat, c: Command, file: Str, n: nat)
    requires InRange(c, n) && n <= MAX_INT64
    ensures c.key in SlotMap(valueSize, file, n) <==> Canonical(c.key)
    ensures Canonical(c.key) <==> Normal(valueSize, c).key == c.key
  {
    CanonicalIffPrinted(c.key);
    SlotMapKeys(valueSize, file, n, c.key);
    SlotMapLookup(valueSize, file, n, Atoi(c.key).value);
  }

  /** A GET with a key that is not canonical is answered differently. */
  lemma OddGetDiffers(valueSize: nat, c: Command, file: Str, n: nat, m: KvMap)
    requires c.op == Get && InRange(c, n) && valueSize > 0 && !Canonical(c.key) && c.key !in m
    requires n <= MAX_INT64 && n * valueSize <= |file| <= MAX_INT64
    ensures DiskApply(valueSize, c, file).response != Respond(c, m)
  {
    var i := Atoi(c.key).value;
    SlotInFile(valueSize, file, n, i);
    JoinPair(c.ip, file[i * valueSize..i * valueSize + valueSize], DASH);
    JoinPair(c.ip, [], DASH);
  }

  lemma SameAnswerIff(ip: Str, v: Str, w: Str)
    ensures Join([ip, v], DASH) == Join([ip, w], DASH) <==> v == w
  {
    JoinPair(ip, v, DASH);
    JoinPair(ip, w, DASH);
    assert (ip + [DASH] + v)[|ip| + 1..] == v && (ip + [DASH] + w)[|ip| + 1..] == w;
  }

  /** One command with a canonical key: how answers and differences move. */
  lemma DifferStep(valueSize: nat, c: Command, file: Str, n: nat, m: KvMap, pending: set<Str>)
    requires InRange(c, n) && Canonical(c.key) && n <= MAX_INT64 && n * valueSize <= |file| <= MAX_INT64
    requires Differ(Block(valueSize), SlotMap(valueSize, file, n), m, pending)
    ensures var o := DiskApply(valueSize, c, file);
      && |o.file| == |file|
      && (o.response == Respond(c, m) <==> (c.op == Get ==> c.key !in pending))
      && Differ(Block(valueSize), SlotMap(valueSize, o.file, n), Execute(c, m), Waiting(valueSize, c, pending))
  {
    DiskStepRefines(valueSize, c, file, n);
    InSlotMapIff(valueSize, c, file, n);
    if c.op == Get {
      SameAnswerIff(c.ip, SlotMap(valueSize, file, n)[c.key], m[c.key]);
    }
  }

  /**
   * A run of in-range commands on the file answers as the map store does and ends as it does if
   * and only if every key is canonical and every SET of another value is overwritten in time.
   */
  lemma RunRefinesMapIff(valueSize: nat, cmds: seq<Command>, file: Str, n: nat)
    requires AllInRange(cmds, n) && valueSize > 0 && n <= MAX_INT64 && n * valueSize <= |file| <= MAX_INT64
    ensures var disk := RunDisk(valueSize, cmds, file);
      (SlotMap(valueSize, disk.0, n), disk.1) == RunMap(cmds, SlotMap(valueSize, file, n))
      <==> Faithful(valueSize, cmds, {})
  {
    RunDiffersIff(valueSize, cmds, file, n, SlotMap(valueSize, file, n), {});
  }

  lemma {:induction false} RunDiffersIff(valueSize: nat, cmds: seq<Command>, file: Str, n: nat, m: KvMap,
                                         pending: set<Str>)
    requires AllInRange(cmds, n) && valueSize > 0 && n <= MAX_INT64 && n * valueSize <= |file| <= MAX_INT64
    requires Differ(Block(valueSize), SlotMap(valueSize, file, n), m, pending)
    ensures var disk := RunDisk(valueSize, cmds, file);
      (SlotMap(valueSize, disk.0, n), disk.1) == RunMap(cmds, m) <==> Faithful(valueSize, cmds, pending)
  {
    if cmds == [] {
      SameMapIff(Block(valueSize), SlotMap(valueSize, file, n), m, pending);
    } else if !Canonical(cmds[0].key) {
      SlotMapKeys(valueSize, file, n, cmds[0].key);
      OddKeyDiffers(valueSize, cmds, file, n, m);
    } else {
      DifferStep(valueSize, cmds[0], file, n, m, pending);
      var file' := DiskApply(valueSize, cmds[0], file).file;
      var m', pending' := Execute(cmds[0], m), Waiting(valueSize, cmds[0], pending);
      RunDiffersIff(valueSize, cmds[1..], file', n, m', pending');
      FirstThenRest(valueSize, cmds, file, n, m);
    }
  }

  /** Two runs agree when their first answers and the rest of them do. */
  lemma FirstThenRest(valueSize: nat, cmds: seq<Command>, file: Str, n: nat, m: KvMap)
    requires cmds != []
    ensures
      var o := DiskApply(valueSize, cmds[0], file);
      var disk := RunDisk(valueSize, cmds, file);
      var disk' := RunDisk(valueSize, cmds[1..], o.file);
      (SlotMap(valueSize, disk.0, n), disk.1) == RunMap(cmds, m) <==>
        && o.response == Respond(cmds[0], m)
        && (SlotMap(valueSize, disk'.0, n), disk'.1) == RunMap(cmds[1..], Execute(cmds[0], m))
  {
    var o := DiskApply(valueSize, cmds[0], file);
    var disk' := RunDisk(valueSize, cmds[1..], o.file);
    var mem' := RunMap(cmds[1..], Execute(cmds[0], m));
    ConsEqual(o.response, disk'.1, Respond(cmds[0], m), mem'.1);
  }

  lemma ConsEqual<T>(x: T, xs: seq<T>, y: T, ys: seq<T>)
    ensures [x] + xs == [y] + ys <==> x == y && xs == ys
  {
    assert ([x] + xs)[0] == x && ([y] + ys)[0] == y;
    assert ([x] + xs)[1..] == xs && ([y] + ys)[1..] == ys;
  }

  lemma SameMapIff(block: Str, slots: KvMap, m: KvMap, pending: set<Str>)
    requires Differ(block, slots, m, pending)
    ensures slots == m <==> pending == {}
  {
    if pending != {} {
      var key :| key in pending;
      assert slots[key] != m[key];
    }
  }

  /** After a command whose key is not canonical the two runs never agree again. */
  lemma OddKeyDiffers(valueSize: nat, cmds: seq<Command>, file: Str, n: nat, m: KvMap)
    requires AllInRange(cmds, n) && valueSize > 0 && n <= MAX_INT64 && n * valueSize <= |file| <= MAX_INT64
    requires cmds != [] && !Canonical(cmds[0].key) && m.Keys == KeysBelow(n)
    ensures var disk := RunDisk(valueSize, cmds, file);
      (SlotMap(valueSize, disk.0, n), disk.1) != RunMap(cmds, m)
  {
    var c := cmds[0];
    InSlotMapIff(valueSize, c, file, n);
    if c.op == Get {
      OddGetDiffers(valueSize, c, file, n, m);
      assert RunDisk(valueSize, cmds, file).1[0] != RunMap(cmds, m).1[0];
    } else {
      RunMapKeepsKeys(cmds[1..], Execute(c, m));
      assert c.key in RunMap(cmds, m).0;
    }
  }

  /** What the key of a command is worth, on its own: its stride in 64-bit arithmetic. */
  lemma StrideOfKey(valueSize: nat, key: Str)
    ensures SlotOffset(valueSize, key).None? <==> Atoi(key).None? || Int64(valueSize * Atoi(key).value) < 0
    ensures SlotOffset(valueSize, key).Some? ==>
      (valueSize * Atoi(key).value - SlotOffset(valueSize, key).value) % TWO_64 == 0
  {
    if SlotOffset(valueSize, key).Some? {
      Int64Iff(valueSize * Atoi(key).value, SlotOffset(valueSize, key).value);
    }
  }

  /**
   * Exactly which commands panic: those with an operation other than SET and GET, those whose key
   * names no slot, and GETs whose block is not all in the file.
   */
  lemma DiskPanicsIff(valueSize: nat, c: Command, file: Str)
    ensures DiskApply(valueSize, c, file).response.Panic? <==>
      || (c.op != Set && c.op != Get)
      || SlotOffset(valueSize, c.key).None?
      || (c.op == Get && SlotOffset(valueSize, c.key).value + valueSize > |file|)
  {
  }

  /** Exactly what changes the file: a SET that does not panic, and it writes '@' on its own block only. */
  lemma DiskChangesIff(valueSize: nat, c: Command, file: Str)
    ensures c.op != Set || DiskApply(valueSize, c, file).response.Panic? ==> DiskApply(valueSize, c, file).file == file
    ensures var o := DiskApply(valueSize, c, file);
      c.op == Set && !o.response.Panic? && valueSize > 0 ==>
        var off := SlotOffset(valueSize, c.key).value;
        && |o.file| == (if off + valueSize <= |file| then |file| else off + valueSize)
        && (forall k :: 0 <= k < |o.file| ==>
              o.file[k] == if off <= k < off + valueSize then 64 else if k < |file| then file[k] else 0)
  {
    if c.op == Set && SlotOffset(valueSize, c.key).Some? {
      OverwriteBytes(file, SlotOffset(valueSize, c.key).value, Block(valueSize));
    }
  }

  /** Exactly which GETs panic: the stride, computed in 64 bits, must leave a whole block in the file. */
  lemma GetPanicsIff(valueSize: nat, c: Command, file: Str)
    requires c.op == Get && valueSize < MAX_INT64 && |file| <= MAX_INT64
    requires Atoi(c.key).Some? && MIN_INT64 <= valueSize * Atoi(c.key).value <= MAX_INT64
    ensures DiskApply(valueSize, c, file).response.Panic?
       <==> Atoi(c.key).value * valueSize < 0 || (Atoi(c.key).value + 1) * valueSize > |file|
  {
    var i := Atoi(c.key).value;
    OneMoreBlock(valueSize, i);
  }

  lemma OneMoreBlock(valueSize: nat, i: int)
    ensures valueSize * i == i * valueSize
    ensures (i + 1) * valueSize == valueSize * i + valueSize
  {
  }

  /** The deployed million keys of one kilobyte fit the deployed state file. */
  lemma {:induction false} DeployedNeverPanics(cmds: seq<Command>, file: Str)
    requires AllInRange(cmds, DEPLOYED_KEYS) && |file| == DEPLOYED_FILE_SIZE
    ensures |RunDisk(ONE_KB, cmds, file).0| == DEPLOYED_FILE_SIZE
    ensures forall r :: r in RunDisk(ONE_KB, cmds, file).1 ==> !r.Panic?
  {
    DiskRefinesMap(ONE_KB, cmds, file, DEPLOYED_KEYS);
  }

  // Keys past the 64-bit range.

  /** The offset a key names, if its operations do not panic on the key alone. */
  function SlotOffset(valueSize: nat, key: Str): (r: Option<nat>) {
    match Atoi(key)
    case None => None
    case Some(pos) => var stride := Int64(valueSize * pos); if stride < 0 then None else Some(stride)
  }

  lemma Int64Iff(x: int, y: int)
    ensures Int64(x) == Int64(y) <==> (x - y) % TWO_64 == 0
  {
    var p, q := x - MIN_INT64, y - MIN_INT64;
    assert x - y == (p / TWO_64 - q / TWO_64) * TWO_64 + (p % TWO_64 - q % TWO_64);
    WholeMultiples(p / TWO_64 - q / TWO_64, p % TWO_64 - q % TWO_64);
  }

  lemma WholeMultiples(k: int, d: int)
    requires -TWO_64 < d < TWO_64
    ensures (k * TWO_64 + d) % TWO_64 == 0 <==> d == 0
  {
    assert (k * TWO_64 + d) % TWO_64 == d % TWO_64;
  }

  /** Two keys name one slot exactly when their strides differ by a multiple of 2^64. */
  lemma SlotOffsetIff(valueSize: nat, key: Str, other: Str)
    requires Atoi(key).Some? && Atoi(other).Some?
    ensures SlotOffset(valueSize, key) == SlotOffset(valueSize, other) <==>
      || (valueSize * Atoi(key).value - valueSize * Atoi(other).value) % TWO_64 == 0
      || (SlotOffset(valueSize, key).None? && SlotOffset(valueSize, other).None?)
  {
    Int64Iff(valueSize * Atoi(key).value, valueSize * Atoi(other).value);
  }

  /** With one-kilobyte slots that is when the keys differ by a multiple of 2^54. */
  lemma KilobyteSlotsAlias(key: Str, other: Str)
    requires Atoi(key).Some? && Atoi(other).Some?
    requires SlotOffset(ONE_KB, key).Some? && SlotOffset(ONE_KB, other).Some?
    ensures SlotOffset(ONE_KB, key) == SlotOffset(ONE_KB, other) <==>
      (Atoi(key).value - Atoi(other).value) % TWO_54 == 0
  {
    SlotOffsetIff(ONE_KB, key, other);
    KilobyteMultiples(Atoi(key).value - Atoi(other).value);
  }

  lemma KilobyteMultiples(x: int)
    ensures (ONE_KB * x) % TWO_64 == 0 <==> x % TWO_54 == 0
  {
    var k, r := x / TWO_54, x % TWO_54;
    assert ONE_KB * x == k * TWO_64 + ONE_KB * r;
    WholeMultiples(k, ONE_KB * r);
  }

  const TWO_54: int := 0x40_0000_0000_0000

  /**
   * Commands with different keys are the same command to the store, on every file, exactly when
   * their keys name the same slot.
   */
  lemma SameSlotIff(valueSize: nat, c: Command, d: Command)
    requires valueSize > 0 && (c.op == Set || c.op == Get) && c.op == d.op && c.ip == d.ip
    ensures (forall file :: DiskApply(valueSize, c, file) == DiskApply(valueSize, d, file))
       <==> SlotOffset(valueSize, c.key) == SlotOffset(valueSize, d.key)
  {
    if SlotOffset(valueSize, c.key) != SlotOffset(valueSize, d.key) {
      var file := Telling(valueSize, c, d);
      assert DiskApply(valueSize, c, file) != DiskApply(valueSize, d, file);
    }
  }

  /** A file that tells the two commands apart. */
  lemma Telling(valueSize: nat, c: Command, d: Command) returns (file: Str)
    requires valueSize > 0 && (c.op == Set || c.op == Get) && c.op == d.op && c.ip == d.ip
    requires SlotOffset(valueSize, c.key) != SlotOffset(valueSize, d.key)
    ensures DiskApply(valueSize, c, file) != DiskApply(valueSize, d, file)
  {
    var p, q := SlotOffset(valueSize, c.key), SlotOffset(valueSize, d.key);
    if c.op == Set {
      file := [];
      if p.Some? && q.Some? {
        OverwriteNothing(p.value, Block(valueSize));
        OverwriteNothing(q.value, Block(valueSize));
      }
    } else {
      var shorter := if p.None? || (q.Some? && q.value < p.value) then q.value else p.value;
      file := Repeat(0, shorter + valueSize);
    }
  }

  lemma OverwriteNothing(off: nat, bs: Str)
    requires bs != []
    ensures |Overwrite([], off, bs)| == off + |bs|
  {
  }

  /**
   * The deployed store, given a SET of key 2^54, answers it and fills slot 0 with the block; the
   * map store leaves key "0" alone.
   */
  lemma DistantKeyHitsSlotZero(c: Command, n: nat, file: Str, m: KvMap)
    requires n == TWO_54 && c.op == Set && c.key == Itoa(n) && |file| == DEPLOYED_FILE_SIZE
    ensures var o := DiskApply(ONE_KB, c, file);
      && o.response == Respond(c, m)
      && Slot(ONE_KB, o.file, 0) == Block(ONE_KB)
    ensures Lookup(Execute(c, m), Itoa(0)) == Lookup(m, Itoa(0))
  {
    KilobyteMultiples(n);
    WrapsToZero(ONE_KB, n);
    SetAtZero(ONE_KB, c, file);
    if Itoa(n) == Itoa(0) {
      ItoaInjective(n, 0);
    }
  }

  lemma WrapsToZero(valueSize: nat, n: nat)
    requires n <= MAX_INT64 && (valueSize * n) % TWO_64 == 0
    ensures SlotOffset(valueSize, Itoa(n)) == Some(0)
  {
    AtoiOfItoa(n);
    Int64Iff(valueSize * n, 0);
  }

  lemma SetAtZero(valueSize: nat, c: Command, file: Str)
    requires c.op == Set && SlotOffset(valueSize, c.key) == Some(0) && valueSize <= |file|
    ensures var o := DiskApply(valueSize, c, file);
      && o.response == Text(Join([c.ip, []], DASH))
      && Slot(valueSize, o.file, 0) == Block(valueSize)
  {
    OwnSlotFilled(valueSize, file, 0);
  }
}
