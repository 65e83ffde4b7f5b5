/** logger/fsm.go: the non-voting replica that only records committed commands. */
module Logger {
  import opened GoBytes
  import opened Commands
  import opened CommandLog
  import opened OsFile
  import opened Recovery
  import KvStore

  class Process {
    const LogFile: File
    var req: nat // uint64

    constructor (logFile: File)
      ensures LogFile == logFile && req == 0
    {
      LogFile, req := logFile, 0;
    }

    method Apply(codec: Codec, e: Entry) returns (decoded: bool)
      requires req < TWO_64
      modifies this, LogFile
      ensures decoded == Stamped(codec, e).Some?
      ensures LogFile.content == Overwrite(old(LogFile.content), old(LogFile.offset), Frame(codec, e))
      ensures LogFile.offset == old(LogFile.offset) + |Frame(codec, e)|
      ensures req == if decoded then (old(req) + 1) % TWO_64 else old(req)
    {
      var command := codec.unmarshal(e.data);
      if command.None? {
        return false;
      }
      var serializedCmd := codec.marshal(command.value.(id := e.index));
      OverwriteTwice(LogFile.content, LogFile.offset, BigEndian32(|serializedCmd|), serializedCmd);
      LogFile.Write(BigEndian32(|serializedCmd|));
      LogFile.Write(serializedCmd);
      req := (req + 1) % TWO_64;
      decoded := true;
    }

    method ApplyAll(codec: Codec, log: seq<Entry>)
      requires req < TWO_64
      modifies this, LogFile
      ensures req < TWO_64
      ensures LogFile.content == Overwrite(old(LogFile.content), old(LogFile.offset), Encoding(codec, log))
    {
      ghost var content, offset := LogFile.content, LogFile.offset;
      assert log[..0] == [];
      for i := 0 to |log|
        invariant req < TWO_64
        invariant LogFile.content == Overwrite(content, offset, Encoding(codec, log[..i]))
        invariant LogFile.offset == offset + |Encoding(codec, log[..i])|
      {
        EncodingNext(codec, log, i);
        KvStore.OverwriteMore(content, offset, Encoding(codec, log[..i]), Frame(codec, log[i]));
        var decoded := Apply(codec, log[i]);
      }
      assert log[..|log|] == log;
    }
  }

  /**
   * The file of a writer at an earlier point of the log against that of one at a later point: a
   * byte prefix, whose recovery is a prefix of the other's recovery, without any torn command.
   */
  ghost predicate Behind(codec: Codec, log: seq<Entry>, shorter: Str, longer: Str) {
    && shorter <= longer
    && (codec.Sound() && AllRecordable(codec, log) ==>
          && !Decode(codec, shorter).panicked && !Decode(codec, longer).panicked
          && Decode(codec, shorter).cmds <= Decode(codec, longer).cmds)
  }

  /**
   * Decoupled logging agrees with application logging: a logger that has seen `i` entries and
   * a kvstore replica that has seen `j` of the same log hold byte-identical files at equal
   * progress, and otherwise recovery from the longer extends recovery from the shorter.
   */
  method LogsAgree(codec: Codec, log: seq<Entry>, i: nat, j: nat) returns (logger: Str, app: Str)
    requires i <= |log| && j <= |log|
    ensures logger == Encoding(codec, log[..i]) && app == Encoding(codec, log[..j])
    ensures i == j ==> logger == app
    ensures i <= j ==> Behind(codec, log, logger, app)
    ensures j <= i ==> Behind(codec, log, app, logger)
  {
    var loggerFile := new File.Open([]);
    var process := new Process(loggerFile);
    process.ApplyAll(codec, log[..i]);
    logger := loggerFile.content;
    WriteFromEmpty(Encoding(codec, log[..i]));

    var appFile := new File.Open([]);
    var store := new KvStore.Store(true, appFile, KvStore.NUM_INIT_KEYS);
    store.ApplyAll(codec, log[..j]);
    app := appFile.content;
    WriteFromEmpty(Encoding(codec, log[..j]));

    if i <= j {
      EarlierIsBehind(codec, log, i, j);
    }
    if j <= i {
      EarlierIsBehind(codec, log, j, i);
    }
  }

  lemma EarlierIsBehind(codec: Codec, log: seq<Entry>, i: nat, j: nat)
    requires i <= j <= |log|
    ensures Behind(codec, log, Encoding(codec, log[..i]), Encoding(codec, log[..j]))
  {
    EncodingMonotone(codec, log, i, j);
    if codec.Sound() && AllRecordable(codec, log) {
      DecodeEncoding(codec, log[..i]);
      DecodeEncoding(codec, log[..j]);
      LoggedMonotone(codec, log, i, j);
    }
  }

  lemma WriteFromEmpty(s: Str)
    ensures Overwrite([], 0, s) == s
  {
  }

  lemma LoggedMonotone(codec: Codec, log: seq<Entry>, i: nat, j: nat)
    requires i <= j <= |log|
    ensures Logged(codec, log[..i]) <= Logged(codec, log[..j])
  {
    LoggedConcat(codec, log[..i], log[i..j]);
    assert log[..i] + log[i..j] == log[..j];
  }
}
