/**
 * A replica (or a logger) writing its log file across any number of process crashes.
 *
 * The file is opened at offset 0 without truncation, and a restarted process re-applies the
 * committed log from its first entry, so the beginning of the file is written over and over.
 */
module CrashRestart {
  import opened GoBytes
  import opened Commands
  import opened CommandLog
  import opened KvSpec
  import opened OsFile
  import opened Recovery

  /**
   * `log` is the committed log so far, `file` the bytes on disk. A running process has handed
   * `applied` entries to its FSM, is at `offset` in the file, and still has `pending` to write.
   */
  datatype State = State(log: seq<Entry>, file: Str, up: bool, applied: nat, offset: nat, pending: Str)

  datatype Action =
    | Commit(e: Entry)
    | Begin              // fsm.Apply on the next entry: its record is to be written
    | WriteSome(n: nat)  // the next bytes of the record reach the file
    | Crash
    | Restart

  ghost predicate Enabled(codec: Codec, s: State, a: Action) {
    match a
    case Commit(e) => Recordable(codec, e)
    case Begin => s.up && s.pending == [] && s.applied < |s.log|
    case WriteSome(n) => s.up && 0 < n <= |s.pending|
    case Crash => s.up
    case Restart => !s.up
  }

  function Do(codec: Codec, s: State, a: Action): (s': State) {
    match a
    case Commit(e) => s.(log := s.log + [e])
    case Begin =>
      if s.applied < |s.log| then
        s.(applied := s.applied + 1, pending := Frame(codec, s.log[s.applied]))
      else s
    case WriteSome(n) =>
      if n <= |s.pending| then
        s.(file := Overwrite(s.file, s.offset, s.pending[..n]), offset := s.offset + n, pending := s.pending[n..])
      else s
    case Crash => s.(up := false, pending := [])
    case Restart => s.(up := true, applied := 0, offset := 0, pending := [])
  }

  ghost predicate Next(codec: Codec, s: State, s': State) {
    exists a :: Enabled(codec, s, a) && s' == Do(codec, s, a)
  }

  /** Every run: a fresh process, no file yet, nothing committed; then any steps. */
  ghost predicate IsRun(codec: Codec, run: seq<State>) {
    && |run| > 0
    && run[0] == State([], [], true, 0, 0, [])
    && forall i :: 0 < i < |run| ==> Next(codec, run[i - 1], run[i])
  }

  ghost predicate Inv(codec: Codec, s: State) {
    && AllRecordable(codec, s.log)
    && s.file <= Encoding(codec, s.log)
    && s.applied <= |s.log|
    && (s.up ==>
          && s.offset <= |s.file|
          && Encoding(codec, s.log[..s.applied]) == Encoding(codec, s.log)[..s.offset] + s.pending)
  }

  lemma {:induction false} CommitKeepsInv(codec: Codec, s: State, e: Entry)
    requires Inv(codec, s) && Recordable(codec, e)
    ensures Inv(codec, Do(codec, s, Commit(e)))
    ensures Encoding(codec, s.log) <= Encoding(codec, s.log + [e])
  {
    EncodingConcat(codec, s.log, [e]);
    assert (s.log + [e])[..s.applied] == s.log[..s.applied];
    if s.up {
      assert Encoding(codec, s.log + [e])[..s.offset] == Encoding(codec, s.log)[..s.offset];
    }
  }

  lemma BeginKeepsInv(codec: Codec, s: State)
    requires Inv(codec, s) && Enabled(codec, s, Begin)
    ensures Inv(codec, Do(codec, s, Begin))
  {
    EncodingNext(codec, s.log, s.applied);
    assert Encoding(codec, s.log[..s.applied]) == Encoding(codec, s.log)[..s.offset];
  }

  /** The bytes still to write are those of the encoding, from the offset on. */
  lemma PendingIsNext(codec: Codec, s: State)
    requires Inv(codec, s) && s.up
    ensures s.offset + |s.pending| <= |Encoding(codec, s.log)|
    ensures s.pending == Encoding(codec, s.log)[s.offset..s.offset + |s.pending|]
  {
    EncodingMonotone(codec, s.log, s.applied, |s.log|);
    assert s.log[..|s.log|] == s.log;
    var done := Encoding(codec, s.log)[..s.offset];
    assert (done + s.pending)[s.offset..] == s.pending;
  }

  lemma WriteKeepsInv(codec: Codec, s: State, n: nat)
    requires Inv(codec, s) && Enabled(codec, s, WriteSome(n))
    ensures Inv(codec, Do(codec, s, WriteSome(n)))
    ensures s.file <= Do(codec, s, WriteSome(n)).file
  {
    PendingIsNext(codec, s);
    WriteAdvances(s.file, Encoding(codec, s.log), s.offset, s.pending, n);
  }

  /** Writing the first `n` bytes of the part of `whole` that comes next. */
  lemma WriteAdvances(file: Str, whole: Str, off: nat, pending: Str, n: nat)
    requires file <= whole && off <= |file| && n <= |pending|
    requires off + |pending| <= |whole| && pending == whole[off..off + |pending|]
    ensures var file' := Overwrite(file, off, pending[..n]);
      && file <= file' <= whole && off + n <= |file'|
      && whole[..off] + pending == whole[..off + n] + pending[n..]
  {
    assert pending[..n] == whole[off..off + n];
    OverwritePrefix(file, whole, off, pending[..n]);
    assert whole[..off + n] == whole[..off] + pending[..n];
    assert pending == pending[..n] + pending[n..];
    Assoc(whole[..off], pending[..n], pending[n..]);
  }

  /** What every step keeps; no step shortens the file or changes a byte of it. */
  lemma StepKeepsInv(codec: Codec, s: State, s': State)
    requires Inv(codec, s) && Next(codec, s, s')
    ensures Inv(codec, s')
    ensures s.file <= s'.file && s.log <= s'.log
  {
    var a :| Enabled(codec, s, a) && s' == Do(codec, s, a);
    match a
    case Commit(e) => CommitKeepsInv(codec, s, e);
    case Begin => BeginKeepsInv(codec, s);
    case WriteSome(n) => WriteKeepsInv(codec, s, n);
    case Crash =>
    case Restart =>
      assert s.log[..0] == [];
  }

  lemma {:induction false} RunKeepsInv(codec: Codec, run: seq<State>, i: nat)
    requires IsRun(codec, run) && i < |run|
    ensures Inv(codec, run[i])
  {
    if i == 0 {
      var s := run[0];
      assert s.log[..0] == [];
    } else {
      RunKeepsInv(codec, run, i - 1);
      StepKeepsInv(codec, run[i - 1], run[i]);
    }
  }

  lemma PrefixTransitive<T>(a: seq<T>, b: seq<T>, c: seq<T>)
    requires a <= b <= c
    ensures a <= c
  {
  }

  /**
   * Crash-restart log safety: at every moment of every run the file is a byte prefix of the
   * encoding of the committed log, and it only ever grows, keeping every byte it had.
   */
  lemma {:induction false} LogSafety(codec: Codec, run: seq<State>, i: nat, j: nat)
    requires IsRun(codec, run) && i <= j < |run|
    ensures run[i].file <= run[j].file <= Encoding(codec, run[j].log)
    ensures run[i].log <= run[j].log
    decreases j - i
  {
    RunKeepsInv(codec, run, j);
    if i < j {
      LogSafety(codec, run, i, j - 1);
      RunKeepsInv(codec, run, j - 1);
      StepKeepsInv(codec, run[j - 1], run[j]);
      PrefixTransitive(run[i].file, run[j - 1].file, run[j].file);
      PrefixTransitive(run[i].log, run[j - 1].log, run[j].log);
    }
  }

  /** A record once written is never lost: it is in the file at every later moment, crashed or not. */
  lemma WrittenIsDurable(codec: Codec, run: seq<State>, i: nat, j: nat)
    requires IsRun(codec, run) && i <= j < |run|
    requires run[i].up && run[i].pending == []
    ensures run[i].applied <= |run[i].log|
    ensures Encoding(codec, run[i].log[..run[i].applied]) <= run[j].file
  {
    var s := run[i];
    RunKeepsInv(codec, run, i);
    LogSafety(codec, run, i, j);
    assert Encoding(codec, s.log[..s.applied]) == Encoding(codec, s.log)[..s.offset];
    assert s.file[..s.offset] == Encoding(codec, s.log)[..s.offset];
  }

  /** Entries whose records fit in a longer prefix are counted as complete. */
  lemma {:induction false} CompleteCoversWritten(codec: Codec, log: seq<Entry>, k: nat, n: nat)
    requires k <= |log|
    requires |Encoding(codec, log[..k])| <= n
    ensures k <= Complete(codec, log, n)
  {
    if k > 0 {
      assert log[..k][1..] == log[1..][..k - 1];
      assert log[..k][0] == log[0];
      CompleteCoversWritten(codec, log[1..], k - 1, n - |Frame(codec, log[0])|);
    }
  }

  /**
   * Recovery at any moment: whatever crashes and rewrites happened before, installing the file
   * as it is at moment `j` recovers the commands of the first `k` committed entries exactly and
   * in order, where `k` covers every entry whose record was ever completely written, plus at
   * most one command from a torn record. Without that one, the installed map laid over the
   * preloaded one is the map of a replica that has executed exactly those `k` entries.
   */
  lemma RecoverableAtAnyTime(codec: Codec, preload: KvMap, run: seq<State>, i: nat, j: nat) returns (k: nat)
    requires codec.Sound()
    requires IsRun(codec, run) && i <= j < |run|
    requires run[i].up && run[i].pending == []
    ensures run[i].applied <= k <= |run[j].log|
    ensures var r := Decode(codec, run[j].file);
      var whole := Logged(codec, run[j].log[..k]);
      && !r.panicked && whole <= r.cmds && |r.cmds| <= |whole| + 1
      && (r.cmds == whole ==>
            preload + Replay(r.cmds, map[]) == StateAfter(codec, preload, Payloads(run[j].log[..k])))
  {
    var log, n := run[j].log, |run[j].file|;
    WrittenIsDurable(codec, run, i, j);
    LogSafety(codec, run, i, j);
    RunKeepsInv(codec, run, i);
    RunKeepsInv(codec, run, j);
    assert run[i].log[..run[i].applied] == log[..run[i].applied];
    CompleteCoversWritten(codec, log, run[i].applied, n);
    TornPrefixRecovery(codec, log, n);
    assert Encoding(codec, log)[..n] == run[j].file;
    k := Complete(codec, log, n);
    ReplayOverlay(Logged(codec, log[..k]), preload);
    ReplayLogged(codec, log[..k], preload);
  }

  // Which files can be left behind.

  function Last(run: seq<State>): (s: State)
    requires |run| > 0
  {
    run[|run| - 1]
  }

  /** `run'` goes on from `run`. */
  ghost predicate Continues(codec: Codec, run: seq<State>, run': seq<State>) {
    IsRun(codec, run) && IsRun(codec, run') && run <= run'
  }

  lemma ContinueBy(codec: Codec, run: seq<State>, a: Action) returns (run': seq<State>)
    requires IsRun(codec, run) && Enabled(codec, Last(run), a)
    ensures Continues(codec, run, run') && Last(run') == Do(codec, Last(run), a)
  {
    run' := run + [Do(codec, Last(run), a)];
    forall i | 0 < i < |run'| ensures Next(codec, run'[i - 1], run'[i]) {
      if i < |run| {
        assert Next(codec, run[i - 1], run[i]);
      }
    }
  }

  /** `run'` goes on from `run`, with nothing more committed, until the file is `file`. */
  ghost predicate Leaves(codec: Codec, run: seq<State>, run': seq<State>, file: Str) {
    Continues(codec, run, run') && Last(run').log == Last(run).log && Last(run').file == file
  }

  /** The running process writes on until the first `n` bytes are in the file, and not one more. */
  lemma WriteUpTo(codec: Codec, run: seq<State>, n: nat) returns (run': seq<State>)
    requires IsRun(codec, run) && Last(run).up
    requires |Last(run).file| <= n <= |Encoding(codec, Last(run).log)|
    ensures Leaves(codec, run, run', Encoding(codec, Last(run).log)[..n]) && Last(run').up
    decreases |Last(run).log| - Last(run).applied, |Last(run).pending|
  {
    var s := Last(run);
    RunKeepsInv(codec, run, |run| - 1);
    if |s.file| == n {
      run' := run;
    } else {
      var a := NextWrite(codec, s, n);
      var next := ContinueBy(codec, run, a);
      run' := WriteUpTo(codec, next, n);
    }
  }

  /** The next step towards `n` bytes: more of the pending record, or the next record. */
  lemma NextWrite(codec: Codec, s: State, n: nat) returns (a: Action)
    requires Inv(codec, s) && s.up && |s.file| < n <= |Encoding(codec, s.log)|
    ensures Enabled(codec, s, a)
    ensures var s' := Do(codec, s, a);
      && s'.up && s'.log == s.log && |s'.file| <= n
      && s.applied <= s'.applied <= |s.log|
      && (s'.applied == s.applied ==> |s'.pending| < |s.pending|)
  {
    if s.pending == [] {
      a := Begin;
      if s.applied == |s.log| {
        AllWritten(codec, s);
      }
    } else {
      var k := if s.offset + |s.pending| <= n then |s.pending| else n - s.offset;
      a := WriteSome(k);
      OverwriteBytes(s.file, s.offset, s.pending[..k]);
    }
  }

  lemma AllWritten(codec: Codec, s: State)
    requires Inv(codec, s) && s.up && s.pending == [] && s.applied == |s.log|
    ensures |s.file| == |Encoding(codec, s.log)|
  {
    assert s.log[..s.applied] == s.log;
  }

  lemma BringUp(codec: Codec, run: seq<State>) returns (run': seq<State>)
    requires IsRun(codec, run)
    ensures Leaves(codec, run, run', Last(run).file) && Last(run').up
  {
    if Last(run).up {
      run' := run;
    } else {
      run' := ContinueBy(codec, run, Restart);
    }
  }

  /**
   * Exactly which files a run can go on to, with nothing more committed: those between the file as
   * it is and the whole encoding. So every byte may be the last one written, and the whole log
   * can always still be written, whatever has crashed.
   */
  lemma ReachableFileIff(codec: Codec, run: seq<State>, file: Str)
    requires IsRun(codec, run)
    ensures (exists run' :: Leaves(codec, run, run', file)) <==>
      Last(run).file <= file <= Encoding(codec, Last(run).log)
  {
    if run' :| Leaves(codec, run, run', file) {
      LogSafety(codec, run', |run| - 1, |run'| - 1);
    }
    if Last(run).file <= file <= Encoding(codec, Last(run).log) {
      var up := BringUp(codec, run);
      var run' := WriteUpTo(codec, up, |file|);
      assert Encoding(codec, Last(run).log)[..|file|] == file;
      assert Leaves(codec, run, run', file);
    }
  }

  /** A process may crash at any moment, and the next one starts at the beginning of log and file. */
  lemma CrashAndRestart(codec: Codec, run: seq<State>) returns (down: seq<State>, run': seq<State>)
    requires IsRun(codec, run) && Last(run).up
    ensures Leaves(codec, run, down, Last(run).file) && !Last(down).up
    ensures Leaves(codec, down, run', Last(run).file)
    ensures Last(run') == State(Last(run).log, Last(run).file, true, 0, 0, [])
  {
    down := ContinueBy(codec, run, Crash);
    run' := ContinueBy(codec, down, Restart);
  }

  lemma {:induction false} CommitAll(codec: Codec, log: seq<Entry>) returns (run: seq<State>)
    requires AllRecordable(codec, log)
    ensures IsRun(codec, run) && Last(run) == State(log, [], true, 0, 0, [])
  {
    if log == [] {
      run := [State([], [], true, 0, 0, [])];
    } else {
      var before := CommitAll(codec, log[..|log| - 1]);
      assert Recordable(codec, log[|log| - 1]);
      run := ContinueBy(codec, before, Commit(log[|log| - 1]));
      assert log == log[..|log| - 1] + [log[|log| - 1]];
    }
  }

  /** Every byte prefix of every log is what some crashed process leaves. */
  lemma EveryPrefixIsLeft(codec: Codec, log: seq<Entry>, n: nat) returns (run: seq<State>)
    requires AllRecordable(codec, log) && n <= |Encoding(codec, log)|
    ensures IsRun(codec, run) && !Last(run).up
    ensures Last(run).log == log && Last(run).file == Encoding(codec, log)[..n]
  {
    var committed := CommitAll(codec, log);
    var written := WriteUpTo(codec, committed, n);
    var again;
    run, again := CrashAndRestart(codec, written);
  }
}
