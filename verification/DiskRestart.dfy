/**
 * diskstorage over restarts: the state file survives a crash, even in the middle of a write,
 * while the restarted process executes the log again from its first entry.
 */
module DiskRestart {
  import opened GoBytes
  import opened Decimal
  import opened Commands
  import opened KvSpec
  import opened OsFile
  import opened DiskStorage

  /** The store's file, `n` slots in range. */
  predicate Fits(valueSize: nat, cmds: seq<Command>, file: Str, n: nat) {
    AllInRange(cmds, n) && n <= MAX_INT64 && n * valueSize <= |file| <= MAX_INT64
  }

  /** A command in range that writes byte `k`. */
  predicate Fills(valueSize: nat, c: Command, k: int) {
    c.op == Set && Atoi(c.key).Some? && 0 <= k - Atoi(c.key).value * valueSize < valueSize
  }

  predicate Filled(valueSize: nat, cmds: seq<Command>, k: int) {
    exists i :: 0 <= i < |cmds| && Fills(valueSize, cmds[i], k)
  }

  /** One command, byte by byte. */
  lemma ApplyBytes(valueSize: nat, c: Command, file: Str, n: nat)
    requires InRange(c, n) && n <= MAX_INT64 && n * valueSize <= |file| <= MAX_INT64
    ensures var file' := DiskApply(valueSize, c, file).file;
      && |file'| == |file|
      && forall k :: 0 <= k < |file| ==> file'[k] == if Fills(valueSize, c, k) then AT_SIGN else file[k]
  {
    var i := Atoi(c.key).value;
    SlotInFile(valueSize, file, n, i);
    OverwriteBytes(file, i * valueSize, Block(valueSize));
  }

  lemma FilledFirst(valueSize: nat, cmds: seq<Command>, k: int)
    requires cmds != []
    ensures Filled(valueSize, cmds, k) <==> Fills(valueSize, cmds[0], k) || Filled(valueSize, cmds[1..], k)
  {
    if i :| 0 <= i < |cmds| && Fills(valueSize, cmds[i], k) && i > 0 {
      assert cmds[1..][i - 1] == cmds[i];
    }
    if i :| 0 <= i < |cmds[1..]| && Fills(valueSize, cmds[1..][i], k) {
      assert cmds[i + 1] == cmds[1..][i];
    }
  }

  /** The file after a run, byte by byte: '@' wherever some SET wrote, the old byte elsewhere. */
  lemma {:induction false} RunBytes(valueSize: nat, cmds: seq<Command>, file: Str, n: nat)
    requires Fits(valueSize, cmds, file, n)
    ensures var file' := RunDisk(valueSize, cmds, file).0;
      && |file'| == |file|
      && forall k :: 0 <= k < |file| ==> file'[k] == if Filled(valueSize, cmds, k) then AT_SIGN else file[k]
  {
    if cmds != [] {
      ApplyBytes(valueSize, cmds[0], file, n);
      RunBytes(valueSize, cmds[1..], DiskApply(valueSize, cmds[0], file).file, n);
      forall k | 0 <= k < |file| ensures Filled(valueSize, cmds, k) <==>
          Fills(valueSize, cmds[0], k) || Filled(valueSize, cmds[1..], k) {
        FilledFirst(valueSize, cmds, k);
      }
    }
  }

  /** Where a process dies: after `done` commands, having written `cut` bytes of the next one. */
  datatype Crash = Crash(done: nat, cut: nat)

  predicate IsCrash(valueSize: nat, cmds: seq<Command>, crash: Crash) {
    crash.done <= |cmds| && crash.cut <= valueSize
  }

  /** The file a process leaves that starts on `file` and crashes. */
  function LeftBehind(valueSize: nat, cmds: seq<Command>, file: Str, crash: Crash): (file': Str)
    requires IsCrash(valueSize, cmds, crash)
  {
    var whole := RunDisk(valueSize, cmds[..crash.done], file).0;
    if crash.done == |cmds| || cmds[crash.done].op != Set then whole
    else
      match SlotOffset(valueSize, cmds[crash.done].key)
      case None => whole
      case Some(off) => Overwrite(whole, off, Block(valueSize)[..crash.cut])
  }

  /** The file after any number of crashes, each followed by a restart that executes the log again. */
  function AfterCrashes(valueSize: nat, cmds: seq<Command>, file: Str, crashes: seq<Crash>): (file': Str)
    requires forall i :: 0 <= i < |crashes| ==> IsCrash(valueSize, cmds, crashes[i])
    decreases |crashes|
  {
    if crashes == [] then file
    else AfterCrashes(valueSize, cmds, LeftBehind(valueSize, cmds, file, crashes[0]), crashes[1..])
  }

  /** `file'` is `file` with some of the bytes already written that the commands write. */
  ghost predicate PartlyRun(valueSize: nat, cmds: seq<Command>, file: Str, file': Str) {
    && |file'| == |file|
    && forall k :: 0 <= k < |file| ==>
      file'[k] == file[k] || (Filled(valueSize, cmds, k) && file'[k] == AT_SIGN)
  }

  lemma FilledPrefix(valueSize: nat, cmds: seq<Command>, i: nat, k: int)
    requires i <= |cmds|
    ensures Filled(valueSize, cmds[..i], k) ==> Filled(valueSize, cmds, k)
  {
  }

  lemma CrashLeavesPartlyRun(valueSize: nat, cmds: seq<Command>, file: Str, n: nat, crash: Crash)
    requires Fits(valueSize, cmds, file, n) && IsCrash(valueSize, cmds, crash)
    ensures PartlyRun(valueSize, cmds, file, LeftBehind(valueSize, cmds, file, crash))
  {
    var whole := RunDisk(valueSize, cmds[..crash.done], file).0;
    RunBytes(valueSize, cmds[..crash.done], file, n);
    forall k | 0 <= k < |file| ensures Filled(valueSize, cmds[..crash.done], k) ==> Filled(valueSize, cmds, k) {
      FilledPrefix(valueSize, cmds, crash.done, k);
    }
    if crash.done < |cmds| && cmds[crash.done].op == Set {
      TornWrite(valueSize, cmds, crash, whole, n);
    }
  }

  /** A write cut short stays within its slot. */
  lemma TornWrite(valueSize: nat, cmds: seq<Command>, crash: Crash, file: Str, n: nat)
    requires Fits(valueSize, cmds, file, n) && IsCrash(valueSize, cmds, crash)
    requires crash.done < |cmds| && cmds[crash.done].op == Set
    ensures SlotOffset(valueSize, cmds[crash.done].key).Some?
    ensures PartlyRun(valueSize, cmds, file,
      Overwrite(file, SlotOffset(valueSize, cmds[crash.done].key).value, Block(valueSize)[..crash.cut]))
  {
    var c := cmds[crash.done];
    var i := Atoi(c.key).value;
    SlotInFile(valueSize, file, n, i);
    OverwriteBytes(file, i * valueSize, Block(valueSize)[..crash.cut]);
    assert forall k :: Fills(valueSize, c, k) ==> Filled(valueSize, cmds, k);
  }

  /** The file left behind, byte by byte: '@' where a finished SET or the first bytes of the cut one fell. */
  lemma CrashBytes(valueSize: nat, cmds: seq<Command>, file: Str, n: nat, crash: Crash)
    requires Fits(valueSize, cmds, file, n) && IsCrash(valueSize, cmds, crash)
    ensures var left := LeftBehind(valueSize, cmds, file, crash);
      && |left| == |file|
      && forall k :: 0 <= k < |file| ==>
        left[k] == if Filled(valueSize, cmds[..crash.done], k) || CutFills(valueSize, cmds, crash, k) then 64 else file[k]
  {
    var whole := RunDisk(valueSize, cmds[..crash.done], file).0;
    RunBytes(valueSize, cmds[..crash.done], file, n);
    if crash.done < |cmds| && cmds[crash.done].op == Set {
      TornWriteBytes(valueSize, cmds, crash, whole, n);
    }
  }

  /** Byte `k` is one of those that the cut write still got into the file. */
  predicate CutFills(valueSize: nat, cmds: seq<Command>, crash: Crash, k: int) {
    && crash.done < |cmds| && Fills(valueSize, cmds[crash.done], k)
    && k - Atoi(cmds[crash.done].key).value * valueSize < crash.cut
  }

  lemma TornWriteBytes(valueSize: nat, cmds: seq<Command>, crash: Crash, file: Str, n: nat)
    requires Fits(valueSize, cmds, file, n) && IsCrash(valueSize, cmds, crash)
    requires crash.done < |cmds| && cmds[crash.done].op == Set
    ensures SlotOffset(valueSize, cmds[crash.done].key).Some?
    ensures var file' := Overwrite(file, SlotOffset(valueSize, cmds[crash.done].key).value, Block(valueSize)[..crash.cut]);
      && |file'| == |file|
      && forall k :: 0 <= k < |file| ==> file'[k] == if CutFills(valueSize, cmds, crash, k) then 64 else file[k]
  {
    var i := Atoi(cmds[crash.done].key).value;
    SlotInFile(valueSize, file, n, i);
    OverwriteBytes(file, i * valueSize, Block(valueSize)[..crash.cut]);
  }

  lemma PartlyRunTransitive(valueSize: nat, cmds: seq<Command>, a: Str, b: Str, d: Str)
    requires PartlyRun(valueSize, cmds, a, b) && PartlyRun(valueSize, cmds, b, d)
    ensures PartlyRun(valueSize, cmds, a, d)
  {
  }

  /** Running the whole log hides what an earlier process had already done of it. */
  lemma RunHidesPartlyRun(valueSize: nat, cmds: seq<Command>, file: Str, n: nat, file': Str)
    requires Fits(valueSize, cmds, file, n) && PartlyRun(valueSize, cmds, file, file')
    ensures RunDisk(valueSize, cmds, file').0 == RunDisk(valueSize, cmds, file).0
  {
    RunBytes(valueSize, cmds, file, n);
    RunBytes(valueSize, cmds, file', n);
  }

  lemma {:induction false} CrashesLeavePartlyRun(valueSize: nat, cmds: seq<Command>, file: Str, n: nat, crashes: seq<Crash>)
    requires Fits(valueSize, cmds, file, n)
    requires forall i :: 0 <= i < |crashes| ==> IsCrash(valueSize, cmds, crashes[i])
    ensures PartlyRun(valueSize, cmds, file, AfterCrashes(valueSize, cmds, file, crashes))
    decreases |crashes|
  {
    if crashes != [] {
      var file' := LeftBehind(valueSize, cmds, file, crashes[0]);
      CrashLeavesPartlyRun(valueSize, cmds, file, n, crashes[0]);
      CrashesLeavePartlyRun(valueSize, cmds, file', n, crashes[1..]);
      PartlyRunTransitive(valueSize, cmds, file, file', AfterCrashes(valueSize, cmds, file, crashes));
    }
  }

  /**
   * Restart is harmless to the state: after any number of crashes, each at any byte of any
   * command's write, executing the log from its first entry over the file they left gives the
   * file of a process that never crashed, and panics nowhere.
   */
  lemma RestartReachesLiveFile(valueSize: nat, cmds: seq<Command>, file: Str, n: nat, crashes: seq<Crash>)
    requires Fits(valueSize, cmds, file, n)
    requires forall i :: 0 <= i < |crashes| ==> IsCrash(valueSize, cmds, crashes[i])
    ensures var again := RunDisk(valueSize, cmds, AfterCrashes(valueSize, cmds, file, crashes));
      && again.0 == RunDisk(valueSize, cmds, file).0
      && forall r :: r in again.1 ==> !r.Panic?
  {
    var left := AfterCrashes(valueSize, cmds, file, crashes);
    CrashesLeavePartlyRun(valueSize, cmds, file, n, crashes);
    RunHidesPartlyRun(valueSize, cmds, file, n, left);
    DiskRefinesMap(valueSize, cmds, left, n);
  }
}
