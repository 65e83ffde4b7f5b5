/** JoinRaft: reconciling the cluster configuration with a joining node. */
module Membership {
  import opened GoBytes
  import opened Framing

  /** raft.Server. */
  datatype Server = Server(id: Str, addr: Str, voter: bool)

  /**
   * What becomes of a configuration change: a future without error means it was committed; an
   * error means it was refused, or that its fate is unknown and it may have been committed.
   */
  datatype Fate = Committed | Refused | Unknown(applied: bool)

  ghost predicate Unique(servers: seq<Server>) {
    forall i, j :: 0 <= i < j < |servers| ==>
      servers[i].id != servers[j].id && servers[i].addr != servers[j].addr
  }

  predicate Conflicts(s: Server, id: Str, addr: Str) {
    s.id == id || s.addr == addr
  }

  predicate IsExactly(s: Server, id: Str, addr: Str) {
    s.id == id && s.addr == addr
  }

  predicate IsMember(servers: seq<Server>, id: Str, addr: Str) {
    exists i :: 0 <= i < |servers| && IsExactly(servers[i], id, addr)
  }

  /** The servers that have neither the joining node's ID nor its address, in order. */
  function Keep(servers: seq<Server>, id: Str, addr: Str): (kept: seq<Server>) {
    if servers == [] then []
    else (if Conflicts(servers[0], id, addr) then [] else [servers[0]]) + Keep(servers[1..], id, addr)
  }

  /** The configuration without the server of that ID. */
  function RemoveId(servers: seq<Server>, id: Str): (r: seq<Server>) {
    if servers == [] then []
    else if servers[0].id == id then servers[1..]
    else [servers[0]] + RemoveId(servers[1..], id)
  }

  /** The contract taken from Raft: changes are one server at a time, and an error may hide a commit. */
  class Raft {
    var servers: seq<Server>

    constructor (initial: seq<Server>)
      ensures servers == initial
    {
      servers := initial;
    }

    method RemoveServer(id: Str, fate: Fate) returns (ok: bool)
      modifies this
      ensures ok <==> fate == Committed
      ensures servers == if ok || fate == Unknown(true) then RemoveId(old(servers), id) else old(servers)
    {
      ok := fate == Committed;
      if ok || fate == Unknown(true) {
        servers := RemoveId(servers, id);
      }
    }

    /** AddVoter and AddNonvoter, for an ID and an address that are not in use. */
    method AddServer(id: Str, addr: Str, voter: bool, fate: Fate) returns (ok: bool)
      requires forall s :: s in servers ==> !Conflicts(s, id, addr)
      modifies this
      ensures ok <==> fate == Committed
      ensures servers == if ok || fate == Unknown(true) then old(servers) + [Server(id, addr, voter)] else old(servers)
    {
      ok := fate == Committed;
      if ok || fate == Unknown(true) {
        servers := servers + [Server(id, addr, voter)];
      }
    }
  }

  datatype JoinResult = Joined | AlreadyMember | Error

  /**
   * The loop runs over the configuration as it was first read, while the removals change the
   * real one. `fates` decides each change; `readable` whether the configuration could be read.
   */
  method JoinRaft(raft: Raft, nodeId: Str, addr: Str, voter: bool, readable: bool, fates: nat -> Fate)
      returns (r: JoinResult)
    requires Unique(raft.servers)
    modifies raft
    ensures Unique(raft.servers)
    ensures r == Joined ==> raft.servers == Keep(old(raft.servers), nodeId, addr) + [Server(nodeId, addr, voter)]
    ensures r == Joined ==> |raft.servers| >= |old(raft.servers)| - 1
    ensures r == AlreadyMember <==> readable && IsMember(old(raft.servers), nodeId, addr)
    ensures r == AlreadyMember ==> raft.servers == old(raft.servers)
    ensures Keep(raft.servers, nodeId, addr) == Keep(old(raft.servers), nodeId, addr)
    ensures (forall i :: fates(i) == Committed) && readable ==> r != Error
    ensures readable && (forall s :: s in old(raft.servers) ==> !Conflicts(s, nodeId, addr)) && fates(0) == Unknown(true) ==>
      r == Error && raft.servers == old(raft.servers) + [Server(nodeId, addr, voter)]
  {
    if !readable {
      return Error;
    }
    ghost var before := raft.servers;
    var done, changes := RemoveConflicting(raft, nodeId, addr, fates);
    if forall s :: s in before ==> !Conflicts(s, nodeId, addr) {
      KeepAll(before, nodeId, addr);
    }
    if done.Some? {
      return done.value;
    }
    KeepIsUnique(before, nodeId, addr);
    AtMostTwo(before, nodeId, addr);
    KeepKept(before, nodeId, addr);
    JoinKeepsInvariants(raft.servers, Server(nodeId, addr, voter));
    var added := raft.AddServer(nodeId, addr, voter, fates(changes));
    r := if added then Joined else Error;
  }

  /** The loop: either every conflicting server has been removed, or JoinRaft returns at once. */
  method RemoveConflicting(raft: Raft, nodeId: Str, addr: Str, fates: nat -> Fate)
      returns (done: Option<JoinResult>, changes: nat)
    requires Unique(raft.servers)
    modifies raft
    ensures Unique(raft.servers) && Keep(raft.servers, nodeId, addr) == Keep(old(raft.servers), nodeId, addr)
    ensures done != Some(Joined)
    ensures done.None? ==> raft.servers == Keep(old(raft.servers), nodeId, addr)
    ensures done == Some(AlreadyMember) <==> IsMember(old(raft.servers), nodeId, addr)
    ensures done == Some(AlreadyMember) ==> raft.servers == old(raft.servers)
    ensures done == Some(Error) ==> exists i :: fates(i) != Committed
    ensures (forall s :: s in old(raft.servers) ==> !Conflicts(s, nodeId, addr)) ==> done.None? && changes == 0
  {
    var configuration := raft.servers;
    changes := 0;
    StageStart(configuration, nodeId, addr);
    for i := 0 to |configuration|
      invariant raft.servers == Stage(configuration, i, nodeId, addr)
      invariant forall j :: 0 <= j < i ==> !IsExactly(configuration[j], nodeId, addr)
      invariant (forall s :: s in configuration ==> !Conflicts(s, nodeId, addr)) ==> changes == 0
    {
      StageIsSound(configuration, i, nodeId, addr);
      StageIsSound(configuration, i + 1, nodeId, addr);
      var removed: bool;
      done, removed := VisitServer(raft, configuration, i, nodeId, addr, fates(changes));
      if done.Some? {
        return;
      }
      changes := if removed then changes + 1 else changes;
    }
    StageEnd(configuration, nodeId, addr);
    StageIsSound(configuration, |configuration|, nodeId, addr);
    done := None;
  }

  /** The body of the loop, at server `i` of the copied configuration. */
  method VisitServer(raft: Raft, configuration: seq<Server>, i: nat, nodeId: Str, addr: Str, fate: Fate)
      returns (done: Option<JoinResult>, removed: bool)
    requires Unique(configuration) && i < |configuration|
    requires raft.servers == Stage(configuration, i, nodeId, addr)
    modifies raft
    ensures done == None || done == Some(AlreadyMember) || done == Some(Error)
    ensures !Conflicts(configuration[i], nodeId, addr) ==> done == None && !removed
    ensures done == None ==>
      raft.servers == Stage(configuration, i + 1, nodeId, addr) && !IsExactly(configuration[i], nodeId, addr)
    ensures done == Some(AlreadyMember) ==> raft.servers == configuration && IsExactly(configuration[i], nodeId, addr)
    ensures done == Some(Error) ==>
      && fate != Committed && !IsMember(configuration, nodeId, addr)
      && raft.servers == Stage(configuration, if fate == Unknown(true) then i + 1 else i, nodeId, addr)
  {
    var rep := configuration[i];
    done, removed := None, false;
    StageNext(configuration, i, nodeId, addr);
    if rep.id == nodeId || rep.addr == addr {
      if rep.addr == addr && rep.id == nodeId {
        MemberIsOnlyConflict(configuration, i, nodeId, addr);
        return Some(AlreadyMember), false;
      }
      OtherConflictMeansNoMember(configuration, i, nodeId, addr);
      removed := raft.RemoveServer(rep.id, fate);
      if !removed {
        return Some(Error), false;
      }
    }
  }

  /** Adding a server that conflicts with none. */
  lemma JoinKeepsInvariants(servers: seq<Server>, s: Server)
    requires Unique(servers)
    requires forall t :: t in servers ==> !Conflicts(t, s.id, s.addr)
    ensures Unique(servers + [s])
    ensures Keep(servers + [s], s.id, s.addr) == Keep(servers, s.id, s.addr)
  {
    KeepConcat(servers, [s], s.id, s.addr);
    KeepConflicting(s, s.id, s.addr);
    assert forall i :: 0 <= i < |servers| ==> servers[i] in servers;
  }

  // The filter.

  lemma {:induction false} InKeep(servers: seq<Server>, id: Str, addr: Str, s: Server)
    ensures s in Keep(servers, id, addr) <==> s in servers && !Conflicts(s, id, addr)
  {
    if servers != [] {
      InKeep(servers[1..], id, addr, s);
    }
  }

  lemma {:induction false} KeepConcat(a: seq<Server>, b: seq<Server>, id: Str, addr: Str)
    ensures Keep(a + b, id, addr) == Keep(a, id, addr) + Keep(b, id, addr)
  {
    if a == [] {
      assert a + b == b;
    } else {
      KeepConcat(a[1..], b, id, addr);
      assert (a + b)[1..] == a[1..] + b;
      var head: seq<Server> := if Conflicts(a[0], id, addr) then [] else [a[0]];
      Assoc(head, Keep(a[1..], id, addr), Keep(b, id, addr));
    }
  }

  lemma KeepOne(s: Server, id: Str, addr: Str)
    requires !Conflicts(s, id, addr)
    ensures Keep([s], id, addr) == [s]
  {
    assert [s][1..] == [];
  }

  lemma KeepConflicting(s: Server, id: Str, addr: Str)
    requires Conflicts(s, id, addr)
    ensures Keep([s], id, addr) == []
  {
    assert [s][1..] == [];
  }

  lemma {:induction false} KeepAll(servers: seq<Server>, id: Str, addr: Str)
    requires forall i :: 0 <= i < |servers| ==> !Conflicts(servers[i], id, addr)
    ensures Keep(servers, id, addr) == servers
  {
    if servers != [] {
      KeepAll(servers[1..], id, addr);
    }
  }

  lemma KeepKept(a: seq<Server>, id: Str, addr: Str)
    ensures Keep(Keep(a, id, addr), id, addr) == Keep(a, id, addr)
    ensures forall s :: s in Keep(a, id, addr) ==> !Conflicts(s, id, addr)
  {
    forall s | s in Keep(a, id, addr) ensures !Conflicts(s, id, addr) {
      InKeep(a, id, addr, s);
    }
    KeepAll(Keep(a, id, addr), id, addr);
  }

  lemma {:induction false} KeepIsUnique(servers: seq<Server>, id: Str, addr: Str)
    requires Unique(servers)
    ensures Unique(Keep(servers, id, addr))
  {
    if servers != [] {
      KeepIsUnique(servers[1..], id, addr);
      forall s | s in Keep(servers[1..], id, addr) ensures s.id != servers[0].id && s.addr != servers[0].addr {
        InKeep(servers[1..], id, addr, s);
        TailDiffers(servers, s);
      }
    }
  }

  lemma TailDiffers(servers: seq<Server>, s: Server)
    requires Unique(servers) && servers != [] && s in servers[1..]
    ensures s.id != servers[0].id && s.addr != servers[0].addr
  {
    var k :| 0 <= k < |servers[1..]| && servers[1..][k] == s;
    assert s == servers[k + 1];
  }

  lemma {:induction false} AtMostOneAddr(servers: seq<Server>, id: Str, addr: Str)
    requires Unique(servers) && forall i :: 0 <= i < |servers| ==> servers[i].id != id
    ensures |Keep(servers, id, addr)| >= |servers| - 1
  {
    if servers != [] {
      if servers[0].addr == addr {
        KeepAll(servers[1..], id, addr);
      } else {
        AtMostOneAddr(servers[1..], id, addr);
      }
    }
  }

  lemma {:induction false} AtMostOneId(servers: seq<Server>, id: Str, addr: Str)
    requires Unique(servers) && forall i :: 0 <= i < |servers| ==> servers[i].addr != addr
    ensures |Keep(servers, id, addr)| >= |servers| - 1
  {
    if servers != [] {
      if servers[0].id == id {
        KeepAll(servers[1..], id, addr);
      } else {
        AtMostOneId(servers[1..], id, addr);
      }
    }
  }

  /** At most one server has the ID and at most one the address. */
  lemma {:induction false} AtMostTwo(servers: seq<Server>, id: Str, addr: Str)
    requires Unique(servers)
    ensures |Keep(servers, id, addr)| >= |servers| - 2
  {
    if servers != [] {
      if servers[0].id == id {
        AtMostOneAddr(servers[1..], id, addr);
      } else if servers[0].addr == addr {
        AtMostOneId(servers[1..], id, addr);
      } else {
        AtMostTwo(servers[1..], id, addr);
      }
    }
  }

  // The configuration while the loop runs.

  /** The real configuration when the loop stands at index `i` of the copy. */
  function Stage(servers: seq<Server>, i: nat, id: Str, addr: Str): (now: seq<Server>)
    requires i <= |servers|
  {
    Keep(servers[..i], id, addr) + servers[i..]
  }

  lemma StageStart(servers: seq<Server>, id: Str, addr: Str)
    ensures Stage(servers, 0, id, addr) == servers
  {
    assert servers[..0] == [];
  }

  lemma StageEnd(servers: seq<Server>, id: Str, addr: Str)
    ensures Stage(servers, |servers|, id, addr) == Keep(servers, id, addr)
  {
    assert servers[..|servers|] == servers && servers[|servers|..] == [];
  }

  /** A server without conflict stays; a conflicting one is what RemoveServer takes out. */
  lemma StageNext(servers: seq<Server>, i: nat, id: Str, addr: Str)
    requires Unique(servers) && i < |servers|
    ensures Stage(servers, i + 1, id, addr) ==
      if Conflicts(servers[i], id, addr) then RemoveId(Stage(servers, i, id, addr), servers[i].id)
      else Stage(servers, i, id, addr)
  {
    var s := servers[i];
    var kept := Keep(servers[..i], id, addr);
    assert servers[..i + 1] == servers[..i] + [s];
    assert servers[i..] == [s] + servers[i + 1..];
    KeepConcat(servers[..i], [s], id, addr);
    if Conflicts(s, id, addr) {
      KeepConflicting(s, id, addr);
      KeptDiffer(servers, i, id, addr);
      assert kept + [] == kept;
      RemoveHere(kept, s, servers[i + 1..]);
    } else {
      KeepOne(s, id, addr);
      Assoc(kept, [s], servers[i + 1..]);
    }
  }

  lemma KeptDiffer(servers: seq<Server>, i: nat, id: Str, addr: Str)
    requires Unique(servers) && i < |servers|
    ensures forall k :: k in Keep(servers[..i], id, addr) ==> k.id != servers[i].id
  {
    forall k | k in Keep(servers[..i], id, addr) ensures k.id != servers[i].id {
      InKeep(servers[..i], id, addr, k);
    }
  }

  lemma {:induction false} RemoveHere(kept: seq<Server>, s: Server, rest: seq<Server>)
    requires forall k :: k in kept ==> k.id != s.id
    ensures RemoveId(kept + ([s] + rest), s.id) == kept + rest
  {
    var all := kept + ([s] + rest);
    if kept == [] {
      assert all == [s] + rest;
    } else {
      RemoveHere(kept[1..], s, rest);
      assert kept[0] in kept;
      assert all[0] == kept[0] && all[1..] == kept[1..] + ([s] + rest);
      Assoc([kept[0]], kept[1..], rest);
      assert [kept[0]] + kept[1..] == kept;
    }
  }

  /** At every stage the configuration is unique and has lost no server without conflict. */
  lemma StageIsSound(servers: seq<Server>, i: nat, id: Str, addr: Str)
    requires Unique(servers) && i <= |servers|
    ensures Unique(Stage(servers, i, id, addr))
    ensures Keep(Stage(servers, i, id, addr), id, addr) == Keep(servers, id, addr)
  {
    var kept := Keep(servers[..i], id, addr);
    KeepConcat(kept, servers[i..], id, addr);
    KeepKept(servers[..i], id, addr);
    KeepConcat(servers[..i], servers[i..], id, addr);
    assert servers[..i] + servers[i..] == servers;
    KeepIsUnique(servers[..i], id, addr);
    forall k | k in kept ensures k in servers[..i] {
      InKeep(servers[..i], id, addr, k);
    }
    UniqueConcat(kept, servers, i);
  }

  lemma UniqueConcat(kept: seq<Server>, servers: seq<Server>, i: nat)
    requires Unique(servers) && i <= |servers| && Unique(kept)
    requires forall k :: k in kept ==> k in servers[..i]
    ensures Unique(kept + servers[i..])
  {
    var now := kept + servers[i..];
    forall a, b | 0 <= a < b < |now| ensures now[a].id != now[b].id && now[a].addr != now[b].addr {
      if a < |kept| <= b {
        assert now[a] in servers[..i];
        var k :| 0 <= k < i && servers[k] == now[a];
        assert now[b] == servers[b - |kept| + i];
      } else if a >= |kept| {
        assert now[a] == servers[a - |kept| + i] && now[b] == servers[b - |kept| + i];
      }
    }
  }

  lemma OtherConflictMeansNoMember(servers: seq<Server>, i: nat, id: Str, addr: Str)
    requires Unique(servers) && i < |servers|
    requires Conflicts(servers[i], id, addr) && !IsExactly(servers[i], id, addr)
    ensures !IsMember(servers, id, addr)
  {
  }

  /** When the exact pair is a member nothing else conflicts, so nothing was removed on the way to it. */
  lemma MemberIsOnlyConflict(servers: seq<Server>, i: nat, id: Str, addr: Str)
    requires Unique(servers) && i < |servers|
    requires IsExactly(servers[i], id, addr)
    ensures Stage(servers, i, id, addr) == servers
  {
    KeepAll(servers[..i], id, addr);
  }

  // The join request: sendJoinRequest writes "id-addr-true\n", ListenRaftJoins takes it apart.

  const TRUE_TEXT: Str := [116, 114, 117, 101]

  /** The texts that strconv.ParseBool takes for true; every other one ends up as false. */
  const TRUE_TEXTS: set<Str> := {[49], [116], [84], [84, 82, 85, 69], TRUE_TEXT, [84, 114, 117, 101]}

  datatype JoinArgs = JoinArgs(id: Str, addr: Str, voter: bool)

  function JoinRequest(id: Str, addr: Str, flag: Str): (s: Str) {
    Join([id, addr, flag + [NEWLINE]], DASH)
  }

  /** ReadString: up to and including the first newline, or all there is before the end. */
  function FirstLine(s: Str): (line: Str) {
    var i := Cut(s, NEWLINE);
    if i == |s| then s else s[..i + 1]
  }

  /** The three texts a request is taken to hold; with fewer than three parts the process exits. */
  function ParseJoin(request: Str): (r: Option<(Str, Str, Str)>) {
    var data := Split(FirstLine(request), DASH);
    if |data| < 3 then None else Some((data[0], data[1], Trim(data[2])))
  }

  /** What JoinRaft is called with. */
  function JoinArguments(request: Str): (r: Option<JoinArgs>) {
    match ParseJoin(request)
    case None => None
    case Some((id, addr, flag)) => Some(JoinArgs(id, addr, flag in TRUE_TEXTS))
  }

  predicate Plain(s: Str) {
    DASH !in s && NEWLINE !in s
  }

  /** A request is understood as it was meant if and only if no part of it holds a dash or a newline. */
  lemma JoinRequestIff(id: Str, addr: Str, flag: Str)
    ensures ParseJoin(JoinRequest(id, addr, flag)) == Some((id, addr, flag))
       <==> Plain(id) && Plain(addr) && Plain(flag)
  {
    if Plain(id) && Plain(addr) && Plain(flag) {
      PlainRequestParses(id, addr, flag);
    }
    ParsedPartsArePlain(JoinRequest(id, addr, flag));
  }

  /** A joining node's own request asks for its ID and address, as a voter, if and only if both are plain. */
  lemma SentRequestIff(id: Str, addr: Str)
    ensures JoinArguments(JoinRequest(id, addr, TRUE_TEXT)) == Some(JoinArgs(id, addr, true))
       <==> Plain(id) && Plain(addr)
  {
    if Plain(id) && Plain(addr) {
      PlainRequestParses(id, addr, TRUE_TEXT);
    }
    ParsedPartsArePlain(JoinRequest(id, addr, TRUE_TEXT));
  }

  /** The flag decides the role: a plain request asks for a voter if and only if its flag is a true text. */
  lemma PlainRequestArguments(id: Str, addr: Str, flag: Str)
    requires Plain(id) && Plain(addr) && Plain(flag)
    ensures JoinArguments(JoinRequest(id, addr, flag)) == Some(JoinArgs(id, addr, IsTrueText(flag)))
  {
    JoinRequestIff(id, addr, flag);
  }

  /** "1", "t", "T", "TRUE", "true" or "True". */
  predicate IsTrueText(flag: Str) {
    || flag == [49] || flag == [116] || flag == [84]
    || flag == [84, 82, 85, 69] || flag == [116, 114, 117, 101] || flag == [84, 114, 117, 101]
  }

  /** An ID with one dash names another node: what was behind the dash is taken for the address. */
  lemma DashedIdNamesAnother(a: Str, b: Str, addr: Str, flag: Str)
    requires Plain(a) && Plain(b) && Plain(addr) && Plain(flag)
    ensures JoinArguments(JoinRequest(a + [45] + b, addr, flag)) == Some(JoinArgs(a, b, IsTrueText(addr)))
  {
    DashedRequest(a, b, addr, flag);
    EndsInNewline(a, b, addr, flag);
    FourParts(a, b, addr, flag + [NEWLINE]);
    ArgumentsOf(JoinRequest(a + [45] + b, addr, flag), a, b, addr);
  }

  /** A request of one line, by its first three parts. */
  lemma ArgumentsOf(request: Str, id: Str, addr: Str, flag: Str)
    requires FirstLine(request) == request && Plain(flag)
    requires var data := Split(request, DASH);
      |data| >= 3 && data[0] == id && data[1] == addr && data[2] == flag
    ensures JoinArguments(request) == Some(JoinArgs(id, addr, IsTrueText(flag)))
  {
    ParseFirstThree(request, id, addr, flag);
    TrueTextIff(flag);
  }

  lemma ParseFirstThree(request: Str, id: Str, addr: Str, flag: Str)
    requires FirstLine(request) == request && Plain(flag)
    requires var data := Split(request, DASH);
      |data| >= 3 && data[0] == id && data[1] == addr && data[2] == flag
    ensures ParseJoin(request) == Some((id, addr, flag))
  {
    TrimPlain(flag);
  }

  lemma TrimPlain(s: Str)
    requires Plain(s)
    ensures Trim(s) == s
  {
  }

  lemma TrueTextIff(flag: Str)
    ensures flag in TRUE_TEXTS <==> IsTrueText(flag)
  {
  }

  lemma DashedRequest(a: Str, b: Str, addr: Str, flag: Str)
    ensures JoinRequest(a + [45] + b, addr, flag) == a + [DASH] + (b + [DASH] + (addr + [DASH] + (flag + [NEWLINE])))
  {
    var rest := addr + [DASH] + (flag + [NEWLINE]);
    JoinThree(a + [45] + b, addr, flag + [NEWLINE]);
    Assoc(a + [DASH] + b, [DASH], rest);
    Assoc(a + [DASH], b, [DASH]);
    Assoc(a + [DASH], b + [DASH], rest);
  }

  lemma FourParts(a: Str, b: Str, x: Str, rest: Str)
    requires DASH !in a && DASH !in b && DASH !in x
    ensures var data := Split(a + [DASH] + (b + [DASH] + (x + [DASH] + rest)), DASH);
      |data| >= 3 && data[0] == a && data[1] == b && data[2] == x
  {
    SplitAt(a, b + [DASH] + (x + [DASH] + rest), DASH);
    SplitAt(b, x + [DASH] + rest, DASH);
    SplitAt(x, rest, DASH);
  }

  lemma EndsInNewline(a: Str, b: Str, addr: Str, flag: Str)
    requires Plain(a) && Plain(b) && Plain(addr) && Plain(flag)
    ensures var request := a + [DASH] + (b + [DASH] + (addr + [DASH] + (flag + [NEWLINE])));
      FirstLine(request) == request
  {
    var before := a + [DASH] + (b + [DASH] + (addr + [DASH] + flag));
    var request := a + [DASH] + (b + [DASH] + (addr + [DASH] + (flag + [NEWLINE])));
    assert request == before + [NEWLINE];
    assert request[..|before|] == before;
    CutIsFirst(request, NEWLINE, |before|);
  }

  /** An ID with a newline stops the process: its first line has too few parts. */
  lemma NewlineInIdStops(a: Str, b: Str, addr: Str, flag: Str)
    requires Plain(a)
    ensures JoinArguments(JoinRequest(a + [10] + b, addr, flag)) == None
  {
    var rest := flag + [NEWLINE];
    JoinThree(a + [10] + b, addr, rest);
    var request := JoinRequest(a + [10] + b, addr, flag);
    assert request[..|a|] == a && request[|a|] == NEWLINE;
    CutIsFirst(request, NEWLINE, |a|);
    assert FirstLine(request) == a + [NEWLINE];
    assert DASH !in a + [NEWLINE];
  }

  /** The logger's request, "id-addr-false\n", asks for a node that does not vote. */
  lemma LoggerRequestIff(id: Str, addr: Str)
    ensures JoinArguments(JoinRequest(id, addr, [102, 97, 108, 115, 101])) == Some(JoinArgs(id, addr, false))
       <==> Plain(id) && Plain(addr)
  {
    RequestArgumentsIff(id, addr, [102, 97, 108, 115, 101]);
  }

  lemma RequestArgumentsIff(id: Str, addr: Str, flag: Str)
    requires Plain(flag)
    ensures JoinArguments(JoinRequest(id, addr, flag)) == Some(JoinArgs(id, addr, IsTrueText(flag)))
       <==> Plain(id) && Plain(addr)
    ensures JoinArguments(JoinRequest(id, addr, flag)).None? ==> !(Plain(id) && Plain(addr))
    ensures var args := JoinArguments(JoinRequest(id, addr, flag));
      args.Some? && args.value.id == id && args.value.addr == addr ==> Plain(id) && Plain(addr)
  {
    if Plain(id) && Plain(addr) {
      PlainRequestArguments(id, addr, flag);
    }
    ParsedPartsArePlain(JoinRequest(id, addr, flag));
  }

  /**
   * ListenRaftJoins on one request that a joining node or logger has sent; None when the process
   * exits. If a join succeeds, it is the one that was meant, in the role that was meant, if and
   * only if ID and address are plain.
   */
  method ServeJoin(raft: Raft, request: Str, readable: bool, fates: nat -> Fate,
                   ghost id: Str, ghost addr: Str, ghost flag: Str)
      returns (r: Option<JoinResult>)
    requires Unique(raft.servers) && request == JoinRequest(id, addr, flag) && Plain(flag)
    modifies raft
    ensures Unique(raft.servers)
    ensures r.None? ==> raft.servers == old(raft.servers) && !(Plain(id) && Plain(addr))
    ensures r == Some(Joined) ==>
      (raft.servers == Keep(old(raft.servers), id, addr) + [Server(id, addr, IsTrueText(flag))] <==> Plain(id) && Plain(addr))
    ensures Plain(id) && Plain(addr) && r == Some(AlreadyMember) ==>
      IsMember(old(raft.servers), id, addr) && raft.servers == old(raft.servers)
    ensures Plain(id) && Plain(addr) && readable && (forall i :: fates(i) == Committed) ==>
      r == Some(Joined) || r == Some(AlreadyMember)
  {
    RequestArgumentsIff(id, addr, flag);
    var args := JoinArguments(request);
    if args.None? {
      return None;
    }
    ghost var was := raft.servers;
    var joined := JoinRaft(raft, args.value.id, args.value.addr, args.value.voter, readable, fates);
    r := Some(joined);
    LastDiffers(Keep(was, args.value.id, args.value.addr), Server(args.value.id, args.value.addr, args.value.voter),
                Keep(was, id, addr), Server(id, addr, IsTrueText(flag)));
  }

  lemma LastDiffers(a: seq<Server>, x: Server, b: seq<Server>, y: Server)
    ensures a + [x] == b + [y] ==> x == y
  {
    assert (a + [x])[|a + [x]| - 1] == x && (b + [y])[|b + [y]| - 1] == y;
  }

  lemma JoinThree(a: Str, b: Str, c: Str)
    ensures Join([a, b, c], DASH) == a + [DASH] + (b + [DASH] + c)
  {
    assert [a, b, c][1..] == [b, c];
    JoinPair(b, c, DASH);
  }

  lemma PlainRequestParses(id: Str, addr: Str, flag: Str)
    requires Plain(id) && Plain(addr) && Plain(flag)
    ensures ParseJoin(JoinRequest(id, addr, flag)) == Some((id, addr, flag))
  {
    var last := flag + [NEWLINE];
    var s := JoinRequest(id, addr, flag);
    JoinThree(id, addr, last);
    assert s[..|s| - 1] == id + [DASH] + (addr + [DASH] + flag);
    CutIsFirst(s, NEWLINE, |s| - 1);
    assert FirstLine(s) == s;
    SplitAt(id, addr + [DASH] + last, DASH);
    SplitAt(addr, last, DASH);
    assert Split(last, DASH) == [last];
    assert Split(s, DASH) == [id] + ([addr] + [last]);
    assert Trim(last) == flag;
  }

  /** A newline, if there is one, is the last byte. */
  predicate NewlineOnlyLast(s: Str) {
    s == [] || NEWLINE !in s[..|s| - 1]
  }

  lemma NewlineAfterDash(a: Str, b: Str)
    requires NewlineOnlyLast(a + [DASH] + b)
    ensures NEWLINE !in a && NewlineOnlyLast(b)
  {
    var s := a + [DASH] + b;
    assert forall i :: 0 <= i < |a| ==> s[..|s| - 1][i] == a[i];
    assert forall i :: 0 <= i < |b| - 1 ==> s[..|s| - 1][|a| + 1 + i] == b[i];
  }

  lemma FirstLineEnds(s: Str)
    ensures NewlineOnlyLast(FirstLine(s))
  {
    var i := Cut(s, NEWLINE);
    if i < |s| {
      assert FirstLine(s)[..i] == s[..i];
    }
  }

  lemma TrimmedIsPlain(s: Str)
    requires NewlineOnlyLast(s)
    ensures NEWLINE !in Trim(s)
    ensures DASH !in s ==> DASH !in Trim(s)
  {
  }

  lemma ParsedPartsArePlain(request: Str)
    ensures var r := ParseJoin(request);
      r.Some? ==> Plain(r.value.0) && Plain(r.value.1) && Plain(r.value.2)
  {
    var line := FirstLine(request);
    var data := Split(line, DASH);
    FirstLineEnds(request);
    if |data| >= 3 {
      var tail := Join(data[1..], DASH);
      var last := Join(data[2..], DASH);
      assert data[1..][1..] == data[2..];
      assert line == data[0] + [DASH] + tail && tail == data[1] + [DASH] + last;
      NewlineAfterDash(data[0], tail);
      NewlineAfterDash(data[1], last);
      if |data| > 3 {
        assert last == data[2] + [DASH] + Join(data[2..][1..], DASH);
        NewlineAfterDash(data[2], Join(data[2..][1..], DASH));
      }
      TrimmedIsPlain(data[2]);
    }
  }

  lemma SplitAt(a: Str, b: Str, sep: byte)
    requires sep !in a
    ensures Split(a + [sep] + b, sep) == [a] + Split(b, sep)
  {
    var s := a + [sep] + b;
    assert s[..|a|] == a && s[|a|] == sep && s[|a| + 1..] == b;
    CutIsFirst(s, sep, |a|);
  }
}
