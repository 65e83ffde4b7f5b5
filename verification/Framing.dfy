/** Newline framing between the client (BroadcastProtobuf) and the session reader. */
module Framing {
  import opened GoBytes

  /** Each payload, followed by a newline. */
  function Frames(payloads: seq<Str>): (s: Str) {
    if payloads == [] then [] else payloads[0] + [NEWLINE] + Frames(payloads[1..])
  }

  /**
   * The requests a session makes of the bytes of its connection: the complete lines, newline
   * included, that are longer than the newline. A last line without newline is never delivered.
   */
  function Requests(s: Str): (lines: seq<Str>)
  {
    var i := Cut(s, NEWLINE);
    if i == |s| then []
    else
      (if i == 0 then [] else [s[..i + 1]]) + Requests(s[i + 1..])
  }

  /** Every request is a line: longer than its newline, which is its last byte and its only one. */
  lemma {:induction false} RequestsAreLines(s: Str)
    ensures forall i :: 0 <= i < |Requests(s)| ==>
      |Requests(s)[i]| > 1 && Cut(Requests(s)[i], NEWLINE) == |Requests(s)[i]| - 1
    decreases |s|
  {
    var i := Cut(s, NEWLINE);
    if i < |s| {
      assert s[..i + 1][..i] == s[..i];
      CutIsFirst(s[..i + 1], NEWLINE, i);
      RequestsAreLines(s[i + 1..]);
    }
  }

  /** Session.Read over a connection that delivers `conn` and then ends. */
  method ReadSession(conn: Str) returns (incoming: seq<Str>)
    ensures incoming == Requests(conn)
  {
    incoming := [];
    var rest := conn;
    var i := Cut(rest, NEWLINE);
    while i < |rest| // until io.EOF
      invariant i == Cut(rest, NEWLINE)
      invariant Requests(conn) == incoming + Requests(rest)
      decreases |rest|
    {
      var line := rest[..i + 1];
      var more := if |line| > 1 then [line] else [];
      Assoc(incoming, more, Requests(rest[i + 1..]));
      incoming := incoming + more;
      rest := rest[i + 1..];
      i := Cut(rest, NEWLINE);
    }
  }

  /** Bytes behind the last newline are not handed on. */
  lemma PartialLineWaits(s: Str)
    requires 10 !in s
    ensures Requests(s) == []
  {
  }

  /** Nor is a blank line. */
  lemma BlankLineSkipped(s: Str)
    requires s != [] && s[0] == 10
    ensures Requests(s) == Requests(s[1..])
  {
    assert Cut(s, NEWLINE) == 0;
  }

  /** bytes.TrimSuffix(line, "\n"). */
  function Trim(line: Str): (s: Str)
    ensures |line| > 0 && line[|line| - 1] == NEWLINE ==> s + [NEWLINE] == line
  {
    if |line| > 0 && line[|line| - 1] == NEWLINE then line[..|line| - 1] else line
  }

  function TrimAll(lines: seq<Str>): (r: seq<Str>)
    ensures |r| == |lines|
    ensures forall i :: 0 <= i < |lines| ==> r[i] == Trim(lines[i])
  {
    seq(|lines|, i requires 0 <= i < |lines| => Trim(lines[i]))
  }

  /** Whether the bytes end where a line ends. */
  predicate Whole(s: Str) {
    s == [] || s[|s| - 1] == NEWLINE
  }

  /** Reading whole lines and then more is reading it all. */
  lemma {:induction false} RequestsConcat(a: Str, b: Str)
    requires Whole(a)
    ensures Requests(a + b) == Requests(a) + Requests(b)
    decreases |a|
  {
    if a == [] {
      assert a + b == b;
    } else {
      var i := Cut(a, NEWLINE);
      assert a[|a| - 1] == NEWLINE;
      RequestsConcat(a[i + 1..], b);
      CutInFirst(a, b, NEWLINE);
      var head := if i == 0 then [] else [a[..i + 1]];
      Assoc(head, Requests(a[i + 1..]), Requests(b));
    }
  }

  /** A connection that has delivered less has made a prefix of the requests. */
  lemma {:induction false} RequestsMonotone(shorter: Str, longer: Str)
    requires shorter <= longer
    ensures Requests(shorter) <= Requests(longer)
    decreases |shorter|
  {
    var i := Cut(shorter, NEWLINE);
    if i < |shorter| {
      SameFirstLine(shorter, longer);
      RequestsMonotone(shorter[i + 1..], longer[i + 1..]);
      AddInFront(if i == 0 then [] else [shorter[..i + 1]], Requests(shorter[i + 1..]), Requests(longer[i + 1..]));
    }
  }

  lemma SameFirstLine(shorter: Str, longer: Str)
    requires shorter <= longer && NEWLINE in shorter
    ensures var i := Cut(shorter, NEWLINE);
      && Cut(longer, NEWLINE) == i
      && longer[..i + 1] == shorter[..i + 1] && shorter[i + 1..] <= longer[i + 1..]
  {
    var i := Cut(shorter, NEWLINE);
    assert longer[..i] == shorter[..i];
    CutIsFirst(longer, NEWLINE, i);
  }

  lemma AddInFront<T>(head: seq<T>, a: seq<T>, b: seq<T>)
    requires a <= b
    ensures head + a <= head + b
  {
  }

  lemma TrimMonotone(a: seq<Str>, b: seq<Str>)
    requires a <= b
    ensures TrimAll(a) <= TrimAll(b)
  {
  }

  lemma CutInFirst(a: Str, b: Str, sep: byte)
    requires sep in a
    ensures var i := Cut(a, sep);
      && i < |a| && Cut(a + b, sep) == i
      && (a + b)[..i + 1] == a[..i + 1] && (a + b)[i + 1..] == a[i + 1..] + b
  {
    var i := Cut(a, sep);
    assert (a + b)[..i] == a[..i];
    CutIsFirst(a + b, sep, i);
  }

  /** Splitting the bytes of a connection at the end of a line. */
  lemma RequestsSplit(sent: Str, k: nat)
    requires k <= |sent| && Whole(sent[..k])
    ensures Requests(sent) == Requests(sent[..k]) + Requests(sent[k..])
  {
    RequestsConcat(sent[..k], sent[k..]);
    assert sent[..k] + sent[k..] == sent;
  }

  /** Taking one more line off the connection yields exactly the next request, if it is not blank. */
  lemma TakeLine(before: Str, unread: Str)
    requires Whole(before) && NEWLINE in unread
    ensures var line := unread[..Cut(unread, NEWLINE) + 1];
      && Whole(before + line)
      && Requests(before + line) == Requests(before) + if |line| > 1 then [line] else []
  {
    var line := unread[..Cut(unread, NEWLINE) + 1];
    assert line[|line| - 1] == NEWLINE;
    RequestsConcat(before, line);
    LineAlone(unread);
  }

  /** The first line of `s`, read by itself. */
  lemma LineAlone(s: Str)
    requires NEWLINE in s
    ensures var line := s[..Cut(s, NEWLINE) + 1];
      Requests(line) == if |line| > 1 then [line] else []
  {
    var i := Cut(s, NEWLINE);
    var line := s[..i + 1];
    assert line[..i] == s[..i];
    CutIsFirst(line, NEWLINE, i);
    assert line[..|line|] == line && line[|line|..] == [];
  }

  lemma RequestsOfLine(p: Str)
    requires NEWLINE !in p && p != []
    ensures Requests(p + [NEWLINE]) == [p + [NEWLINE]]
  {
    var s := p + [NEWLINE];
    assert s[..|p|] == p;
    CutIsFirst(s, NEWLINE, |p|);
    assert s[..|p| + 1] == s && s[|p| + 1..] == [];
  }

  /** Payloads without newlines come back in order. */
  lemma {:induction false} FramesReadBack(payloads: seq<Str>)
    requires forall i :: 0 <= i < |payloads| ==> payloads[i] != [] && NEWLINE !in payloads[i]
    ensures Whole(Frames(payloads))
    ensures TrimAll(Requests(Frames(payloads))) == payloads
  {
    if payloads != [] {
      var p, rest := payloads[0], Frames(payloads[1..]);
      FramesReadBack(payloads[1..]);
      assert p != [] && NEWLINE !in p;
      ReadOneFrame(p, rest);
      TrimFirst(p, Requests(rest));
      assert [p] + payloads[1..] == payloads;
    }
  }

  lemma ReadOneFrame(p: Str, rest: Str)
    requires NEWLINE !in p && p != [] && Whole(rest)
    ensures Whole(p + [NEWLINE] + rest)
    ensures Requests(p + [NEWLINE] + rest) == [p + [NEWLINE]] + Requests(rest)
  {
    RequestsOfLine(p);
    RequestsConcat(p + [NEWLINE], rest);
  }

  lemma TrimFirst(p: Str, lines: seq<Str>)
    ensures TrimAll([p + [NEWLINE]] + lines) == [p] + TrimAll(lines)
  {
    assert Trim(p + [NEWLINE]) == p;
  }

  /**
   * Newline framing: non-empty payloads are read back as they were sent if and only if none of
   * them contains a newline byte.
   */
  lemma FramingIff(payloads: seq<Str>)
    requires forall i :: 0 <= i < |payloads| ==> payloads[i] != []
    ensures TrimAll(Requests(Frames(payloads))) == payloads
       <==> forall i :: 0 <= i < |payloads| ==> NEWLINE !in payloads[i]
  {
    TrimmedLines(Frames(payloads));
    if forall i :: 0 <= i < |payloads| ==> NEWLINE !in payloads[i] {
      FramesReadBack(payloads);
    }
  }

  /** What is read back never contains a newline. */
  lemma TrimmedLines(s: Str)
    ensures forall i :: 0 <= i < |TrimAll(Requests(s))| ==> NEWLINE !in TrimAll(Requests(s))[i]
  {
    RequestsAreLines(s);
    var lines := Requests(s);
    forall i | 0 <= i < |lines| ensures NEWLINE !in Trim(lines[i]) {
      assert Trim(lines[i]) == lines[i][..Cut(lines[i], NEWLINE)];
    }
  }
}
