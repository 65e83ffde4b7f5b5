/** chatRoom/client/messageQueue.go, with Sync = false as the client uses it. */
module MessageQueue {
  import opened GoBytes

  const BLANK: Str := []

  /** What PushPop returns; indexing an empty queue panics. */
  datatype PopResult = Popped(first: Str) | Duplicate | Panicked

  /** PushPop on the bare window: the window after, and the result. */
  function Slide(size: nat, data: seq<Str>, x: Str): (r: (seq<Str>, PopResult)) {
    if x in data then (data, Duplicate)
    else if |data| < size - 1 then (data + [x], Popped(BLANK))
    else if data == [] then (data, Panicked)
    else (data[1..] + [x], Popped(data[0]))
  }

  /**
   * What PushPop makes of the window, place by place: a known message changes nothing; a new one
   * goes to the end, and drops the first one exactly when fewer than two places were free.
   */
  lemma SlideWindow(size: nat, data: seq<Str>, x: Str)
    ensures var (window, r) := Slide(size, data, x);
      && (x in data ==> window == data && r == Duplicate)
      && (x !in data && data == [] && size < 2 ==> window == data && r == Panicked)
      && (x !in data && (data != [] || size >= 2) ==>
            && |window| == (if |data| + 2 <= size then |data| + 1 else |data|)
            && window[|window| - 1] == x
            && (forall i :: 0 <= i < |window| - 1 ==> window[i] == data[|data| + 1 - |window| + i])
            && r == Popped(if |data| + 2 <= size then [] else data[0]))
  {
  }

  /** Without the one place that a newly built queue fills, the window stays below its capacity for good. */
  lemma SlideKeepsRoom(size: nat, data: seq<Str>, x: Str)
    requires |data| < size
    ensures |Slide(size, data, x).0| < size
  {
  }

  function Blanks(n: nat): (blanks: seq<Str>)
    ensures |blanks| == n
    ensures forall i :: 0 <= i < n ==> blanks[i] == BLANK
  {
    seq(n, _ => BLANK)
  }

  class Queue {
    const Size: nat
    var Data: seq<Str>
    ghost var gone: seq<Str>   // everything popped or consumed so far
    ghost var pushed: seq<Str> // everything accepted so far

    /** Nothing is lost, reordered or invented, and the window holds no message twice. */
    ghost predicate Valid()
      reads this
    {
      && gone + Data == Blanks(Size) + pushed
      && |Data| <= Size
      && forall i, j :: 0 <= i < j < |Data| && Data[i] != BLANK ==> Data[i] != Data[j]
    }

    constructor (size: nat)
      ensures Valid() && Size == size
      ensures Data == Blanks(size) && gone == [] && pushed == []
    {
      Size, Data, gone, pushed := size, Blanks(size), [], [];
    }

    method Contains(data: Str) returns (found: bool)
      ensures found <==> data in Data
    {
      for i := 0 to |Data|
        invariant data !in Data[..i]
      {
        if Data[i] == data {
          return true;
        }
        assert Data[..i + 1] == Data[..i] + [Data[i]];
      }
      found := false;
    }

    /** An empty queue panics. */
    method Consume() returns (r: PopResult)
      requires Valid()
      modifies this
      ensures Valid() && pushed == old(pushed)
      ensures r == if old(Data) == [] then Panicked else Popped(old(Data)[0])
      ensures r.Panicked? ==> Data == old(Data) && gone == old(gone)
      ensures r.Popped? ==> [r.first] + Data == old(Data) && gone == old(gone) + [r.first]
    {
      if Data == [] {
        return Panicked;
      }
      var first := Data[0];
      r := Popped(first);
      Data := Data[1..];
      gone := gone + [first];
      Assoc(old(gone), [first], Data);
      assert old(Data) == [first] + Data;
    }

    method Add(data: Str) returns (ok: bool)
      requires Valid()
      modifies this
      ensures Valid()
      ensures ok <==> old(|Data|) < Size - 1 && data !in old(Data)
      ensures ok ==> Data == old(Data) + [data] && pushed == old(pushed) + [data] && gone == old(gone)
      ensures !ok ==> Data == old(Data) && pushed == old(pushed) && gone == old(gone)
    {
      if |Data| >= Size - 1 {
        return false;
      }
      var found := Contains(data);
      if found {
        return false;
      }
      Append(data);
      ok := true;
    }

    /** `append(mq.Data, data)`. */
    method Append(data: Str)
      requires Valid() && |Data| < Size && data !in Data
      modifies this
      ensures Valid()
      ensures Data == old(Data) + [data] && pushed == old(pushed) + [data] && gone == old(gone)
    {
      Assoc(gone, Data, [data]);
      Assoc(Blanks(Size), pushed, [data]);
      Data := Data + [data];
      pushed := pushed + [data];
    }

    /** Exactly one case panics: a queue of capacity below two that has been emptied. */
    method PushPop(data: Str) returns (r: PopResult)
      requires Valid()
      modifies this
      ensures Valid()
      ensures (Data, r) == Slide(Size, old(Data), data)
      ensures r.Panicked? <==> old(Data) == [] && Size <= 1
      ensures r.Popped? ==> pushed == old(pushed) + [data]
      ensures !r.Popped? ==> pushed == old(pushed) && gone == old(gone)
      ensures r.Popped? ==> gone == old(gone) || gone == old(gone) + [r.first]
    {
      var found := Contains(data);
      if found {
        return Duplicate;
      }
      var aux := BLANK;
      if |Data| >= Size - 1 {
        var popped := Consume();
        if popped.Panicked? {
          return Panicked;
        }
        aux := popped.first;
      }
      Append(data);
      r := Popped(aux);
    }
  }
}
