/** os.File, as far as the stores use it. */
module OsFile {
  import opened GoBytes

  /** The contents after writing `bs` at offset `off`; a gap past the end is zero-filled. */
  function Overwrite(s: Str, off: nat, bs: Str): (r: Str)
  {
    if bs == [] then s
    else
      var before := if off <= |s| then s[..off] else s + Repeat(0, off - |s|);
      var after := if off + |bs| <= |s| then s[off + |bs|..] else [];
      before + bs + after
  }

  /** A write puts its bytes at its offset, changes no other byte, and only ever grows the file. */
  lemma OverwriteBytes(s: Str, off: nat, bs: Str)
    ensures var r := Overwrite(s, off, bs);
      && |r| == (if bs == [] || off + |bs| <= |s| then |s| else off + |bs|)
      && (forall i :: off <= i < off + |bs| ==> r[i] == bs[i - off])
      && (forall i :: 0 <= i < |r| && !(off <= i < off + |bs|) ==> r[i] == if i < |s| then s[i] else 0)
  {
  }

  /** Writing a header and then a body is writing the record. */
  lemma OverwriteTwice(s: Str, off: nat, a: Str, b: Str)
    requires a != []
    ensures Overwrite(Overwrite(s, off, a), off + |a|, b) == Overwrite(s, off, a + b)
  {
    var s1 := Overwrite(s, off, a);
    var r := Overwrite(s1, off + |a|, b);
    OverwriteBytes(s, off, a);
    OverwriteBytes(s1, off + |a|, b);
    OverwriteBytes(s, off, a + b);
    var t := Overwrite(s, off, a + b);
    assert |r| == |t|;
    forall i | 0 <= i < |r| ensures r[i] == t[i] {
      if off <= i < off + |a| {
        assert (a + b)[i - off] == a[i - off];
      } else if off + |a| <= i < off + |a| + |b| {
        assert (a + b)[i - off] == b[i - off - |a|];
      }
    }
  }

  /** Writing the right bytes into a prefix of `whole` leaves a prefix of `whole`, never a shorter one. */
  lemma OverwritePrefix(file: Str, whole: Str, off: nat, bs: Str)
    requires file <= whole && off <= |file|
    requires off + |bs| <= |whole| && bs == whole[off..off + |bs|]
    ensures file <= Overwrite(file, off, bs) <= whole
    ensures whole[..off + |bs|] <= Overwrite(file, off, bs)
  {
    var r := Overwrite(file, off, bs);
    OverwriteBytes(file, off, bs);
    var end := if off + |bs| <= |file| then |file| else off + |bs|;
    assert bs == [] ==> end == |file|;
    assert r == whole[..end];
  }

  class File {
    var content: Str
    var offset: nat

    /** createFile: O_WRONLY (with O_CREATE for a missing file), neither O_TRUNC nor O_APPEND. */
    constructor Open(existing: Str)
      ensures content == existing && offset == 0
    {
      content, offset := existing, 0;
    }

    method Write(bs: Str)
      modifies this
      ensures content == Overwrite(old(content), old(offset), bs)
      ensures offset == old(offset) + |bs|
    {
      content := Overwrite(content, offset, bs);
      offset := offset + |bs|;
    }
  }
}
