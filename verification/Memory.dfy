/** Copies of byte ranges: a sequence with a range replaced, what such a patch changes and what it leaves alone, and the
    loops that copy within an array. */
module Memory {
  import opened Words

  /** `s` with the block `b` stored at `at`. */
  function Patch(s: seq<Byte>, at: nat, b: seq<Byte>): (r: seq<Byte>)
    requires at + |b| <= |s|
    ensures |r| == |s|
  {
    seq(|s|, i requires 0 <= i < |s| => if at <= i < at + |b| then b[i - at] else s[i])
  }

  lemma PatchInside(s: seq<Byte>, at: nat, b: seq<Byte>, off: nat, c: seq<Byte>)
    requires at + |b| <= |s| && off + |c| <= |b|
    ensures Patch(Patch(s, at, b), at + off, c) == Patch(s, at, Patch(b, off, c))
  {
  }

  lemma PatchElsewhere(s: seq<Byte>, at: nat, b: seq<Byte>, lo: nat, hi: nat)
    requires at + |b| <= |s| && lo <= hi <= |s|
    requires hi <= at || at + |b| <= lo
    ensures Patch(s, at, b)[lo..hi] == s[lo..hi]
  {
  }

  lemma PatchItself(s: seq<Byte>, at: nat, b: seq<Byte>)
    requires at + |b| <= |s|
    ensures Patch(s, at, b)[at..at + |b|] == b
  {
  }

  lemma PatchSame(s: seq<Byte>, at: nat, b: seq<Byte>)
    requires at + |b| <= |s| && s[at..at + |b|] == b
    ensures Patch(s, at, b) == s
  {
    assert forall i :: at <= i < at + |b| ==> s[i] == s[at..at + |b|][i - at];
  }

  lemma SliceOfSlice(s: seq<Byte>, at: nat, n: nat, off: nat, k: nat)
    requires at + n <= |s| && off + k <= n
    ensures s[at..at + n][off..off + k] == s[at + off..at + off + k]
  {
    var block := s[at..at + n];
    assert forall j :: 0 <= j < n ==> block[j] == s[at + j];
    assert block[off..off + k] == s[at + off..at + off + k];
  }

  /** memcpy between two buffers whose blocks do not overlap. */
  method CopyBytes(dst: array<Byte>, dstAt: nat, src: array<Byte>, srcAt: nat, n: nat)
    requires dstAt + n <= dst.Length && srcAt + n <= src.Length
    requires dst != src || dstAt + n <= srcAt || srcAt + n <= dstAt
    modifies dst
    ensures dst[..] == Patch(old(dst[..]), dstAt, old(src[srcAt..srcAt + n]))
  {
    forall i | 0 <= i < n {
      dst[dstAt + i] := src[srcAt + i];
    }
  }

  /** CopyBytes into the block `block` that `dst` holds at `base`, seen as a change of that block. */
  method CopyIntoBlock(dst: array<Byte>, base: nat, off: nat, src: array<Byte>, srcAt: nat, n: nat,
                       ghost whole: seq<Byte>, ghost block: seq<Byte>)
    requires base + |block| <= |whole| && off + n <= |block|
    requires dst[..] == Patch(whole, base, block)
    requires srcAt + n <= src.Length
    requires dst != src || base + |block| <= srcAt || srcAt + n <= base
    modifies dst
    ensures dst[..] == Patch(whole, base, Patch(block, off, old(src[srcAt..srcAt + n])))
    ensures dst == src ==> src[srcAt..srcAt + n] == old(src[srcAt..srcAt + n])
  {
    hide Patch;
    ghost var b := src[srcAt..srcAt + n];
    CopyBytes(dst, base + off, src, srcAt, n);
    PatchInside(whole, base, block, off, b);
    if dst == src {
      PatchElsewhere(old(dst[..]), base + off, b, srcAt, srcAt + n);
    }
  }
}
