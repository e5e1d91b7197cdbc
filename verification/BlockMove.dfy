/** Overlapping block moves of klibc.c.  Memory is one array of bytes and a pointer is an index into
    it, so source and destination may overlap in any way.
 */
module BlockMove {
  import opened Defs

  /** Memory with the `len` bytes at `src` copied to `dst`, as if through a buffer. */
  function Moved(m: seq<Byte>, dst: nat, src: nat, len: nat): seq<Byte>
    requires src + len <= |m| && dst + len <= |m|
  {
    m[..dst] + m[src..src + len] + m[dst + len..]
  }

  /** Bytes from `lo` to `hi` of the destination hold the old source; everything else is unchanged. */
  ghost predicate PartlyMoved(before: seq<Byte>, after: seq<Byte>, dst: nat, src: nat, lo: nat, hi: nat) {
    && |after| == |before| && lo <= hi && src + hi <= |before| && dst + hi <= |before|
    && (forall k :: dst + lo <= k < dst + hi ==> after[k] == before[k - dst + src])
    && (forall k :: 0 <= k < |after| && !(dst + lo <= k < dst + hi) ==> after[k] == before[k])
  }

  lemma AllMoved(before: seq<Byte>, after: seq<Byte>, dst: nat, src: nat, len: nat)
    requires PartlyMoved(before, after, dst, src, 0, len)
    ensures after == Moved(before, dst, src, len)
  {
    forall k | 0 <= k < |after|
      ensures after[k] == Moved(before, dst, src, len)[k]
    {
      MovedBytes(before, dst, src, len, k);
    }
  }

  /** Which bytes a move changes: the destination gets the old source, whatever the overlap. */
  lemma MovedBytes(m: seq<Byte>, dst: nat, src: nat, len: nat, k: nat)
    requires src + len <= |m| && dst + len <= |m| && k < |m|
    ensures |Moved(m, dst, src, len)| == |m|
    ensures Moved(m, dst, src, len)[k] == if dst <= k < dst + len then m[k - dst + src] else m[k]
  {
  }

  method Memmove(mem: array<Byte>, dst: nat, src: nat, len: nat)
    requires src + len <= mem.Length && dst + len <= mem.Length
    modifies mem
    ensures mem[..] == Moved(old(mem[..]), dst, src, len)
  {
    ghost var before := mem[..];
    if src < dst && src + len > dst {
      var n := len;
      while n > 0
        invariant 0 <= n <= len && PartlyMoved(before, mem[..], dst, src, n, len)
      {
        n := n - 1;
        assert mem[..][src + n] == before[src + n];
        mem[dst + n] := mem[src + n];
      }
    } else {
      var n := 0;
      while n < len
        invariant 0 <= n <= len && PartlyMoved(before, mem[..], dst, src, 0, n)
      {
        assert mem[..][src + n] == before[src + n];
        mem[dst + n] := mem[src + n];
        n := n + 1;
      }
    }
    AllMoved(before, mem[..], dst, src, len);
  }

  /** A 32-bit load and store. */
  method CopyWord(mem: array<Byte>, dst: nat, src: nat)
    requires src + 4 <= mem.Length && dst + 4 <= mem.Length
    modifies mem
    ensures forall k :: dst <= k < dst + 4 ==> mem[k] == old(mem[..])[k - dst + src]
    ensures forall k :: 0 <= k < mem.Length && !(dst <= k < dst + 4) ==> mem[k] == old(mem[..])[k]
  {
    var b0, b1, b2, b3 := mem[src], mem[src + 1], mem[src + 2], mem[src + 3];
    mem[dst], mem[dst + 1], mem[dst + 2], mem[dst + 3] := b0, b1, b2, b3;
  }

  /** The word-at-a-time move has exactly the effect of the byte-wise one. */
  method Blkmov(mem: array<Byte>, dst: nat, src: nat, len: nat)
    requires src + len <= mem.Length && dst + len <= mem.Length
    modifies mem
    ensures mem[..] == Moved(old(mem[..]), dst, src, len)
  {
    if dst % 4 != 0 || src % 4 != 0 || len % 4 != 0 {
      Memmove(mem, dst, src, len);
      return;
    }
    ghost var before := mem[..];
    var words := len / 4;
    if src < dst && src + 4 * words > dst {
      BackwardWords(mem, dst, src, words);
    } else {
      ForwardWords(mem, dst, src, words);
    }
    AllMoved(before, mem[..], dst, src, len);
  }

  method BackwardWords(mem: array<Byte>, dst: nat, src: nat, words: nat)
    requires src + 4 * words <= mem.Length && dst + 4 * words <= mem.Length && src < dst
    requires src % 4 == 0 && dst % 4 == 0
    modifies mem
    ensures PartlyMoved(old(mem[..]), mem[..], dst, src, 0, 4 * words)
  {
    ghost var before := mem[..];
    var n := words;
    while n > 0
      invariant 0 <= n <= words && PartlyMoved(before, mem[..], dst, src, 4 * n, 4 * words)
    {
      n := n - 1;
      CopyWord(mem, dst + 4 * n, src + 4 * n);
    }
  }

  method ForwardWords(mem: array<Byte>, dst: nat, src: nat, words: nat)
    requires src + 4 * words <= mem.Length && dst + 4 * words <= mem.Length
    requires dst <= src || src + 4 * words <= dst
    modifies mem
    ensures PartlyMoved(old(mem[..]), mem[..], dst, src, 0, 4 * words)
  {
    ghost var before := mem[..];
    var n := 0;
    while n < words
      invariant 0 <= n <= words && PartlyMoved(before, mem[..], dst, src, 0, 4 * n)
    {
      CopyWord(mem, dst + 4 * n, src + 4 * n);
      n := n + 1;
    }
  }
}
