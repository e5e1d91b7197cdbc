/** The Internet checksum of ipv4.c: one's-complement sums of 16-bit words as in sections 1 and 2 of
    RFC 1071.  Words are read in host (little-endian) order.
 */
module Checksum {
  import opened Defs

  /** Sum of the words, low byte first; a left-over byte counts as the low byte of a last word. */
  function SumLow(buf: seq<Byte>): nat {
    if |buf| == 0 then 0
    else if |buf| == 1 then buf[0]
    else buf[0] + 256 * buf[1] + SumLow(buf[2..])
  }

  /** Sum of the words, high byte first; a left-over byte is the high byte of a last word. */
  function SumHigh(buf: seq<Byte>): nat {
    if |buf| == 0 then 0
    else if |buf| == 1 then 256 * buf[0]
    else 256 * buf[0] + buf[1] + SumHigh(buf[2..])
  }

  /** One round of folding: the carry is added to the low half. */
  function FoldOnce(s: nat): nat {
    s % 65536 + s / 65536
  }

  /** Fold until the sum fits 16 bits. */
  function Fold(s: nat): (r: nat)
    ensures r < 65536
  {
    if s < 65536 then s else Fold(FoldOnce(s))
  }

  function Checksum(sum: nat): nat {
    65535 - Fold(sum)
  }

  function Swap(w: nat): nat
    requires w < 65536
  {
    (w % 256) * 256 + w / 256
  }

  // ----- folding is reduction modulo 65535

  lemma FoldOnceCongruent(s: nat)
    ensures s == FoldOnce(s) + 65535 * (s / 65536)
    ensures s > 0 ==> FoldOnce(s) > 0
  {
  }

  /** `Fold` keeps the residue modulo 65535 and represents 0 as 65535, except for 0 itself. */
  lemma {:induction false} FoldQuotient(s: nat) returns (q: nat)
    ensures s == Fold(s) + 65535 * q
    ensures Fold(s) == 0 <==> s == 0
    decreases s
  {
    if s < 65536 {
      q := 0;
    } else {
      FoldOnceCongruent(s);
      q := FoldQuotient(FoldOnce(s));
      q := q + s / 65536;
    }
  }

  /** Residues between 1 and 65535 are unique. */
  lemma SameResidue(r: nat, t: nat, q: int)
    requires r < 65536 && t < 65536 && r - t == 65535 * q && (r == 0 <==> t == 0)
    ensures r == t
  {
  }

  /** Equal residues fold to the same word. */
  lemma FoldUnique(s: nat, t: nat, q: int)
    requires s - t == 65535 * q && (s == 0 <==> t == 0)
    ensures Fold(s) == Fold(t)
  {
    var u := FoldQuotient(s);
    var v := FoldQuotient(t);
    SameResidue(Fold(s), Fold(t), q - u + v);
  }

  /** A 32-bit sum needs at most two rounds. */
  lemma TwoRounds(s: nat)
    requires s < TWO_32
    ensures FoldOnce(FoldOnce(s)) < 65536 && Fold(s) == FoldOnce(FoldOnce(s))
  {
    assert FoldOnce(s) <= 131070;
    assert s < 65536 ==> FoldOnce(s) == s;
    assert FoldOnce(s) < 65536 ==> FoldOnce(FoldOnce(s)) == FoldOnce(s);
  }

  /** The receiver's test: the sum of the words and the checksum folds to 0xFFFF. */
  lemma ChecksumVerifies(sum: nat)
    ensures Fold(sum + Checksum(sum)) == 65535
  {
    var q := FoldQuotient(sum);
    FoldUnique(sum + Checksum(sum), 65535, q);
  }

  // ----- byte order

  lemma SwapResidue(w: nat) returns (q: int)
    requires w < 65536
    ensures Swap(w) == 256 * w - 65535 * q
    ensures Swap(w) < 65536 && (Swap(w) == 0 <==> w == 0)
  {
    q := w / 256;
  }

  /** Reading all words the other way round multiplies the sum by 256 modulo 65535. */
  lemma {:induction false} SumsCongruent(buf: seq<Byte>) returns (q: nat)
    ensures 256 * SumLow(buf) == SumHigh(buf) + 65535 * q
    ensures SumHigh(buf) == 0 <==> SumLow(buf) == 0
    decreases |buf|
  {
    if |buf| <= 1 {
      q := 0;
    } else {
      q := SumsCongruent(buf[2..]);
      q := q + buf[1];
    }
  }

  /** Byte-swapping all words byte-swaps the folded sum, for even and odd buffers. */
  lemma FoldSwaps(buf: seq<Byte>)
    ensures Fold(SumHigh(buf)) == Swap(Fold(SumLow(buf)))
  {
    var q := SumsCongruent(buf);
    var u := FoldQuotient(SumLow(buf));
    var v := FoldQuotient(SumHigh(buf));
    var w := SwapResidue(Fold(SumLow(buf)));
    SameResidue(Fold(SumHigh(buf)), Swap(Fold(SumLow(buf))), 256 * u - q - v + w);
  }

  lemma SwapComplement(w: nat)
    requires w < 65536
    ensures Swap(65535 - w) == 65535 - Swap(w)
  {
    var hi, lo := w / 256, w % 256;
    assert 65535 - w == 256 * (255 - hi) + (255 - lo);
  }

  /** Byte-order independence of the checksum (section 2 (B) of RFC 1071). */
  lemma ChecksumSwaps(buf: seq<Byte>)
    ensures Checksum(SumHigh(buf)) == Swap(Checksum(SumLow(buf)))
  {
    FoldSwaps(buf);
    SwapComplement(Fold(SumLow(buf)));
  }

  /** A left-over byte counts as if a zero byte followed it. */
  lemma {:induction false} OddIsPadded(buf: seq<Byte>)
    requires |buf| % 2 == 1
    ensures SumLow(buf) == SumLow(buf + [0]) && SumHigh(buf) == SumHigh(buf + [0])
    decreases |buf|
  {
    if |buf| == 1 {
      assert (buf + [0])[2..] == [];
    } else {
      OddIsPadded(buf[2..]);
      assert (buf + [0])[2..] == buf[2..] + [0];
    }
  }

  /** An even buffer is a sequence of words, each with its low byte first or with its high byte first. */
  lemma WordSums(buf: seq<Byte>)
    requires |buf| >= 2
    ensures SumLow(buf) == buf[0] as nat + 256 * buf[1] as nat + SumLow(buf[2..])
    ensures SumHigh(buf) == 256 * buf[0] as nat + buf[1] as nat + SumHigh(buf[2..])
  {
  }

  // ----- the serialised header

  lemma {:induction false} SumUpdate(buf: seq<Byte>, i: nat, lo: Byte, hi: Byte)
    requires 2 * i + 1 < |buf| && buf[2 * i] == 0 && buf[2 * i + 1] == 0
    ensures SumLow(buf[2 * i := lo][2 * i + 1 := hi]) == SumLow(buf) + lo + 256 * hi
    decreases i
  {
    var b := buf[2 * i := lo][2 * i + 1 := hi];
    if i == 0 {
      assert b[2..] == buf[2..];
    } else {
      SumUpdate(buf[2..], i - 1, lo, hi);
      assert b[2..] == buf[2..][2 * (i - 1) := lo][2 * (i - 1) + 1 := hi];
    }
  }

  /** The header as the serialiser leaves it: the checksum is stored high byte first. */
  function Stored(buf: seq<Byte>, i: nat): seq<Byte>
    requires 2 * i + 1 < |buf|
  {
    var c := Checksum(SumLow(buf));
    buf[2 * i := c / 256][2 * i + 1 := c % 256]
  }

  /** Since the words were summed low byte first, that is right only when the two bytes are equal. */
  lemma StoredBytesEqual(buf: seq<Byte>, i: nat)
    requires 2 * i + 1 < |buf| && buf[2 * i] == 0 && buf[2 * i + 1] == 0
    ensures var c := Checksum(SumLow(buf)); Fold(SumLow(Stored(buf, i))) == 65535 <==> c / 256 == c % 256
  {
    var s := SumLow(buf);
    var c := Checksum(s);
    SumUpdate(buf, i, c / 256, c % 256);
    var t := s + c / 256 + 256 * (c % 256);
    var q := FoldQuotient(s);
    if c / 256 == c % 256 {
      assert t == s + c;
      ChecksumVerifies(s);
    } else {
      var u := FoldQuotient(t);
      NotMultiple(c / 256, c % 256);
      var d: int, e: int := c % 256, q;
      assert Fold(t) - 65535 == 255 * (d - c / 256) + 65535 * (e - u);
    }
  }

  lemma EqualBytes(c: nat)
    requires c < 65536
    ensures c / 256 == c % 256 <==> c % 257 == 0
  {
    var h: int, l: int := c / 256, c % 256;
    assert c == 257 * h + (l - h);
    if l >= h {
      assert c % 257 == l - h;
    } else {
      assert c == 257 * (h - 1) + (257 + l - h);
      assert c % 257 == 257 + l - h;
    }
  }

  /** The stored header passes the receiver's test exactly when the sum of its words is a multiple of 257. */
  lemma StoredHeaderVerifies(buf: seq<Byte>, i: nat)
    requires 2 * i + 1 < |buf| && buf[2 * i] == 0 && buf[2 * i + 1] == 0
    ensures Fold(SumLow(Stored(buf, i))) == 65535 <==> SumLow(buf) % 257 == 0
  {
    var s := SumLow(buf);
    var q := FoldQuotient(s);
    StoredBytesEqual(buf, i);
    EqualBytes(Checksum(s));
    Modulo257(s, q, Fold(s));
  }

  lemma Modulo257(s: nat, q: nat, f: nat)
    requires s == f + 65535 * q && f < 65536
    ensures s % 257 == 0 <==> (65535 - f) % 257 == 0
  {
    assert s == f + 257 * (255 * q);
    assert 65535 - f == 257 * 255 - f;
    var d, r := f / 257, f % 257;
    assert s == 257 * (d + 255 * q) + r;
    assert s % 257 == r;
    if r == 0 {
      assert 65535 - f == 257 * (255 - d);
    } else {
      assert 65535 - f == 257 * (254 - d) + (257 - r);
    }
  }

  /** The header of a datagram from 10.0.0.1 to 10.0.0.2, before its checksum is stored. */
  predicate Ordinary(buf: seq<Byte>) {
    buf == [0x45, 0, 0, 20, 0, 0, 0, 0, 64, 17, 0, 0, 10, 0, 0, 1, 10, 0, 0, 2]
  }

  lemma WordFirst(buf: seq<Byte>, k: nat)
    requires k + 2 <= |buf|
    ensures SumLow(buf[k..]) == buf[k] as nat + 256 * buf[k + 1] as nat + SumLow(buf[k + 2..])
  {
    assert buf[k..][2..] == buf[k + 2..];
  }

  lemma UpperHalf(buf: seq<Byte>)
    requires Ordinary(buf)
    ensures SumLow(buf[10..]) == 788
  {
    assert buf[20..] == [];
    WordFirst(buf, 18);
    WordFirst(buf, 16);
    WordFirst(buf, 14);
    WordFirst(buf, 12);
    WordFirst(buf, 10);
  }

  lemma OrdinarySum(buf: seq<Byte>)
    requires Ordinary(buf)
    ensures SumLow(buf) == 40 * 257 + 113
  {
    UpperHalf(buf);
    assert buf[0..] == buf;
    WordFirst(buf, 8);
    WordFirst(buf, 6);
    WordFirst(buf, 4);
    WordFirst(buf, 2);
    WordFirst(buf, 0);
  }

  /** That header does not pass once its checksum is stored. */
  lemma OrdinaryHeaderFails(buf: seq<Byte>)
    requires Ordinary(buf)
    ensures Fold(SumLow(Stored(buf, 5))) != 65535
  {
    OrdinarySum(buf);
    StoredHeaderVerifies(buf, 5);
  }

  /** 255 * d is no multiple of 65535 for 0 < |d| < 256. */
  lemma NotMultiple(x: Byte, y: Byte)
    requires x != y
    ensures forall q :: 255 * (y - x) + 65535 * q != 0
  {
    forall q
      ensures 255 * (y - x) + 65535 * q != 0
    {
      assert 255 * (y - x) + 65535 * q == 255 * ((y - x) + 257 * q);
    }
  }

  // ----- the code

  /** ipv4_calculate_checksum, with 32-bit accumulation. */
  method Calculate(header: seq<Byte>) returns (checksum: nat, ghost rounds: nat)
    ensures SumLow(header) < TWO_32 ==> checksum == Checksum(SumLow(header)) && rounds <= 2
    ensures checksum < 65536
  {
    var sum, i := 0, 0;
    ghost var total := SumLow(header);
    assert header[0..] == header;
    while i + 1 < |header|
      invariant 0 <= i <= |header| && 0 <= sum < TWO_32
      invariant total < TWO_32 ==> sum + SumLow(header[i..]) == total
    {
      assert header[i..][2..] == header[i + 2..];
      var hi: nat := header[i + 1];
      var word := 256 * hi + header[i];
      Below(sum, word);
      sum := (sum + word) % TWO_32;
      i := i + 2;
    }
    if i < |header| {
      Below(sum, header[i]);
      sum := (sum + header[i]) % TWO_32;
    }
    rounds := 0;
    ghost var s0 := sum;
    while sum >= 65536
      invariant 0 <= sum < TWO_32 && Fold(sum) == Fold(s0)
      invariant sum == if rounds == 0 then s0 else if rounds == 1 then FoldOnce(s0) else FoldOnce(FoldOnce(s0))
      invariant rounds <= 2
      decreases sum
    {
      TwoRounds(s0);
      sum := sum % 65536 + sum / 65536;
      rounds := rounds + 1;
    }
    checksum := 65535 - sum;
  }

  lemma Below(s: nat, n: nat)
    ensures s + n < TWO_32 ==> (s + n) % TWO_32 == s + n
  {
  }
}
