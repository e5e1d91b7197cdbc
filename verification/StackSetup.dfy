/** The initial stack of a process, as user.c builds it: argument strings, argv array, argc, a fake
    return address and a context, written downwards from the end of the stack.  The stack is an array of
    bytes whose first byte has address `base`; words are 32-bit little-endian.
 */
module StackSetup {
  import opened Defs

  const N_ARGS := 10
  const SZ_USTACK := 8192
  const SZ_CONTEXT := 72

  const GDT_CODE := 0x10
  const GDT_DATA := 0x18
  const GDT_STACK := 0x20
  const DEFAULT_EFLAGS := 0x202

  // ----- reading memory, as the started program does

  function Word(m: seq<Byte>, i: nat): nat
    requires i + 4 <= |m|
  {
    Little(m[i..i + 4])
  }

  /** The value of bytes, least significant first. */
  function Little(bs: seq<Byte>): nat {
    if bs == [] then 0 else bs[0] as nat + 0x100 * Little(bs[1..])
  }

  /** The word at an address; zero outside the stack. */
  function Load(m: seq<Byte>, base: nat, addr: int): nat {
    if base <= addr && addr + 4 <= base + |m| then Word(m, addr - base) else 0
  }

  /** The bytes before the first NUL. */
  function CString(m: seq<Byte>, i: nat): seq<Byte>
    decreases |m| - i
  {
    if i >= |m| || m[i] == 0 then [] else [m[i]] + CString(m, i + 1)
  }

  function LoadString(m: seq<Byte>, base: nat, addr: int): seq<Byte> {
    if base <= addr then CString(m, addr - base) else []
  }

  /** What main() finds when its first parameter is at `addr`: argc strings through argv. */
  function Arguments(m: seq<Byte>, base: nat, addr: int): seq<seq<Byte>> {
    Vector(m, base, Load(m, base, addr + 4), Load(m, base, addr))
  }

  /** The strings argv[0] to argv[n - 1]. */
  function Vector(m: seq<Byte>, base: nat, argv: int, n: nat): seq<seq<Byte>> {
    if n == 0 then []
    else Vector(m, base, argv, n - 1) + [LoadString(m, base, Load(m, base, argv + 4 * (n - 1)))]
  }

  /** Words are little-endian. */
  lemma LittleEndian(m: seq<Byte>, i: nat)
    requires i + 4 <= |m|
    ensures Word(m, i) ==
      m[i] as nat + 0x100 * m[i + 1] as nat + 0x1_0000 * m[i + 2] as nat + 0x100_0000 * m[i + 3] as nat
  {
    FourBytes(m[i..i + 4]);
  }

  lemma FourBytes(s: seq<Byte>)
    requires |s| == 4
    ensures Little(s) == s[0] as nat + 0x100 * s[1] as nat + 0x1_0000 * s[2] as nat + 0x100_0000 * s[3] as nat
  {
    var s1, s2, s3 := s[1..], s[2..], s[3..];
    assert s1[1..] == s2 && s2[1..] == s3 && s3[1..] == [];
    assert Little(s3) == s[3] as nat;
    assert Little(s2) == s[2] as nat + 0x100 * Little(s3);
    assert Little(s1) == s[1] as nat + 0x100 * Little(s2);
  }

  /** A string ends before the first NUL. */
  lemma {:induction false} EndsAtNul(m: seq<Byte>, i: nat)
    requires i <= |m|
    ensures var s := CString(m, i);
      && i + |s| <= |m| && s == m[i..i + |s|] && NoNul(s) && (i + |s| < |m| ==> m[i + |s|] == 0)
    decreases |m| - i
  {
    if i < |m| && m[i] != 0 {
      EndsAtNul(m, i + 1);
    }
  }

  // ----- what is written

  /** Where string `i` starts among the gathered strings. */
  function Offset(args: seq<seq<Byte>>, i: nat): nat
    requires i <= |args|
  {
    if i == 0 then 0 else Offset(args, i - 1) + |args[i - 1]| + 1
  }

  /** The bytes of all strings, each with its NUL. */
  function Total(args: seq<seq<Byte>>): nat {
    Offset(args, |args|)
  }

  /** How many arguments are taken while `room` bytes are left. */
  function Taken(args: seq<seq<Byte>>, room: nat): (n: nat)
    ensures n <= |args|
  {
    if args == [] || |args[0]| + 1 > room then 0 else 1 + Taken(args[1..], room - |args[0]| - 1)
  }

  function FitCount(args: seq<seq<Byte>>): (n: nat)
    ensures n <= |args|
  {
    Taken(args, SZ_PAGE)
  }

  function Kept(args: seq<seq<Byte>>): seq<seq<Byte>> {
    args[..FitCount(args)]
  }

  predicate NoNul(s: seq<Byte>) {
    forall k :: 0 <= k < |s| ==> s[k] != 0
  }

  /** Strings without NULs, and no more of them than the local arrays of the code have room for. */
  predicate ArgsOk(args: seq<seq<Byte>>) {
    && (forall i :: 0 <= i < |args| ==> NoNul(args[i]))
    && (|args| <= N_ARGS || FitCount(args) < N_ARGS)
  }

  /** How often the body of the counting loop is entered, from a given state on. */
  function Rounds(args: seq<seq<Byte>>, argc: nat, argbytes: nat): nat
    requires argc <= |args|
    decreases |args| - argc
  {
    if argc == |args| then 0
    else if argbytes + |args[argc]| + 1 > SZ_PAGE then 1
    else 1 + Rounds(args, argc + 1, argbytes + |args[argc]| + 1)
  }

  lemma {:induction false} RoundsFrom(args: seq<seq<Byte>>, argc: nat)
    requires argc <= FitCount(args)
    ensures Rounds(args, argc, Offset(args, argc)) + argc == if FitCount(args) == |args| then |args| else FitCount(args) + 1
    decreases |args| - argc
  {
    if argc < |args| {
      TakenIsLongest(args, SZ_PAGE, argc + 1);
      if argc < FitCount(args) {
        RoundsFrom(args, argc + 1);
      }
    }
  }

  /** Each round writes the next element of the ten-element arrays, so they are exceeded exactly when there are
      more than ten arguments and at least ten of them fit a page. */
  lemma ArraysSuffice(args: seq<seq<Byte>>)
    ensures Rounds(args, 0, 0) <= N_ARGS <==> |args| <= N_ARGS || FitCount(args) < N_ARGS
  {
    RoundsFrom(args, 0);
  }

  /** Eleven empty arguments already exceed the arrays. */
  lemma ElevenAreTooMany(args: seq<seq<Byte>>)
    requires |args| == 11 && forall i :: 0 <= i < |args| ==> args[i] == []
    ensures Rounds(args, 0, 0) == 11 > N_ARGS
  {
    ShortOffset(args, 11);
    TakenIsLongest(args, SZ_PAGE, 11);
    RoundsFrom(args, 0);
  }

  lemma {:induction false} ShortOffset(args: seq<seq<Byte>>, n: nat)
    requires n <= |args| && forall i :: 0 <= i < |args| ==> args[i] == []
    ensures Offset(args, n) == n
  {
    if n > 0 {
      ShortOffset(args, n - 1);
    }
  }

  /** Round down to a multiple of a power of two, which is what masking the low bits does. */
  function Down(a: int, n: nat): int
    requires n > 0
  {
    a - a % n
  }

  function RoundUp4(n: int): int {
    Down(n + 3, 4)
  }

  // ----- the longest prefix that fits a page

  lemma {:induction false} OffsetSame(a: seq<seq<Byte>>, b: seq<seq<Byte>>, i: nat)
    requires i <= |a| && i <= |b| && a[..i] == b[..i]
    ensures Offset(a, i) == Offset(b, i)
  {
    if i > 0 {
      assert a[..i - 1] == a[..i][..i - 1] && b[..i - 1] == b[..i][..i - 1];
      assert a[..i][i - 1] == b[..i][i - 1];
      OffsetSame(a, b, i - 1);
    }
  }

  lemma {:induction false} OffsetFirst(args: seq<seq<Byte>>, i: nat)
    requires 0 < i <= |args|
    ensures Offset(args, i) == |args[0]| + 1 + Offset(args[1..], i - 1)
  {
    if i > 1 {
      OffsetFirst(args, i - 1);
    }
  }

  lemma {:induction false} OffsetGrows(args: seq<seq<Byte>>, i: nat, n: nat)
    requires i < n <= |args|
    ensures Offset(args, i) + |args[i]| + 1 <= Offset(args, n)
  {
    if i + 1 < n {
      OffsetGrows(args, i, n - 1);
    }
  }

  lemma {:induction false} TakenIsLongest(args: seq<seq<Byte>>, room: nat, n: nat)
    requires n <= |args|
    ensures n <= Taken(args, room) <==> Offset(args, n) <= room
  {
    if n > 0 {
      OffsetFirst(args, n);
      if |args[0]| + 1 <= room {
        TakenIsLongest(args[1..], room - |args[0]| - 1, n - 1);
      }
    }
  }

  /** The arguments kept are the longest prefix whose NUL-terminated total is at most one page. */
  lemma LongestPrefix(args: seq<seq<Byte>>, n: nat)
    requires n <= |args|
    ensures n <= |Kept(args)| <==> Total(args[..n]) <= SZ_PAGE
  {
    assert args[..n] == args[..n][..n];
    OffsetSame(args, args[..n], n);
    TakenIsLongest(args, SZ_PAGE, n);
  }

  // ----- layout

  function StringsBelow(end: int, argbytes: int): int {
    Down(end - 4 - argbytes, 4)
  }

  function VectorBelow(strings: int, argc: int): int {
    Down(strings - 4 * (argc + 3), 16)
  }

  ghost function StrAddr(base: nat, args: seq<seq<Byte>>): int {
    StringsBelow(base + SZ_USTACK, RoundUp4(Total(Kept(args))))
  }

  ghost function ArgcAddr(base: nat, args: seq<seq<Byte>>): int {
    VectorBelow(StrAddr(base, args), |Kept(args)|)
  }

  /** From the end down: a zero word, the strings, the argv array, argv, argc on a 16-byte boundary, the
      return address, the context.  No two areas overlap and all lie within the stack. */
  lemma LayoutFits(base: nat, args: seq<seq<Byte>>)
    requires ArgsOk(args)
    ensures |Kept(args)| <= N_ARGS && Total(Kept(args)) <= RoundUp4(Total(Kept(args))) <= SZ_PAGE
    ensures StrAddr(base, args) + RoundUp4(Total(Kept(args))) <= base + SZ_USTACK - 4
    ensures ArgcAddr(base, args) + 4 * (|Kept(args)| + 3) <= StrAddr(base, args)
    ensures ArgcAddr(base, args) % 16 == 0 && base + 4 + SZ_CONTEXT <= ArgcAddr(base, args)
  {
    LongestPrefix(args, FitCount(args));
  }

  lemma DownIsNearest(a: int, n: nat)
    requires n > 0
    ensures Down(a, n) % n == 0 && a - n < Down(a, n) <= a
  {
    var q := a / n;
    assert a == n * q + a % n;
    assert (n * q) % n == 0 by {
      Multiple(n, q);
    }
  }

  lemma Multiple(n: nat, q: int)
    requires n > 0
    ensures (n * q) % n == 0
  {
    var k := (n * q) / n - q;
    assert n * q == n * ((n * q) / n) + (n * q) % n;
    assert n * ((n * q) / n) - n * q == n * k;
    assert k >= 0 ==> n * k >= 0;
    assert k <= -1 ==> n * k <= -(n as int);
  }

  /** No space is wasted: the strings start at the highest multiple of four at which they fit. */
  lemma StringsTight(end: int, n: nat)
    ensures RoundUp4(n) % 4 == 0 && n <= RoundUp4(n) < n + 4
    ensures StringsBelow(end, n) % 4 == 0 && StringsBelow(end, n) + n <= end - 4 < StringsBelow(end, n) + n + 4
  {
    DownIsNearest(n + 3, 4);
    DownIsNearest(end - 4 - n, 4);
  }

  /** And argc is at the highest multiple of sixteen at which the argument vector fits below them. */
  lemma VectorTight(strings: int, argc: nat)
    ensures VectorBelow(strings, argc) % 16 == 0
    ensures VectorBelow(strings, argc) + 4 * (argc + 3) <= strings < VectorBelow(strings, argc) + 4 * (argc + 3) + 16
  {
    DownIsNearest(strings - 4 * (argc + 3), 16);
  }

  // ----- writes and what they leave alone

  ghost predicate Holds(m: seq<Byte>, off: int, bs: seq<Byte>) {
    0 <= off && off + |bs| <= |m| && m[off..off + |bs|] == bs
  }

  ghost predicate OnlyIn(m: seq<Byte>, m': seq<Byte>, lo: int, hi: int) {
    |m| == |m'| && 0 <= lo <= hi <= |m| && m'[..lo] == m[..lo] && m'[hi..] == m[hi..]
  }

  ghost predicate WordsKept(m: seq<Byte>, m': seq<Byte>, lo: int, hi: int) {
    && |m| == |m'|
    && (forall j {:trigger Word(m', j)} ::
          0 <= j && j + 4 <= |m'| && (j + 4 <= lo || hi <= j) ==> Word(m', j) == Word(m, j))
  }

  lemma SliceOfSlice(m: seq<Byte>, lo: nat, hi: nat, a: nat, b: nat)
    requires lo <= hi <= |m| && a <= b <= hi - lo
    ensures m[lo..hi][a..b] == m[lo + a..lo + b]
  {
    var s := m[lo..hi];
    forall k | 0 <= k < b - a
      ensures s[a..b][k] == m[lo + a..lo + b][k]
    {
      assert s[a + k] == m[lo + a + k];
    }
  }

  lemma TailSlice(m: seq<Byte>, hi: nat, a: nat, b: nat)
    requires hi <= a <= b <= |m|
    ensures m[hi..][a - hi..b - hi] == m[a..b]
  {
  }

  lemma SliceKept(m: seq<Byte>, m': seq<Byte>, lo: int, hi: int, a: int, b: int)
    requires OnlyIn(m, m', lo, hi) && 0 <= a <= b <= |m| && (b <= lo || hi <= a)
    ensures m'[a..b] == m[a..b]
  {
    if b <= lo {
      assert m'[a..b] == m'[..lo][a..b] == m[..lo][a..b] == m[a..b];
    } else {
      TailSlice(m, hi, a, b);
      TailSlice(m', hi, a, b);
    }
  }

  lemma StillHolds(m: seq<Byte>, m': seq<Byte>, lo: int, hi: int, off: int, bs: seq<Byte>)
    requires OnlyIn(m, m', lo, hi) && Holds(m, off, bs) && (hi <= off || off + |bs| <= lo)
    ensures Holds(m', off, bs)
  {
    SliceKept(m, m', lo, hi, off, off + |bs|);
  }

  lemma HoldsMoved(m: seq<Byte>, m': seq<Byte>, off: int, a: int, bs: seq<Byte>)
    requires Holds(m', off, m) && Holds(m, a, bs)
    ensures Holds(m', off + a, bs)
  {
    SliceOfSlice(m', off, off + |m|, a, a + |bs|);
  }

  lemma OnlyInWords(m: seq<Byte>, m': seq<Byte>, lo: int, hi: int)
    requires OnlyIn(m, m', lo, hi)
    ensures WordsKept(m, m', lo, hi)
  {
    forall j {:trigger Word(m', j)} | 0 <= j && j + 4 <= |m'| && (j + 4 <= lo || hi <= j)
      ensures Word(m', j) == Word(m, j)
    {
      SliceKept(m, m', lo, hi, j, j + 4);
    }
  }

  lemma OnlyInWider(m: seq<Byte>, m': seq<Byte>, m'': seq<Byte>, a: int, b: int, c: int, d: int, lo: int, hi: int)
    requires OnlyIn(m, m', a, b) && OnlyIn(m', m'', c, d)
    requires 0 <= lo <= a && lo <= c && b <= hi <= |m| && d <= hi
    ensures OnlyIn(m, m'', lo, hi)
  {
    assert m''[..lo] == m''[..c][..lo] == m'[..c][..lo] == m'[..a][..lo] == m[..a][..lo] == m[..lo];
    assert m''[hi..] == m''[d..][hi - d..] == m'[d..][hi - d..] == m'[b..][hi - b..] == m[b..][hi - b..] == m[hi..];
  }

  lemma HoldsPart(m: seq<Byte>, off: int, a: seq<Byte>, b: seq<Byte>, c: seq<Byte>)
    requires Holds(m, off, a + b + c)
    ensures Holds(m, off + |a|, b)
  {
    var all := a + b + c;
    SliceOfSlice(m, off, off + |all|, |a|, |a| + |b|);
    assert all[|a|..|a| + |b|] == b;
  }

  lemma {:induction false} StringBack(m: seq<Byte>, off: int, s: seq<Byte>)
    requires NoNul(s) && Holds(m, off, s + [0])
    ensures CString(m, off) == s
    decreases |s|
  {
    var all := s + [0];
    assert m[off] == all[0] by {
      assert m[off..off + |all|][0] == m[off];
    }
    if s != [] {
      HoldsPart(m, off, [s[0]], s[1..] + [0], []);
      assert [s[0]] + (s[1..] + [0]) + [] == all;
      StringBack(m, off + 1, s[1..]);
    }
  }

  lemma WordOfBytes(w: nat)
    requires w < TWO_32
    ensures w / 0x100_0000 < 0x100
    ensures Little([w % 0x100, w / 0x100 % 0x100, w / 0x1_0000 % 0x100, w / 0x100_0000]) == w
  {
    var a := w / 0x100;
    var b := a / 0x100;
    var c := b / 0x100;
    assert w / 0x1_0000 == b && w / 0x100_0000 == c;
    LittleTwo(b % 0x100, c);
    var all := [w % 0x100, a % 0x100, b % 0x100, c];
    assert all[1..] == [a % 0x100, b % 0x100, c] && all[1..][1..] == [b % 0x100, c];
    assert Little(all[1..]) == a % 0x100 + 0x100 * b;
  }

  lemma LittleTwo(x: Byte, y: Byte)
    ensures Little([x, y]) == x as nat + 0x100 * y as nat
  {
    var two: seq<Byte> := [x, y];
    var one: seq<Byte> := [y];
    assert two[1..] == one && one[1..] == [];
    assert Little(one) == y as nat;
  }

  method StoreWord(mem: array<Byte>, off: nat, w: nat)
    requires off + 4 <= mem.Length && w < TWO_32
    modifies mem
    ensures Word(mem[..], off) == w
    ensures OnlyIn(old(mem[..]), mem[..], off, off + 4)
    ensures WordsKept(old(mem[..]), mem[..], off, off + 4)
  {
    WordOfBytes(w);
    var b0, b1, b2, b3 := w % 0x100, w / 0x100 % 0x100, w / 0x1_0000 % 0x100, w / 0x100_0000;
    mem[off], mem[off + 1], mem[off + 2], mem[off + 3] := b0, b1, b2, b3;
    assert mem[..][off..off + 4] == [b0, b1, b2, b3];
    OnlyInWords(old(mem[..]), mem[..], off, off + 4);
  }

  // ----- the code

  /** Count the arguments that fit, and their bytes. */
  method CountArgs(args: seq<seq<Byte>>) returns (argc: nat, argbytes: nat, strlengths: array<nat>, ghost rounds: nat)
    requires ArgsOk(args)
    ensures fresh(strlengths) && strlengths.Length == N_ARGS
    ensures argc == FitCount(args) <= N_ARGS && argbytes == Offset(args, argc) && rounds == Rounds(args, 0, 0)
    ensures forall i :: 0 <= i < argc ==> strlengths[i] == |args[i]| + 1
  {
    argc, argbytes, rounds := 0, 0, 0;
    strlengths := new nat[N_ARGS](_ => 0);
    ghost var total := Rounds(args, 0, 0);
    while argc < |args|
      invariant argc <= FitCount(args) && argbytes == Offset(args, argc)
      invariant rounds + Rounds(args, argc, argbytes) == total
      invariant forall i :: 0 <= i < argc ==> i < N_ARGS && strlengths[i] == |args[i]| + 1
    {
      OneRound(args, argc);
      rounds := rounds + 1;
      strlengths[argc] := |args[argc]| + 1;
      if argbytes + strlengths[argc] > SZ_PAGE {
        break;
      }
      argbytes := argbytes + strlengths[argc];
      argc := argc + 1;
    }
  }

  /** One round of the counting loop. */
  lemma OneRound(args: seq<seq<Byte>>, argc: nat)
    requires argc < |args| && argc <= FitCount(args)
    ensures var next := Offset(args, argc) + |args[argc]| + 1;
      && next == Offset(args, argc + 1) && (next <= SZ_PAGE <==> argc + 1 <= FitCount(args))
      && Rounds(args, argc, Offset(args, argc)) == if next > SZ_PAGE then 1 else 1 + Rounds(args, argc + 1, next)
  {
    TakenIsLongest(args, SZ_PAGE, argc + 1);
  }

  method CopyBytes(dst: array<Byte>, at: nat, src: seq<Byte>)
    requires at + |src| <= dst.Length
    modifies dst
    ensures Holds(dst[..], at, src) && OnlyIn(old(dst[..]), dst[..], at, at + |src|)
  {
    var i := 0;
    while i < |src|
      invariant i <= |src|
      invariant forall k :: at <= k < at + i ==> dst[k] == src[k - at]
      invariant forall k :: 0 <= k < dst.Length && !(at <= k < at + i) ==> dst[k] == old(dst[k])
    {
      dst[at + i] := src[i];
      i := i + 1;
    }
  }

  /** String `i` and its NUL, where it should be among strings gathered at `off`. */
  ghost predicate StringAt(m: seq<Byte>, off: int, args: seq<seq<Byte>>, i: int) {
    0 <= i < |args| && Holds(m, off + Offset(args, i), args[i] + [0])
  }

  ghost predicate StringsAt(m: seq<Byte>, off: int, args: seq<seq<Byte>>) {
    forall i :: 0 <= i < |args| ==> StringAt(m, off, args, i)
  }

  lemma StringStays(m: seq<Byte>, m': seq<Byte>, lo: int, hi: int, off: int, args: seq<seq<Byte>>, i: int)
    requires StringAt(m, off, args, i) && OnlyIn(m, m', lo, hi)
    requires hi <= off || off + Offset(args, i) + |args[i]| + 1 <= lo
    ensures StringAt(m', off, args, i)
  {
    StillHolds(m, m', lo, hi, off + Offset(args, i), args[i] + [0]);
  }

  lemma StringMoves(m: seq<Byte>, m': seq<Byte>, off: int, args: seq<seq<Byte>>, i: int)
    requires StringAt(m, 0, args, i) && Holds(m', off, m)
    ensures StringAt(m', off, args, i)
  {
    HoldsMoved(m, m', off, Offset(args, i), args[i] + [0]);
  }

  lemma OneMore(m: seq<Byte>, m': seq<Byte>, args: seq<seq<Byte>>, i: nat)
    requires i < |args| && OnlyIn(m, m', Offset(args, i), Offset(args, i) + |args[i]| + 1)
    requires forall j :: 0 <= j < i ==> StringAt(m, 0, args, j)
    requires Holds(m', Offset(args, i), args[i] + [0])
    ensures forall j :: 0 <= j < i + 1 ==> StringAt(m', 0, args, j)
  {
    var lo := Offset(args, i);
    forall j | 0 <= j < i
      ensures StringAt(m', 0, args, j)
    {
      OffsetGrows(args, j, i);
      StringStays(m, m', lo, lo + |args[i]| + 1, 0, args, j);
    }
    assert StringAt(m', 0, args, i);
  }

  /** Gather the strings in a buffer, noting where each one starts. */
  method CopyStrings(args: seq<seq<Byte>>, strlengths: array<nat>, argbytes: nat)
    returns (argstrings: array<Byte>, offsets: array<nat>)
    requires |args| <= N_ARGS <= strlengths.Length && Total(args) <= argbytes
    requires forall i :: 0 <= i < |args| ==> strlengths[i] == |args[i]| + 1
    ensures fresh(argstrings) && fresh(offsets) && argstrings.Length == argbytes && offsets.Length == N_ARGS
    ensures StringsAt(argstrings[..], 0, args)
    ensures forall i :: 0 <= i < |args| ==> offsets[i] == Offset(args, i)
  {
    argstrings := new Byte[argbytes](_ => 0);
    offsets := new nat[N_ARGS](_ => 0);
    var tmp, i := 0, 0;
    while i < |args|
      invariant i <= |args| && tmp == Offset(args, i)
      invariant forall j :: 0 <= j < i ==> StringAt(argstrings[..], 0, args, j)
      invariant forall j :: 0 <= j < i ==> offsets[j] == Offset(args, j)
    {
      OffsetGrows(args, i, |args|);
      ghost var last := argstrings[..];
      CopyBytes(argstrings, tmp, args[i] + [0]);
      OneMore(last, argstrings[..], args, i);
      offsets[i] := tmp;
      tmp := tmp + strlengths[i];
      i := i + 1;
    }
  }

  /** argc, argv, the argv array and its NULL. */
  method WriteVector(mem: array<Byte>, base: nat, at: nat, strings: nat, offsets: array<nat>, argc: nat)
    requires argc <= offsets.Length && at + 4 * (argc + 3) <= mem.Length && base + mem.Length <= TWO_32
    requires forall i :: 0 <= i < argc ==> strings + offsets[i] < TWO_32
    modifies mem
    ensures OnlyIn(old(mem[..]), mem[..], at, at + 4 * (argc + 3))
    ensures Word(mem[..], at) == argc && Word(mem[..], at + 4) == base + at + 8
    ensures forall i :: 0 <= i < argc ==> Word(mem[..], at + 8 + 4 * i) == strings + offsets[i]
    ensures Word(mem[..], at + 8 + 4 * argc) == 0
  {
    ghost var hi := at + 4 * (argc + 3);
    ghost var before := mem[..];
    StoreWord(mem, at, argc);
    ghost var last := mem[..];
    StoreWord(mem, at + 4, base + at + 8);
    OnlyInWider(before, last, mem[..], at, at + 4, at + 4, at + 8, at, hi);
    last := mem[..];
    var avptr := WriteEntries(mem, at + 8, strings, offsets, argc);
    OnlyInWords(last, mem[..], at + 8, avptr);
    OnlyInWider(before, last, mem[..], at, hi, at + 8, avptr, at, hi);
    last := mem[..];
    StoreWord(mem, avptr, 0);
    OnlyInWider(before, last, mem[..], at, hi, avptr, avptr + 4, at, hi);
  }

  method WriteEntries(mem: array<Byte>, at: nat, strings: nat, offsets: array<nat>, argc: nat) returns (avptr: nat)
    requires argc <= offsets.Length && at + 4 * argc <= mem.Length
    requires forall i :: 0 <= i < argc ==> strings + offsets[i] < TWO_32
    modifies mem
    ensures avptr == at + 4 * argc && OnlyIn(old(mem[..]), mem[..], at, avptr)
    ensures forall i :: 0 <= i < argc ==> Word(mem[..], at + 4 * i) == strings + offsets[i]
  {
    ghost var before := mem[..];
    avptr := at;
    var i := 0;
    while i < argc
      invariant i <= argc && avptr == at + 4 * i && OnlyIn(before, mem[..], at, avptr)
      invariant forall j :: 0 <= j < i ==> Word(mem[..], at + 4 * j) == strings + offsets[j]
    {
      ghost var last := mem[..];
      StoreWord(mem, avptr, strings + offsets[i]);
      OnlyInWider(before, last, mem[..], at, avptr, avptr, avptr + 4, at, avptr + 4);
      avptr := avptr + 4;
      i := i + 1;
    }
  }

  /** The context words below the return address; the other registers are left as they are. */
  method WriteContext(mem: array<Byte>, at: nat, entry: nat)
    requires at + SZ_CONTEXT <= mem.Length && entry < TWO_32
    modifies mem
    ensures OnlyIn(old(mem[..]), mem[..], at, at + SZ_CONTEXT)
    ensures ContextWords(mem[..], at, entry)
    ensures RegistersKept(old(mem[..]), mem[..], at)
  {
    ghost var before := mem[..];
    WriteReturnFrame(mem, at + 60, entry);
    ghost var framed := mem[..];
    OnlyInWords(before, framed, at + 60, at + 72);
    SliceKept(before, framed, at + 60, at + 72, at + 20, at + 60);
    WriteSegments(mem, at);
    SliceKept(framed, mem[..], at, at + 20, at + 20, at + 60);
    OnlyInWords(framed, mem[..], at, at + 20);
    OnlyInWider(before, framed, mem[..], at + 60, at + 72, at, at + 20, at, at + 72);
  }

  /** The general registers, vector and error code of the context: what the cleared stack holds. */
  ghost predicate RegistersKept(m: seq<Byte>, m': seq<Byte>, at: nat) {
    |m| == |m'| && at + 60 <= |m| && m'[at + 20..at + 60] == m[at + 20..at + 60]
  }

  ghost predicate ContextWords(m: seq<Byte>, at: nat, entry: nat)
    requires at + SZ_CONTEXT <= |m|
  {
    && Word(m, at) == GDT_STACK
    && Word(m, at + 4) == Word(m, at + 8) == Word(m, at + 12) == Word(m, at + 16) == GDT_DATA
    && Word(m, at + 60) == entry && Word(m, at + 64) == GDT_CODE && Word(m, at + 68) == DEFAULT_EFLAGS
  }

  method WriteReturnFrame(mem: array<Byte>, at: nat, entry: nat)
    requires at + 12 <= mem.Length && entry < TWO_32
    modifies mem
    ensures OnlyIn(old(mem[..]), mem[..], at, at + 12)
    ensures Word(mem[..], at) == entry && Word(mem[..], at + 4) == GDT_CODE
    ensures Word(mem[..], at + 8) == DEFAULT_EFLAGS
  {
    ghost var m0 := mem[..];
    StoreWord(mem, at + 8, DEFAULT_EFLAGS);
    ghost var m1 := mem[..];
    StoreWord(mem, at, entry);
    ghost var m2 := mem[..];
    OnlyInWider(m0, m1, m2, at + 8, at + 12, at, at + 4, at, at + 12);
    StoreWord(mem, at + 4, GDT_CODE);
    OnlyInWider(m0, m2, mem[..], at, at + 12, at + 4, at + 8, at, at + 12);
  }

  method WriteSegments(mem: array<Byte>, at: nat)
    requires at + 20 <= mem.Length
    modifies mem
    ensures OnlyIn(old(mem[..]), mem[..], at, at + 20)
    ensures Word(mem[..], at) == GDT_STACK
    ensures Word(mem[..], at + 4) == Word(mem[..], at + 8) == GDT_DATA
    ensures Word(mem[..], at + 12) == Word(mem[..], at + 16) == GDT_DATA
  {
    ghost var m0 := mem[..];
    StoreWord(mem, at, GDT_STACK);
    ghost var m1 := mem[..];
    StoreWord(mem, at + 4, GDT_DATA);
    ghost var m2 := mem[..];
    OnlyInWider(m0, m1, m2, at, at + 4, at + 4, at + 8, at, at + 20);
    StoreWord(mem, at + 8, GDT_DATA);
    ghost var m3 := mem[..];
    OnlyInWider(m0, m2, m3, at, at + 20, at + 8, at + 12, at, at + 20);
    StoreWord(mem, at + 12, GDT_DATA);
    ghost var m4 := mem[..];
    OnlyInWider(m0, m3, m4, at, at + 20, at + 12, at + 16, at, at + 20);
    StoreWord(mem, at + 16, GDT_DATA);
    OnlyInWider(m0, m4, mem[..], at, at + 20, at + 16, at + 20, at, at + 20);
  }

  // ----- reading the arguments back

  /** The argv entry for argument `i`. */
  ghost predicate EntryAt(m: seq<Byte>, at: nat, strings: nat, args: seq<seq<Byte>>, i: int) {
    && 0 <= i < |args| && at + 12 + 4 * i <= |m|
    && Word(m, at + 8 + 4 * i) == strings + Offset(args, i)
  }

  lemma EntryBack(m: seq<Byte>, base: nat, at: nat, strings: nat, args: seq<seq<Byte>>, i: nat)
    requires EntryAt(m, at, strings, args, i) && NoNul(args[i])
    requires base <= strings && StringAt(m, strings - base, args, i)
    ensures LoadString(m, base, Load(m, base, base + at + 8 + 4 * i)) == args[i]
  {
    StringBack(m, strings - base + Offset(args, i), args[i]);
    assert Load(m, base, base + at + 8 + 4 * i) == strings + Offset(args, i);
  }

  /** argc, argv and the argv array with its NULL, for strings gathered at `strings`. */
  ghost predicate VectorAt(m: seq<Byte>, base: nat, at: nat, strings: nat, args: seq<seq<Byte>>) {
    && at + 4 * (|args| + 3) <= |m|
    && Word(m, at) == |args| && Word(m, at + 4) == base + at + 8
    && (forall i :: 0 <= i < |args| ==> EntryAt(m, at, strings, args, i))
    && Word(m, at + 8 + 4 * |args|) == 0
  }

  /** The area from argc up is complete. */
  ghost predicate ArgsPlaced(m: seq<Byte>, base: nat, at: nat, strings: int, args: seq<seq<Byte>>) {
    && |m| >= 4 && base + at <= strings && VectorAt(m, base, at, strings, args)
    && (forall i :: 0 <= i < |args| ==> NoNul(args[i]))
    && StringsAt(m, strings - base, args)
    && Word(m, |m| - 4) == 0
  }

  lemma {:induction false} VectorBack(m: seq<Byte>, base: nat, at: nat, strings: int, args: seq<seq<Byte>>, n: nat)
    requires ArgsPlaced(m, base, at, strings, args) && n <= |args|
    ensures Vector(m, base, base + at + 8, n) == args[..n]
  {
    if n > 0 {
      VectorBack(m, base, at, strings, args, n - 1);
      EntryBack(m, base, at, strings, args, n - 1);
    }
  }

  /** The started program reads exactly the arguments that were serialised. */
  lemma ArgumentsBack(m: seq<Byte>, base: nat, at: nat, strings: int, args: seq<seq<Byte>>)
    requires ArgsPlaced(m, base, at, strings, args)
    ensures Arguments(m, base, base + at) == args
    ensures Load(m, base, Load(m, base, base + at + 4) + 4 * |args|) == 0
  {
    VectorBack(m, base, at, strings, args, |args|);
    assert args[..|args|] == args;
  }

  lemma VectorKept(m: seq<Byte>, m': seq<Byte>, lo: nat, base: nat, at: nat, strings: nat, args: seq<seq<Byte>>)
    requires VectorAt(m, base, at, strings, args) && WordsKept(m, m', lo, at)
    ensures VectorAt(m', base, at, strings, args)
  {
    forall i | 0 <= i < |args|
      ensures EntryAt(m', at, strings, args, i)
    {
      assert EntryAt(m, at, strings, args, i);
    }
  }

  /** Writing below argc does not disturb it. */
  lemma ArgsStayPlaced(m: seq<Byte>, m': seq<Byte>, lo: nat, hi: nat, base: nat, at: nat, strings: int,
    args: seq<seq<Byte>>)
    requires ArgsPlaced(m, base, at, strings, args) && OnlyIn(m, m', lo, hi) && hi <= at
    ensures ArgsPlaced(m', base, at, strings, args)
  {
    OnlyInWords(m, m', lo, hi);
    StringsStay(m, m', lo, hi, strings - base, args);
    VectorKept(m, m', lo, base, at, strings, args);
  }

  lemma StringsStay(m: seq<Byte>, m': seq<Byte>, lo: int, hi: int, off: int, args: seq<seq<Byte>>)
    requires OnlyIn(m, m', lo, hi) && hi <= off
    requires StringsAt(m, off, args)
    ensures StringsAt(m', off, args)
  {
    forall i | 0 <= i < |args|
      ensures StringAt(m', off, args, i)
    {
      StringStays(m, m', lo, hi, off, args, i);
    }
  }

  /** A process that resumes from the context at `ctx`: 72 bytes are popped, which leaves the stack pointer
      at the return address, 4 below a multiple of 16, and main() sees `args`. */
  ghost predicate Starts(m: seq<Byte>, base: nat, ctx: int, entry: nat, fakeExit: nat, args: seq<seq<Byte>>) {
    var sp := ctx + SZ_CONTEXT;
    && base <= ctx && sp + 4 <= base + |m| && (sp + 4) % 16 == 0
    && ContextWords(m, ctx - base, entry)
    && Load(m, base, sp) == fakeExit
    && Arguments(m, base, sp + 4) == args
    && Load(m, base, Load(m, base, sp + 8) + 4 * |args|) == 0
    && Load(m, base, base + |m| - 4) == 0
  }

  /** Collect the arguments that fit in a buffer padded to a multiple of four. */
  method GatherArgs(args: seq<seq<Byte>>) returns (argc: nat, argstrings: array<Byte>, offsets: array<nat>)
    requires ArgsOk(args)
    ensures fresh(argstrings) && fresh(offsets) && offsets.Length == N_ARGS
    ensures argc == |Kept(args)| <= N_ARGS
    ensures argstrings.Length == RoundUp4(Total(Kept(args))) >= Total(Kept(args))
    ensures StringsAt(argstrings[..], 0, Kept(args))
    ensures forall i :: 0 <= i < argc ==> offsets[i] == Offset(Kept(args), i)
  {
    var argbytes, strlengths;
    ghost var rounds;
    argc, argbytes, strlengths, rounds := CountArgs(args);
    LayoutFits(0, args);
    OffsetSame(args, Kept(args), argc);
    argbytes := RoundUp4(argbytes);
    argstrings, offsets := CopyStrings(args[..argc], strlengths, argbytes);
  }

  /** The zero word at the end of the stack and the strings below it. */
  method PlaceStrings(stack: array<Byte>, at: nat, argstrings: array<Byte>)
    requires stack != argstrings && at + argstrings.Length + 4 <= stack.Length
    modifies stack
    ensures Holds(stack[..], at, argstrings[..]) && Word(stack[..], stack.Length - 4) == 0
    ensures OnlyIn(old(stack[..]), stack[..], at, stack.Length)
  {
    var end := stack.Length;
    ghost var m0 := stack[..];
    StoreWord(stack, end - 4, 0);
    ghost var m1 := stack[..];
    CopyBytes(stack, at, argstrings[..]);
    OnlyInWords(m1, stack[..], at, at + argstrings.Length);
    OnlyInWider(m0, m1, stack[..], end - 4, end, at, at + argstrings.Length, at, end);
  }

  /** The argument vector, with the strings gathered at `strings`. */
  method PlaceVector(stack: array<Byte>, base: nat, at: nat, strings: nat, offsets: array<nat>, argc: nat,
    ghost args: seq<seq<Byte>>)
    requires argc == |args| <= offsets.Length && at + 4 * (argc + 3) <= stack.Length
    requires base + stack.Length <= TWO_32 && strings + Total(args) < TWO_32
    requires forall i :: 0 <= i < argc ==> offsets[i] == Offset(args, i)
    modifies stack
    ensures OnlyIn(old(stack[..]), stack[..], at, at + 4 * (argc + 3))
    ensures VectorAt(stack[..], base, at, strings, args)
  {
    forall i | 0 <= i < argc
      ensures strings + offsets[i] < TWO_32
    {
      OffsetGrows(args, i, argc);
    }
    WriteVector(stack, base, at, strings, offsets, argc);
    forall i | 0 <= i < argc
      ensures EntryAt(stack[..], at, strings, args, i)
    {
    }
  }

  lemma StringsMove(m: seq<Byte>, m': seq<Byte>, off: int, args: seq<seq<Byte>>)
    requires Holds(m', off, m) && StringsAt(m, 0, args)
    ensures StringsAt(m', off, args)
  {
    forall i | 0 <= i < |args|
      ensures StringAt(m', off, args, i)
    {
      StringMoves(m, m', off, args, i);
    }
  }

  lemma ArgsNowPlaced(m: seq<Byte>, m': seq<Byte>, base: nat, at: nat, strings: int, args: seq<seq<Byte>>)
    requires OnlyIn(m, m', at, at + 4 * (|args| + 3)) && |m| >= 4 && Word(m, |m| - 4) == 0
    requires base <= strings && at + 4 * (|args| + 3) <= strings - base && strings - base + 4 <= |m|
    requires VectorAt(m', base, at, strings, args) && forall i :: 0 <= i < |args| ==> NoNul(args[i])
    requires StringsAt(m, strings - base, args)
    ensures ArgsPlaced(m', base, at, strings, args)
  {
    StringsStay(m, m', at, at + 4 * (|args| + 3), strings - base, args);
    SliceKept(m, m', at, at + 4 * (|args| + 3), |m| - 4, |m|);
  }

  /** The part from argc up: argument vector, strings, zero word. */
  method PlaceArgs(stack: array<Byte>, base: nat, args: seq<seq<Byte>>) returns (acptr: nat)
    requires stack.Length == SZ_USTACK && base + SZ_USTACK <= TWO_32 && ArgsOk(args)
    modifies stack
    ensures acptr == ArgcAddr(base, args)
    ensures base + 4 + SZ_CONTEXT <= acptr <= base + SZ_USTACK && acptr % 16 == 0
    ensures ArgsPlaced(stack[..], base, acptr - base, StrAddr(base, args), Kept(args))
    ensures OnlyIn(old(stack[..]), stack[..], acptr - base, SZ_USTACK)
  {
    var argc, argstrings, offsets := GatherArgs(args);
    LayoutFits(base, args);
    var strptr := StringsBelow(base + SZ_USTACK, argstrings.Length);
    acptr := VectorBelow(strptr, argc);
    PlaceAll(stack, base, acptr, strptr, argc, argstrings, offsets, Kept(args));
  }

  method PlaceAll(stack: array<Byte>, base: nat, acptr: nat, strptr: nat, argc: nat, argstrings: array<Byte>,
                  offsets: array<nat>, ghost kept: seq<seq<Byte>>)
    requires stack != argstrings && argc == |kept| <= offsets.Length && base + stack.Length <= TWO_32
    requires base <= acptr && acptr + 4 * (argc + 3) <= strptr && strptr + argstrings.Length + 4 <= base + stack.Length
    requires forall i :: 0 <= i < argc ==> NoNul(kept[i])
    requires StringsAt(argstrings[..], 0, kept) && Total(kept) <= argstrings.Length
    requires forall i :: 0 <= i < argc ==> offsets[i] == Offset(kept, i)
    modifies stack
    ensures ArgsPlaced(stack[..], base, acptr - base, strptr, kept)
    ensures OnlyIn(old(stack[..]), stack[..], acptr - base, stack.Length)
  {
    ghost var m0 := stack[..];
    var at := strptr - base;
    PlaceStrings(stack, at, argstrings);
    ghost var m1 := stack[..];
    StringsMove(argstrings[..], m1, at, kept);
    PlaceVector(stack, base, acptr - base, strptr, offsets, argc, kept);
    ghost var lo, hi := acptr - base, acptr - base + 4 * (argc + 3);
    ArgsNowPlaced(m1, stack[..], base, lo, strptr, kept);
    OnlyInWider(m0, m1, stack[..], at, stack.Length, lo, hi, lo, stack.Length);
  }

  lemma StartsFrom(m: seq<Byte>, base: nat, at: nat, strings: int, entry: nat, fakeExit: nat, args: seq<seq<Byte>>)
    requires ArgsPlaced(m, base, at, strings, args)
    requires SZ_CONTEXT + 4 <= at && (base + at) % 16 == 0
    requires Word(m, at - 4) == fakeExit && ContextWords(m, at - 76, entry)
    ensures Starts(m, base, base + at - 76, entry, fakeExit, args)
  {
    ArgumentsBack(m, base, at, strings, args);
  }

  /** The return address and the context, below argc. */
  method PlaceContext(stack: array<Byte>, at: nat, entry: nat, fakeExit: nat)
    requires SZ_CONTEXT + 4 <= at <= stack.Length && entry < TWO_32 && fakeExit < TWO_32
    modifies stack
    ensures OnlyIn(old(stack[..]), stack[..], at - 76, at)
    ensures Word(stack[..], at - 4) == fakeExit && ContextWords(stack[..], at - 76, entry)
    ensures RegistersKept(old(stack[..]), stack[..], at - 76)
  {
    ghost var m0 := stack[..];
    StoreWord(stack, at - 4, fakeExit);
    ghost var m1 := stack[..];
    SliceKept(m0, m1, at - 4, at, at - 56, at - 16);
    WriteContext(stack, at - 76, entry);
    OnlyInWords(m1, stack[..], at - 76, at - 4);
    OnlyInWider(m0, m1, stack[..], at - 4, at, at - 76, at - 4, at - 76, at);
  }

  lemma RegistersStillKept(m0: seq<Byte>, m1: seq<Byte>, m2: seq<Byte>, at: nat, lo: nat, hi: nat)
    requires OnlyIn(m0, m1, lo, hi) && at + SZ_CONTEXT <= lo && RegistersKept(m1, m2, at)
    ensures RegistersKept(m0, m2, at)
  {
    SliceKept(m0, m1, lo, hi, at + 20, at + 60);
  }

  lemma Complete(m0: seq<Byte>, m1: seq<Byte>, m2: seq<Byte>, base: nat, ctx: nat, strings: int, entry: nat,
    fakeExit: nat, args: seq<seq<Byte>>)
    requires base <= ctx && ctx - base + 76 <= |m0| && (ctx + 76) % 16 == 0
    requires OnlyIn(m0, m1, ctx - base + 76, |m0|) && OnlyIn(m1, m2, ctx - base, ctx - base + 76)
    requires RegistersKept(m1, m2, ctx - base)
    requires ArgsPlaced(m1, base, ctx - base + 76, strings, args)
    requires Word(m2, ctx - base + 72) == fakeExit && ContextWords(m2, ctx - base, entry)
    ensures Starts(m2, base, ctx, entry, fakeExit, args)
    ensures OnlyIn(m0, m2, ctx - base, |m0|) && RegistersKept(m0, m2, ctx - base)
  {
    var at := ctx - base;
    RegistersStillKept(m0, m1, m2, at, at + 76, |m0|);
    OnlyInWider(m0, m1, m2, at + 76, |m0|, at, at + 76, at, |m0|);
    ArgsStayPlaced(m1, m2, at, at + 76, base, at + 76, strings, args);
    StartsFrom(m2, base, at + 76, strings, entry, fakeExit, args);
  }

  /** Build the initial stack.  The program started from the returned context reads the kept arguments. */
  method StackSetup(stack: array<Byte>, base: nat, entry: nat, fakeExit: nat, args: seq<seq<Byte>>) returns (ctx: nat)
    requires stack.Length == SZ_USTACK && base + SZ_USTACK <= TWO_32 && entry < TWO_32 && fakeExit < TWO_32
    requires ArgsOk(args)
    modifies stack
    ensures base <= ctx && ctx + SZ_CONTEXT + 4 == ArgcAddr(base, args)
    ensures Starts(stack[..], base, ctx, entry, fakeExit, Kept(args))
    ensures OnlyIn(old(stack[..]), stack[..], ctx - base, SZ_USTACK)
    ensures RegistersKept(old(stack[..]), stack[..], ctx - base)
  {
    ghost var m0 := stack[..];
    var acptr := PlaceArgs(stack, base, args);
    ghost var m1 := stack[..];
    PlaceContext(stack, acptr - base, entry, fakeExit);
    ctx := acptr - 4 - SZ_CONTEXT;
    Complete(m0, m1, stack[..], base, ctx, StrAddr(base, args), entry, fakeExit, Kept(args));
  }
}
