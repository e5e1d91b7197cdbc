/** The console's scrolling window (cio.c).  The specification is an unbounded sheet of paper, with no
    height at all: typing writes cells and starts new rows.  The window on the screen shows the last
    rows of that paper, scrolled only when a row below the window is first needed.
 */
module Console {
  import opened Defs

  const SCREEN_X := 80
  const SCREEN_Y := 25
  const VGA_DEFAULT := 0x0700
  const NEWLINE := 10
  const RETURN := 13
  const BLANK := 0x20 + VGA_DEFAULT

  /** A character without attributes is white on black. */
  function Glyph(c: nat): (g: nat)
    ensures 0x100 <= g < 0x1_0000
  {
    var low := c % 0x1_0000;
    if low > 0xff then low else low + VGA_DEFAULT
  }

  lemma Remainder(n: int, d: int, q: int, r: int)
    requires n == d * q + r && 0 <= r < d
    ensures n % d == r
  {
    var k := n / d - q;
    assert n == d * (n / d) + n % d;
    assert d * (n / d) - d * q == k * d;
    SmallMultiple(k, d);
  }

  /** The cell shows the character, the lowest byte, with the attributes in the second byte if there are any and
      else white on black. */
  lemma GlyphExact(low: nat, high: nat, rest: nat)
    requires low < 0x100 && high < 0x100
    ensures Glyph(low + 0x100 * high + 0x1_0000 * rest) == low + 0x100 * if high == 0 then 7 else high
  {
    Remainder(low + 0x100 * high + 0x1_0000 * rest, 0x1_0000, rest, low + 0x100 * high);
  }

  // ----- the paper

  /** Rows of `width` cells and a cursor.  The cursor may be just below the last row, at the left edge. */
  datatype Paper = Paper(width: nat, rows: seq<seq<nat>>, row: nat, col: nat)

  ghost predicate Proper(p: Paper) {
    && 1 <= p.width && p.col < p.width && p.row <= |p.rows|
    && (p.row == |p.rows| ==> p.col == 0)
    && (forall i :: 0 <= i < |p.rows| ==> |p.rows[i]| == p.width)
  }

  function Blanks(n: nat): (r: seq<nat>)
    ensures |r| == n && forall i :: 0 <= i < n ==> r[i] == BLANK
  {
    seq(n, _ => BLANK)
  }

  /** Make the row under the cursor exist. */
  function Touch(p: Paper): Paper {
    if p.row < |p.rows| then p else p.(rows := p.rows + [Blanks(p.width)])
  }

  function NextRow(p: Paper): Paper {
    p.(row := p.row + 1, col := 0)
  }

  /** Blank from the cursor to the end of the row. */
  function Erase(p: Paper): Paper
    requires Proper(p) && p.row < |p.rows|
  {
    p.(rows := p.rows[p.row := p.rows[p.row][..p.col] + Blanks(p.width - p.col)])
  }

  function Write(p: Paper, c: nat): Paper
    requires Proper(p) && p.row < |p.rows|
  {
    var line: seq<nat> := p.rows[p.row];
    var g: nat := Glyph(c);
    var changed: seq<nat> := line[p.col := g];
    var q := p.(rows := p.rows[p.row := changed]);
    if p.col + 1 < p.width then q.(col := p.col + 1) else NextRow(q)
  }

  /** One character, on paper. */
  function Type(p: Paper, c: nat): (q: Paper)
    requires Proper(p)
    ensures Proper(q) && q.width == p.width && |p.rows| <= |q.rows| <= |p.rows| + 1
  {
    var t := Touch(p);
    if c % 0x100 == NEWLINE then NextRow(Erase(t))
    else if c % 0x100 == RETURN then t.(col := 0)
    else Write(t, c)
  }

  function TypeAll(p: Paper, text: seq<nat>): (q: Paper)
    requires Proper(p)
    ensures Proper(q) && q.width == p.width && |p.rows| <= |q.rows|
    decreases |text|
  {
    if text == [] then p else Type(TypeAll(p, text[..|text| - 1]), text[|text| - 1])
  }

  // ----- what typing means

  predicate Printable(text: seq<nat>) {
    forall i :: 0 <= i < |text| ==> text[i] % 0x100 != NEWLINE && text[i] % 0x100 != RETURN
  }

  /** The cell at a position counted along the rows. */
  ghost predicate CellIs(p: Paper, at: nat, g: nat)
    requires p.width >= 1
  {
    HasCell(p, Row(at, p.width), Column(at, p.width), g)
  }

  ghost predicate HasCell(p: Paper, i: int, j: int, g: nat) {
    0 <= i < |p.rows| && 0 <= j < |p.rows[i]| && p.rows[i][j] == g
  }

  function Row(at: nat, width: nat): nat
    requires width >= 1
  {
    at / width
  }

  function Column(at: nat, width: nat): (j: nat)
    requires width >= 1
    ensures j < width
  {
    at % width
  }

  /** The cursor's position counted along the rows. */
  ghost function Position(p: Paper): nat {
    p.row * p.width + p.col
  }

  ghost predicate TextAt(p: Paper, start: nat, text: seq<nat>)
    requires p.width >= 1
  {
    forall i :: 0 <= i < |text| ==> CellIs(p, start + i, Glyph(text[i]))
  }

  /** Text without control characters is wrapped: each character comes right after the one before it,
      and the cursor after the last. */
  lemma {:induction false} TextIsWrapped(p: Paper, text: seq<nat>)
    requires Proper(p) && Printable(text)
    ensures Position(TypeAll(p, text)) == Position(p) + |text|
    ensures TextAt(TypeAll(p, text), Position(p), text)
  {
    if text != [] {
      var n := |text| - 1;
      var q := TypeAll(p, text[..n]);
      TextIsWrapped(p, text[..n]);
      OneMore(q, text[n], Position(p), text[..n]);
      assert text[..n] + [text[n]] == text;
    }
  }

  lemma OneMore(q: Paper, c: nat, start: nat, text: seq<nat>)
    requires Proper(q) && Printable([c]) && TextAt(q, start, text) && Position(q) == start + |text|
    ensures Position(Type(q, c)) == Position(q) + 1 && TextAt(Type(q, c), start, text + [c])
  {
    WritePosition(q, c);
    forall i | 0 <= i < |text|
      ensures CellIs(Type(q, c), start + i, Glyph(text[i]))
    {
      WriteKeeps(q, c, start + i, Glyph(text[i]));
    }
  }

  lemma PositionBack(at: nat, width: nat)
    requires width >= 1
    ensures at == Row(at, width) * width + Column(at, width)
  {
  }

  lemma SmallMultiple(k: int, d: int)
    requires -d < k * d < d
    ensures k == 0
  {
    assert k >= 1 ==> k * d >= d;
    assert k <= -1 ==> k * d <= -d;
  }

  lemma RowUnique(at: nat, width: nat, row: nat, col: nat)
    requires col < width && at == row * width + col
    ensures Row(at, width) == row && Column(at, width) == col
  {
    PositionBack(at, width);
    var r, c := Row(at, width), Column(at, width);
    assert (r - row) * width == r * width - row * width == col - c;
    SmallMultiple(r - row, width);
  }

  /** A character goes to the cursor, which moves by one. */
  lemma WritePosition(q: Paper, c: nat)
    requires Proper(q) && Printable([c])
    ensures Position(Type(q, c)) == Position(q) + 1 && CellIs(Type(q, c), Position(q), Glyph(c))
  {
    RowUnique(Position(q), q.width, q.row, q.col);
    assert Printable([c]) ==> [c][0] % 0x100 != NEWLINE && [c][0] % 0x100 != RETURN;
    assert (q.row + 1) * q.width == q.row * q.width + q.width;
  }

  /** It changes no earlier cell. */
  lemma WriteKeeps(q: Paper, c: nat, at: nat, g: nat)
    requires Proper(q) && Printable([c])
    requires CellIs(q, at, g) && at < Position(q)
    ensures CellIs(Type(q, c), at, g)
  {
    assert [c][0] % 0x100 != NEWLINE && [c][0] % 0x100 != RETURN;
    var i, j := Row(at, q.width), Column(at, q.width);
    PositionBack(at, q.width);
    WriteElsewhere(q, c, i, j);
  }

  lemma WriteElsewhere(q: Paper, c: nat, i: nat, j: nat)
    requires Proper(q) && c % 0x100 != NEWLINE && c % 0x100 != RETURN
    requires i < |q.rows| && j < q.width && (i != q.row || j != q.col)
    ensures Type(q, c).rows[i][j] == q.rows[i][j]
  {
  }

  // ----- lines of text

  /** The cell in row `i` and column `j`; below the last row everything is blank. */
  function CellAt(p: Paper, i: nat, j: nat): nat {
    if i < |p.rows| && j < |p.rows[i]| then p.rows[i][j] else BLANK
  }

  /** A newline (10) blanks the rest of the row and goes to the left edge of the next. */
  lemma NewlineEffect(p: Paper, c: nat, i: nat, j: nat)
    requires Proper(p) && j < p.width && c % 0x100 == 10
    ensures var q := Type(p, c);
      && q.row == p.row + 1 && q.col == 0
      && CellAt(q, i, j) == if i == p.row && j >= p.col then BLANK else CellAt(p, i, j)
  {
  }

  /** A carriage return (13) goes to the left edge of the same row and changes no cell. */
  lemma ReturnEffect(p: Paper, c: nat, i: nat, j: nat)
    requires Proper(p) && j < p.width && c % 0x100 == 13
    ensures var q := Type(p, c);
      q.row == p.row && q.col == 0 && CellAt(q, i, j) == CellAt(p, i, j)
  {
  }

  lemma TypeLast(p: Paper, s: seq<nat>, c: nat)
    requires Proper(p)
    ensures TypeAll(p, s + [c]) == Type(TypeAll(p, s), c)
  {
    assert (s + [c])[..|s|] == s;
  }

  lemma {:induction false} TypeAllAppend(p: Paper, s: seq<nat>, t: seq<nat>)
    requires Proper(p)
    ensures TypeAll(p, s + t) == TypeAll(TypeAll(p, s), t)
    decreases |t|
  {
    if t == [] {
      assert s + t == s;
    } else {
      var u, c := t[..|t| - 1], t[|t| - 1];
      TypeAllAppend(p, s, u);
      TypeLast(p, s + u, c);
      TypeLast(TypeAll(p, s), u, c);
      assert u + [c] == t && s + t == (s + u) + [c];
    }
  }

  /** One printable character before the end of the row. */
  lemma PrintableEffect(p: Paper, c: nat, i: nat, j: nat)
    requires Proper(p) && j < p.width && Printable([c]) && p.col + 1 < p.width
    ensures var q := Type(p, c);
      && q.row == p.row && q.col == p.col + 1
      && CellAt(q, i, j) == if i == p.row && j == p.col then Glyph(c) else CellAt(p, i, j)
  {
    assert [c][0] % 0x100 != NEWLINE && [c][0] % 0x100 != RETURN;
  }

  /** A line that ends before the row does. */
  lemma {:induction false} LineEffect(p: Paper, line: seq<nat>, i: nat, j: nat)
    requires Proper(p) && Printable(line) && p.col + |line| < p.width && j < p.width
    ensures var q := TypeAll(p, line);
      && q.row == p.row && q.col == p.col + |line|
      && CellAt(q, i, j) == if i == p.row && p.col <= j < p.col + |line| then Glyph(line[j - p.col]) else CellAt(p, i, j)
    decreases |line|
  {
    if line != [] {
      var n := |line| - 1;
      LineEffect(p, line[..n], i, j);
      PrintableEffect(TypeAll(p, line[..n]), line[n], i, j);
    }
  }

  /** The lines, with `c` between them. */
  function Joined(lines: seq<seq<nat>>, c: nat): seq<nat> {
    if lines == [] then []
    else if |lines| == 1 then lines[0]
    else lines[0] + [c] + Joined(lines[1..], c)
  }

  lemma JoinedStep(p: Paper, lines: seq<seq<nat>>, c: nat)
    requires Proper(p) && |lines| > 1
    ensures TypeAll(p, Joined(lines, c)) == TypeAll(TypeAll(p, lines[0] + [c]), Joined(lines[1..], c))
  {
    TypeAllAppend(p, lines[0] + [c], Joined(lines[1..], c));
  }

  /** Row `i` after a line and its newline at the left edge: the line padded with blanks, in a row of its own. */
  ghost predicate FullLine(p: Paper, q: Paper, line: seq<nat>, i: nat, j: nat) {
    && Proper(q) && q.width == p.width && q.row == p.row + 1 && q.col == 0
    && CellAt(q, i, j) == if i != p.row then CellAt(p, i, j) else if j < |line| then Glyph(line[j]) else BLANK
  }

  lemma NewlineAfter(p: Paper, s: seq<nat>, c: nat, i: nat, j: nat)
    requires Proper(p) && j < p.width && c % 0x100 == 10
    ensures var p1, q := TypeAll(p, s), TypeAll(p, s + [c]);
      && q.row == p1.row + 1 && q.col == 0
      && CellAt(q, i, j) == if i == p1.row && j >= p1.col then BLANK else CellAt(p1, i, j)
  {
    TypeLast(p, s, c);
    NewlineEffect(TypeAll(p, s), c, i, j);
  }

  lemma FullLineEffect(p: Paper, line: seq<nat>, c: nat, i: nat, j: nat)
    requires Proper(p) && p.col == 0 && Printable(line) && |line| < p.width && j < p.width && c % 0x100 == 10
    ensures FullLine(p, TypeAll(p, line + [c]), line, i, j)
  {
    LineEffect(p, line, i, j);
    NewlineAfter(p, line, c, i, j);
    LineThenNewline(p, TypeAll(p, line), TypeAll(p, line + [c]), line, i, j);
  }

  lemma LineThenNewline(p: Paper, p1: Paper, q: Paper, line: seq<nat>, i: nat, j: nat)
    requires Proper(q) && p1.row == p.row && p1.col == |line| && q.width == p.width
    requires CellAt(p1, i, j) == if i == p.row && j < |line| then Glyph(line[j]) else CellAt(p, i, j)
    requires q.row == p1.row + 1 && q.col == 0
    requires CellAt(q, i, j) == if i == p1.row && j >= p1.col then BLANK else CellAt(p1, i, j)
    ensures FullLine(p, q, line, i, j)
  {
  }

  /** Row `i` after several lines from the left edge: every line but the last fills a row of its own, padded with
      blanks; the last one is followed by what was there before; all other rows are as before. */
  ghost predicate LinesShown(p: Paper, q: Paper, lines: seq<seq<nat>>, i: nat, j: nat)
    requires lines != []
  {
    var k, last := i - p.row, |lines| - 1;
    && q.row == p.row + last && q.col == |lines[last]|
    && CellAt(q, i, j) ==
         if k < 0 || k > last then CellAt(p, i, j)
         else if j < |lines[k]| then Glyph(lines[k][j])
         else if k < last then BLANK
         else CellAt(p, i, j)
  }

  lemma OneLineMore(p: Paper, p1: Paper, q: Paper, line: seq<nat>, rest: seq<seq<nat>>, i: nat, j: nat)
    requires rest != [] && FullLine(p, p1, line, i, j) && LinesShown(p1, q, rest, i, j)
    ensures LinesShown(p, q, [line] + rest, i, j)
  {
  }

  /** Lines shorter than the rows, printed with newlines (10) between them from the left edge. */
  lemma {:induction false} LinesEffect(p: Paper, lines: seq<seq<nat>>, c: nat, i: nat, j: nat)
    requires Proper(p) && p.col == 0 && lines != [] && j < p.width && c % 0x100 == 10
    requires forall n :: 0 <= n < |lines| ==> Printable(lines[n]) && |lines[n]| < p.width
    ensures LinesShown(p, TypeAll(p, Joined(lines, c)), lines, i, j)
    decreases |lines|
  {
    if |lines| == 1 {
      LineEffect(p, lines[0], i, j);
    } else {
      var rest, p1 := lines[1..], TypeAll(p, lines[0] + [c]);
      FullLineEffect(p, lines[0], c, i, j);
      LinesEffect(p1, rest, c, i, j);
      JoinedStep(p, lines, c);
      OneLineMore(p, p1, TypeAll(p1, Joined(rest, c)), lines[0], rest, i, j);
      assert [lines[0]] + rest == lines;
    }
  }

  lemma ReturnAfter(p: Paper, s: seq<nat>, c: nat, i: nat, j: nat)
    requires Proper(p) && j < p.width && c % 0x100 == 13
    ensures var p1, q := TypeAll(p, s), TypeAll(p, s + [c]);
      q.row == p1.row && q.col == 0 && CellAt(q, i, j) == CellAt(p1, i, j)
  {
    TypeLast(p, s, c);
    ReturnEffect(TypeAll(p, s), c, i, j);
  }

  /** After any text and a carriage return, a line that ends before the row does stands at the left edge of the same
      row, and all other cells are as before the return. */
  lemma ReturnThenLine(p: Paper, s: seq<nat>, c: nat, line: seq<nat>, i: nat, j: nat)
    requires Proper(p) && Printable(line) && |line| < p.width && j < p.width && c % 0x100 == 13
    ensures var p1, q := TypeAll(p, s), TypeAll(p, s + [c] + line);
      && q.row == p1.row && q.col == |line|
      && CellAt(q, i, j) == if i == p1.row && j < |line| then Glyph(line[j]) else CellAt(p1, i, j)
  {
    ReturnAfter(p, s, c, i, j);
    LineEffect(TypeAll(p, s + [c]), line, i, j);
    TypeAllAppend(p, s + [c], line);
  }

  // ----- the screen

  function Bound(lo: nat, value: nat, hi: nat): (b: nat)
    ensures lo <= value <= hi ==> b == value
    ensures value < lo <= hi ==> b == lo
    ensures value > hi >= lo ==> b == hi
  {
    var v := if value < lo then lo else value;
    if v > hi then hi else v
  }

  class Screen {
    /** Character cells, indexed by row and column. */
    const video: array2<nat>
    // scrolling region
    var minX: nat
    var minY: nat
    var maxX: nat
    var maxY: nat
    // cursor
    var currX: nat
    var currY: nat

    /** The whole screen is the region, and the cursor is at its top left. */
    constructor (video: array2<nat>)
      requires video.Length0 == SCREEN_Y && video.Length1 == SCREEN_X
      ensures Valid() && this.video == video && minX == minY == 0 && maxX == SCREEN_X - 1 && maxY == SCREEN_Y - 1
      ensures currX == currY == 0
    {
      this.video := video;
      minX, minY, maxX, maxY := 0, 0, SCREEN_X - 1, SCREEN_Y - 1;
      currX, currY := 0, 0;
    }

    /** The region lies within the screen, and the cursor in the region or at the left edge one row below. */
    ghost predicate Valid()
      reads this
    {
      && video.Length0 == SCREEN_Y && video.Length1 == SCREEN_X
      && minX <= maxX < SCREEN_X && minY <= maxY < SCREEN_Y
      && minX <= currX <= maxX && minY <= currY <= maxY + 1 && (currY == maxY + 1 ==> currX == minX)
    }

    ghost predicate In(y: int, x: int)
      reads this
    {
      minY <= y <= maxY && minX <= x <= maxX
    }

    /** No cell outside the region has changed. */
    twostate predicate RestSame()
      reads this, video
    {
      forall y, x :: 0 <= y < video.Length0 && 0 <= x < video.Length1 && !In(y, x) ==> video[y, x] == old(video[y, x])
    }

    /** Only cells in columns `lo` to `hi - 1` of this row have changed. */
    twostate predicate SameExcept(row: int, lo: int, hi: int)
      reads video
    {
      forall y, x :: 0 <= y < video.Length0 && 0 <= x < video.Length1 && !(y == row && lo <= x < hi) ==>
        video[y, x] == old(video[y, x])
    }

    /** The window is a view of the last rows of `p`, with the same cursor. */
    ghost predicate Shows(p: Paper)
      requires Valid()
      reads this, video
    {
      && Proper(p) && p.width == maxX - minX + 1 && |p.rows| >= maxY - minY + 1
      && currX == minX + p.col && currY == p.row - Top(p) + minY
      && (forall y, x :: In(y, x) ==> video[y, x] == p.rows[Top(p) + y - minY][x - minX])
    }

    /** The first row of the paper that is on the screen. */
    ghost function Top(p: Paper): int
      reads this
    {
      |p.rows| - (maxY - minY + 1)
    }

    method PutAt(x: nat, y: nat, c: nat)
      requires Valid()
      modifies video
      ensures x < SCREEN_X && y < SCREEN_Y ==> video[y, x] == Glyph(c)
      ensures SameExcept(y, x, x + 1)
    {
      if x < SCREEN_X && y < SCREEN_Y {
        video[y, x] := Glyph(c);
      }
    }

    method CopyRow(to: nat, from: nat)
      requires Valid() && to < SCREEN_Y && from < SCREEN_Y && to <= from
      modifies video
      ensures forall x :: minX <= x <= maxX ==> video[to, x] == old(video[from, x])
      ensures SameExcept(to, minX, maxX + 1)
    {
      var c := minX;
      while c <= maxX
        invariant minX <= c <= maxX + 1
        invariant forall x :: minX <= x < c ==> video[to, x] == old(video[from, x])
        invariant SameExcept(to, minX, c)
      {
        video[to, c] := video[from, c];
        c := c + 1;
      }
    }

    method BlankRow(to: nat)
      requires Valid() && to < SCREEN_Y
      modifies video
      ensures forall x :: minX <= x <= maxX ==> video[to, x] == BLANK
      ensures SameExcept(to, minX, maxX + 1)
    {
      var c := minX;
      while c <= maxX
        invariant minX <= c <= maxX + 1
        invariant forall x :: minX <= x < c ==> video[to, x] == BLANK
        invariant SameExcept(to, minX, c)
      {
        video[to, c] := BLANK;
        c := c + 1;
      }
    }

    /** Blank the rows from `from` to the end of the region. */
    method BlankRows(from: nat)
      requires Valid() && minY <= from <= maxY + 1
      modifies video
      ensures forall y, x :: In(y, x) && from <= y ==> video[y, x] == BLANK
      ensures forall y, x :: In(y, x) && y < from ==> video[y, x] == old(video[y, x])
      ensures RestSame()
    {
      var line := from;
      while line <= maxY
        invariant from <= line <= maxY + 1
        invariant forall y, x :: In(y, x) && from <= y < line ==> video[y, x] == BLANK
        invariant forall y, x :: In(y, x) && y < from ==> video[y, x] == old(video[y, x])
        invariant RestSame()
      {
        BlankRow(line);
        line := line + 1;
      }
    }

    method ClearScroll()
      requires Valid()
      modifies video
      ensures forall y, x :: In(y, x) ==> video[y, x] == BLANK
      ensures RestSame()
    {
      BlankRows(minY);
    }

    /** Move the rows up by `lines` and blank the rest. */
    method MoveRows(lines: nat)
      requires Valid() && lines <= maxY - minY
      modifies video
      ensures forall y, x :: In(y, x) && y + lines <= maxY ==> video[y, x] == old(video[y + lines, x])
      ensures RestSame()
    {
      var line := minY;
      while line + lines <= maxY
        invariant minY <= line <= maxY - lines + 1
        invariant forall y, x :: In(y, x) && y < line ==> video[y, x] == old(video[y + lines, x])
        invariant forall y, x :: In(y, x) && line <= y ==> video[y, x] == old(video[y, x])
        invariant RestSame()
      {
        CopyRow(line, line + lines);
        line := line + 1;
      }
    }

    method Scroll(lines: nat)
      requires Valid()
      modifies this`currX, this`currY, video
      ensures Valid() && RestSame()
      ensures forall y, x :: In(y, x) && y + lines <= maxY ==> video[y, x] == old(video[y + lines, x])
      ensures forall y, x :: In(y, x) && y + lines > maxY ==> video[y, x] == BLANK
      ensures lines <= maxY - minY ==> currX == old(currX) && currY == old(currY)
      ensures lines > maxY - minY ==> currX == minX && currY == minY
    {
      if lines > maxY - minY {
        ClearScroll();
        currX, currY := minX, minY;
        return;
      }
      MoveRows(lines);
      BlankRows(maxY - lines + 1);
    }

    /** Scroll when the cursor is below the region: only now does the paper get its next row. */
    method Settle(ghost p: Paper)
      requires Valid() && Shows(p)
      modifies this`currX, this`currY, video
      ensures Valid() && RestSame() && Shows(Touch(p)) && currY <= maxY
    {
      if currY > maxY {
        Scroll(currY - maxY);
        currY := maxY;
      }
    }

    /** Erase from the cursor to the end of the row and go to the left edge of the next. */
    method EraseRow()
      requires Valid() && currY <= maxY
      modifies this`currX, this`currY, video
      ensures currX == minX && currY == old(currY) + 1
      ensures SameExcept(old(currY), old(currX), maxX + 1)
      ensures forall x :: old(currX) <= x <= maxX ==> video[old(currY), x] == BLANK
    {
      while currX <= maxX
        invariant old(currX) <= currX <= maxX + 1 && currY == old(currY)
        invariant forall x :: old(currX) <= x < currX ==> video[currY, x] == BLANK
        invariant SameExcept(currY, old(currX), currX)
      {
        PutAt(currX, currY, 0x20);
        currX := currX + 1;
      }
      currX, currY := minX, currY + 1;
    }

    /** A newline. */
    method EndLine(ghost p: Paper)
      requires Valid() && Shows(p) && currY <= maxY
      modifies this`currX, this`currY, video
      ensures Valid() && RestSame() && Shows(NextRow(Erase(p)))
    {
      EraseRow();
    }

    method PutGlyph(c: nat, ghost p: Paper)
      requires Valid() && Shows(p) && currY <= maxY
      modifies this`currX, this`currY, video
      ensures Valid() && RestSame() && Shows(Write(p, c))
    {
      PutAt(currX, currY, c);
      currX := currX + 1;
      if currX > maxX {
        currX, currY := minX, currY + 1;
      }
    }

    /** One character on the screen is one character on the paper that the screen shows. */
    method PutChar(c: nat, ghost p: Paper)
      requires Valid() && Shows(p)
      modifies this`currX, this`currY, video
      ensures Valid() && RestSame() && Shows(Type(p, c))
    {
      Settle(p);
      if c % 0x100 == NEWLINE {
        EndLine(Touch(p));
      } else if c % 0x100 == RETURN {
        currX := minX;
      } else {
        PutGlyph(c, Touch(p));
      }
    }

    /** Any text whatever: the window stays a view of the unbounded paper. */
    method Print(text: seq<nat>, ghost p: Paper)
      requires Valid() && Shows(p)
      modifies this`currX, this`currY, video
      ensures Valid() && RestSame() && Shows(TypeAll(p, text))
    {
      var i := 0;
      while i < |text|
        invariant i <= |text| && Valid() && RestSame() && Shows(TypeAll(p, text[..i]))
      {
        PutChar(text[i], TypeAll(p, text[..i]));
        assert text[..i + 1][..i] == text[..i];
        i := i + 1;
      }
      assert text[..i] == text;
    }

    method SetScroll(x0: nat, y0: nat, x1: nat, y1: nat)
      requires video.Length0 == SCREEN_Y && video.Length1 == SCREEN_X
      modifies this
      ensures Valid() && currX == minX && currY == minY
      ensures minX == if x0 < 80 then x0 else 79
      ensures minY == if y0 < 25 then y0 else 24
      ensures maxX == if x1 < minX then minX else if x1 < 80 then x1 else 79
      ensures maxY == if y1 < minY then minY else if y1 < 25 then y1 else 24
    {
      minX := Bound(0, x0, SCREEN_X - 1);
      minY := Bound(0, y0, SCREEN_Y - 1);
      maxX := Bound(minX, x1, SCREEN_X - 1);
      maxY := Bound(minY, y1, SCREEN_Y - 1);
      currX, currY := minX, minY;
    }

    method MoveTo(x: nat, y: nat)
      requires Valid()
      modifies this`currX, this`currY
      ensures Valid() && currY <= maxY
      ensures x < TWO_32 - minX ==> currX == if x <= maxX - minX then minX + x else maxX
      ensures y < TWO_32 - minY ==> currY == if y <= maxY - minY then minY + y else maxY
    {
      currX := Bound(minX, (x + minX) % TWO_32, maxX);
      currY := Bound(minY, (y + minY) % TWO_32, maxY);
    }

    ghost function ViewRow(i: nat): seq<nat>
      requires Valid() && i <= maxY - minY
      reads this, video
    {
      seq(maxX - minX + 1, j requires 0 <= j <= maxX - minX && Valid() && i <= maxY - minY reads this, video =>
        video[minY + i, minX + j])
    }

    /** What the window shows can always be taken for the end of some paper. */
    ghost function View(): (p: Paper)
      requires Valid()
      reads this, video
      ensures Shows(p)
    {
      Paper(maxX - minX + 1,
            seq(maxY - minY + 1, i requires 0 <= i <= maxY - minY && Valid() reads this, video =>
              ViewRow(i)),
            currY - minY, currX - minX)
    }

    /** Output at a fixed position.  A newline erases to the border of the region, from either side. */
    method PutCharAt(x: nat, y: nat, c: nat)
      requires Valid()
      modifies video
      ensures forall j, i :: 0 <= j < video.Length0 && 0 <= i < video.Length1 ==>
        video[j, i] == if j == y && Affected(x, c, i) then Glyph(if c % 0x80 == NEWLINE then 0x20 else c)
                       else old(video[j, i])
    {
      if c % 0x80 == NEWLINE {
        var limit := if x > maxX then SCREEN_X - 1 else if x >= minX then maxX else minX - 1;
        var k := x;
        while k <= limit
          invariant x <= k && (k <= limit + 1 || k == x)
          invariant y < SCREEN_Y ==> forall i :: x <= i < k && i < SCREEN_X ==> video[y, i] == Glyph(0x20)
          invariant SameExcept(y, x, k)
        {
          PutAt(k, y, 0x20);
          k := k + 1;
        }
      } else {
        PutAt(x, y, c);
      }
    }

    /** Which columns output at column `x` reaches: for a newline, those from `x` on that are on the same
        side of both borders of the region. */
    ghost predicate Affected(x: nat, c: nat, i: int)
      reads this
    {
      if c % 0x80 == NEWLINE then i >= x && (i < minX <==> x < minX) && (i > maxX <==> x > maxX) else i == x
    }
  }
}
