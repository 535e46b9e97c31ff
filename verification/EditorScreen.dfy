/** The shadow the editor keeps of the screen, and what it saves. */
module EditorScreen {

  datatype Cell = Cell(ch: nat, fg: nat, bg: nat)

  datatype Colour = LightGray | DarkGray | Black | Blue | White | LightGreen

  const C_FG: nat := 0
  const C_GUTTER: nat := 1
  const C_STATUS: nat := 2
  const C_CURSOR: nat := 3

  /** A drawn cell: the glyph and its two colours. */
  datatype Drawn = Drawn(ch: nat, fg: Colour, bg: Colour)

  function Colours(i: nat): (Colour, Colour) {
    if i == C_GUTTER then (DarkGray, Black)
    else if i == C_STATUS then (White, Blue)
    else if i == C_CURSOR then (Black, LightGreen)
    else (LightGray, Black)
  }

  /** What drawing a cell puts on the screen. */
  function Paint(c: Cell): Drawn {
    var (fg, bg) :=
      if c.fg == C_CURSOR || c.bg == C_CURSOR then Colours(C_CURSOR)
      else if c.fg == C_STATUS then Colours(C_STATUS)
      else if c.fg == C_GUTTER then (DarkGray, Black)
      else Colours(if c.fg < c.bg then c.bg else c.fg);
    Drawn(c.ch, fg, bg)
  }

  /** The cursor's colours win over everything, then the status line's, then the
      gutter's; otherwise the higher of the two numbers decides. */
  lemma PaintIs(c: Cell)
    ensures Paint(c).ch == c.ch
    ensures c.fg == 3 || c.bg == 3 ==> (Paint(c).fg, Paint(c).bg) == (Black, LightGreen)
    ensures c.fg == 2 && c.bg != 3 ==> (Paint(c).fg, Paint(c).bg) == (White, Blue)
    ensures c.fg == 1 && c.bg != 3 ==> (Paint(c).fg, Paint(c).bg) == (DarkGray, Black)
    ensures c.fg == 0 && c.bg < 3 ==>
              (Paint(c).fg, Paint(c).bg) == if c.bg == 2 then (White, Blue) else if c.bg == 1 then (DarkGray, Black)
                                            else (LightGray, Black)
  {
  }

  /** The cells that differ between two screens. */
  function Differing(a: seq<Cell>, b: seq<Cell>): nat
    requires |a| == |b|
  {
    if a == [] then 0 else (if a[0] == b[0] then 0 else 1) + Differing(a[1..], b[1..])
  }

  lemma {:induction false} DifferingUpTo(a: seq<Cell>, b: seq<Cell>, i: nat)
    requires |a| == |b| && i < |a|
    ensures Differing(a[..i + 1], b[..i + 1]) == Differing(a[..i], b[..i]) + (if a[i] == b[i] then 0 else 1)
  {
    if i == 0 {
      assert a[..1][1..] == [] && b[..1][1..] == [];
    } else {
      DifferingUpTo(a[1..], b[1..], i - 1);
      assert a[..i + 1][1..] == a[1..][..i] && b[..i + 1][1..] == b[1..][..i];
      assert a[..i][1..] == a[1..][..i - 1] && b[..i][1..] == b[1..][..i - 1];
    }
  }

  /** `y * cols + x` walks the cells in order. */
  lemma RowMajor(x: nat, y: nat, cols: nat, rows: nat)
    requires x < cols && y < rows
    ensures y * cols + x < cols * rows
  {
    assert (y + 1) * cols <= rows * cols by { Mono(y + 1, rows, cols); }
    assert (y + 1) * cols == y * cols + cols;
  }

  lemma Mono(a: nat, b: nat, c: nat)
    requires a <= b
    ensures a * c <= b * c
  {
  }

  class Screen {
    const cols: nat
    const rows: nat
    const frame: array<Cell>
    const shadow: array<Cell>
    /** What the framebuffer shows, cell by cell. */
    const shown: array<Drawn>
    /** How many glyphs have been drawn. */
    ghost var draws: nat

    ghost predicate Valid()
      reads this, shadow, shown
    {
      && frame.Length == shadow.Length == shown.Length == cols * rows
      && frame != shadow
      && forall i | 0 <= i < shown.Length :: shown[i] == Paint(shadow[i])
    }

    constructor (cols: nat, rows: nat, space: nat)
      ensures Valid() && this.cols == cols && this.rows == rows
      ensures fresh(frame) && fresh(shadow) && fresh(shown)
    {
      this.cols, this.rows := cols, rows;
      frame := new Cell[cols * rows](_ => Cell(space, C_FG, C_FG));
      shadow := new Cell[cols * rows](_ => Cell(space, C_FG, C_FG));
      shown := new Drawn[cols * rows](_ => Paint(Cell(space, C_FG, C_FG)));
      draws := 0;
    }

    /** The innermost step of `flush`: draw cell `i` if it is not what is there. */
    method DrawIfChanged(i: nat)
      requires Valid() && i < frame.Length
      modifies shadow, shown, this`draws
      ensures Valid() && shadow[..] == old(shadow[..])[i := frame[i]]
      ensures draws == old(draws) + if frame[i] == old(shadow[i]) then 0 else 1
    {
      if frame[i] != shadow[i] {
        shown[i] := Paint(frame[i]);
        draws := draws + 1;
        shadow[i] := frame[i];
      }
    }

    /** The inner loop of `flush`: one row. */
    method FlushRow(y: nat, ghost want: seq<Cell>, ghost was: seq<Cell>, ghost drawn: nat)
      requires y < rows && UpTo(y * cols, want, was, drawn)
      modifies shadow, shown, this`draws
      ensures UpTo((y + 1) * cols, want, was, drawn)
    {
      hide Differing, Paint, UpTo;
      assert (y + 1) * cols == y * cols + cols;
      var x := 0;
      while x < cols
        invariant 0 <= x <= cols && UpTo(y * cols + x, want, was, drawn)
      {
        RowMajor(x, y, cols, rows);
        DrawNext(y * cols + x, want, was, drawn);
        x := x + 1;
      }
    }

    /** One cell further. */
    method DrawNext(i: nat, ghost want: seq<Cell>, ghost was: seq<Cell>, ghost drawn: nat)
      requires i < cols * rows && UpTo(i, want, was, drawn)
      modifies shadow, shown, this`draws
      ensures UpTo(i + 1, want, was, drawn)
    {
      hide Differing, Paint;
      DifferingUpTo(want, was, i);
      DrawIfChanged(i);
    }

    /** Redraw what changed: afterwards the screen shows the whole frame, at the
        price of one glyph for each cell that differs and no more. */
    method Flush()
      requires Valid()
      modifies shadow, shown, this`draws
      ensures Valid() && shadow[..] == frame[..]
      ensures forall i | 0 <= i < shown.Length :: shown[i] == Paint(frame[i])
      ensures draws == old(draws) + Differing(frame[..], old(shadow[..]))
    {
      hide Paint;
      ghost var was := shadow[..];
      ghost var want := frame[..];
      assert want[..0] == [] && was[..0] == [] && was[0..] == was;
      var y := 0;
      while y < rows
        invariant 0 <= y <= rows && UpTo(y * cols, want, was, old(draws))
      {
        FlushRow(y, want, was, old(draws));
        y := y + 1;
      }
      assert want[..rows * cols] == want && was[..rows * cols] == was;
      assert forall i | 0 <= i < shown.Length :: shadow[..][i] == frame[..][i];
    }

    /** The first `n` cells are the frame's, the rest as they were, and as many
        glyphs have been drawn as cells so far differed. */
    ghost predicate UpTo(n: nat, want: seq<Cell>, was: seq<Cell>, drawn: nat)
      reads this, frame, shadow, shown
    {
      && Valid() && want == frame[..] && |was| == |want| && n <= |want|
      && shadow[..] == want[..n] + was[n..]
      && draws == drawn + Differing(want[..n], was[..n])
    }
  }
}
