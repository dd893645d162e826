/** The terminal as paper: rows of 80 cells that only grow, the last 25 of them on the screen. */
module Paper {
  import opened Memory

  const WIDTH: nat := 80
  const HEIGHT: nat := 25
  const ROW: nat := 160
  const SCREEN: nat := 4000
  const WHITE: Byte := 7

  /** Paper, two bytes a cell, and the cursor in the last 25 rows. Both coordinates are signed bytes. */
  datatype View = View(paper: seq<Byte>, x: int, y: int) {
    predicate Valid() {
      |paper| >= SCREEN && |paper| % ROW == 0 && -128 <= x < 128 && 0 <= y < HEIGHT
    }

    /** The cursor is inside its row. */
    predicate Tidy() { Valid() && 0 <= x < WIDTH }
  }

  /** Characters left of or above the limit are not rubbed out. */
  datatype Limit = Limit(x: int, y: int) {
    predicate Valid() { 0 <= x < 128 && -128 <= y < 128 }
  }

  function AsI8(n: int): (r: int)
    ensures -128 <= r < 128
  {
    (n + 128) % 256 - 128
  }

  /** The remainder of truncating division by the tab size. */
  function TabRest(x: int): int { if x >= 0 then x % 4 else -(-x % 4) }

  function Blank(cells: nat): (r: seq<Byte>)
    ensures |r| == 2 * cells
    ensures forall k :: 0 <= k < 2 * cells ==> r[k] == if k % 2 == 0 then 0 else WHITE
  {
    seq(2 * cells, k => if k % 2 == 0 then 0 else WHITE)
  }

  /** The part of the paper on the screen when it is not scrolled up. */
  function Shown(paper: seq<Byte>): (r: seq<Byte>)
    requires |paper| >= SCREEN
    ensures |r| == SCREEN
  {
    paper[|paper| - SCREEN..]
  }

  predicate Plain(c: Byte) { c != 8 && c != 9 && c != 10 && c != 13 }

  predicate Erases(v: View, c: Byte, l: Limit) { c == 8 && v.y >= l.y && v.x > l.x }

  /** The screen offset a character is written or erased at. */
  function Target(v: View, c: Byte): int { 2 * v.x + 160 * v.y - if c == 8 then 2 else 0 }

  /** The cell to change is not on the screen. */
  predicate Stray(v: View, c: Byte, l: Limit) {
    (Plain(c) || Erases(v, c, l)) && !(0 <= Target(v, c) < SCREEN)
  }

  function WithCell(paper: seq<Byte>, at: int, ch: Byte, style: Byte): (r: seq<Byte>)
    requires 0 <= at < |paper| - 1
    ensures |r| == |paper|
  {
    paper[at := ch][at + 1 := style]
  }

  /** A character before any new line: `put` up to its last test. */
  function Struck(v: View, c: Byte, style: Byte, l: Limit): (w: View)
    requires v.Valid() && !Stray(v, c, l)
    ensures |w.paper| == |v.paper| && -128 <= w.x < 128 && v.y <= w.y <= v.y + 1
  {
    var base := |v.paper| - SCREEN;
    if c == 10 then v.(x := 0, y := v.y + 1)
    else if c == 8 then
      if Erases(v, c, l) then View(WithCell(v.paper, base + Target(v, c), 0, WHITE), AsI8(v.x - 1), v.y) else v
    else if c == 9 then v.(x := AsI8(v.x + 4 - TabRest(v.x)))
    else if c == 13 then v.(x := 0)
    else
      var paper := WithCell(v.paper, base + Target(v, c), c, style);
      if AsI8(v.x + 1) >= WIDTH then View(paper, 0, v.y + 1) else View(paper, AsI8(v.x + 1), v.y)
  }

  /** Below the last row the paper moves up by one. */
  function Rolled(v: View): (w: View)
    requires 0 <= v.y <= HEIGHT && |v.paper| >= SCREEN && |v.paper| % ROW == 0 && -128 <= v.x < 128
    ensures w.Valid()
  {
    if v.y >= HEIGHT then View(v.paper + Blank(WIDTH), v.x, HEIGHT - 1) else v
  }

  function Typed(v: View, c: Byte, style: Byte, l: Limit): (w: View)
    requires v.Valid() && !Stray(v, c, l)
    ensures w.Valid()
  {
    Rolled(Struck(v, c, style, l))
  }

  // ----- what one character may change -----

  /** Only a tab from the last four columns leaves the row; from there a character can miss the screen. */
  lemma TidyKept(v: View, c: Byte, style: Byte, l: Limit)
    requires v.Tidy() && l.Valid()
    ensures !Stray(v, c, l)
    ensures Typed(v, c, style, l).Tidy() <==> !(c == 9 && v.x >= 76)
  {
  }

  /** After such a tab in the last row, the next plain character is written past the end of the screen. */
  lemma EdgeTabStrays(v: View, c: Byte, style: Byte, l: Limit)
    requires v.Tidy() && l.Valid() && v.x >= 76 && Plain(c)
    ensures Typed(v, 9, style, l).x == WIDTH
    ensures Stray(Typed(v, 9, style, l), c, l) <==> v.y == HEIGHT - 1
  {
  }

  /** Rows above the last 25 are history: no character changes them. */
  lemma HistoryKept(v: View, c: Byte, style: Byte, l: Limit)
    requires v.Valid() && !Stray(v, c, l)
    ensures var w := Typed(v, c, style, l);
      && |w.paper| == |v.paper| + (if Struck(v, c, style, l).y == HEIGHT then ROW else 0)
      && w.paper[..|v.paper| - SCREEN] == v.paper[..|v.paper| - SCREEN]
  {
  }

  function Screen(v: View): View
    requires v.Valid()
  {
    View(Shown(v.paper), v.x, v.y)
  }

  lemma CellShown(paper: seq<Byte>, t: int, ch: Byte, style: Byte)
    requires |paper| >= SCREEN && 0 <= t < SCREEN - 1
    ensures Shown(WithCell(paper, |paper| - SCREEN + t, ch, style)) == WithCell(Shown(paper), t, ch, style)
  {
  }

  lemma RollShown(paper: seq<Byte>)
    requires |paper| >= SCREEN
    ensures Shown(paper + Blank(WIDTH)) == Shown(Shown(paper) + Blank(WIDTH))
  {
  }

  lemma StruckShown(v: View, c: Byte, style: Byte, l: Limit)
    requires v.Valid() && !Stray(v, c, l)
    ensures !Stray(Screen(v), c, l) && Screen(v).Valid()
    ensures var w, s := Struck(v, c, style, l), Struck(Screen(v), c, style, l);
      s.paper == Shown(w.paper) && s.x == w.x && s.y == w.y
  {
    hide WithCell, Shown, Blank, AsI8, TabRest;
    if Plain(c) {
      CellShown(v.paper, Target(v, c), c, style);
    } else if Erases(v, c, l) {
      CellShown(v.paper, Target(v, c), 0, WHITE);
    }
  }

  /** What is shown depends only on what was shown. */
  lemma ShownOnly(v: View, c: Byte, style: Byte, l: Limit)
    requires v.Valid() && !Stray(v, c, l)
    ensures !Stray(Screen(v), c, l) && Screen(v).Valid()
    ensures Screen(Typed(v, c, style, l)) == Screen(Typed(Screen(v), c, style, l))
  {
    hide Struck, Shown, Blank, Stray, WithCell;
    StruckShown(v, c, style, l);
    var w := Struck(v, c, style, l);
    RollShown(w.paper);
    ShownTwice(w.paper);
  }

  lemma ShownTwice(paper: seq<Byte>)
    requires |paper| >= SCREEN
    ensures Shown(Shown(paper)) == Shown(paper)
  {
  }
}
