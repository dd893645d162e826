/** A typewriter on endless paper: the terminal without a window, a log or anything to move. */
module Typewriter {
  import opened Memory
  import opened Paper

  datatype Cell = Cell(ch: Byte, style: Byte)

  datatype Key = Key(c: Byte, style: Byte, limit: Limit) {
    predicate Valid() { limit.Valid() }
  }

  /** Cells are numbered row by row from the top of the paper; `top` is the first row on the screen. */
  datatype Machine = Machine(cells: map<nat, Cell>, pos: nat, top: nat) {
    function At(k: nat): Cell { if k in cells then cells[k] else Cell(0, WHITE) }
    function Row(): nat { pos / 80 }
    function Column(): nat { pos % 80 }
  }

  function Strike(m: Machine, k: Key): Machine {
    if k.c == 10 then m.(pos := (m.Row() + 1) * 80)
    else if k.c == 13 then m.(pos := m.Row() * 80)
    else if k.c == 9 then m.(pos := (m.pos / 4 + 1) * 4)
    else if k.c == 8 then
      if m.Row() - m.top >= k.limit.y && m.Column() > k.limit.x && m.pos > 0
      then m.(cells := m.cells[m.pos - 1 := Cell(0, WHITE)], pos := m.pos - 1) else m
    else m.(cells := m.cells[m.pos := Cell(k.c, k.style)], pos := m.pos + 1)
  }

  /** The paper moves up when the carriage leaves the screen. */
  function Feed(m: Machine): Machine {
    if m.Row() >= m.top + HEIGHT then m.(top := m.Row() - (HEIGHT - 1)) else m
  }

  function Press(m: Machine, k: Key): Machine { Feed(Strike(m, k)) }

  function PressAll(m: Machine, keys: seq<Key>): Machine
    decreases |keys|
  {
    if keys == [] then m else PressAll(Press(m, keys[0]), keys[1..])
  }

  predicate EdgeTab(m: Machine, k: Key) { k.c == 9 && m.Column() >= 76 }

  /** No tab is typed in the last four columns. */
  predicate NoEdgeTab(m: Machine, keys: seq<Key>)
    decreases |keys|
  {
    keys == [] || (!EdgeTab(m, keys[0]) && NoEdgeTab(Press(m, keys[0]), keys[1..]))
  }

  // ----- the terminal shows a typewriter -----

  function CellAt(paper: seq<Byte>, k: nat): Cell
    requires 2 * k + 1 < |paper|
  {
    Cell(paper[2 * k], paper[2 * k + 1])
  }

  /** The paper holds the machine's cells, and nothing was typed below it. */
  ghost predicate Holds(paper: seq<Byte>, m: Machine) {
    && (forall k: nat :: 2 * k + 1 < |paper| ==> CellAt(paper, k) == m.At(k))
    && (forall k: nat :: k in m.cells ==> 2 * k + 1 < |paper|)
  }

  ghost predicate Shows(v: View, m: Machine) {
    && v.Tidy() && |v.paper| == ROW * (m.top + HEIGHT)
    && m.pos == 80 * (m.top + v.y) + v.x
    && Holds(v.paper, m)
  }

  lemma HoldsWrite(paper: seq<Byte>, m: Machine, at: nat, ch: Byte, style: Byte, to: nat)
    requires Holds(paper, m) && 2 * at + 1 < |paper|
    ensures Holds(WithCell(paper, 2 * at, ch, style), m.(cells := m.cells[at := Cell(ch, style)], pos := to))
  {
    var after := WithCell(paper, 2 * at, ch, style);
    forall k: nat | 2 * k + 1 < |after|
      ensures CellAt(after, k) == if k == at then Cell(ch, style) else CellAt(paper, k)
    {
    }
  }

  lemma HoldsMove(paper: seq<Byte>, m: Machine, to: nat, top: nat)
    requires Holds(paper, m)
    ensures Holds(paper, m.(pos := to)) && Holds(paper, m.(pos := to, top := top))
  {
    var a, b := m.(pos := to), m.(pos := to, top := top);
    assert forall k: nat :: a.At(k) == m.At(k) && b.At(k) == m.At(k);
  }

  lemma HoldsRoll(paper: seq<Byte>, m: Machine, top: nat)
    requires Holds(paper, m) && |paper| % 2 == 0
    ensures Holds(paper + Blank(WIDTH), m.(top := top))
  {
    var after, n := paper + Blank(WIDTH), m.(top := top);
    hide Blank;
    forall k: nat | 2 * k + 1 < |after| ensures CellAt(after, k) == n.At(k) {
      if 2 * k + 1 < |paper| {
        assert CellAt(paper, k) == m.At(k);
        assert CellAt(after, k) == CellAt(paper, k);
      } else {
        var half := |paper| / 2;
        assert |paper| == 2 * half && k < half + WIDTH;
        BlankCell(k - half);
        assert after[2 * k] == Blank(WIDTH)[2 * (k - half)] && after[2 * k + 1] == Blank(WIDTH)[2 * (k - half) + 1];
      }
    }
  }

  lemma BlankCell(i: nat)
    requires i < WIDTH
    ensures Blank(WIDTH)[2 * i] == 0 && Blank(WIDTH)[2 * i + 1] == WHITE
  {
  }

  /** Row and column of a cell number. */
  lemma Cursor(row: nat, x: nat)
    requires x < 80
    ensures (80 * row + x) / 80 == row && (80 * row + x) % 80 == x
  {
  }

  lemma TabStop(row: nat, x: nat)
    requires x < 76
    ensures ((80 * row + x) / 4 + 1) * 4 == 80 * row + (x + 4 - x % 4)
  {
    var n, q := 80 * row + x, 20 * row + x / 4;
    assert n == 4 * q + x % 4;
    assert n / 4 == q;
  }

  /** The cell under the cursor lies at the same place of the paper and of the screen. */
  lemma Places(v: View, m: Machine)
    requires Shows(v, m)
    ensures |v.paper| - SCREEN + (2 * v.x + 160 * v.y) == 2 * m.pos && 2 * m.pos + 1 < |v.paper|
    ensures m.Row() == m.top + v.y && m.Column() == v.x
  {
    Cursor(m.top + v.y, v.x);
  }

  /** The carriage and the paper agree before the paper moves up. */
  ghost predicate Agrees(w: View, s: Machine) {
    && 0 <= w.x < WIDTH && 0 <= w.y <= HEIGHT
    && |w.paper| == ROW * (s.top + HEIGHT)
    && s.pos == 80 * (s.top + w.y) + w.x
    && Holds(w.paper, s)
  }

  lemma MoveRefines(v: View, m: Machine, k: Key)
    requires Shows(v, m) && !EdgeTab(m, k) && (k.c == 9 || k.c == 10 || k.c == 13)
    ensures Agrees(Struck(v, k.c, k.style, k.limit), Strike(m, k))
  {
    hide Holds, WithCell, Blank;
    Places(v, m);
    hide Machine.Row, Machine.Column;
    if k.c == 9 {
      TabStop(m.top + v.y, v.x);
    }
    HoldsMove(v.paper, m, Strike(m, k).pos, m.top);
  }

  lemma EraseRefines(v: View, m: Machine, k: Key)
    requires Shows(v, m) && k.Valid() && k.c == 8
    ensures !Stray(v, k.c, k.limit) && Agrees(Struck(v, k.c, k.style, k.limit), Strike(m, k))
  {
    hide Holds, WithCell, Blank;
    Places(v, m);
    hide Machine.Row, Machine.Column;
    if Erases(v, k.c, k.limit) {
      HoldsWrite(v.paper, m, m.pos - 1, 0, WHITE, m.pos - 1);
    }
  }

  lemma PlainRefines(v: View, m: Machine, k: Key)
    requires Shows(v, m) && Plain(k.c)
    ensures !Stray(v, k.c, k.limit) && Agrees(Struck(v, k.c, k.style, k.limit), Strike(m, k))
  {
    hide Holds, WithCell, Blank;
    Places(v, m);
    hide Machine.Row, Machine.Column;
    HoldsWrite(v.paper, m, m.pos, k.c, k.style, m.pos + 1);
  }

  lemma StruckRefines(v: View, m: Machine, k: Key)
    requires Shows(v, m) && k.Valid() && !EdgeTab(m, k)
    ensures v.Valid() && !Stray(v, k.c, k.limit) && Agrees(Struck(v, k.c, k.style, k.limit), Strike(m, k))
  {
    hide Shows, Agrees, Struck, Strike, EdgeTab;
    TidyShown(v, m);
    if Plain(k.c) {
      PlainRefines(v, m, k);
    } else if k.c == 8 {
      EraseRefines(v, m, k);
    } else {
      MoveRefines(v, m, k);
    }
  }

  lemma TidyShown(v: View, m: Machine)
    requires Shows(v, m)
    ensures v.Valid()
  {
  }

  lemma WholeRows(n: nat)
    ensures ROW * n % ROW == 0 && ROW * n % 2 == 0
  {
    assert ROW * n == 2 * (80 * n);
  }

  lemma FeedRefines(w: View, s: Machine)
    requires Agrees(w, s)
    ensures Shows(Rolled(w), Feed(s))
  {
    hide Holds, Blank;
    assert s.Row() == s.top + w.y by { Cursor(s.top + w.y, w.x); }
    WholeRows(s.top + HEIGHT);
    hide Machine.Row;
    if w.y == HEIGHT {
      HoldsRoll(w.paper, s, s.top + 1);
      WholeRows(s.top + 1 + HEIGHT);
    }
  }

  /** One key on the terminal is one key on the typewriter, except a tab in the last four columns. */
  lemma KeyRefines(v: View, m: Machine, k: Key)
    requires Shows(v, m) && k.Valid()
    ensures v.Valid() && !Stray(v, k.c, k.limit)
    ensures Shows(Typed(v, k.c, k.style, k.limit), Press(m, k)) <==> !EdgeTab(m, k)
  {
    hide Holds, WithCell, Blank, Strike, Feed;
    if EdgeTab(m, k) {
      Places(v, m);
    } else {
      hide Struck, Rolled;
      StruckRefines(v, m, k);
      FeedRefines(Struck(v, k.c, k.style, k.limit), Strike(m, k));
    }
  }

  // ----- runs -----

  /** Typing key after key; it stops where a character would miss the screen. */
  function TypedAll(v: View, keys: seq<Key>): (w: View)
    requires v.Valid()
    ensures w.Valid()
    decreases |keys|
  {
    if keys == [] || Stray(v, keys[0].c, keys[0].limit) then v
    else TypedAll(Typed(v, keys[0].c, keys[0].style, keys[0].limit), keys[1..])
  }

  /** No character of the run misses the screen. */
  predicate Clean(v: View, keys: seq<Key>)
    requires v.Valid()
    decreases |keys|
  {
    keys == [] || (!Stray(v, keys[0].c, keys[0].limit)
      && Clean(Typed(v, keys[0].c, keys[0].style, keys[0].limit), keys[1..]))
  }

  /** A string as keys struck with one style and one limit. */
  function Keys(s: seq<Byte>, style: Byte, limit: Limit): (keys: seq<Key>)
    ensures |keys| == |s|
  {
    seq(|s|, i requires 0 <= i < |s| => Key(s[i], style, limit))
  }

  ghost predicate ValidKeys(keys: seq<Key>) { forall k :: 0 <= k < |keys| ==> keys[k].Valid() }

  /** Whole runs: with no tab in the last four columns the terminal is a window on the typewriter's paper. */
  lemma {:induction false} RunRefines(v: View, m: Machine, keys: seq<Key>)
    requires Shows(v, m) && ValidKeys(keys) && NoEdgeTab(m, keys)
    ensures Clean(v, keys) && Shows(TypedAll(v, keys), PressAll(m, keys))
    decreases |keys|
  {
    hide Shows, Press, Typed, Stray;
    if keys == [] {
    } else {
      var k := keys[0];
      KeyRefines(v, m, k);
      RunRefines(Typed(v, k.c, k.style, k.limit), Press(m, k), keys[1..]);
    }
  }

  /** Any tidy terminal is the picture of some typewriter. */
  lemma SomeMachine(v: View) returns (m: Machine)
    requires v.Tidy()
    ensures Shows(v, m)
  {
    var cells := map k: nat | k < |v.paper| / 2 :: CellAt(v.paper, k);
    var top := |v.paper| / ROW - HEIGHT;
    m := Machine(cells, 80 * (top + v.y) + v.x, top);
  }

  /** So every tidy terminal types like some typewriter that shows the same, until a tab in the last four columns. */
  lemma EveryRunRefines(v: View, keys: seq<Key>) returns (m: Machine)
    requires v.Tidy() && ValidKeys(keys)
    ensures Shows(v, m)
    ensures NoEdgeTab(m, keys) ==> Clean(v, keys) && Shows(TypedAll(v, keys), PressAll(m, keys))
  {
    hide Shows, NoEdgeTab, TypedAll, PressAll, Clean;
    m := SomeMachine(v);
    if NoEdgeTab(m, keys) {
      RunRefines(v, m, keys);
    }
  }

  /** History over whole runs: the paper only grows, and rows that left the screen never change. */
  lemma {:induction false} HistoryOfRun(v: View, keys: seq<Key>)
    requires v.Valid()
    ensures |TypedAll(v, keys).paper| >= |v.paper|
    ensures TypedAll(v, keys).paper[..|v.paper| - SCREEN] == v.paper[..|v.paper| - SCREEN]
    decreases |keys|
  {
    hide Stray, Typed;
    if keys != [] && !Stray(v, keys[0].c, keys[0].limit) {
      var k, h := keys[0], |v.paper| - SCREEN;
      HistoryKept(v, k.c, k.style, k.limit);
      var w := Typed(v, k.c, k.style, k.limit);
      HistoryOfRun(w, keys[1..]);
      var z := TypedAll(w, keys[1..]);
      assert z.paper[..h] == z.paper[..|w.paper| - SCREEN][..h] == w.paper[..h];
    }
  }

  /** The same screen and the same keys give the same screen, whatever scrolled off before. */
  lemma {:induction false} ScreenOfRun(v: View, keys: seq<Key>)
    requires v.Valid()
    ensures Screen(v).Valid() && Screen(TypedAll(v, keys)) == Screen(TypedAll(Screen(v), keys))
    decreases |keys|
  {
    hide Shown, Typed, Stray;
    ShownTwice(v.paper);
    assert Screen(v).Valid() by { ShownOnlyValid(v); }
    if keys == [] {
    } else {
      var k := keys[0];
      StraySame(v, k);
      if !Stray(v, k.c, k.limit) {
        ShownOnly(v, k.c, k.style, k.limit);
        var w, s := Typed(v, k.c, k.style, k.limit), Typed(Screen(v), k.c, k.style, k.limit);
        ScreenOfRun(w, keys[1..]);
        ScreenOfRun(s, keys[1..]);
      }
    }
  }

  lemma ShownOnlyValid(v: View)
    requires v.Valid()
    ensures Screen(v).Valid()
  {
  }

  lemma StraySame(v: View, k: Key)
    requires v.Valid()
    ensures Stray(v, k.c, k.limit) <==> Stray(Screen(v), k.c, k.limit)
  {
  }
}
