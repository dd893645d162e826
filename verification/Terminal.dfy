/** The text terminal: a framebuffer that is a window on a growing log. */
module Terminal {
  import opened Memory
  import opened Paper
  import opened Typewriter

  class VgaText {
    const screen: array<Byte>
    var log: array<Byte>
    var logOn: bool
    var cur: nat
    var curX: int
    var curY: int
    var style: Byte
    var limit: Limit
    /** What the allocator answers when asked whether it is ready. */
    var mallocReady: bool

    constructor ()
      ensures Valid() && !logOn && curX == 0 && curY == 0 && style == WHITE && limit == Limit(0, 0)
      ensures fresh(screen) && fresh(log)
    {
      screen := new Byte[SCREEN];
      log := new Byte[0];
      logOn, cur, curX, curY, style, limit, mallocReady := false, 0, 0, 0, WHITE, Limit(0, 0), false;
    }

    /** With the log on, the screen is the log's window at `cur`, and the window starts on a row. */
    ghost predicate Synced()
      reads this`log, this`logOn, this`cur, screen, log
    {
      && screen.Length == SCREEN && screen != log
      && (logOn ==>
        && Rows(log.Length) && cur % ROW == 0 && cur <= log.Length - SCREEN
        && screen[..] == log[cur..cur + SCREEN])
    }

    ghost predicate Valid()
      reads this, screen, log
    {
      Synced() && -128 <= curX < 128 && 0 <= curY < HEIGHT && limit.Valid()
    }

    /** The paper so far: all of it is in the log, or only its end is on the screen. */
    ghost predicate Has(page: seq<Byte>)
      reads this`log, this`logOn, this`cur, screen, log
    {
      Synced() && Rows(|page|) && if logOn then log[..] == page else screen[..] == Shown(page)
    }

    /** The window is at the end of the log. */
    ghost predicate AtEnd()
      requires Synced()
      reads this`log, this`logOn, this`cur, screen, log
    {
      logOn ==> cur == log.Length - SCREEN
    }

    /** The paper so far, with its end on the screen. */
    ghost predicate Displays(page: seq<Byte>)
      reads this`log, this`logOn, this`cur, screen, log
    {
      Has(page) && AtEnd() && screen[..] == Shown(page)
    }

    /** The paper and the cursor are these; the window may be scrolled up. */
    ghost predicate Looks(v: View)
      reads this, screen, log
    {
      Valid() && Has(v.paper) && curX == v.x && curY == v.y
    }

    /** The same before a new line is made, with the end of the paper on the screen. */
    ghost predicate Stands(w: View)
      reads this, screen, log
    {
      Displays(w.paper) && curX == w.x && curY == w.y && limit.Valid()
    }

    /** `memcpy` from the log at `cur` to the screen. */
    method Render()
      requires screen.Length == SCREEN && screen != log && cur + SCREEN <= log.Length
      modifies screen
      ensures screen[..] == log[cur..cur + SCREEN]
    {
      var k := 0;
      while k < SCREEN
        invariant 0 <= k <= SCREEN
        invariant forall j :: 0 <= j < k ==> screen[j] == log[cur + j]
      {
        screen[k] := log[cur + k];
        k := k + 1;
      }
    }

    method ScrollDown(ghost v: View)
      requires Looks(v) && logOn
      modifies screen, this`cur
      ensures Stands(v)
    {
      cur := log.Length - SCREEN;
      Render();
    }

    /** Move the window n rows, as far as the log goes. */
    method Scroll(n: int, ghost v: View) returns (ok: bool)
      requires Looks(v)
      modifies screen, this`cur
      ensures Looks(v) && ok == logOn
      ensures !logOn ==> cur == old(cur) && screen[..] == old(screen[..])
      ensures logOn ==> cur == WindowAt(old(cur), n, log.Length)
      ensures logOn ==> var row, last := old(cur) / ROW + n, log.Length / ROW - HEIGHT;
        cur % ROW == 0 && cur / ROW == if row < 0 then 0 else if row > last then last else row
    {
      if !logOn {
        return false;
      }
      ok := true;
      WindowRow(cur, 0, log.Length);
      if n == 0 {
        return;
      }
      WindowOnRow(cur, n, log.Length);
      WindowRow(cur, n, log.Length);
      if n < 0 {
        if cur == 0 {
          return;
        }
        var at := cur + n * ROW;
        cur := if at < 0 then 0 else at;
        Render();
      } else {
        var at := cur + n * ROW;
        var end := log.Length - SCREEN;
        cur := if at >= end then end else at;
        Render();
      }
    }

    /** Turn the log on, starting with what is on the screen, or off. */
    method EnableLog(state: bool)
      requires screen.Length == SCREEN && screen != log && limit.Valid() && -128 <= curX < 128 && 0 <= curY < HEIGHT
      requires state ==> Synced()
      modifies this`log, this`logOn, this`cur
      ensures Valid() && logOn == (state && (old(logOn) || mallocReady))
      ensures logOn && old(logOn) ==> log == old(log) && cur == old(cur)
      ensures !logOn || !old(logOn) ==> Stands(View(screen[..], curX, curY))
      ensures log == old(log) || fresh(log)
    {
      if state && !logOn {
        if !mallocReady {
          return;
        }
        log := new Byte[SCREEN];
        cur := 0;
        var k := 0;
        while k < SCREEN
          modifies log
          invariant 0 <= k <= SCREEN && screen[..] == old(screen[..])
          invariant forall j :: 0 <= j < k ==> log[j] == screen[j]
        {
          log[k] := screen[k];
          k := k + 1;
        }
        logOn := true;
      } else if !state && logOn {
        logOn := false;
      }
    }

    /** The framebuffer loop of `newLines`: every cell takes the one n rows below, or none. */
    method MoveUp(n: nat)
      requires screen.Length == SCREEN && n <= HEIGHT
      modifies screen
      ensures screen[..] == Shown(old(screen[..]) + Blank(n * WIDTH))
    {
      ghost var before := screen[..];
      ghost var after := Shown(before + Blank(n * WIDTH));
      MovedUp(before, n);
      hide Shown, Blank;
      var k := 0;
      while k < SCREEN
        invariant 0 <= k <= SCREEN && k % 2 == 0
        invariant forall j :: 0 <= j < k ==> screen[j] == after[j]
        invariant forall j :: k <= j < SCREEN ==> screen[j] == before[j]
      {
        var below := k + n * ROW;
        assert k + 1 < SCREEN && (k + 1) % 2 == 1 && (below < SCREEN <==> below + 1 < SCREEN);
        if below < SCREEN {
          screen[k] := screen[below];
          screen[k + 1] := screen[below + 1];
        } else {
          screen[k] := 0;
          screen[k + 1] := WHITE;
        }
        k := k + 2;
      }
    }

    /** What `realloc` promises: a block of the new size that starts with the old log. */
    method Reallocated(newsize: nat) returns (newLog: array<Byte>)
      requires newsize >= log.Length
      ensures fresh(newLog) && newLog.Length == newsize && newLog[..log.Length] == log[..]
    {
      newLog := new Byte[newsize];
      var k := 0;
      while k < log.Length
        modifies newLog
        invariant 0 <= k <= log.Length && newLog[..k] == log[..k]
      {
        newLog[k] := log[k];
        k := k + 1;
      }
    }

    /** `newLines` on the log: room for n more rows, and the window at the end. */
    method GrowLog(n: nat)
      requires Rows(log.Length) && n <= HEIGHT
      modifies this`log, this`cur
      ensures fresh(log) && log[..] == old(log[..]) + Blank(n * WIDTH) && cur == log.Length - SCREEN
    {
      hide Rows, Blank;
      var newsize := log.Length + n * ROW;
      RowsFit(log.Length, n);
      var newLog := Reallocated(newsize);
      var ptr := newsize - n * ROW;
      if ptr < newsize - SCREEN {
        ptr := newsize - SCREEN;
      }
      EmptyCells(newLog, ptr);
      BlankBelow(log[..], newLog[..], n);
      log := newLog;
      cur := newsize - SCREEN;
    }

    /** Add n rows at the end; without the allocator the log is given up. */
    method NewLines(n: nat, ghost page: seq<Byte>)
      requires Displays(page)
      modifies screen, this`curY, this`log, this`cur, this`logOn
      ensures Displays(page + Blank(Most(n) * WIDTH))
      ensures logOn == (old(logOn) && mallocReady) && (log == old(log) || fresh(log))
      ensures curY == RowAfter(old(curY), n)
      ensures 0 <= old(curY) < 128 && n <= 128 ==>
          curY == if n >= old(curY) then 0 else if old(curY) - n > HEIGHT then HEIGHT else old(curY) - n
    {
      SyncedBasics(page);
      hide Rows, Shown, Blank, AsI8, Synced, AtEnd, Displays, Has;
      var rows := Most(n);
      RowUp(curY, n);
      curY := RowAfter(curY, n);
      MoveUp(rows);
      ShownMoved(page, rows);
      if logOn && mallocReady {
        GrowLog(rows);
      } else if logOn {
        logOn := false;
      }
      Settled(page + Blank(rows * WIDTH));
    }

    lemma SyncedBasics(page: seq<Byte>)
      requires Displays(page)
      ensures screen.Length == SCREEN && screen != log && Rows(|page|) && screen[..] == Shown(page)
      ensures logOn ==> Rows(log.Length) && log[..] == page && cur == log.Length - SCREEN
    {
    }

    lemma Settled(page: seq<Byte>)
      requires screen.Length == SCREEN && screen != log && Rows(|page|) && screen[..] == Shown(page)
      requires logOn ==> log[..] == page && cur == log.Length - SCREEN
      ensures Displays(page)
    {
      EndOnRow(|page|);
    }

    /** One cell, in the log and on the screen. */
    method WriteCell(off: nat, ch: Byte, st: Byte, ghost page: seq<Byte>)
      requires Displays(page) && off < SCREEN - 1
      modifies screen, log
      ensures Displays(WithCell(page, |page| - SCREEN + off, ch, st))
    {
      SyncedBasics(page);
      if logOn {
        log[cur + off] := ch;
        log[cur + off + 1] := st;
      }
      screen[off] := ch;
      screen[off + 1] := st;
      CellShown(page, off, ch, st);
      hide Shown, Rows, Synced, AtEnd, Displays, Has;
      Settled(WithCell(page, |page| - SCREEN + off, ch, st));
    }

    /** In a line: back up one cell and empty it. */
    method Rubout(ghost page: seq<Byte>) returns (ok: bool)
      requires Valid() && Displays(page) && curX > 0
      modifies screen, log, this`curX
      ensures ok == (0 <= 2 * old(curX) + 160 * curY - 2 < SCREEN)
      ensures ok ==> curX == old(curX) - 1
      ensures ok ==> Displays(WithCell(page, |page| - SCREEN + 2 * curX + 160 * curY, 0, WHITE))
    {
      var videoOff := 2 * curX + 160 * curY - 2;
      if !(0 <= videoOff < SCREEN) {
        return false;
      }
      curX := curX - 1;
      WriteCell(videoOff, 0, WHITE, page);
      ok := true;
    }

    /** A plain character: its cell, and the cursor one on or at the start of the next row. */
    method StrikePlain(c: Byte, ghost page: seq<Byte>) returns (ok: bool)
      requires Valid() && Displays(page)
      modifies this`curX, this`curY, screen, log
      ensures ok == (0 <= 2 * old(curX) + 160 * old(curY) < SCREEN)
      ensures ok ==> Displays(WithCell(page, |page| - SCREEN + 2 * old(curX) + 160 * old(curY), c, style))
      ensures var x := AsI8(old(curX) + 1);
        ok ==> curX == (if x >= WIDTH then 0 else x) && curY == (if x >= WIDTH then old(curY) + 1 else old(curY))
    {
      hide WithCell, AsI8, Synced, Has, AtEnd;
      var videoOff := 2 * curX + 160 * curY;
      if !(0 <= videoOff < SCREEN) {
        return false;
      }
      WriteCell(videoOff, c, style, page);
      curX := AsI8(curX + 1);
      if curX >= WIDTH {
        curX := 0;
        curY := curY + 1;
      }
      ok := true;
    }

    /** A character before any new line. */
    method Strike(c: Byte, ghost v: View) returns (ok: bool)
      requires Stands(v) && v.Valid()
      modifies this`curX, this`curY, screen, log
      ensures ok == !Stray(v, c, limit)
      ensures ok ==> Stands(Struck(v, c, style, limit))
    {
      hide *;
      StandsValid(v);
      StruckCases(v, c, style, limit);
      if c == 10 {
        curX := 0;
        curY := curY + 1;
      } else if c == 8 {
        if curY >= limit.y && curX > limit.x {
          ok := Rubout(v.paper);
          if !ok {
            return;
          }
        }
      } else if c == 9 {
        curX := AsI8(curX + 4 - TabRest(curX));
      } else if c == 13 {
        curX := 0;
      } else {
        ok := StrikePlain(c, v.paper);
        if !ok {
          return;
        }
      }
      StandsUp(Struck(v, c, style, limit));
      ok := true;
    }

    /** One character. It reports whether it found its place on the screen. */
    method Put(c: Byte, ghost v: View) returns (ok: bool)
      requires Looks(v) && v.Valid()
      modifies this`cur, this`curX, this`curY, this`log, this`logOn, screen, log
      ensures ok == !Stray(v, c, limit)
      ensures ok ==> Looks(Typed(v, c, style, limit)) && Stands(Typed(v, c, style, limit))
      ensures logOn ==> old(logOn)
      ensures mallocReady ==> logOn == old(logOn)
      ensures log == old(log) || fresh(log)
    {
      hide *;
      if logOn && cur != log.Length - SCREEN {
        ScrollDown(v);
      } else {
        NowStands(v);
      }
      ok := Strike(c, v);
      if ok {
        ghost var w := Struck(v, c, style, limit);
        StandsBelow(w);
        RollOnce(v, c, style, limit);
        if curY >= HEIGHT {
          NewLines(1 + curY - HEIGHT, w.paper);
        }
        StandsFor(Typed(v, c, style, limit));
      }
    }

    /** A string, character by character; it stops where one would miss the screen. */
    method Print(s: seq<Byte>, ghost v: View) returns (ok: bool)
      requires Looks(v) && v.Valid()
      modifies this`cur, this`curX, this`curY, this`log, this`logOn, screen, log
      ensures ok == Clean(v, Keys(s, style, limit))
      ensures ok ==> Looks(TypedAll(v, Keys(s, style, limit)))
      ensures ok && s != [] ==> Stands(TypedAll(v, Keys(s, style, limit)))
    {
      ghost var keys := Keys(s, style, limit);
      hide *;
      ghost var now := v;
      var i := 0;
      while i < |s|
        invariant 0 <= i <= |s|
        invariant log == old(log) || fresh(log)
        invariant Looks(now) && now.Valid() && (i > 0 ==> Stands(now))
        invariant Clean(v, keys) == Clean(now, keys[i..])
        invariant TypedAll(v, keys) == TypedAll(now, keys[i..])
      {
        KeyAt(s, style, limit, i);
        OneKey(now, keys[i..]);
        ok := Put(s[i], now);
        if !ok {
          return;
        }
        now := Typed(now, s[i], style, limit);
        assert keys[i..][1..] == keys[i + 1..];
        i := i + 1;
      }
      NoKey(now, keys[i..]);
      ok := true;
    }

    /** An empty screen, and an empty log if there was one and there still can be. */
    method Clear()
      requires Valid()
      modifies screen, this`curX, this`curY, this`log, this`logOn, this`cur
      ensures Valid() && Stands(View(Blank(WIDTH * HEIGHT), 0, 0))
      ensures logOn == (old(logOn) && mallocReady)
    {
      EmptyCells(screen, 0);
      assert screen[..] == Blank(WIDTH * HEIGHT);
      if logOn {
        EnableLog(false);
        EnableLog(true);
      }
      curX := 0;
      curY := 0;
    }

    /** What is left of or above the limit cannot be rubbed out; -1 stands for the cursor. */
    method SetRuboutLimit(x: int, y: int)
      requires Valid() && -128 <= x < 128 && -128 <= y < 128
      requires (x == -1 && curX >= 0) || x >= 0
      modifies this`limit
      ensures Valid() && limit == Limit(if x == -1 then curX else x, if y == -1 then curY else y)
    {
      limit := Limit(if x == -1 then curX else x, if y == -1 then curY else y);
    }

    lemma NowStands(v: View)
      requires Looks(v) && (logOn ==> cur == log.Length - SCREEN)
      ensures Stands(v)
    {
    }

    lemma StandsValid(v: View)
      requires Stands(v) && v.Valid()
      ensures Valid() && Displays(v.paper) && curX == v.x && curY == v.y && limit.Valid()
    {
    }

    lemma StandsUp(w: View)
      requires Displays(w.paper) && curX == w.x && curY == w.y && limit.Valid()
      ensures Stands(w)
    {
    }

    lemma StandsBelow(w: View)
      requires Stands(w)
      ensures Displays(w.paper) && curX == w.x && curY == w.y && limit.Valid()
    {
    }

    lemma StandsFor(w: View)
      requires w.Valid() && Displays(w.paper) && curX == w.x && curY == w.y && limit.Valid()
      ensures Stands(w) && Looks(w)
    {
    }
  }

  lemma KeyAt(s: seq<Byte>, style: Byte, l: Limit, i: nat)
    requires i < |s|
    ensures |Keys(s, style, l)| == |s| && Keys(s, style, l)[i] == Key(s[i], style, l)
  {
  }

  lemma OneKey(v: View, keys: seq<Key>)
    requires v.Valid() && keys != []
    ensures var k := keys[0];
      if Stray(v, k.c, k.limit) then !Clean(v, keys)
      else
        && Typed(v, k.c, k.style, k.limit).Valid()
        && Clean(v, keys) == Clean(Typed(v, k.c, k.style, k.limit), keys[1..])
        && TypedAll(v, keys) == TypedAll(Typed(v, k.c, k.style, k.limit), keys[1..])
  {
    hide Typed, Stray;
  }

  lemma NoKey(v: View, keys: seq<Key>)
    requires v.Valid() && keys == []
    ensures Clean(v, keys) && TypedAll(v, keys) == v
  {
  }

  /** `Struck` and `Stray`, case by case. */
  lemma StruckCases(v: View, c: Byte, style: Byte, l: Limit)
    requires v.Valid() && l.Valid()
    ensures Plain(c) <==> c != 8 && c != 9 && c != 10 && c != 13
    ensures Erases(v, c, l) <==> c == 8 && v.y >= l.y && v.x > l.x
    ensures Target(v, c) == 2 * v.x + 160 * v.y - if c == 8 then 2 else 0
    ensures Erases(v, c, l) ==> v.x > 0
    ensures Stray(v, c, l) <==> (Plain(c) || Erases(v, c, l)) && !(0 <= Target(v, c) < SCREEN)
    ensures !Stray(v, c, l) ==>
      var w, at := Struck(v, c, style, l), |v.paper| - SCREEN + Target(v, c);
      && (c == 10 ==> w == v.(x := 0, y := v.y + 1))
      && (c == 13 ==> w == v.(x := 0))
      && (c == 9 ==> w == v.(x := AsI8(v.x + 4 - TabRest(v.x))))
      && (c == 8 && !Erases(v, c, l) ==> w == v)
      && (Erases(v, c, l) ==> w == View(WithCell(v.paper, at, 0, WHITE), v.x - 1, v.y))
      && (Plain(c) ==> w.paper == WithCell(v.paper, at, c, style))
      && (Plain(c) ==>
        && w.x == (if AsI8(v.x + 1) >= WIDTH then 0 else AsI8(v.x + 1))
        && w.y == (if AsI8(v.x + 1) >= WIDTH then v.y + 1 else v.y))
  {
    hide WithCell, TabRest;
  }

  /** A cursor below the last row is one row below it. */
  lemma RollOnce(v: View, c: Byte, style: Byte, l: Limit)
    requires v.Valid() && !Stray(v, c, l)
    ensures var w, z := Struck(v, c, style, l), Typed(v, c, style, l);
      && z.Valid() && w.y <= HEIGHT
      && (w.y < HEIGHT ==> z == w)
      && (w.y == HEIGHT ==> z.paper == w.paper + Blank(Most(1) * WIDTH) && z.x == w.x && z.y == RowAfter(w.y, 1))
  {
  }

  lemma MovedUp(before: seq<Byte>, n: nat)
    requires |before| == SCREEN
    ensures var after := Shown(before + Blank(n * WIDTH));
      forall j :: 0 <= j < SCREEN ==>
        after[j] == if j + n * ROW < SCREEN then before[j + n * ROW] else if j % 2 == 0 then 0 else WHITE
  {
    var long, b := before + Blank(n * WIDTH), Blank(n * WIDTH);
    var after := Shown(long);
    forall j | 0 <= j < SCREEN
      ensures after[j] == if j + n * ROW < SCREEN then before[j + n * ROW] else if j % 2 == 0 then 0 else WHITE
    {
      assert after[j] == long[j + n * ROW];
      if j + n * ROW >= SCREEN {
        assert long[j + n * ROW] == b[j + n * ROW - SCREEN];
        Even(j, n);
      }
    }
  }

  lemma Even(j: nat, n: nat)
    ensures (j + n * ROW - SCREEN) % 2 == j % 2
  {
    EvenShift(j, 80 * n - 2000);
  }

  lemma EvenShift(j: nat, m: int)
    ensures (j + 2 * m) % 2 == j % 2
  {
  }

  /** Never more new rows than the user can see. */
  function Most(n: nat): (k: nat) { if n > HEIGHT then HEIGHT else n }

  /** The cursor's row after n new rows, in a signed byte. */
  function RowAfter(y: int, n: nat): int {
    var r := AsI8(y - n);
    if r < 0 then 0 else if r > HEIGHT then HEIGHT else r
  }

  lemma RowUp(y: int, n: nat)
    ensures 0 <= y < 128 && n <= 128 ==>
        RowAfter(y, n) == if n >= y then 0 else if y - n > HEIGHT then HEIGHT else y - n
  {
  }

  lemma EndOnRow(length: nat)
    requires Rows(length)
    ensures (length - SCREEN) % ROW == 0
  {
  }

  /** The end of a page moves up like the page. */
  lemma ShownMoved(page: seq<Byte>, n: nat)
    requires Rows(|page|)
    ensures Shown(Shown(page) + Blank(n * WIDTH)) == Shown(page + Blank(n * WIDTH))
    ensures Rows(|page + Blank(n * WIDTH)|)
  {
    RowsFit(|page|, n);
  }

  /** Empty cells from an even place on. */
  method EmptyCells(a: array<Byte>, start: nat)
    requires start <= a.Length && start % 2 == 0 && a.Length % 2 == 0
    modifies a
    ensures a[..start] == old(a[..start])
    ensures forall j :: start <= j < a.Length ==> a[j] == if j % 2 == 0 then 0 else WHITE
  {
    var ptr := start;
    while ptr < a.Length
      invariant start <= ptr <= a.Length && ptr % 2 == 0
      invariant a[..start] == old(a[..start])
      invariant forall j :: start <= j < ptr ==> a[j] == if j % 2 == 0 then 0 else WHITE
    {
      a[ptr] := 0;
      a[ptr + 1] := WHITE;
      ptr := ptr + 2;
    }
  }

  /** A log: whole rows, at least a screen of them. */
  ghost predicate Rows(length: nat) { length >= SCREEN && length % ROW == 0 }

  lemma RowsFit(length: nat, n: nat)
    requires Rows(length)
    ensures length % 2 == 0 && (length + n * ROW) % 2 == 0 && Rows(length + n * ROW) && length >= SCREEN
  {
    var rows := length / ROW;
    assert length == ROW * rows;
    RowsOf(rows);
    RowsOf(rows + n);
    assert length + n * ROW == ROW * (rows + n);
  }

  lemma RowsOf(rows: nat)
    ensures ROW * rows % ROW == 0 && ROW * rows % 2 == 0
  {
    assert ROW * rows == 2 * (80 * rows);
  }

  /** Where a window of the log stands after moving n rows. */
  function WindowAt(cur: nat, n: int, length: nat): (to: nat)
    requires length >= SCREEN && cur <= length - SCREEN
    ensures to <= length - SCREEN
  {
    var at := cur + n * ROW;
    if at < 0 then 0 else if at > length - SCREEN then length - SCREEN else at
  }

  lemma WindowOnRow(cur: nat, n: int, length: nat)
    requires length >= SCREEN && length % ROW == 0 && cur % ROW == 0 && cur <= length - SCREEN
    ensures WindowAt(cur, n, length) % ROW == 0
  {
    var row, last := cur / ROW, length / ROW;
    assert cur + n * ROW == ROW * (row + n) && length - SCREEN == ROW * (last - HEIGHT);
  }

  /** The window's top row moves by n, to the first or last one when that would leave the log. */
  lemma WindowRow(cur: nat, n: int, length: nat)
    requires length >= SCREEN && length % ROW == 0 && cur % ROW == 0 && cur <= length - SCREEN
    ensures var row, last := cur / ROW + n, length / ROW - HEIGHT;
      WindowAt(cur, n, length) / ROW == if row < 0 then 0 else if row > last then last else row
    ensures WindowAt(cur, 0, length) == cur
  {
    var row, rows := cur / ROW, length / ROW;
    assert cur + n * ROW == ROW * (row + n) && length - SCREEN == ROW * (rows - HEIGHT);
  }

  /** Rows emptied behind an old log are the old log and blank cells. */
  lemma BlankBelow(before: seq<Byte>, after: seq<Byte>, n: nat)
    requires Rows(|before|) && |after| == |before| + n * ROW
    requires after[..|before|] == before
    requires forall j :: |before| <= j < |after| ==> after[j] == if j % 2 == 0 then 0 else WHITE
    ensures after == before + Blank(n * WIDTH)
  {
    var b := Blank(n * WIDTH);
    hide Blank;
    forall j | |before| <= j < |after| ensures after[j] == b[j - |before|] {
      EvenStart(|before|, j);
    }
    assert after == after[..|before|] + after[|before|..];
  }

  lemma EvenStart(base: nat, j: nat)
    requires base % ROW == 0 && base <= j
    ensures (j - base) % 2 == j % 2
  {
    assert base == 2 * (80 * (base / ROW));
    var half := 80 * (base / ROW);
    assert j == (j - base) + 2 * half;
  }
}
