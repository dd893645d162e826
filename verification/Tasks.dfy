/** The process table: choosing pids, ending tasks, and the round-robin choice of the next one. */
module Tasks {

  const MAXPID: nat := 64

  const UNUSED: int := 0
  const READY: int := 1
  const ZOMBIE: int := -1

  /** The states of all slots; slot 0 is the kernel task and slot MAXPID is never used. */
  ghost predicate Table(st: seq<int>) {
    && |st| == MAXPID + 1 && st[0] == READY && st[MAXPID] == UNUSED
    && forall p :: 0 < p < MAXPID ==> st[p] == UNUSED || st[p] == READY
  }

  predicate IsReady(st: seq<int>, p: nat)
    requires |st| == MAXPID + 1
  {
    0 < p < MAXPID && st[p] == READY
  }

  /** The ready pids below n, in order. */
  function Readies(st: seq<int>, n: nat): (r: seq<nat>)
    requires |st| == MAXPID + 1
    ensures forall p: nat :: p in r <==> p < n && IsReady(st, p)
    ensures forall i, j :: 0 <= i < j < |r| ==> r[i] < r[j]
  {
    if n == 0 then []
    else
      var r := Readies(st, n - 1);
      assert forall i :: 0 <= i < |r| ==> r[i] in r;
      assert forall p: nat :: p in r + [n - 1] <==> p in r || p == n - 1;
      if IsReady(st, n - 1) then r + [n - 1] else r
  }

  function ReadyPids(st: seq<int>): (r: seq<nat>)
    requires |st| == MAXPID + 1
    ensures forall p: nat :: p in r <==> IsReady(st, p)
    ensures forall i, j :: 0 <= i < j < |r| ==> r[i] < r[j]
    ensures forall i :: 0 <= i < |r| ==> 0 < r[i] < MAXPID
  {
    hide Readies;
    var r := Readies(st, MAXPID);
    assert forall i :: 0 <= i < |r| ==> r[i] in r;
    r
  }

  /** The first ready pid in [lo, hi), or 0. */
  function FirstReady(st: seq<int>, lo: nat, hi: nat): (p: nat)
    requires |st| == MAXPID + 1 && hi <= MAXPID && 0 < lo
    ensures p != 0 ==> lo <= p < hi && IsReady(st, p) && forall q :: lo <= q < p ==> !IsReady(st, q)
    ensures p == 0 ==> forall q :: lo <= q < hi ==> !IsReady(st, q)
    decreases hi - lo
  {
    if lo >= hi then 0 else if st[lo] == READY then lo else FirstReady(st, lo + 1, hi)
  }

  /** The pid after cur in round-robin order: the next one up, else from 1 again, else the kernel. */
  function Next(st: seq<int>, cur: nat): nat
    requires |st| == MAXPID + 1 && cur < MAXPID
  {
    var up := FirstReady(st, cur + 1, MAXPID);
    if up != 0 then up else FirstReady(st, 1, cur)
  }

  /** Where current stands after n switches. */
  function After(st: seq<int>, cur: nat, n: nat): (p: nat)
    requires |st| == MAXPID + 1 && cur < MAXPID
    ensures p < MAXPID
  {
    if n == 0 then cur else Next(st, After(st, cur, n - 1))
  }

  // ----- fairness -----

  lemma InOrder(st: seq<int>, i: nat)
    requires |st| == MAXPID + 1 && i < |ReadyPids(st)|
    ensures IsReady(st, ReadyPids(st)[i])
    ensures forall q: nat :: IsReady(st, q) && q > ReadyPids(st)[i] ==>
      i + 1 < |ReadyPids(st)| && ReadyPids(st)[i + 1] <= q
    ensures forall q: nat :: IsReady(st, q) ==> ReadyPids(st)[0] <= q
  {
    hide ReadyPids;
    var r := ReadyPids(st);
    assert r[i] in r;
    forall q: nat | IsReady(st, q) ensures r[0] <= q && (q > r[i] ==> i + 1 < |r| && r[i + 1] <= q) {
      assert q in r;
      var j :| 0 <= j < |r| && r[j] == q;
    }
  }

  /** n <= k places further round a circle of k. */
  function Round(i: nat, n: nat, k: nat): (r: nat)
    requires i < k && n <= k
    ensures r < k
  {
    if i + n < k then i + n else i + n - k
  }

  /** From one ready pid the scheduler goes to the next in order, and from the last to the first. */
  lemma NextInOrder(st: seq<int>, i: nat)
    requires |st| == MAXPID + 1 && i < |ReadyPids(st)| && |ReadyPids(st)| >= 2
    ensures Next(st, ReadyPids(st)[i]) == ReadyPids(st)[Round(i, 1, |ReadyPids(st)|)]
  {
    hide ReadyPids, FirstReady;
    var r := ReadyPids(st);
    InOrder(st, i);
    var up := FirstReady(st, r[i] + 1, MAXPID);
    if i + 1 < |r| {
      InOrder(st, i + 1);
    } else {
      InOrder(st, 0);
      var low := FirstReady(st, 1, r[i]);
      assert r[0] < r[i];
    }
  }

  lemma {:induction false} AfterInOrder(st: seq<int>, i: nat, n: nat)
    requires |st| == MAXPID + 1 && i < |ReadyPids(st)| && |ReadyPids(st)| >= 2 && n <= |ReadyPids(st)|
    ensures After(st, ReadyPids(st)[i], n) == ReadyPids(st)[Round(i, n, |ReadyPids(st)|)]
  {
    hide ReadyPids, Next;
    if n == 0 {
    } else {
      AfterInOrder(st, i, n - 1);
      NextInOrder(st, Round(i, n - 1, |ReadyPids(st)|));
    }
  }

  /** Fairness: among k >= 2 ready tasks, in any k switches in a row each of them runs exactly once, and the k-th
      switch is back where the row began. */
  lemma RoundRobin(st: seq<int>, cur: nat, p: nat)
    requires |st| == MAXPID + 1 && IsReady(st, cur) && IsReady(st, p) && |ReadyPids(st)| >= 2
    ensures After(st, cur, |ReadyPids(st)|) == cur
    ensures exists n: nat :: n < |ReadyPids(st)| && After(st, cur, n) == p
    ensures forall n: nat, n2: nat :: n < n2 < |ReadyPids(st)| ==> After(st, cur, n) != After(st, cur, n2)
  {
    hide ReadyPids, After;
    var r := ReadyPids(st);
    var k := |r|;
    assert cur in r && p in r;
    var i :| 0 <= i < k && r[i] == cur;
    var j :| 0 <= j < k && r[j] == p;
    AfterInOrder(st, i, k);
    var n := if j >= i then j - i else j + k - i;
    AfterInOrder(st, i, n);
    assert After(st, cur, n) == p;
    forall n: nat, n2: nat | n < n2 < k ensures After(st, cur, n) != After(st, cur, n2) {
      AfterInOrder(st, i, n);
      AfterInOrder(st, i, n2);
      var a, b := Round(i, n, k), Round(i, n2, k);
      assert a < b || b < a;
    }
  }

  // ----- the process table in use -----

  /** A lone ready task is not kept running while nProc says two: it alternates with the kernel task. */
  lemma LoneTask(st: seq<int>, p: nat)
    requires |st| == MAXPID + 1 && IsReady(st, p) && ReadyPids(st) == [p]
    ensures Next(st, p) == 0 && Next(st, 0) == p
  {
    hide ReadyPids, FirstReady;
    assert p in [p];
    assert forall q: nat :: IsReady(st, q) ==> q in [p];
  }

  lemma {:induction false} ReadiesSplit(st: seq<int>, st2: seq<int>, p: nat, n: nat)
    requires |st| == |st2| == MAXPID + 1 && 0 < p < MAXPID && !IsReady(st, p) && st2 == st[p := READY]
    ensures |Readies(st2, n)| == |Readies(st, n)| + if p < n then 1 else 0
  {
    if n == 0 {
    } else {
      ReadiesSplit(st, st2, p, n - 1);
    }
  }

  lemma OneMoreReady(st: seq<int>, p: nat)
    requires |st| == MAXPID + 1 && 0 < p < MAXPID && !IsReady(st, p)
    ensures |ReadyPids(st[p := READY])| == |ReadyPids(st)| + 1
  {
    hide Readies;
    ReadiesSplit(st, st[p := READY], p, MAXPID);
  }

  lemma HasMember(r: seq<nat>)
    requires r != []
    ensures exists p: nat :: p in r
  {
    assert r[0] in r;
  }

  /** The least unused slot from p on. */
  ghost predicate LeastUnused(st: seq<int>, p: nat) {
    0 < p < |st| && st[p] == UNUSED && forall q :: 0 < q < p ==> st[q] != UNUSED
  }

  class TaskManager {
    const state: array<int>
    var current: nat
    var nProc: int
    var schedulerEnabled: bool
    ghost var failedLoads: nat

    /** nProc counts the ready tasks and, since a failed load is never taken back, the failed loads. */
    ghost predicate Valid()
      reads this, state
    {
      && state.Length == MAXPID + 1 && Table(state[..])
      && current < MAXPID && state[current] == READY
      && nProc == |ReadyPids(state[..])| + failedLoads
    }

    constructor ()
      ensures Valid() && current == 0 && nProc == 0 && failedLoads == 0 && schedulerEnabled && fresh(state)
    {
      schedulerEnabled := true;
      nProc := 0;
      failedLoads := 0;
      state := new int[MAXPID + 1](_ => UNUSED);
      current := 0;
      new;
      hide Readies;
      state[0] := READY;
      if ReadyPids(state[..]) != [] {
        HasMember(ReadyPids(state[..]));
      }
    }

    /** `loadTask`: the least unused slot is taken and nProc raised; only a loaded program becomes ready. */
    method LoadTask(elfOk: bool) returns (pid: nat)
      requires Valid()
      modifies this`nProc, this`failedLoads, state
      ensures Valid()
      ensures pid != 0 ==> elfOk && pid < MAXPID && LeastUnused(old(state[..]), pid)
      ensures pid != 0 ==> state[..] == old(state[..])[pid := READY]
      ensures pid == 0 ==> state[..] == old(state[..])
      ensures pid == 0 <==> !elfOk || forall q :: 0 < q < MAXPID ==> old(state[q]) != UNUSED
      ensures var full := forall q :: 0 < q < MAXPID ==> old(state[q]) != UNUSED;
        && nProc == old(nProc) + (if full then 0 else 1)
        && failedLoads == old(failedLoads) + if full || elfOk then 0 else 1
    {
      hide Readies;
      var slot := 1;
      while slot < MAXPID && state[slot] != UNUSED
        invariant 1 <= slot <= MAXPID
        invariant forall q :: 0 < q < slot ==> state[q] != UNUSED
      {
        slot := slot + 1;
      }
      if slot >= MAXPID {
        return 0;
      }
      nProc := nProc + 1;
      if !elfOk {
        failedLoads := failedLoads + 1;
        return 0;
      }
      OneMoreReady(state[..], slot);
      state[slot] := READY;
      return slot;
    }

    /** `exitTask`: the current task's slot is unused again and the kernel task goes on; the kernel task itself
        cannot end. */
    method ExitTask() returns (halted: bool)
      requires Valid()
      modifies this`nProc, this`current, state
      ensures halted == (old(current) == 0)
      ensures halted ==> state[..] == old(state[..]) && nProc == old(nProc) && current == 0
      ensures !halted ==>
        && Valid() && current == 0 && nProc == old(nProc) - 1
        && state[..] == old(state[..])[old(current) := UNUSED]
    {
      hide Readies;
      if current == 0 {
        return true;
      }
      nProc := nProc - 1;
      state[current] := ZOMBIE;
      OneMoreReady(state[..][current := UNUSED], current);
      assert state[..][current := UNUSED][current := READY] == old(state[..]);
      state[current] := UNUSED;
      current := 0;
      return false;
    }

    /** `schedule`: with no task, or one that is running, nothing changes; otherwise round robin. */
    method Schedule()
      requires Valid()
      modifies this`current
      ensures Valid()
      ensures current ==
        if !schedulerEnabled || nProc == 0 || (nProc == 1 && old(current) != 0) then old(current)
        else Next(state[..], old(current))
    {
      hide ReadyPids, Next, FirstReady;
      if !schedulerEnabled || nProc == 0 {
        return;
      }
      if nProc == 1 && current != 0 {
        return;
      }
      var newpid := 0;
      var i := current + 1;
      while i < MAXPID && newpid == 0
        invariant current + 1 <= i <= MAXPID
        invariant newpid == 0 ==> forall q :: current < q < i ==> !IsReady(state[..], q)
        invariant newpid != 0 ==> newpid == i - 1 > current && IsReady(state[..], newpid)
        invariant newpid != 0 ==> forall q :: current < q < newpid ==> !IsReady(state[..], q)
      {
        if state[i] == READY {
          newpid := i;
        }
        i := i + 1;
      }
      if newpid == 0 {
        i := 1;
        while i < current && newpid == 0
          invariant 1 <= i && (current == 0 ==> i == 1) && (current > 0 ==> i <= current)
          invariant newpid == 0 ==> forall q :: 0 < q < i ==> !IsReady(state[..], q)
          invariant newpid != 0 ==> newpid == i - 1 && 0 < newpid < current && IsReady(state[..], newpid)
          invariant newpid != 0 ==> forall q :: 0 < q < newpid ==> !IsReady(state[..], q)
        {
          if state[i] == READY {
            newpid := i;
          }
          i := i + 1;
        }
      }
      NextIs(state[..], current, newpid);
      current := newpid;
    }

    /** n timer interrupts with two or more ready tasks: who ran after each. A whole round runs each ready task once. */
    method Interrupts(n: nat) returns (ran: seq<nat>)
      requires Valid() && schedulerEnabled && |ReadyPids(state[..])| >= 2
      modifies this`current
      ensures Valid() && |ran| == n && current == After(state[..], old(current), n)
      ensures forall x: nat :: x < n ==> ran[x] == After(state[..], old(current), x + 1)
      ensures n == |ReadyPids(state[..])| && IsReady(state[..], old(current)) ==>
        current == old(current) && EachOnce(state[..], ran)
    {
      hide ReadyPids, Next, After;
      ran := [];
      AfterNone(state[..], current);
      while |ran| < n
        invariant Valid() && |ran| <= n && current == After(state[..], old(current), |ran|)
        invariant forall x: nat :: x < |ran| ==> ran[x] == After(state[..], old(current), x + 1)
      {
        AfterMore(state[..], old(current), |ran|);
        Schedule();
        ran := ran + [current];
      }
      if n == |ReadyPids(state[..])| && IsReady(state[..], old(current)) {
        RoundRunsEach(state[..], old(current), ran);
      }
    }
  }

  /** Each ready pid is in the sequence exactly once, and nothing else is. */
  ghost predicate EachOnce(st: seq<int>, ran: seq<nat>)
    requires |st| == MAXPID + 1
  {
    && (forall p: nat :: p in ran <==> IsReady(st, p))
    && forall x, y :: 0 <= x < y < |ran| ==> ran[x] != ran[y]
  }

  lemma AfterNone(st: seq<int>, cur: nat)
    requires |st| == MAXPID + 1 && cur < MAXPID
    ensures After(st, cur, 0) == cur
  {
  }

  lemma AfterMore(st: seq<int>, cur: nat, n: nat)
    requires |st| == MAXPID + 1 && cur < MAXPID
    ensures After(st, cur, n + 1) == Next(st, After(st, cur, n))
  {
  }

  lemma RoundRunsEach(st: seq<int>, cur: nat, ran: seq<nat>)
    requires |st| == MAXPID + 1 && IsReady(st, cur) && |ReadyPids(st)| == |ran| >= 2
    requires forall x: nat :: x < |ran| ==> ran[x] == After(st, cur, x + 1)
    ensures After(st, cur, |ran|) == cur && EachOnce(st, ran)
  {
    hide ReadyPids, After, IsReady;
    var k := |ran|;
    RoundRobin(st, cur, cur);
    AfterNone(st, cur);
    forall x, y | 0 <= x < y < k ensures ran[x] != ran[y] {
      if y + 1 == k {
        assert After(st, cur, x + 1) != After(st, cur, 0);
      }
    }
    forall p: nat ensures p in ran <==> IsReady(st, p) {
      if IsReady(st, p) {
        RoundRobin(st, cur, p);
        var n: nat :| n < k && After(st, cur, n) == p;
        assert p == ran[if n == 0 then k - 1 else n - 1];
      }
      if p in ran {
        var x :| 0 <= x < k && ran[x] == p;
        AfterReady(st, cur, x + 1);
      }
    }
  }

  lemma AfterReady(st: seq<int>, cur: nat, n: nat)
    requires |st| == MAXPID + 1 && IsReady(st, cur) && |ReadyPids(st)| >= 2 && n <= |ReadyPids(st)|
    ensures IsReady(st, After(st, cur, n))
  {
    hide ReadyPids, After;
    var r := ReadyPids(st);
    assert cur in r;
    var i :| 0 <= i < |r| && r[i] == cur;
    AfterInOrder(st, i, n);
  }

  lemma NextIs(st: seq<int>, cur: nat, p: nat)
    requires |st| == MAXPID + 1 && cur < MAXPID
    requires p > cur ==> IsReady(st, p) && forall q :: cur < q < p ==> !IsReady(st, q)
    requires p <= cur ==> forall q :: cur < q < MAXPID ==> !IsReady(st, q)
    requires 0 < p <= cur ==> p < cur && IsReady(st, p) && forall q :: 0 < q < p ==> !IsReady(st, q)
    requires p == 0 ==> forall q :: 0 < q < cur ==> !IsReady(st, q)
    ensures Next(st, cur) == p
  {
    hide FirstReady;
  }
}
