/** `llist`: a doubly linked list behind a sentinel, as the sequence it stands for. */
module LinkedList {
  datatype Answer = Found(value: int) | Empty | OutOfRange

  class LList {
    var next: LList?
    var prev: LList?
    var data: int
    /** The sentinel and the elements' nodes, in order. */
    ghost var spine: seq<LList>

    constructor ()
      ensures Valid() && Contents() == [] && fresh(spine) && next == null && prev == null
    {
      next, prev, data := null, null, 0;
      spine := [this];
    }

    /** Nodes are distinct, `prev` undoes `next`, and the last node ends the list. */
    ghost predicate Valid()
      reads this, spine
    {
      Chain(spine, Fields(spine)) && spine[0] == this
    }

    /** The nodes, the sentinel among them. */
    ghost function Repr(): set<LList>
      reads this
    {
      set n | n in spine
    }

    /** The elements. */
    ghost function Contents(): (s: seq<int>)
      requires |spine| > 0
      reads this, spine
      ensures |s| == |spine| - 1
    {
      Datas(Fields(spine))
    }

    /** What the pointers of node i are. */
    lemma NodeAt(i: nat)
      requires Valid() && i < |spine|
      ensures spine[0] == this && |Contents()| == |spine| - 1
      ensures spine[i].next == After(spine, i)
      ensures i > 0 ==> spine[i].prev == spine[i - 1] && spine[i].data == Contents()[i - 1]
    {
      assert Joined(spine, Fields(spine), i);
    }

    lemma HasSentinel()
      requires Valid()
      ensures |spine| > 0
    {
    }

    method IsEmpty() returns (b: bool)
      requires Valid()
      ensures b <==> Contents() == []
    {
      NodeAt(0);
      b := next == null;
    }

    method Size() returns (n: nat)
      requires Valid()
      ensures n == |Contents()|
    {
      NodeAt(0);
      n := 0;
      if next == null {
        return;
      }
      var i := this;
      while i.next != null
        invariant n < |spine| && i == spine[n] && i.next == After(spine, n)
        decreases |spine| - n
      {
        NodeAt(n + 1);
        i := i.next;
        n := n + 1;
      }
    }

    /** From the first node, at most `pos` nodes further. */
    method Walk(pos: nat) returns (i: LList, j: nat)
      requires Valid() && Contents() != []
      ensures j == (if pos < |Contents()| then pos else |Contents()| - 1) && j + 1 < |spine| && i == spine[j + 1]
    {
      NodeAt(0);
      NodeAt(1);
      i, j := next, 0;
      while j < pos && i.next != null
        invariant j <= pos && j + 1 < |spine| && i == spine[j + 1] && i.next == After(spine, j + 1)
        decreases pos - j
      {
        NodeAt(j + 2);
        i, j := i.next, j + 1;
      }
    }

    method Last() returns (i: LList)
      requires Valid() && Contents() != []
      ensures i == spine[|spine| - 1]
    {
      NodeAt(0);
      NodeAt(1);
      i := next;
      ghost var n := 1;
      while i.next != null
        invariant 0 < n < |spine| && i == spine[n] && i.next == After(spine, n)
        decreases |spine| - n
      {
        NodeAt(n + 1);
        i := i.next;
        n := n + 1;
      }
    }

    method At(pos: nat) returns (r: Answer)
      requires Valid()
      ensures r == if Contents() == [] then Empty else if pos < |Contents()| then Found(Contents()[pos]) else OutOfRange
    {
      NodeAt(0);
      if next == null {
        return Empty;
      }
      var i, j := Walk(pos);
      if j < pos {
        return OutOfRange;
      }
      NodeAt(j + 1);
      return Found(i.data);
    }

    /** The new node is in place: what the list is now. */
    ghost method Adopt(f: seq<Links>, k: nat, node: LList)
      requires Chain(spine, f) && spine[0] == this && 0 < k <= |spine| && node !in spine
      requires LinkedIn(spine, f, Fields(spine), k, node, Links(node.next, node.prev, node.data))
      modifies this`spine
      ensures Valid() && Repr() == old(Repr()) + {node}
      ensures Contents() == Inserted(Datas(f), k - 1, node.data)
    {
      hide Chain, Datas, LinkedIn, Inserted;
      ghost var s, n := spine, Links(node.next, node.prev, node.data);
      InsertKeeps(s, f, Fields(s), k, node, n);
      FieldsInserted(s, k, node);
      MembersInserted(s, k, node);
      spine := Inserted(s, k, node);
    }

    method Prepend(x: int)
      requires Valid()
      modifies this, Repr()
      ensures Valid() && Contents() == Inserted(old(Contents()), 0, x)
      ensures fresh(Repr() - old(Repr()))
    {
      ghost var s, f := spine, Fields(spine);
      NodeAt(0);
      Apart(s, 0);
      if |s| > 1 {
        NodeAt(1);
        Apart(s, 1);
      }
      hide Chain, Datas, After, Inserted, Distinct;
      var node := new LList();
      node.prev := this;
      node.next := next;
      if next != null {
        next.prev := node;
      }
      next := node;
      next.data := x;
      Adopt(f, 1, node);
    }

    /** The nodes around place k, before it is changed. */
    lemma Around(k: nat)
      requires Valid() && 0 < k <= |spine|
      ensures spine[0] == this && spine[k - 1].next == After(spine, k - 1)
      ensures forall i: nat {:trigger spine[i]} :: i < |spine| && i != k - 1 ==> spine[i] != spine[k - 1]
      ensures k < |spine| ==>
        && spine[k].prev == spine[k - 1] && spine[k].next == After(spine, k)
        && forall i: nat {:trigger spine[i]} :: i < |spine| && i != k ==> spine[i] != spine[k]
    {
      NodeAt(k - 1);
      Apart(spine, k - 1);
      if k < |spine| {
        NodeAt(k);
        Apart(spine, k);
      }
    }

    /** A new last node behind `last`. */
    method AddBehind(last: LList, x: int)
      requires Valid() && last == spine[|spine| - 1]
      modifies this, Repr()
      ensures Valid() && Contents() == old(Contents()) + [x]
      ensures fresh(Repr() - old(Repr()))
    {
      ghost var f, k := Fields(spine), |spine|;
      Around(k);
      ghost var before := Contents();
      hide Chain, Datas, After, Inserted, Distinct;
      var node := new LList();
      last.next := node;
      node.prev := last;
      node.data := x;
      NothingAfter(spine);
      Adopt(f, k, node);
      InsertedLast(before, x);
    }

    method Append(x: int)
      requires Valid()
      modifies this, Repr()
      ensures Valid() && Contents() == old(Contents()) + [x]
      ensures fresh(Repr() - old(Repr()))
    {
      NodeAt(0);
      if next == null {
        AddBehind(this, x);
      } else {
        var last := Last();
        AddBehind(last, x);
      }
    }

    /** A new node before node `at`, which stands at place k. */
    method AddBefore(at: LList, x: int, ghost k: nat)
      requires Valid() && 0 < k < |spine| && at == spine[k]
      modifies this, Repr()
      ensures Valid() && Contents() == Inserted(old(Contents()), k - 1, x)
      ensures fresh(Repr() - old(Repr()))
    {
      ghost var f := Fields(spine);
      Around(k);
      hide Chain, Datas, Inserted, Distinct;
      var node := new LList();
      at.prev.next := node;
      node.prev := at.prev;
      node.next := at;
      at.prev := node;
      node.data := x;
      Adopt(f, k, node);
    }

    /** `insert`: out of range stops the kernel, but an empty list takes only place 0 and says nothing else. */
    method Insert(pos: nat, x: int) returns (ok: bool)
      requires Valid()
      modifies this, Repr()
      ensures Valid()
      ensures ok == (pos <= |old(Contents())| || old(Contents()) == [])
      ensures pos <= |old(Contents())| ==> Contents() == Inserted(old(Contents()), pos, x)
      ensures pos > |old(Contents())| ==> Contents() == old(Contents())
      ensures fresh(Repr() - old(Repr()))
    {
      ok := true;
      NodeAt(0);
      if pos == 0 {
        Prepend(x);
        return;
      }
      if next == null {
        return;
      }
      var i, j := Walk(pos);
      if j < pos {
        if j == pos - 1 {
          AddBehind(i, x);
        } else {
          ok := false;
        }
        return;
      }
      AddBefore(i, x, pos + 1);
    }

    /** The node is out of the chain: what the list is now. */
    ghost method Drop(f: seq<Links>, k: nat)
      requires Chain(spine, f) && spine[0] == this && 0 < k < |spine| && LinkedOut(spine, f, Fields(spine), k)
      modifies this`spine
      ensures Valid() && Repr() <= old(Repr())
      ensures Contents() == Without(Datas(f), k - 1)
    {
      hide Chain, Datas, LinkedOut, Without;
      ghost var s := spine;
      RemoveKeeps(s, f, Fields(s), k);
      FieldsWithout(s, k);
      MembersWithout(s, k);
      spine := Without(s, k);
    }

    /** `removeFirst`; the source follows a null pointer when there is nothing to remove. */
    method RemoveFirst()
      requires Valid() && Contents() != []
      modifies this, Repr()
      ensures Valid() && Contents() == Without(old(Contents()), 0) && Repr() <= old(Repr())
    {
      ghost var f := Fields(spine);
      Around(1);
      if |spine| > 2 { Around(2); }
      hide Chain, Datas, Without, Distinct;
      if next.next != null {
        next := next.next;
        next.prev := this;
      } else {
        next := null;
      }
      Drop(f, 1);
    }

    method RemoveLast()
      requires Valid()
      modifies this, Repr()
      ensures Valid()
      ensures Contents() == if old(Contents()) == [] then [] else old(Contents())[..|old(Contents())| - 1]
      ensures Repr() <= old(Repr())
    {
      NodeAt(0);
      if next == null {
        return;
      }
      var i := Last();
      WithoutLast(Contents());
      hide Chain, Datas, Without, Fields;
      Unlink(i, |spine| - 1);
    }

    /** Take node i, at place k, out of the chain. */
    method Unlink(i: LList, ghost k: nat)
      requires Valid() && 0 < k < |spine| && i == spine[k]
      modifies this, Repr()
      ensures Valid() && Contents() == Without(old(Contents()), k - 1) && Repr() <= old(Repr())
    {
      ghost var f := Fields(spine);
      Around(k);
      if k + 1 < |spine| { Around(k + 1); }
      hide Chain, Datas, Without, Distinct;
      if i.next == null {
        i.prev.next := null;
      } else {
        i.prev.next := i.next;
        i.next.prev := i.prev;
      }
      Drop(f, k);
    }

    method RemoveAt(index: nat) returns (ok: bool)
      requires Valid()
      modifies this, Repr()
      ensures Valid()
      ensures ok == (index < |old(Contents())| || old(Contents()) == [])
      ensures Contents() == if index < |old(Contents())| then Without(old(Contents()), index) else old(Contents())
      ensures Repr() <= old(Repr())
    {
      hide Chain, Datas, Without, Fields, LList.Contents, LList.Valid, LList.Repr;
      HasSentinel();
      NodeAt(0);
      ok := true;
      if next == null {
        return;
      }
      if index == 0 {
        RemoveFirst();
        return;
      }
      var i, j := Walk(index);
      if j < index {
        return false;
      }
      Unlink(i, index + 1);
    }

    /** `empty`: take the first element away until there is none. */
    method Clear()
      requires Valid()
      modifies this, Repr()
      ensures Valid() && Contents() == []
    {
      var n := Size();
      while n != 0
        invariant Valid() && n == |Contents()|
        invariant Repr() <= old(Repr())
      {
        RemoveFirst();
        n := Size();
      }
    }
  }

  ghost predicate Distinct(spine: seq<LList>) { forall i, j :: 0 <= i < j < |spine| ==> spine[i] != spine[j] }

  /** The node after node i, if any. */
  ghost function After(spine: seq<LList>, i: int): LList?
    requires -1 <= i < |spine|
  {
    if i + 1 < |spine| then spine[i + 1] else null
  }

  /** A node's fields. */
  datatype Links = Links(next: LList?, prev: LList?, data: int)

  ghost function Fields(nodes: seq<LList>): (f: seq<Links>)
    reads nodes`next, nodes`prev, nodes`data
    ensures |f| == |nodes|
    ensures forall i: nat {:trigger f[i]} :: i < |f| ==> f[i] == Links(nodes[i].next, nodes[i].prev, nodes[i].data)
  {
    if nodes == [] then [] else [Links(nodes[0].next, nodes[0].prev, nodes[0].data)] + Fields(nodes[1..])
  }

  /** Field i links node i to its neighbours. */
  ghost predicate Joined(spine: seq<LList>, f: seq<Links>, i: nat)
    requires i < |spine| == |f|
  {
    f[i].next == After(spine, i) && (i > 0 ==> f[i].prev == spine[i - 1])
  }

  ghost predicate Chain(spine: seq<LList>, f: seq<Links>) {
    |spine| == |f| > 0 && Distinct(spine) && forall i: nat :: i < |spine| ==> Joined(spine, f, i)
  }

  lemma NothingAfter(spine: seq<LList>)
    requires |spine| > 0
    ensures After(spine, |spine| - 1) == null
  {
  }

  lemma Apart(spine: seq<LList>, k: nat)
    requires Distinct(spine) && k < |spine|
    ensures forall i: nat {:trigger spine[i]} :: i < |spine| && i != k ==> spine[i] != spine[k]
  {
  }

  /** The elements: everything behind the sentinel. */
  ghost function Datas(f: seq<Links>): (s: seq<int>)
    requires |f| > 0
    ensures |s| == |f| - 1
    ensures forall i: nat {:trigger s[i]} :: i < |s| ==> s[i] == f[i + 1].data
  {
    seq(|f| - 1, i requires 0 <= i < |f| - 1 => f[i + 1].data)
  }

  /** Insertion of a node at k, on sequences. */
  function Inserted<T>(s: seq<T>, k: nat, x: T): (r: seq<T>)
    requires k <= |s|
    ensures |r| == |s| + 1
    ensures forall i {:trigger r[i]} :: 0 <= i < |r| ==> r[i] == if i < k then s[i] else if i == k then x else s[i - 1]
  {
    s[..k] + [x] + s[k..]
  }

  lemma FieldsInserted(spine: seq<LList>, k: nat, node: LList)
    requires 0 < k <= |spine|
    ensures Fields(Inserted(spine, k, node)) == Inserted(Fields(spine), k, Links(node.next, node.prev, node.data))
    ensures Inserted(spine, k, node)[0] == spine[0]
  {
    hide Fields, Inserted;
    var n := Links(node.next, node.prev, node.data);
    var all := Inserted(spine, k, node);
    var a, b := Fields(all), Inserted(Fields(spine), k, n);
    forall i: nat | i < |a| ensures a[i] == b[i] {
      assert all[i] == if i < k then spine[i] else if i == k then node else spine[i - 1];
    }
    assert a == b;
  }

  lemma MembersInserted(spine: seq<LList>, k: nat, node: LList)
    requires k <= |spine|
    ensures forall o :: o in Inserted(spine, k, node) <==> o in spine || o == node
  {
  }

  lemma MembersWithout(spine: seq<LList>, k: nat)
    requires k < |spine|
    ensures forall o :: o in Without(spine, k) ==> o in spine
  {
  }

  lemma WithoutLast(s: seq<int>)
    requires s != []
    ensures Without(s, |s| - 1) == s[..|s| - 1]
  {
  }

  lemma FieldsWithout(spine: seq<LList>, k: nat)
    requires 0 < k < |spine|
    ensures Fields(Without(spine, k)) == Without(Fields(spine), k) && Without(spine, k)[0] == spine[0]
  {
    hide Fields, Without;
    var left := Without(spine, k);
    var a, b := Fields(left), Without(Fields(spine), k);
    forall i: nat | i < |a| ensures a[i] == b[i] {
      assert left[i] == if i < k then spine[i] else spine[i + 1];
    }
    assert a == b;
  }

  lemma InsertedLast(s: seq<int>, x: int)
    ensures Inserted(s, |s|, x) == s + [x]
  {
  }

  function Without<T>(s: seq<T>, k: nat): (r: seq<T>)
    requires k < |s|
    ensures |r| == |s| - 1
    ensures forall i {:trigger r[i]} :: 0 <= i < |r| ==> r[i] == if i < k then s[i] else s[i + 1]
  {
    s[..k] + s[k + 1..]
  }

  /** Only these links change: the one before place k, the one after it, and the new node's between them. */
  ghost predicate LinkedIn(spine: seq<LList>, f: seq<Links>, g: seq<Links>, k: nat, node: LList, n: Links)
    requires 0 < k <= |spine| == |f| == |g|
  {
    && n.prev == spine[k - 1] && n.next == After(spine, k - 1)
    && forall i: nat {:trigger g[i]} :: i < |g| ==>
        g[i] == Links(if i == k - 1 then node else f[i].next, if i == k then node else f[i].prev, f[i].data)
  }

  lemma InsertKeeps(spine: seq<LList>, f: seq<Links>, g: seq<Links>, k: nat, node: LList, n: Links)
    requires Chain(spine, f) && 0 < k <= |spine| == |g| && node !in spine && LinkedIn(spine, f, g, k, node, n)
    ensures Chain(Inserted(spine, k, node), Inserted(g, k, n))
    ensures Datas(Inserted(g, k, n)) == Inserted(Datas(f), k - 1, n.data)
  {
    var after, h := Inserted(spine, k, node), Inserted(g, k, n);
    forall i: nat | i < |after| ensures Joined(after, h, i) {
      if i < k {
        assert Joined(spine, f, i);
      } else if i > k {
        assert Joined(spine, f, i - 1);
      }
    }
    assert Distinct(after);
  }

  /** Only the links around place k change, to pass it by. */
  ghost predicate LinkedOut(spine: seq<LList>, f: seq<Links>, g: seq<Links>, k: nat)
    requires 0 < k < |spine| == |f| == |g|
  {
    forall i: nat {:trigger g[i]} :: i < |g| && i != k ==>
      g[i] == Links(if i == k - 1 then After(spine, k) else f[i].next, if i == k + 1 then spine[k - 1] else f[i].prev,
        f[i].data)
  }

  lemma RemoveKeeps(spine: seq<LList>, f: seq<Links>, g: seq<Links>, k: nat)
    requires Chain(spine, f) && 0 < k < |spine| == |g| && LinkedOut(spine, f, g, k)
    ensures Chain(Without(spine, k), Without(g, k))
    ensures Datas(Without(g, k)) == Without(Datas(f), k - 1)
  {
    var after, h := Without(spine, k), Without(g, k);
    forall i: nat | i < |after| ensures Joined(after, h, i) {
      if i < k {
        assert Joined(spine, f, i);
      } else {
        assert Joined(spine, f, i + 1);
      }
    }
    assert Distinct(after);
  }
}
