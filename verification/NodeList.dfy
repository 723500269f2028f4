/**
 The child lists of the HTML tree: nodes linked by five pointers, changed in place.

 `all` is the set of nodes of a heap.  The ghost field `kids` is the sequence that the pointers of
 a node and of its children spell out; `Consistent` ties every pointer of every node to it.
 What the methods do to the pointers is stated on snapshots of the heap, and that this keeps
 every list consistent is proved there.
 */
module NodeList {

  class Node {
    var Parent: Node?
    var FirstChild: Node?
    var LastChild: Node?
    var PrevSibling: Node?
    var NextSibling: Node?
    ghost var kids: seq<Node>

    /** A new node is attached to nothing. */
    constructor ()
      ensures View() == Links(null, null, null, null, null, [])
    {
      Parent, FirstChild, LastChild, PrevSibling, NextSibling := null, null, null, null, null;
      kids := [];
    }

    ghost function View(): Links
      reads this
    {
      Links(Parent, FirstChild, LastChild, PrevSibling, NextSibling, kids)
    }

    /** The pointer writes of InsertBefore, between two neighbours. */
    method LinkIn(newChild: Node, prev: Node?, next: Node?, ghost all: set<Node>)
      requires this in all && newChild in all && (prev != null ==> prev in all) && (next != null ==> next in all)
      modifies all`Parent, all`FirstChild, all`LastChild, all`PrevSibling, all`NextSibling
      ensures PointersInserted(old(Snapshot(all)), all, this, newChild, prev, next)
    {
      LinkPrev(newChild, prev, all);
      LinkNext(newChild, next, all);
      newChild.Parent := this;
      newChild.PrevSibling := prev;
      newChild.NextSibling := next;
    }

    method LinkPrev(newChild: Node, prev: Node?, ghost all: set<Node>)
      requires this in all && newChild in all && (prev != null ==> prev in all)
      modifies this`FirstChild, all`NextSibling
      ensures FirstChild == if prev == null then newChild else old(FirstChild)
      ensures forall m :: m in all ==> m.NextSibling == if m == prev then newChild else old(m.NextSibling)
    {
      if prev != null { prev.NextSibling := newChild; } else { FirstChild := newChild; }
    }

    method LinkNext(newChild: Node, next: Node?, ghost all: set<Node>)
      requires this in all && newChild in all && (next != null ==> next in all)
      modifies this`LastChild, all`PrevSibling
      ensures LastChild == if next == null then newChild else old(LastChild)
      ensures forall m :: m in all ==> m.PrevSibling == if m == next then newChild else old(m.PrevSibling)
    {
      if next != null { next.PrevSibling := newChild; } else { LastChild := newChild; }
    }

    /** LinkIn, and the list that the pointers then spell out, if `next` is a child of this node. */
    method SpliceIn(newChild: Node, prev: Node?, next: Node?, ghost k: nat, ghost all: set<Node>)
      requires Consistent(Snapshot(all)) && this in all && newChild in all && newChild.Parent == null
      requires (prev != null ==> prev in all) && (next != null ==> next in all)
      requires next == null || next.Parent == this ==> k <= |kids| && prev == At(kids, k - 1) && next == At(kids, k)
      modifies all
      ensures forall m :: m in all ==> m.Parent == if m == newChild then this else old(m.Parent)
      ensures newChild.NextSibling == next
      ensures next == null || old(next.Parent) == this ==> Consistent(Snapshot(all))
      ensures next == null || old(next.Parent) == this ==>
        forall m :: m in all ==> m.kids == if m == this then old(kids)[..k] + [newChild] + old(kids)[k..] else old(m.kids)
    {
      ghost var h := Snapshot(all);
      ghost var proper := next == null || next.Parent == this;
      LinkIn(newChild, prev, next, all);
      if proper {
        kids := kids[..k] + [newChild] + kids[k..];
        InsertedKeeps(h, all, this, newChild, k);
      }
    }

    /** With an `oldChild` that is no child of this node, `newChild` gets a sibling that `ForeignSiblingBreaks` speaks of. */
    method InsertBefore(newChild: Node, oldChild: Node?, ghost all: set<Node>) returns (ok: bool)
      requires Consistent(Snapshot(all)) && this in all && newChild in all && (oldChild != null ==> oldChild in all)
      modifies all
      ensures ok == (old(newChild.Parent) == null)
      ensures !ok ==> Consistent(Snapshot(all)) && Snapshot(all) == old(Snapshot(all))
      ensures ok ==> forall m :: m in all ==> m.Parent == if m == newChild then this else old(m.Parent)
      ensures ok && (oldChild == null || old(oldChild.Parent) == this) ==> Consistent(Snapshot(all))
      ensures ok && (oldChild == null || old(oldChild.Parent) == this) ==>
        forall m :: m in all ==> m.kids == if m == this then Inserted(old(kids), newChild, oldChild) else old(m.kids)
      ensures ok && oldChild != null && old(oldChild.Parent) != this ==>
        newChild.NextSibling == oldChild && (oldChild == newChild || oldChild.Parent != newChild.Parent)
    {
      ChildIsIn(Snapshot(all), newChild);
      if newChild.Parent != null || newChild.PrevSibling != null || newChild.NextSibling != null {
        return false;
      }
      if oldChild == null || oldChild.Parent == this { Neighbours(Snapshot(all), this, newChild, oldChild); }
      if oldChild != null { SiblingsAreIn(Snapshot(all), oldChild); }
      var prev: Node?, next: Node?;
      if oldChild != null { prev, next := oldChild.PrevSibling, oldChild; } else { prev, next := LastChild, null; }
      SpliceIn(newChild, prev, next, Place(kids, oldChild), all);
      return true;
    }

    method AppendChild(c: Node, ghost all: set<Node>) returns (ok: bool)
      requires Consistent(Snapshot(all)) && this in all && c in all
      modifies all
      ensures Consistent(Snapshot(all))
      ensures ok == (old(c.Parent) == null)
      ensures !ok ==> Snapshot(all) == old(Snapshot(all))
      ensures ok ==> forall m :: m in all ==> m.kids == if m == this then old(kids) + [c] else old(m.kids)
      ensures ok ==> forall m :: m in all ==> m.Parent == if m == c then this else old(m.Parent)
    {
      ghost var h := Snapshot(all);
      ChildIsIn(h, c);
      if c.Parent != null || c.PrevSibling != null || c.NextSibling != null {
        return false;
      }
      Neighbours(h, this, c, null);
      LinkLast(c, all);
      kids := kids + [c];
      InsertedKeeps(h, all, this, c, |h[this].kids|);
      return true;
    }

    /** The pointer writes of AppendChild. */
    method LinkLast(c: Node, ghost all: set<Node>)
      requires this in all && c in all && (LastChild != null ==> LastChild in all) && LastChild != c && c.NextSibling == null
      modifies all`Parent, all`FirstChild, all`LastChild, all`PrevSibling, all`NextSibling
      ensures PointersInserted(old(Snapshot(all)), all, this, c, old(LastChild), null)
    {
      var last := LastChild;
      if last != null { last.NextSibling := c; } else { FirstChild := c; }
      LastChild := c;
      c.Parent := this;
      c.PrevSibling := last;
    }

    method RemoveChild(c: Node, ghost all: set<Node>) returns (ok: bool)
      requires Consistent(Snapshot(all)) && this in all && c in all
      modifies all
      ensures Consistent(Snapshot(all))
      ensures ok == (old(c.Parent) == this)
      ensures !ok ==> Snapshot(all) == old(Snapshot(all))
      ensures ok ==> forall m :: m in all ==> m.kids == if m == this then Removed(old(kids), c) else old(m.kids)
      ensures ok ==> forall m :: m in all ==> m.Parent == if m == c then null else old(m.Parent)
      ensures ok ==> c.PrevSibling == null && c.NextSibling == null
    {
      if c.Parent != this {
        return false;
      }
      SpliceOut(c, all);
      return true;
    }

    /** Unlink, and the list that the pointers then spell out. */
    method SpliceOut(c: Node, ghost all: set<Node>)
      requires Consistent(Snapshot(all)) && this in all && c in all && c.Parent == this
      modifies all
      ensures Consistent(Snapshot(all))
      ensures forall m :: m in all ==> m.kids == if m == this then Removed(old(kids), c) else old(m.kids)
      ensures forall m :: m in all ==> m.Parent == if m == c then null else old(m.Parent)
      ensures c.PrevSibling == null && c.NextSibling == null
    {
      ghost var h := Snapshot(all);
      ghost var k := Place(kids, c);
      Beside(h, this, c);
      ghost var fewer := kids[..k] + kids[k + 1..];
      assert fewer == Removed(kids, c);
      Unlink(c, all);
      kids := fewer;
      RemovedKeeps(h, all, this, c, k);
    }

    /** The pointer writes of RemoveChild. */
    method Unlink(c: Node, ghost all: set<Node>)
      requires this in all && c in all
      requires c.PrevSibling != null ==> c.PrevSibling in all && c.PrevSibling != c
      requires c.NextSibling != null ==> c.NextSibling in all && c.NextSibling != c
      modifies all`Parent, all`FirstChild, all`LastChild, all`PrevSibling, all`NextSibling
      ensures PointersRemoved(old(Snapshot(all)), all, this, c)
    {
      UnlinkNext(c, all);
      UnlinkPrev(c, all);
      c.Parent := null;
      c.PrevSibling := null;
      c.NextSibling := null;
    }

    method UnlinkNext(c: Node, ghost all: set<Node>)
      requires this in all && c in all
      requires c.NextSibling != null ==> c.NextSibling in all && c.NextSibling != c
      modifies this`FirstChild, all`PrevSibling
      ensures FirstChild == if old(FirstChild) == c then c.NextSibling else old(FirstChild)
      ensures forall m :: m in all ==> m.PrevSibling == if m == c.NextSibling then c.PrevSibling else old(m.PrevSibling)
    {
      if FirstChild == c { FirstChild := c.NextSibling; }
      if c.NextSibling != null { c.NextSibling.PrevSibling := c.PrevSibling; }
    }

    method UnlinkPrev(c: Node, ghost all: set<Node>)
      requires this in all && c in all
      requires c.PrevSibling != null ==> c.PrevSibling in all && c.PrevSibling != c
      modifies this`LastChild, all`NextSibling
      ensures LastChild == if old(LastChild) == c then c.PrevSibling else old(LastChild)
      ensures forall m :: m in all ==> m.NextSibling == if m == c.PrevSibling then c.NextSibling else old(m.NextSibling)
    {
      if LastChild == c { LastChild := c.PrevSibling; }
      if c.PrevSibling != null { c.PrevSibling.NextSibling := c.NextSibling; }
    }
  }

  /** One turn of ReparentChildren's loop. */
  method MoveFirst(dst: Node, src: Node, child: Node, ghost all: set<Node>)
    requires Consistent(Snapshot(all)) && dst in all && src in all && dst != src && src.FirstChild == child
    modifies all
    ensures Consistent(Snapshot(all))
    ensures old(|src.kids|) > 0 && old(src.kids[0]) == child
    ensures dst.kids == old(dst.kids) + [child] && src.kids == old(src.kids)[1..]
    ensures forall m :: m in all && m != dst && m != src ==> m.kids == old(m.kids)
  {
    FirstIsIn(Snapshot(all), src);
    assert Removed(src.kids, child) == src.kids[1..];
    var removed := src.RemoveChild(child, all);
    assert removed && child.Parent == null && src.kids == old(src.kids)[1..] && dst.kids == old(dst.kids);
    var added := dst.AppendChild(child, all);
  }

  /** Moves all of src's children to the end of dst's; with dst == src and any child it would not end. */
  method ReparentChildren(dst: Node, src: Node, ghost all: set<Node>)
    requires Consistent(Snapshot(all)) && dst in all && src in all
    requires dst == src ==> src.FirstChild == null
    modifies all
    ensures Consistent(Snapshot(all))
    ensures dst.kids == old(dst.kids + src.kids)
    ensures dst != src ==> src.kids == []
    ensures forall m :: m in all && m != dst && m != src ==> m.kids == old(m.kids)
  {
    ghost var whole := dst.kids + src.kids;
    while true
      invariant Consistent(Snapshot(all))
      invariant dst == src ==> src.FirstChild == null && src.kids == old(src.kids)
      invariant dst != src ==> dst.kids + src.kids == whole
      invariant forall m :: m in all && m != dst && m != src ==> m.kids == old(m.kids)
      decreases |src.kids|
    {
      var child := src.FirstChild;
      FirstIsIn(Snapshot(all), src);
      if child == null { break; }
      ghost var before, moving := dst.kids, src.kids;
      MoveFirst(dst, src, child, all);
      assert before + [child] + moving[1..] == before + moving;
    }
  }

  /** What InsertBefore and AppendChild write since `h`, pointer by pointer. */
  ghost predicate PointersInserted(h: Heap, all: set<Node>, n: Node, c: Node, prev: Node?, next: Node?)
    requires h.Keys == all
    reads all`Parent, all`FirstChild, all`LastChild, all`PrevSibling, all`NextSibling
  {
    && (forall m :: m in all ==> m.Parent == if m == c then n else h[m].parent)
    && (forall m :: m in all ==> m.FirstChild == if m == n && prev == null then c else h[m].first)
    && (forall m :: m in all ==> m.LastChild == if m == n && next == null then c else h[m].last)
    && (forall m :: m in all ==> m.PrevSibling == if m == c then prev else if m == next then c else h[m].prev)
    && (forall m :: m in all ==> m.NextSibling == if m == c then next else if m == prev then c else h[m].next)
  }

  /** What RemoveChild writes since `h`, pointer by pointer. */
  ghost predicate PointersRemoved(h: Heap, all: set<Node>, n: Node, c: Node)
    requires h.Keys == all && n in all && c in all
    reads all`Parent, all`FirstChild, all`LastChild, all`PrevSibling, all`NextSibling
  {
    && (forall m :: m in all ==> m.Parent == if m == c then null else h[m].parent)
    && (forall m :: m in all ==> m.FirstChild == if m == n && h[n].first == c then h[c].next else h[m].first)
    && (forall m :: m in all ==> m.LastChild == if m == n && h[n].last == c then h[c].prev else h[m].last)
    && (forall m :: m in all ==> m.PrevSibling == if m == c then null else if m == h[c].next then h[c].prev else h[m].prev)
    && (forall m :: m in all ==> m.NextSibling == if m == c then null else if m == h[c].prev then h[c].next else h[m].next)
  }

  lemma InsertedKeeps(h: Heap, all: set<Node>, n: Node, c: Node, k: nat)
    requires Consistent(h) && h.Keys == all && n in all && c in all && h[c].parent == null && k <= |h[n].kids|
    requires PointersInserted(h, all, n, c, At(h[n].kids, k - 1), At(h[n].kids, k))
    requires forall m :: m in all ==> m.kids == if m == n then h[n].kids[..k] + [c] + h[n].kids[k..] else h[m].kids
    ensures Consistent(Snapshot(all))
  {
    InsertKeepsConsistent(h, Snapshot(all), n, c, k);
  }

  lemma RemovedKeeps(h: Heap, all: set<Node>, n: Node, c: Node, k: nat)
    requires Consistent(h) && h.Keys == all && n in all && c in all && k == Place(h[n].kids, c) && h[c].parent == n && c in h[n].kids
    requires PointersRemoved(h, all, n, c)
    requires forall m :: m in all ==> m.kids == if m == n then h[n].kids[..k] + h[n].kids[k + 1..] else h[m].kids
    ensures Consistent(Snapshot(all))
  {
    Beside(h, n, c);
    RemoveKeepsConsistent(h, Snapshot(all), n, c, k);
  }

  /** One node's pointers and its list. */
  datatype Links = Links(parent: Node?, first: Node?, last: Node?, prev: Node?, next: Node?, kids: seq<Node>)

  type Heap = map<Node, Links>

  ghost function Snapshot(all: set<Node>): Heap
    reads all
  {
    map n | n in all :: n.View()
  }

  function At(s: seq<Node>, i: int): Node? {
    if 0 <= i < |s| then s[i] else null
  }

  /** The first place of n, or the end if it is not there. */
  ghost function Place(s: seq<Node>, n: Node?): (k: nat)
    ensures k <= |s|
    ensures n != null && n in s ==> k < |s| && s[k] == n
    ensures n == null ==> k == |s|
  {
    if s == [] || s[0] == n then 0 else 1 + Place(s[1..], n)
  }

  ghost function Inserted(s: seq<Node>, n: Node, before: Node?): seq<Node> {
    s[..Place(s, before)] + [n] + s[Place(s, before)..]
  }

  ghost function Removed(s: seq<Node>, n: Node): seq<Node> {
    if n in s then s[..Place(s, n)] + s[Place(s, n) + 1..] else s
  }

  ghost predicate Distinct(s: seq<Node>) {
    forall i, j :: 0 <= i < j < |s| ==> s[i] != s[j]
  }

  ghost predicate ListOk(h: Heap, n: Node)
    requires n in h
  {
    var kids := h[n].kids;
    && h[n].first == At(kids, 0)
    && h[n].last == At(kids, |kids| - 1)
    && Distinct(kids)
    && forall i {:trigger ChildOk(h, n, i)} :: 0 <= i < |kids| ==> ChildOk(h, n, i)
  }

  ghost predicate ChildOk(h: Heap, n: Node, i: int)
    requires n in h && 0 <= i < |h[n].kids|
  {
    var kids := h[n].kids;
    && kids[i] in h
    && h[kids[i]].parent == n
    && h[kids[i]].prev == At(kids, i - 1)
    && h[kids[i]].next == At(kids, i + 1)
  }

  /** A node with a parent is one of its children; one without has no siblings. */
  ghost predicate Placed(h: Heap, n: Node)
    requires n in h
  {
    if h[n].parent == null then h[n].prev == null && h[n].next == null
    else h[n].parent in h && n in h[h[n].parent].kids
  }

  ghost predicate Consistent(h: Heap) {
    && (forall n {:trigger ListOk(h, n)} :: n in h ==> ListOk(h, n))
    && (forall n {:trigger Placed(h, n)} :: n in h ==> Placed(h, n))
  }

  lemma ChildIsIn(h: Heap, c: Node)
    requires Consistent(h) && c in h
    ensures h[c].parent == null ==> h[c].prev == null && h[c].next == null
    ensures h[c].parent != null ==> h[c].parent in h && c in h[h[c].parent].kids
  {
    assert Placed(h, c);
  }

  lemma SiblingsAreIn(h: Heap, c: Node)
    requires Consistent(h) && c in h
    ensures h[c].prev != null ==> h[c].prev in h
    ensures h[c].next != null ==> h[c].next in h && h[c].next != c && h[h[c].next].parent == h[c].parent
  {
    ChildIsIn(h, c);
    var n := h[c].parent;
    if n != null {
      assert ListOk(h, n);
      var i :| 0 <= i < |h[n].kids| && h[n].kids[i] == c;
      assert ChildOk(h, n, i);
      if i > 0 { assert ChildOk(h, n, i - 1); }
      if i < |h[n].kids| - 1 { assert ChildOk(h, n, i + 1); }
    }
  }

  /** No lists of children agree with the pointers if a node is its own sibling, or has one of another parent. */
  lemma ForeignSiblingBreaks(h: Heap, c: Node, next: Node)
    requires c in h && next in h && h[c].next == next && (next == c || h[next].parent != h[c].parent)
    ensures !Consistent(h)
  {
    if Consistent(h) { SiblingsAreIn(h, c); }
  }

  /** What InsertBefore writes, pointer by pointer, when `k` is the place. */
  ghost predicate IsInsert(h: Heap, g: Heap, n: Node, c: Node, k: nat)
    requires n in h && c in h && k <= |h[n].kids|
  {
    var kids := h[n].kids;
    var prev, next := At(kids, k - 1), At(kids, k);
    && g.Keys == h.Keys
    && forall m :: m in h ==>
      && g[m].parent == (if m == c then n else h[m].parent)
      && g[m].first == (if m == n && prev == null then c else h[m].first)
      && g[m].last == (if m == n && next == null then c else h[m].last)
      && g[m].prev == (if m == c then prev else if m == next then c else h[m].prev)
      && g[m].next == (if m == c then next else if m == prev then c else h[m].next)
      && g[m].kids == (if m == n then kids[..k] + [c] + kids[k..] else h[m].kids)
  }

  lemma Neighbours(h: Heap, n: Node, c: Node, before: Node?)
    requires Consistent(h) && n in h && c in h && h[c].parent == null
    requires before != null ==> before in h && h[before].parent == n
    ensures var kids, k := h[n].kids, Place(h[n].kids, before);
      && At(kids, k) == before
      && At(kids, k - 1) == (if before == null then h[n].last else h[before].prev)
      && c !in kids
      && (forall x :: x in kids ==> x in h)
      && (At(kids, k - 1) != null ==> At(kids, k - 1) in h && At(kids, k - 1) != before)
  {
    assert ListOk(h, n);
    var kids, k := h[n].kids, Place(h[n].kids, before);
    ChildIsIn(h, c);
    if before != null {
      ChildIsIn(h, before);
      assert ChildOk(h, n, k);
    }
    forall x | x in kids ensures x in h && x != c {
      var i :| 0 <= i < |kids| && kids[i] == x;
      assert ChildOk(h, n, i);
    }
  }

  lemma InsertKeepsOther(h: Heap, g: Heap, n: Node, c: Node, k: nat, m: Node)
    requires Consistent(h) && n in h && c in h && h[c].parent == null && k <= |h[n].kids|
    requires IsInsert(h, g, n, c, k) && m in h && m != n
    ensures ListOk(g, m)
  {
    assert ListOk(h, n) && ListOk(h, m);
    forall i | 0 <= i < |h[m].kids| ensures ChildOk(g, m, i) {
      assert ChildOk(h, m, i);
      if 0 <= k - 1 { assert ChildOk(h, n, k - 1); }
      if k < |h[n].kids| { assert ChildOk(h, n, k); }
    }
  }

  lemma InsertDistinct(kids: seq<Node>, c: Node, k: nat)
    requires Distinct(kids) && k <= |kids| && forall i :: 0 <= i < |kids| ==> kids[i] != c
    ensures Distinct(kids[..k] + [c] + kids[k..])
  {
  }

  lemma InsertHas(kids: seq<Node>, c: Node, k: nat, m: Node)
    requires k <= |kids| && (m == c || m in kids)
    ensures m in kids[..k] + [c] + kids[k..]
  {
    var after := kids[..k] + [c] + kids[k..];
    if m == c {
      assert after[k] == m;
    } else {
      var i :| 0 <= i < |kids| && kids[i] == m;
      assert after[if i < k then i else i + 1] == m;
    }
  }

  lemma InsertKeepsEarlier(h: Heap, g: Heap, n: Node, c: Node, k: nat, i: nat)
    requires Consistent(h) && n in h && c in h && h[c].parent == null && k <= |h[n].kids|
    requires IsInsert(h, g, n, c, k) && i < k
    ensures ChildOk(g, n, i)
  {
    var kids, after := h[n].kids, g[n].kids;
    assert ListOk(h, n) && ChildOk(h, n, i) && after[i] == kids[i];
    assert 0 < i ==> after[i - 1] == kids[i - 1];
    assert i + 1 < k ==> after[i + 1] == kids[i + 1] && kids[i] != kids[k - 1];
    assert i + 1 == k ==> after[k] == c;
    assert k < |kids| ==> kids[i] != kids[k];
  }

  lemma InsertKeepsLater(h: Heap, g: Heap, n: Node, c: Node, k: nat, i: nat)
    requires Consistent(h) && n in h && c in h && h[c].parent == null && k <= |h[n].kids|
    requires IsInsert(h, g, n, c, k) && k < i <= |h[n].kids|
    ensures ChildOk(g, n, i)
  {
    var kids, after := h[n].kids, g[n].kids;
    assert ListOk(h, n) && ChildOk(h, n, i - 1) && after[i] == kids[i - 1];
    assert i - 1 > k ==> after[i - 1] == kids[i - 2] && kids[i - 1] != kids[k];
    assert i - 1 == k ==> after[k] == c;
    assert i < |kids| ==> after[i + 1] == kids[i];
    assert 0 < k ==> kids[i - 1] != kids[k - 1];
  }

  lemma InsertKeepsChild(h: Heap, g: Heap, n: Node, c: Node, k: nat, i: nat)
    requires Consistent(h) && n in h && c in h && h[c].parent == null && k <= |h[n].kids|
    requires IsInsert(h, g, n, c, k) && i <= |h[n].kids|
    ensures ChildOk(g, n, i)
  {
    if i < k {
      InsertKeepsEarlier(h, g, n, c, k, i);
    } else if i > k {
      InsertKeepsLater(h, g, n, c, k, i);
    } else {
      var kids, after := h[n].kids, g[n].kids;
      assert after[k] == c;
      assert 0 < k ==> after[k - 1] == kids[k - 1];
      assert k < |kids| ==> after[k + 1] == kids[k];
    }
  }

  lemma InsertKeepsPlaced(h: Heap, g: Heap, n: Node, c: Node, k: nat, m: Node)
    requires Consistent(h) && n in h && c in h && h[c].parent == null && k <= |h[n].kids|
    requires IsInsert(h, g, n, c, k) && m in h
    ensures Placed(g, m)
  {
    assert ListOk(h, n);
    assert Placed(h, m);
    if m == c || h[m].parent == n {
      InsertHas(h[n].kids, c, k, m);
    } else if h[m].parent == null {
      if 0 < k { assert ChildOk(h, n, k - 1); }
      if k < |h[n].kids| { assert ChildOk(h, n, k); }
    }
  }

  lemma InsertKeepsConsistent(h: Heap, g: Heap, n: Node, c: Node, k: nat)
    requires Consistent(h) && n in h && c in h && h[c].parent == null && k <= |h[n].kids|
    requires IsInsert(h, g, n, c, k)
    ensures Consistent(g)
  {
    assert ListOk(h, n);
    forall i | 0 <= i < |g[n].kids| ensures ChildOk(g, n, i) {
      InsertKeepsChild(h, g, n, c, k, i);
    }
    forall i | 0 <= i < |h[n].kids| ensures h[n].kids[i] != c { assert ChildOk(h, n, i); }
    InsertDistinct(h[n].kids, c, k);
    forall m | m in g ensures ListOk(g, m) && Placed(g, m) {
      if m != n { InsertKeepsOther(h, g, n, c, k, m); }
      InsertKeepsPlaced(h, g, n, c, k, m);
    }
  }

  // ----- Removal ---------------------------------------------------------------------

  /** What RemoveChild writes, pointer by pointer, when `k` is the place of c. */
  ghost predicate IsRemove(h: Heap, g: Heap, n: Node, c: Node, k: nat)
    requires n in h && c in h && k < |h[n].kids|
  {
    var kids := h[n].kids;
    var prev, next := At(kids, k - 1), At(kids, k + 1);
    && g.Keys == h.Keys
    && forall m :: m in h ==>
      && g[m].parent == (if m == c then null else h[m].parent)
      && g[m].first == (if m == n && prev == null then next else h[m].first)
      && g[m].last == (if m == n && next == null then prev else h[m].last)
      && g[m].prev == (if m == c then null else if m == next then prev else h[m].prev)
      && g[m].next == (if m == c then null else if m == prev then next else h[m].next)
      && g[m].kids == (if m == n then kids[..k] + kids[k + 1..] else h[m].kids)
  }

  lemma FirstIsIn(h: Heap, n: Node)
    requires Consistent(h) && n in h
    ensures h[n].first == null <==> h[n].kids == []
    ensures h[n].kids != [] ==> h[n].first == h[n].kids[0] && h[n].kids[0] in h && h[h[n].kids[0]].parent == n
    ensures h[n].kids != [] ==> Place(h[n].kids, h[n].kids[0]) == 0
  {
    assert ListOk(h, n);
    if h[n].kids != [] { assert ChildOk(h, n, 0); }
  }

  lemma Beside(h: Heap, n: Node, c: Node)
    requires Consistent(h) && n in h && c in h && h[c].parent == n
    ensures c in h[n].kids
    ensures var kids, k := h[n].kids, Place(h[n].kids, c);
      && h[c].prev == At(kids, k - 1) && h[c].next == At(kids, k + 1)
      && (h[c].prev != null ==> h[c].prev in h && h[c].prev != c)
      && (h[c].next != null ==> h[c].next in h && h[c].next != c)
      && (h[n].first == c <==> At(kids, k - 1) == null)
      && (h[n].last == c <==> At(kids, k + 1) == null)
  {
    assert ListOk(h, n);
    ChildIsIn(h, c);
    var kids, k := h[n].kids, Place(h[n].kids, c);
    assert ChildOk(h, n, k);
    if 0 < k { assert ChildOk(h, n, k - 1); }
    if k + 1 < |kids| { assert ChildOk(h, n, k + 1); }
  }

  lemma RemoveKeepsOther(h: Heap, g: Heap, n: Node, c: Node, k: nat, m: Node)
    requires Consistent(h) && n in h && c in h && k < |h[n].kids| && h[n].kids[k] == c
    requires IsRemove(h, g, n, c, k) && m in h && m != n
    ensures ListOk(g, m)
  {
    assert ListOk(h, n) && ListOk(h, m);
    forall i | 0 <= i < |h[m].kids| ensures ChildOk(g, m, i) {
      assert ChildOk(h, m, i) && ChildOk(h, n, k);
      if 0 <= k - 1 { assert ChildOk(h, n, k - 1); }
      if k + 1 < |h[n].kids| { assert ChildOk(h, n, k + 1); }
    }
  }

  lemma RemoveDistinct(kids: seq<Node>, k: nat)
    requires Distinct(kids) && k < |kids|
    ensures Distinct(kids[..k] + kids[k + 1..])
  {
  }

  lemma RemoveKeepsEarlier(h: Heap, g: Heap, n: Node, c: Node, k: nat, i: nat)
    requires Consistent(h) && n in h && c in h && k < |h[n].kids| && h[n].kids[k] == c
    requires IsRemove(h, g, n, c, k) && i < k
    ensures ChildOk(g, n, i)
  {
    var kids, after := h[n].kids, g[n].kids;
    assert ListOk(h, n) && ChildOk(h, n, i) && after[i] == kids[i];
    assert 0 < i ==> after[i - 1] == kids[i - 1];
    assert i + 1 < k ==> after[i + 1] == kids[i + 1];
    assert i + 1 == k < |after| ==> after[k] == kids[k + 1];
    assert i < k - 1 ==> kids[k - 1] != kids[i];
    assert k + 1 < |kids| ==> kids[k + 1] != kids[i];
  }

  lemma RemoveKeepsLater(h: Heap, g: Heap, n: Node, c: Node, k: nat, i: nat)
    requires Consistent(h) && n in h && c in h && k < |h[n].kids| && h[n].kids[k] == c
    requires IsRemove(h, g, n, c, k) && k <= i < |h[n].kids| - 1
    ensures ChildOk(g, n, i)
  {
    var kids, after := h[n].kids, g[n].kids;
    assert ListOk(h, n) && ChildOk(h, n, i + 1) && after[i] == kids[i + 1];
    assert i > k ==> after[i - 1] == kids[i];
    assert 0 < k == i ==> after[k - 1] == kids[k - 1];
    assert i + 1 < |after| ==> after[i + 1] == kids[i + 2];
    assert 0 < k ==> kids[k - 1] != kids[i + 1];
    assert i > k ==> kids[k + 1] != kids[i + 1];
  }

  lemma RemoveKeepsPlaced(h: Heap, g: Heap, n: Node, c: Node, k: nat, m: Node)
    requires Consistent(h) && n in h && c in h && k < |h[n].kids| && h[n].kids[k] == c
    requires IsRemove(h, g, n, c, k) && m in h
    ensures Placed(g, m)
  {
    assert ListOk(h, n);
    assert Placed(h, m) && ChildOk(h, n, k);
    if m != c && h[m].parent == n {
      var i :| 0 <= i < |h[n].kids| && h[n].kids[i] == m;
      assert g[n].kids[if i < k then i else i - 1] == m;
    } else if h[m].parent == null {
      if 0 < k { assert ChildOk(h, n, k - 1); }
      if k + 1 < |h[n].kids| { assert ChildOk(h, n, k + 1); }
    }
  }

  lemma RemoveKeepsConsistent(h: Heap, g: Heap, n: Node, c: Node, k: nat)
    requires Consistent(h) && n in h && c in h && k < |h[n].kids| && h[n].kids[k] == c
    requires IsRemove(h, g, n, c, k)
    ensures Consistent(g)
  {
    assert ListOk(h, n);
    forall i | 0 <= i < |g[n].kids| ensures ChildOk(g, n, i) {
      if i < k { RemoveKeepsEarlier(h, g, n, c, k, i); } else { RemoveKeepsLater(h, g, n, c, k, i); }
    }
    RemoveDistinct(h[n].kids, k);
    forall m | m in g ensures ListOk(g, m) && Placed(g, m) {
      if m != n { RemoveKeepsOther(h, g, n, c, k, m); }
      RemoveKeepsPlaced(h, g, n, c, k, m);
    }
  }

  // ----- When the nodes stay a forest ------------------------------------------------

  /** Every node ranks higher than its parent: no node is above itself, and the nodes are a forest. */
  ghost predicate Ranked(h: Heap, rank: map<Node, nat>) {
    forall m :: m in h ==> m in rank && (h[m].parent != null ==> h[m].parent in h && h[m].parent in rank && rank[h[m].parent] < rank[m])
  }

  /** a is m or above it. */
  ghost predicate Above(h: Heap, rank: map<Node, nat>, a: Node, m: Node)
    requires Ranked(h, rank) && m in h
    decreases rank[m]
  {
    m == a || (h[m].parent != null && Above(h, rank, a, h[m].parent))
  }

  lemma {:induction false} AboveRanksLower(h: Heap, rank: map<Node, nat>, g: Heap, later: map<Node, nat>, c: Node, m: Node)
    requires Ranked(h, rank) && Ranked(g, later) && m in h && Above(h, rank, c, m)
    requires g.Keys == h.Keys && forall x :: x in h && x != c ==> g[x].parent == h[x].parent
    ensures c in g && later[c] <= later[m]
    decreases rank[m]
  {
    if m != c { AboveRanksLower(h, rank, g, later, c, h[m].parent); }
  }

  /** An insertion keeps the nodes a forest exactly when the new child is not the parent or above it. */
  lemma InsertKeepsForest(h: Heap, rank: map<Node, nat>, g: Heap, n: Node, c: Node, k: nat)
    requires Ranked(h, rank) && n in h && c in h && h[c].parent == null && k <= |h[n].kids|
    requires IsInsert(h, g, n, c, k)
    ensures (exists later :: Ranked(g, later)) <==> !Above(h, rank, c, n)
  {
    if Above(h, rank, c, n) {
      forall later | Ranked(g, later) ensures false { AboveRanksLower(h, rank, g, later, c, n); }
    } else {
      var later := map m | m in h :: if Above(h, rank, c, m) then rank[m] + rank[n] + 1 else rank[m];
      assert Ranked(g, later);
    }
  }

  lemma RemoveKeepsForest(h: Heap, rank: map<Node, nat>, g: Heap, n: Node, c: Node, k: nat)
    requires Ranked(h, rank) && n in h && c in h && k < |h[n].kids| && IsRemove(h, g, n, c, k)
    ensures Ranked(g, rank)
  {
  }
}
