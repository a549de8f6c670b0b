/** The children of an `xml_node` on the heap: an intrusive doubly linked list, in which some pointers mean nothing in
    some states. */
module DomList {

  /** What a node holds; `kids` are the children it ought to have. */
  datatype Fields = Fields(first: XmlNode?, last: XmlNode?, prev: XmlNode?, next: XmlNode?, parent: XmlNode?,
                           kids: seq<XmlNode>)

  /** The fields of a set of nodes at one moment. */
  type Heap = map<XmlNode, Fields>

  ghost function Snapshot(nodes: set<XmlNode>): (h: Heap)
    reads nodes
    ensures h.Keys == nodes
  {
    map n | n in nodes ::
      Fields(n.firstNode, n.lastNode, n.prevSibling, n.nextSibling, n.parent, n.kids)
  }

  /** The pointers of child `i` of `n` are those of its place in the list. */
  ghost predicate InPlace(h: Heap, n: XmlNode, i: nat)
    requires n in h && i < |h[n].kids|
  {
    var kids := h[n].kids;
    kids[i] in h
    && h[kids[i]].parent == n
    && h[kids[i]].prev == (if i == 0 then null else kids[i - 1])
    && h[kids[i]].next == (if i == |kids| - 1 then null else kids[i + 1])
  }

  /** The pointers of a node and its children agree with `kids`, as far as they mean anything: the last child only if
      there is a first, siblings only of a node with a parent. */
  ghost predicate Linked(h: Heap, n: XmlNode)
    requires n in h
  {
    var kids := h[n].kids;
    h[n].first == (if kids == [] then null else kids[0])
    && (kids != [] ==> h[n].last == kids[|kids| - 1])
    && (forall i, j :: 0 <= i < j < |kids| ==> kids[i] != kids[j])
    && forall i :: 0 <= i < |kids| ==> InPlace(h, n, i)
  }

  /** All nodes are linked up with one another and with none outside. */
  ghost predicate Forest(h: Heap) {
    forall n :: n in h ==> Linked(h, n) && (h[n].parent != null ==> h[n].parent in h && n in h[h[n].parent].kids)
  }

  // ----- what the operations do to the links -----

  /** Other lists are not touched: a change that leaves alone the children of other nodes, and keeps the list of `self`
      linked, keeps everything linked. */
  lemma Rebuilt(was: Heap, now: Heap, self: XmlNode)
    requires Forest(was) && now.Keys == was.Keys && self in now && Linked(now, self)
    requires forall n :: n in was && n != self ==>
               now[n].kids == was[n].kids && now[n].first == was[n].first && now[n].last == was[n].last
    requires forall n :: n in was ==>
               if was[n].parent != null && was[n].parent != self
               then now[n].parent == was[n].parent && now[n].prev == was[n].prev && now[n].next == was[n].next
               else now[n].parent == null || (now[n].parent == self && n in now[self].kids)
    ensures Forest(now)
  {
    forall n | n in now && n != self ensures Linked(now, n) {
      forall i | 0 <= i < |now[n].kids| ensures InPlace(now, n, i) {
        assert InPlace(was, n, i);
      }
    }
  }

  lemma Prepended(was: Heap, now: Heap, n: XmlNode, child: XmlNode)
    requires n in was && Linked(was, n) && now.Keys == was.Keys && child in now && child !in was[n].kids
    requires now[n].kids == [child] + was[n].kids && now[n].first == child
    requires now[child].parent == n && now[child].prev == null && now[child].next == was[n].first
    requires now[n].last == if was[n].kids == [] then child else was[n].last
    requires forall k :: k in was[n].kids ==>
               k in was && now[k].parent == was[k].parent && now[k].next == was[k].next
               && now[k].prev == if k == was[n].first then child else was[k].prev
    ensures Linked(now, n)
  {
    var kids, before := now[n].kids, was[n].kids;
    forall i | 0 <= i < |kids| ensures InPlace(now, n, i) {
      if i > 0 {
        assert kids[i] == before[i - 1] && InPlace(was, n, i - 1);
      }
    }
    forall i, j | 0 <= i < j < |kids| ensures kids[i] != kids[j] {
      assert kids[j] == before[j - 1];
    }
  }

  lemma Appended(was: Heap, now: Heap, n: XmlNode, child: XmlNode)
    requires n in was && Linked(was, n) && now.Keys == was.Keys && child in now && child !in was[n].kids
    requires now[n].kids == was[n].kids + [child] && now[n].last == child
    requires now[child].parent == n && now[child].next == null
    requires now[child].prev == if was[n].kids == [] then null else was[n].last
    requires now[n].first == if was[n].kids == [] then child else was[n].first
    requires forall k :: k in was[n].kids ==>
               k in was && now[k].parent == was[k].parent && now[k].prev == was[k].prev
               && now[k].next == if k == was[n].last then child else was[k].next
    ensures Linked(now, n)
  {
    var kids, before := now[n].kids, was[n].kids;
    forall i | 0 <= i < |kids| ensures InPlace(now, n, i) {
      if i < |before| {
        assert kids[i] == before[i] && InPlace(was, n, i);
      }
    }
  }

  lemma Inserted(was: Heap, now: Heap, n: XmlNode, at: nat, where: XmlNode, child: XmlNode)
    requires n in was && Linked(was, n) && now.Keys == was.Keys && child in now && child !in was[n].kids && where in was
    requires 0 < at < |was[n].kids| && was[n].kids[at] == where
    requires now[n].kids == was[n].kids[..at] + [child] + was[n].kids[at..]
    requires now[n].first == was[n].first && now[n].last == was[n].last && now[child].parent == n
    requires now[child].prev == was[where].prev && now[child].next == where
    requires forall k :: k in was[n].kids ==>
               k in was && now[k].parent == was[k].parent
               && now[k].prev == (if k == where then child else was[k].prev)
               && now[k].next == if k == was[where].prev then child else was[k].next
    ensures Linked(now, n)
  {
    var kids, before := now[n].kids, was[n].kids;
    assert InPlace(was, n, at);
    forall i | 0 <= i < |kids| ensures InPlace(now, n, i) {
      if i < at {
        assert kids[i] == before[i] && InPlace(was, n, i);
      } else if i > at {
        assert kids[i] == before[i - 1] && InPlace(was, n, i - 1);
      }
    }
    forall i, j | 0 <= i < j < |kids| ensures kids[i] != kids[j] {
      assert i > at ==> kids[i] == before[i - 1];
      assert j > at ==> kids[j] == before[j - 1];
    }
  }

  lemma FirstRemoved(was: Heap, now: Heap, n: XmlNode, child: XmlNode)
    requires n in was && Linked(was, n) && now.Keys == was.Keys && child in was
    requires was[n].kids != [] && was[n].kids[0] == child && now[n].kids == was[n].kids[1..]
    requires now[n].first == was[child].next && (was[child].next != null ==> now[n].last == was[n].last)
    requires forall k :: k in was[n].kids && k != child ==>
               k in was && now[k].parent == was[k].parent && now[k].next == was[k].next
               && now[k].prev == if k == was[child].next then null else was[k].prev
    ensures Linked(now, n) && forall k :: k in was[n].kids && k != child ==> k in now[n].kids
  {
    assert InPlace(was, n, 0);
    forall i | 0 <= i < |now[n].kids| ensures InPlace(now, n, i) {
      assert now[n].kids[i] == was[n].kids[i + 1] && InPlace(was, n, i + 1);
    }
    Others(was[n].kids, 0);
    assert was[n].kids[..0] + was[n].kids[1..] == now[n].kids;
  }

  lemma LastRemoved(was: Heap, now: Heap, n: XmlNode, child: XmlNode)
    requires n in was && Linked(was, n) && now.Keys == was.Keys && child in was && was[n].kids != []
    requires was[n].kids[|was[n].kids| - 1] == child && now[n].kids == was[n].kids[..|was[n].kids| - 1]
    requires now[n].first == (if was[child].prev == null then null else was[n].first)
    requires was[child].prev != null ==> now[n].last == was[child].prev
    requires forall k :: k in was[n].kids && k != child ==>
               k in was && now[k].parent == was[k].parent && now[k].prev == was[k].prev
               && now[k].next == if k == was[child].prev then null else was[k].next
    ensures Linked(now, n) && forall k :: k in was[n].kids && k != child ==> k in now[n].kids
  {
    var last := |was[n].kids| - 1;
    assert InPlace(was, n, last);
    forall i | 0 <= i < |now[n].kids| ensures InPlace(now, n, i) {
      assert now[n].kids[i] == was[n].kids[i] && InPlace(was, n, i);
    }
    Others(was[n].kids, last);
    assert was[n].kids[..last] + was[n].kids[last + 1..] == now[n].kids;
  }

  lemma Removed(was: Heap, now: Heap, n: XmlNode, at: nat, where: XmlNode)
    requires n in was && Linked(was, n) && now.Keys == was.Keys && where in was
    requires 0 < at < |was[n].kids| - 1 && was[n].kids[at] == where
    requires now[n].kids == was[n].kids[..at] + was[n].kids[at + 1..]
    requires now[n].first == was[n].first && now[n].last == was[n].last
    requires forall k :: k in was[n].kids && k != where ==>
               k in was && now[k].parent == was[k].parent
               && now[k].prev == (if k == was[where].next then was[where].prev else was[k].prev)
               && now[k].next == if k == was[where].prev then was[where].next else was[k].next
    ensures Linked(now, n) && forall k :: k in was[n].kids && k != where ==> k in now[n].kids
  {
    var kids, before := now[n].kids, was[n].kids;
    assert InPlace(was, n, at);
    forall i | 0 <= i < |kids| ensures InPlace(now, n, i) {
      if i < at {
        assert kids[i] == before[i] && InPlace(was, n, i);
      } else {
        assert kids[i] == before[i + 1] && InPlace(was, n, i + 1);
      }
    }
    Others(before, at);
  }

  /** What a node of the forest knows about its children. */
  lemma Knows(h: Heap, n: XmlNode)
    requires Forest(h) && n in h
    ensures Linked(h, n)
    ensures var kids := h[n].kids;
            h[n].first == (if kids == [] then null else kids[0]) && (kids != [] ==> h[n].last == kids[|kids| - 1])
            && (forall k :: k in kids ==> k in h && h[k].parent == n)
            && forall k :: k in h && h[k].parent == n ==> k in kids
  {
    var kids := h[n].kids;
    forall k | k in kids ensures k in h && h[k].parent == n {
      var i :| 0 <= i < |kids| && kids[i] == k;
      assert InPlace(h, n, i);
    }
  }

  /** Where child `i` is, and who is beside it. */
  lemma Neighbours(h: Heap, n: XmlNode, i: nat)
    requires Forest(h) && n in h && i < |h[n].kids|
    ensures var kids := h[n].kids;
            kids[i] in h && h[kids[i]].prev == (if i == 0 then null else kids[i - 1])
            && h[kids[i]].next == (if i == |kids| - 1 then null else kids[i + 1])
            && forall j :: 0 <= j < |kids| && j != i ==> kids[j] != kids[i]
  {
    assert InPlace(h, n, i);
  }

  lemma Others(s: seq<XmlNode>, at: nat)
    requires at < |s|
    ensures forall x :: x in s && x != s[at] ==> x in s[..at] + s[at + 1..]
  {
    forall x | x in s && x != s[at] ensures x in s[..at] + s[at + 1..] {
      var i :| 0 <= i < |s| && s[i] == x;
      assert x == (s[..at] + s[at + 1..])[if i < at then i else i - 1];
    }
  }

  lemma NoKids(h: Heap, n: XmlNode)
    requires n in h && h[n].kids == [] && h[n].first == null
    ensures Linked(h, n)
  {
  }

  class XmlNode {
    var firstNode: XmlNode?
    var lastNode: XmlNode?
    var prevSibling: XmlNode?
    var nextSibling: XmlNode?
    var parent: XmlNode?
    ghost var kids: seq<XmlNode>

    /** A new node. Its last child and siblings are whatever was in memory. */
    constructor (last: XmlNode?, prev: XmlNode?, next: XmlNode?)
      ensures kids == [] && firstNode == null && parent == null
      ensures lastNode == last && prevSibling == prev && nextSibling == next
    {
      firstNode, parent, kids := null, null, [];
      lastNode, prevSibling, nextSibling := last, prev, next;
    }

    /** The pointers set by `prepend_node`. */
    method LinkFirst(child: XmlNode, ghost nodes: set<XmlNode>)
      requires this in nodes && child in nodes && child != firstNode && (firstNode != null ==> firstNode in nodes)
      modifies this`firstNode, this`lastNode, nodes`nextSibling, nodes`prevSibling, nodes`parent
      ensures firstNode == child && lastNode == (if old(firstNode) == null then child else old(lastNode))
      ensures forall n :: n in nodes ==>
                n.nextSibling == (if n == child then old(firstNode) else old(n.nextSibling))
                && n.prevSibling == (if n == child then null else if n == old(firstNode) then child else old(n.prevSibling))
                && n.parent == if n == child then this else old(n.parent)
    {
      if firstNode != null {
        child.nextSibling := firstNode;
        firstNode.prevSibling := child;
      } else {
        child.nextSibling := null;
        lastNode := child;
      }
      firstNode := child;
      child.parent := this;
      child.prevSibling := null;
    }

    /** `prepend_node`. */
    method PrependNode(child: XmlNode, ghost nodes: set<XmlNode>)
      requires Forest(Snapshot(nodes)) && this in nodes && child in nodes && child.parent == null
      modifies this`firstNode, this`lastNode, this`kids, nodes`nextSibling, nodes`prevSibling, nodes`parent
      ensures Forest(Snapshot(nodes)) && kids == [child] + old(kids)
    {
      hide Forest, Linked, InPlace;
      ghost var was := Snapshot(nodes);
      Knows(was, this);
      LinkFirst(child, nodes);
      kids := [child] + kids;
      ghost var now := Snapshot(nodes);
      Prepended(was, now, this, child);
      Rebuilt(was, now, this);
    }

    /** The pointers set by `append_node`. */
    method LinkLast(child: XmlNode, ghost nodes: set<XmlNode>)
      requires this in nodes && child in nodes
      requires firstNode != null ==> lastNode != null && lastNode in nodes && lastNode != child
      modifies this`firstNode, this`lastNode, nodes`nextSibling, nodes`prevSibling, nodes`parent
      ensures lastNode == child && firstNode == (if old(firstNode) == null then child else old(firstNode))
      ensures forall n :: n in nodes ==>
                n.prevSibling == (if n != child then old(n.prevSibling)
                                  else if old(firstNode) == null then null
                                  else old(lastNode))
                && n.nextSibling == (if n == child then null
                                     else if old(firstNode) != null && n == old(lastNode) then child
                                     else old(n.nextSibling))
                && n.parent == if n == child then this else old(n.parent)
    {
      if firstNode != null {
        child.prevSibling := lastNode;
        lastNode.nextSibling := child;
      } else {
        child.prevSibling := null;
        firstNode := child;
      }
      lastNode := child;
      child.parent := this;
      child.nextSibling := null;
    }

    /** `append_node`. */
    method AppendNode(child: XmlNode, ghost nodes: set<XmlNode>)
      requires Forest(Snapshot(nodes)) && this in nodes && child in nodes && child.parent == null
      modifies this`firstNode, this`lastNode, this`kids, nodes`nextSibling, nodes`prevSibling, nodes`parent
      ensures Forest(Snapshot(nodes)) && kids == old(kids) + [child]
    {
      hide Forest, Linked, InPlace;
      ghost var was := Snapshot(nodes);
      Knows(was, this);
      LinkLast(child, nodes);
      kids := kids + [child];
      ghost var now := Snapshot(nodes);
      Appended(was, now, this, child);
      Rebuilt(was, now, this);
    }

    /** The pointers set by `insert_node` in the middle. */
    method LinkBefore(where: XmlNode, child: XmlNode, ghost nodes: set<XmlNode>)
      requires this in nodes && child in nodes && where in nodes && child != where
      requires where.prevSibling != null && where.prevSibling in nodes && where.prevSibling != child
      modifies nodes`nextSibling, nodes`prevSibling, nodes`parent
      ensures forall n :: n in nodes ==>
                n.prevSibling == (if n == where then child
                                  else if n == child then old(where.prevSibling)
                                  else old(n.prevSibling))
                && n.nextSibling == (if n == child then where
                                     else if n == old(where.prevSibling) then child
                                     else old(n.nextSibling))
                && n.parent == if n == child then this else old(n.parent)
    {
      child.prevSibling := where.prevSibling;
      child.nextSibling := where;
      where.prevSibling.nextSibling := child;
      where.prevSibling := child;
      child.parent := this;
    }

    /** `insert_node`, before `where` or at the end. */
    method InsertNode(where: XmlNode?, child: XmlNode, ghost nodes: set<XmlNode>) returns (ghost at: nat)
      requires Forest(Snapshot(nodes)) && this in nodes && child in nodes && child.parent == null
      requires where != null ==> where in nodes && where.parent == this
      modifies this`firstNode, this`lastNode, this`kids, nodes`nextSibling, nodes`prevSibling, nodes`parent
      ensures Forest(Snapshot(nodes)) && at <= |old(kids)| && kids == old(kids)[..at] + [child] + old(kids)[at..]
      ensures if where == null then at == |old(kids)| else at < |old(kids)| && old(kids)[at] == where
    {
      hide Forest, Linked, InPlace;
      ghost var was := Snapshot(nodes);
      Knows(was, this);
      if where == firstNode {
        PrependNode(child, nodes);
        at := 0;
      } else if where == null {
        at := |kids|;
        AppendNode(child, nodes);
      } else {
        at :| 0 <= at < |kids| && kids[at] == where;
        InsertAt(at, where, child, nodes);
      }
    }

    method InsertAt(ghost at: nat, where: XmlNode, child: XmlNode, ghost nodes: set<XmlNode>)
      requires Forest(Snapshot(nodes)) && this in nodes && child in nodes && child.parent == null
      requires 0 < at < |kids| && kids[at] == where
      modifies this`firstNode, this`lastNode, this`kids, nodes`nextSibling, nodes`prevSibling, nodes`parent
      ensures Forest(Snapshot(nodes)) && kids == old(kids)[..at] + [child] + old(kids)[at..]
    {
      hide Forest, Linked, InPlace;
      ghost var was := Snapshot(nodes);
      Knows(was, this);
      Neighbours(was, this, at);
      LinkBefore(where, child, nodes);
      kids := kids[..at] + [child] + kids[at..];
      ghost var now := Snapshot(nodes);
      Inserted(was, now, this, at, where, child);
      Rebuilt(was, now, this);
    }

    /** The pointers set by `remove_first_node`. */
    method UnlinkFirst(ghost nodes: set<XmlNode>)
      requires this in nodes && firstNode != null && firstNode in nodes
      requires firstNode.nextSibling != null ==> firstNode.nextSibling in nodes
      modifies this`firstNode, this`lastNode, nodes`prevSibling, nodes`parent
      ensures var child := old(firstNode); var next := old(firstNode.nextSibling);
              firstNode == next && lastNode == (if next == null then null else old(lastNode))
              && forall n :: n in nodes ==>
                   n.prevSibling == (if n == next then null else old(n.prevSibling))
                   && n.parent == if n == child then null else old(n.parent)
    {
      var child := firstNode;
      firstNode := child.nextSibling;
      if child.nextSibling != null {
        child.nextSibling.prevSibling := null;
      } else {
        lastNode := null;
      }
      child.parent := null;
    }

    /** `remove_first_node`. */
    method RemoveFirstNode(ghost nodes: set<XmlNode>)
      requires Forest(Snapshot(nodes)) && this in nodes && kids != []
      modifies this`firstNode, this`lastNode, this`kids, nodes`nextSibling, nodes`prevSibling, nodes`parent
      ensures Forest(Snapshot(nodes)) && kids == old(kids)[1..] && old(kids)[0].parent == null
    {
      hide Forest, Linked, InPlace;
      ghost var was := Snapshot(nodes);
      Knows(was, this);
      Neighbours(was, this, 0);
      ghost var child := kids[0];
      UnlinkFirst(nodes);
      kids := kids[1..];
      ghost var now := Snapshot(nodes);
      FirstRemoved(was, now, this, child);
      Rebuilt(was, now, this);
    }

    /** The pointers set by `remove_last_node`. */
    method UnlinkLast(ghost nodes: set<XmlNode>)
      requires this in nodes && lastNode != null && lastNode in nodes
      requires lastNode.prevSibling != null ==> lastNode.prevSibling in nodes
      modifies this`firstNode, this`lastNode, nodes`nextSibling, nodes`parent
      ensures var child := old(lastNode); var prev := old(lastNode.prevSibling);
              firstNode == (if prev == null then null else old(firstNode))
              && lastNode == (if prev == null then old(lastNode) else prev)
              && forall n :: n in nodes ==>
                   n.nextSibling == (if n == prev then null else old(n.nextSibling))
                   && n.parent == if n == child then null else old(n.parent)
    {
      var child := lastNode;
      if child.prevSibling != null {
        lastNode := child.prevSibling;
        child.prevSibling.nextSibling := null;
      } else {
        firstNode := null;
      }
      child.parent := null;
    }

    /** `remove_last_node`. */
    method RemoveLastNode(ghost nodes: set<XmlNode>)
      requires Forest(Snapshot(nodes)) && this in nodes && kids != []
      modifies this`firstNode, this`lastNode, this`kids, nodes`nextSibling, nodes`prevSibling, nodes`parent
      ensures Forest(Snapshot(nodes))
      ensures kids == old(kids)[..|old(kids)| - 1] && old(kids)[|old(kids)| - 1].parent == null
    {
      hide Forest, Linked, InPlace;
      ghost var was := Snapshot(nodes);
      Knows(was, this);
      Neighbours(was, this, |kids| - 1);
      ghost var child := kids[|kids| - 1];
      UnlinkLast(nodes);
      kids := kids[..|kids| - 1];
      ghost var now := Snapshot(nodes);
      LastRemoved(was, now, this, child);
      Rebuilt(was, now, this);
    }

    /** The pointers set by `remove_node` in the middle. */
    method Unlink(where: XmlNode, ghost nodes: set<XmlNode>)
      requires this in nodes && where in nodes
      requires where.prevSibling != null && where.prevSibling in nodes && where.prevSibling != where
      requires where.nextSibling != null && where.nextSibling in nodes && where.nextSibling != where
      modifies nodes`nextSibling, nodes`prevSibling, nodes`parent
      ensures var prev, next := old(where.prevSibling), old(where.nextSibling);
              forall n :: n in nodes ==>
                n.nextSibling == (if n == prev then next else old(n.nextSibling))
                && n.prevSibling == (if n == next then prev else old(n.prevSibling))
                && n.parent == if n == where then null else old(n.parent)
    {
      where.prevSibling.nextSibling := where.nextSibling;
      where.nextSibling.prevSibling := where.prevSibling;
      where.parent := null;
    }

    /** `remove_node`. */
    method RemoveNode(where: XmlNode, ghost nodes: set<XmlNode>) returns (ghost at: nat)
      requires Forest(Snapshot(nodes)) && this in nodes && where in nodes && where.parent == this
      modifies this`firstNode, this`lastNode, this`kids, nodes`nextSibling, nodes`prevSibling, nodes`parent
      ensures Forest(Snapshot(nodes)) && at < |old(kids)| && old(kids)[at] == where
      ensures kids == old(kids)[..at] + old(kids)[at + 1..] && where.parent == null
    {
      hide Forest, Linked, InPlace;
      ghost var was := Snapshot(nodes);
      Knows(was, this);
      at :| 0 <= at < |kids| && kids[at] == where;
      Neighbours(was, this, at);
      if where == firstNode {
        RemoveFirstNode(nodes);
      } else if where == lastNode {
        RemoveLastNode(nodes);
      } else {
        RemoveAt(at, where, nodes);
      }
    }

    method RemoveAt(ghost at: nat, where: XmlNode, ghost nodes: set<XmlNode>)
      requires Forest(Snapshot(nodes)) && this in nodes && 0 < at < |kids| - 1 && kids[at] == where
      modifies this`firstNode, this`lastNode, this`kids, nodes`nextSibling, nodes`prevSibling, nodes`parent
      ensures Forest(Snapshot(nodes)) && kids == old(kids)[..at] + old(kids)[at + 1..] && where.parent == null
    {
      hide Forest, Linked, InPlace;
      ghost var was := Snapshot(nodes);
      Knows(was, this);
      Neighbours(was, this, at);
      Unlink(where, nodes);
      kids := kids[..at] + kids[at + 1..];
      ghost var now := Snapshot(nodes);
      Removed(was, now, this, at, where);
      Rebuilt(was, now, this);
    }

    /** `remove_all_nodes`: every child loses its parent; the pointer to the last child is left as it is. */
    method RemoveAllNodes(ghost nodes: set<XmlNode>)
      requires Forest(Snapshot(nodes)) && this in nodes
      modifies this`firstNode, this`kids, nodes`parent
      ensures Forest(Snapshot(nodes)) && kids == [] && forall k :: k in old(kids) ==> k.parent == null
    {
      hide Forest, Linked, InPlace;
      ghost var was := Snapshot(nodes);
      Knows(was, this);
      Orphan(nodes);
      firstNode := null;
      kids := [];
      ghost var now := Snapshot(nodes);
      NoKids(now, this);
      Rebuilt(was, now, this);
    }

    /** The loop of `remove_all_nodes`. */
    method Orphan(ghost nodes: set<XmlNode>)
      requires Forest(Snapshot(nodes)) && this in nodes
      modifies nodes`parent
      ensures forall n :: n in nodes ==> n.parent == if n in kids then null else old(n.parent)
    {
      hide Forest, Linked, InPlace;
      ghost var was := Snapshot(nodes);
      Knows(was, this);
      ghost var i := 0;
      var node := firstNode;
      while node != null
        invariant i <= |kids| && node == (if i < |kids| then kids[i] else null)
        invariant forall n :: n in nodes ==> n.parent == if n in kids[..i] then null else old(n.parent)
        decreases |kids| - i
      {
        Neighbours(was, this, i);
        assert kids[..i + 1] == kids[..i] + [kids[i]];
        node.parent := null;
        node := node.nextSibling;
        i := i + 1;
      }
      assert kids[..i] == kids;
    }
  }
}
