/** The doubly linked list: nodes linked both ways, rewritten in place, standing for a sequence. */
module OffsetList {

  /** A node; `alive` is false once it has been destroyed, `maker` is the allocator it came from. */
  class Node<T> {
    var pre: Node?<T>
    var nxt: Node?<T>
    var data: T
    ghost var alive: bool
    ghost const maker: int

    constructor (x: T, alloc: int)
      ensures pre == null && nxt == null && data == x && alive && maker == alloc
    {
      pre, nxt, data, alive, maker := null, null, x, true, alloc;
    }

    /** A node is destroyed once, and given back to the allocator it came from. */
    method Destroy(alloc: int)
      requires alive && alloc == maker
      modifies this`alive
      ensures !alive
    {
      alive := false;
    }
  }

  /** The node at a place, null standing for the place past either end. */
  function NodeAt<T>(nodes: seq<Node<T>>, i: int): Node?<T> {
    if 0 <= i < |nodes| then nodes[i] else null
  }

  ghost predicate Distinct<T>(nodes: seq<Node<T>>) {
    forall i, j :: 0 <= i < j < |nodes| ==> nodes[i] != nodes[j]
  }

  class OffsetList<T> {
    var alloc: int
    var head: Node?<T>
    var tail: Node?<T>
    ghost var nodes: seq<Node<T>>

    /** The forward chain from `head` and the backward chain from `tail` are mutual reverses. */
    ghost predicate Linked()
      reads this, nodes
    {
      && Distinct(nodes)
      && head == NodeAt(nodes, 0) && tail == NodeAt(nodes, |nodes| - 1)
      && (|nodes| > 0 ==> nodes[0].pre == null && nodes[|nodes| - 1].nxt == null)
      && (forall i {:trigger nodes[i].pre} :: 1 <= i < |nodes| ==> nodes[i].pre == nodes[i - 1])
      && (forall i {:trigger nodes[i].nxt} :: 0 <= i < |nodes| - 1 ==> nodes[i].nxt == nodes[i + 1])
    }

    ghost predicate Valid()
      reads this, nodes
    {
      Linked() && forall n :: n in nodes ==> n.alive && n.maker == alloc
    }

    /** The sequence the list stands for. */
    ghost function Contents(): seq<T>
      reads this, nodes
    {
      seq(|nodes|, i requires 0 <= i < |nodes| reads this, nodes => nodes[i].data)
    }

    constructor (a: int)
      ensures Valid() && nodes == [] && alloc == a
    {
      alloc, head, tail, nodes := a, null, null, [];
    }

    ghost predicate Usable(node: Node<T>)
      reads this, node
    {
      node.alive && node.maker == alloc
    }

    /** Place i of the list as an iterator holds it; place |nodes| is end(). */
    ghost predicate IsPlace(position: Node?<T>, i: nat)
      reads this
    {
      i <= |nodes| && position == NodeAt(nodes, i)
    }

    method InsertNodeToFront(node: Node<T>)
      requires Valid() && node !in nodes && Usable(node) && node.pre == null && node.nxt == null
      modifies this`head, this`tail, this`nodes, nodes, node
      ensures Valid() && nodes == [node] + old(nodes)
      ensures forall n :: n in nodes ==> n.data == old(n.data)
    {
      if head == null {
        head, tail := node, node;
      } else {
        head.pre := node;
        node.nxt := head;
        head := node;
      }
      nodes := [node] + nodes;
    }

    method InsertNodeToBack(node: Node<T>)
      requires Valid() && node !in nodes && Usable(node) && node.pre == null && node.nxt == null
      modifies this`head, this`tail, this`nodes, nodes, node
      ensures Valid() && nodes == old(nodes) + [node]
      ensures forall n :: n in nodes ==> n.data == old(n.data)
    {
      if tail == null {
        head, tail := node, node;
      } else {
        tail.nxt := node;
        node.pre := tail;
        tail := node;
      }
      nodes := nodes + [node];
    }

    method InsertNodeBetween(before: Node<T>, position: Node<T>, node: Node<T>, ghost i: nat)
      requires Valid() && 1 <= i < |nodes| && position == nodes[i] && before == nodes[i - 1]
      requires node !in nodes && Usable(node)
      modifies nodes, node
      ensures before.nxt == node && position.pre == node && node.pre == before && node.nxt == position
      ensures before.pre == old(before.pre) && position.nxt == old(position.nxt) && node.alive
      ensures forall k {:trigger nodes[k].pre} :: 0 <= k < |nodes| && k != i ==> nodes[k].pre == old(nodes[k].pre)
      ensures forall k {:trigger nodes[k].nxt} :: 0 <= k < |nodes| && k != i - 1 ==> nodes[k].nxt == old(nodes[k].nxt)
      ensures forall n :: n in nodes ==> n.alive && n.data == old(n.data)
      ensures node.data == old(node.data)
    {
      before.nxt := node;
      position.pre := node;
      node.pre := before;
      node.nxt := position;
    }

    method InsertNodeInside(position: Node<T>, node: Node<T>, ghost i: nat)
      requires Valid() && 1 <= i < |nodes| && position == nodes[i]
      requires node !in nodes && Usable(node) && node.pre == null && node.nxt == null
      modifies this`nodes, nodes, node
      ensures Valid() && nodes == old(nodes)[..i] + [node] + old(nodes)[i..]
      ensures forall n :: n in nodes ==> n.data == old(n.data)
    {
      ghost var all := nodes;
      InsertNodeBetween(position.pre, position, node, i);
      nodes := all[..i] + [node] + all[i..];
      SplicedAt(all, node, i);
    }

    /** What lies at each place after a node was spliced in at place i. */
    lemma SplicedAt(all: seq<Node<T>>, node: Node<T>, i: nat)
      requires i <= |all|
      ensures var more := all[..i] + [node] + all[i..];
              && |more| == |all| + 1
              && (forall k {:trigger more[k]} :: 0 <= k < |more| ==>
                    more[k] == if k < i then all[k] else if k == i then node else all[k - 1])
    {
    }

    /** At end() the statements are those of insertion at the back, at begin() those of insertion at
      * the front.
      */
    method InsertNodeBefore(position: Node?<T>, node: Node<T>, ghost i: nat)
      requires Valid() && IsPlace(position, i)
      requires node !in nodes && Usable(node) && node.pre == null && node.nxt == null
      modifies this`head, this`tail, this`nodes, nodes, node
      ensures Valid() && nodes == old(nodes)[..i] + [node] + old(nodes)[i..]
      ensures forall n :: n in nodes ==> n.data == old(n.data)
    {
      if position == null {
        InsertNodeToBack(node);
      } else if position.pre == null {
        assert i == 0;
        InsertNodeToFront(node);
      } else {
        assert i >= 1;
        InsertNodeInside(position, node, i);
      }
    }

    // -------------------------------------------------------------- insertion of values

    method PushFront(x: T)
      requires Valid()
      modifies this`head, this`tail, this`nodes, nodes
      ensures Valid() && |nodes| == |old(nodes)| + 1 && fresh(nodes[0])
      ensures nodes == [nodes[0]] + old(nodes)
      ensures Contents() == [x] + old(Contents())
    {
      var node := new Node(x, alloc);
      InsertNodeToFront(node);
    }

    method PushBack(x: T)
      requires Valid()
      modifies this`head, this`tail, this`nodes, nodes
      ensures Valid() && |nodes| == |old(nodes)| + 1 && fresh(nodes[|nodes| - 1])
      ensures nodes == old(nodes) + [nodes[|nodes| - 1]]
      ensures Contents() == old(Contents()) + [x]
    {
      var node := new Node(x, alloc);
      InsertNodeToBack(node);
    }

    method Insert(position: Node?<T>, x: T, ghost i: nat) returns (at: Node<T>)
      requires Valid() && IsPlace(position, i)
      modifies this`head, this`tail, this`nodes, nodes
      ensures Valid() && IsPlace(at, i) && fresh(at)
      ensures nodes == old(nodes)[..i] + [at] + old(nodes)[i..]
      ensures Contents() == old(Contents())[..i] + [x] + old(Contents())[i..]
    {
      at := new Node(x, alloc);
      InsertNodeBefore(position, at, i);
    }

    // -------------------------------------------------------------- removal

    /** Destroys the nodes from place i up to place j, each of them once, and nothing else. */
    method DestroyRange(position: Node?<T>, last: Node?<T>, ghost i: nat, ghost j: nat)
      requires Valid() && IsPlace(position, i) && IsPlace(last, j) && i <= j
      modifies nodes
      ensures Linked()
      ensures forall k {:trigger nodes[k].alive} :: 0 <= k < |nodes| ==> (nodes[k].alive <==> k < i || j <= k)
      ensures forall n :: n in nodes ==> n.data == old(n.data) && n.pre == old(n.pre) && n.nxt == old(n.nxt)
    {
      var target: Node?<T> := position;
      ghost var k := i;
      while target != last
        invariant i <= k <= j && target == NodeAt(nodes, k)
        invariant forall l {:trigger nodes[l].alive} :: 0 <= l < |nodes| ==> (nodes[l].alive <==> l < i || k <= l)
        invariant forall n :: n in nodes ==> n.pre == old(n.pre) && n.nxt == old(n.nxt) && n.data == old(n.data)
        decreases j - k
      {
        assert target == nodes[k] && nodes[k].alive;
        var next := target.nxt;
        target.Destroy(alloc);
        target := next;
        k := k + 1;
      }
    }

    method CloseFront(last: Node<T>, ghost j: nat)
      requires Linked() && j < |nodes| && last == nodes[j]
      modifies this`head, this`tail, this`nodes, last
      ensures Linked() && nodes == old(nodes)[j..]
      ensures last.data == old(last.data) && last.alive == old(last.alive)
    {
      head := last;
      last.pre := null;
      nodes := nodes[j..];
    }

    method CloseBack(before: Node<T>, ghost i: nat)
      requires Linked() && 0 < i < |nodes| && before == nodes[i - 1]
      modifies this`head, this`tail, this`nodes, before
      ensures Linked() && nodes == old(nodes)[..i]
      ensures before.data == old(before.data) && before.alive == old(before.alive)
    {
      tail := before;
      before.nxt := null;
      nodes := nodes[..i];
    }

    method CloseMiddle(before: Node<T>, last: Node<T>, ghost i: nat, ghost j: nat)
      requires Linked() && 0 < i <= j < |nodes| && before == nodes[i - 1] && last == nodes[j]
      modifies this`head, this`tail, this`nodes, before, last
      ensures Linked() && nodes == old(nodes)[..i] + old(nodes)[j..]
      ensures before.data == old(before.data) && before.alive == old(before.alive)
      ensures last.data == old(last.data) && last.alive == old(last.alive)
    {
      before.nxt := last;
      last.pre := before;
      ghost var all := nodes;
      CutForward(all, i, j);
      CutBackward(all, i, j);
      nodes := all[..i] + all[j..];
    }

    /** Backward links that skip the places from i up to j are those of the list without them. */
    lemma CutBackward(all: seq<Node<T>>, i: nat, j: nat)
      requires 0 < i <= j < |all| && all[j].pre == all[i - 1]
      requires forall k {:trigger all[k].pre} :: 1 <= k < |all| && k != j ==> all[k].pre == all[k - 1]
      ensures var less := all[..i] + all[j..];
              forall k {:trigger less[k].pre} :: 1 <= k < |less| ==> less[k].pre == less[k - 1]
    {
      var less := all[..i] + all[j..];
      forall k {:trigger less[k].pre} | 1 <= k < |less| ensures less[k].pre == less[k - 1] {
        if k > i {
          assert less[k] == all[k + j - i] && less[k - 1] == all[k - 1 + j - i];
        }
      }
    }

    /** Forward links that skip the places from i up to j are those of the list without them. */
    lemma CutForward(all: seq<Node<T>>, i: nat, j: nat)
      requires 0 < i <= j < |all| && all[i - 1].nxt == all[j]
      requires forall k {:trigger all[k].nxt} :: 0 <= k < |all| - 1 && k != i - 1 ==> all[k].nxt == all[k + 1]
      ensures var less := all[..i] + all[j..];
              forall k {:trigger less[k].nxt} :: 0 <= k < |less| - 1 ==> less[k].nxt == less[k + 1]
    {
      var less := all[..i] + all[j..];
      forall k {:trigger less[k].nxt} | 0 <= k < |less| - 1 ensures less[k].nxt == less[k + 1] {
        if k >= i {
          assert less[k] == all[k + j - i] && less[k + 1] == all[k + 1 + j - i];
        }
      }
    }

    /** Links the two ends of a removed stretch to each other, or makes them the ends of the list. */
    method Close(before: Node?<T>, last: Node?<T>, ghost i: nat, ghost j: nat)
      requires Linked() && i <= j && i < |nodes| && IsPlace(last, j) && before == NodeAt(nodes, i - 1)
      modifies this`head, this`tail, this`nodes, nodes
      ensures Linked() && nodes == old(nodes)[..i] + old(nodes)[j..]
      ensures forall n :: n in old(nodes) ==> n.data == old(n.data) && n.alive == old(n.alive)
    {
      ghost var all := nodes;
      if before == null && last == null {
        assert all[..i] + all[j..] == [];
        head, tail, nodes := null, null, [];
      } else if before == null {
        assert all[..i] + all[j..] == all[j..];
        CloseFront(last, j);
      } else if last == null {
        assert all[..i] + all[j..] == all[..i];
        CloseBack(before, i);
      } else {
        CloseMiddle(before, last, i, j);
      }
    }

    method EraseNodes(position: Node<T>, last: Node?<T>, ghost i: nat, ghost j: nat)
      requires Valid() && i <= j && i < |nodes| && position == nodes[i] && IsPlace(last, j)
      modifies this`head, this`tail, this`nodes, nodes
      ensures Valid() && nodes == old(nodes)[..i] + old(nodes)[j..]
      ensures forall k {:trigger old(nodes)[k]} :: i <= k < j ==> !old(nodes)[k].alive
      ensures forall n :: n in old(nodes) ==> n.data == old(n.data)
    {
      var before := position.pre;
      ghost var all := nodes;
      DestroyRange(position, last, i, j);
      assert forall n :: n in all[..i] + all[j..] ==> n in all && n.alive;
      Close(before, last, i, j);
    }

    /** Removes the nodes from `position` up to `last`, destroys each of them once and returns the
      * place after them.
      */
    method Erase(position: Node?<T>, last: Node?<T>, ghost i: nat, ghost j: nat) returns (after: Node?<T>)
      requires Valid() && IsPlace(position, i) && IsPlace(last, j) && i <= j
      modifies this`head, this`tail, this`nodes, nodes
      ensures Valid() && nodes == old(nodes)[..i] + old(nodes)[j..]
      ensures Contents() == old(Contents())[..i] + old(Contents())[j..]
      ensures forall k {:trigger old(nodes)[k]} :: i <= k < j ==> !old(nodes)[k].alive
      ensures IsPlace(after, i) && after == last
    {
      if position == null {
        return null;
      }
      EraseNodes(position, last, i, j);
      after := last;
    }

    method EraseAt(position: Node?<T>, ghost i: nat) returns (after: Node?<T>)
      requires Valid() && IsPlace(position, i)
      modifies this`head, this`tail, this`nodes, nodes
      ensures Valid() && IsPlace(after, i)
      ensures i == |old(nodes)| ==> nodes == old(nodes) && Contents() == old(Contents())
      ensures i < |old(nodes)| ==> nodes == old(nodes)[..i] + old(nodes)[i + 1..] && !old(nodes)[i].alive
      ensures i < |old(nodes)| ==> Contents() == old(Contents())[..i] + old(Contents())[i + 1..]
    {
      if position == null {
        return null;
      }
      after := Erase(position, position.nxt, i, i + 1);
    }

    /** On an empty list nothing happens. */
    method PopFront()
      requires Valid()
      modifies this`head, this`tail, this`nodes, nodes
      ensures Valid()
      ensures old(nodes) == [] ==> nodes == []
      ensures old(nodes) != [] ==> nodes == old(nodes)[1..] && !old(nodes)[0].alive
      ensures old(nodes) != [] ==> Contents() == old(Contents())[1..]
    {
      var _ := EraseAt(head, 0);
    }

    /** On an empty list, where stepping back from end() stays there, nothing happens. */
    method PopBack()
      requires Valid()
      modifies this`head, this`tail, this`nodes, nodes
      ensures Valid()
      ensures old(nodes) == [] ==> nodes == []
      ensures old(nodes) != [] ==> nodes == old(nodes)[..|old(nodes)| - 1] && !old(nodes)[|old(nodes)| - 1].alive
      ensures old(nodes) != [] ==> Contents() == old(Contents())[..|old(nodes)| - 1]
    {
      var _ := EraseAt(tail, if nodes == [] then 0 else |nodes| - 1);
    }

    method Clear()
      requires Valid()
      modifies this`head, this`tail, this`nodes, nodes
      ensures Valid() && nodes == []
      ensures forall n :: n in old(nodes) ==> !n.alive
    {
      DestroyRange(head, null, 0, |nodes|);
      head, tail, nodes := null, null, [];
    }

    // -------------------------------------------------------------- iterators

    /** A place of the list: a node of it or null. */
    ghost predicate Place(cur: Node?<T>)
      reads this
    {
      cur == null || cur in nodes
    }

    /** Where `++` of an iterator goes; past end() it stays. */
    function After(cur: Node?<T>): Node?<T>
      reads cur
    {
      if cur == null then null else cur.nxt
    }

    /** Where `--` of an iterator goes; from end() it goes to the tail. */
    function Previous(cur: Node?<T>): Node?<T>
      reads this, cur
    {
      if cur == null then tail else cur.pre
    }

    function ReverseAfter(cur: Node?<T>): Node?<T>
      reads cur
    {
      if cur == null then null else cur.pre
    }

    function ReversePrevious(cur: Node?<T>): Node?<T>
      reads this, cur
    {
      if cur == null then head else cur.nxt
    }

    /** From place i a step forward leads to the next place and a step back to the one before; the
      * step back from begin(), which the caller must not take, would lead to end().
      */
    lemma StepsMoveByOne(cur: Node?<T>, i: nat)
      requires Valid() && IsPlace(cur, i)
      ensures IsPlace(After(cur), if i < |nodes| then i + 1 else i)
      ensures IsPlace(Previous(cur), if i > 0 then i - 1 else |nodes|)
    {
    }

    lemma StepsUndoEachOther(cur: Node?<T>)
      requires Valid() && Place(cur)
      ensures Place(After(cur)) && Place(Previous(cur))
      ensures cur != null ==> Previous(After(cur)) == cur
      ensures After(Previous(cur)) == cur <==> cur == null || cur != head
    {
      if cur != null {
        var i :| 0 <= i < |nodes| && nodes[i] == cur;
        if i > 0 {
          assert nodes[i].pre == nodes[i - 1] && nodes[i - 1].nxt == nodes[i];
        }
        if i < |nodes| - 1 {
          assert nodes[i].nxt == nodes[i + 1] && nodes[i + 1].pre == nodes[i];
        }
      }
    }

    lemma ReverseStepsUndoEachOther(cur: Node?<T>)
      requires Valid() && Place(cur)
      ensures Place(ReverseAfter(cur)) && Place(ReversePrevious(cur))
      ensures cur != null ==> ReversePrevious(ReverseAfter(cur)) == cur
      ensures ReverseAfter(ReversePrevious(cur)) == cur <==> cur == null || cur != tail
    {
      if cur != null {
        var i :| 0 <= i < |nodes| && nodes[i] == cur;
        if i > 0 {
          assert nodes[i].pre == nodes[i - 1] && nodes[i - 1].nxt == nodes[i];
        }
        if i < |nodes| - 1 {
          assert nodes[i].nxt == nodes[i + 1] && nodes[i + 1].pre == nodes[i];
        }
      }
    }

    /** What an iterator at `cur` reads in `steps` steps, ending early at end(). */
    ghost function Visited(cur: Node?<T>, steps: nat): seq<T>
      requires Valid() && Place(cur)
      reads this, nodes
    {
      if cur == null || steps == 0 then [] else
        StepsUndoEachOther(cur);
        [cur.data] + Visited(After(cur), steps - 1)
    }

    /** What a reverse iterator at `cur` reads in `steps` steps, ending early at rend(). */
    ghost function VisitedInReverse(cur: Node?<T>, steps: nat): seq<T>
      requires Valid() && Place(cur)
      reads this, nodes
    {
      if cur == null || steps == 0 then [] else
        ReverseStepsUndoEachOther(cur);
        [cur.data] + VisitedInReverse(ReverseAfter(cur), steps - 1)
    }

    lemma {:induction false} VisitedFrom(i: nat, steps: nat)
      requires Valid() && i <= |nodes| && steps >= |nodes| - i
      ensures Visited(NodeAt(nodes, i), steps) == Contents()[i..]
      decreases |nodes| - i
    {
      if i < |nodes| {
        VisitedFrom(i + 1, steps - 1);
        assert nodes[i].nxt == NodeAt(nodes, i + 1);
        assert Contents()[i..] == [nodes[i].data] + Contents()[i + 1..];
      }
    }

    lemma {:induction false} VisitedInReverseFrom(i: nat, steps: nat)
      requires Valid() && i <= |nodes| && steps >= i
      ensures VisitedInReverse(NodeAt(nodes, i - 1), steps) == Reversed(Contents()[..i])
      decreases i
    {
      if i > 0 {
        VisitedInReverseFrom(i - 1, steps - 1);
        assert nodes[i - 1].pre == NodeAt(nodes, i - 2);
        assert Contents()[..i][..i - 1] == Contents()[..i - 1];
      }
    }

    /** Walking from begin() reads the list, walking from rbegin() reads it backwards, and walking
      * further reads nothing more.
      */
    lemma WalksReadTheList(steps: nat)
      requires Valid() && steps >= |nodes|
      ensures Visited(head, steps) == Contents()
      ensures VisitedInReverse(tail, steps) == Reversed(Contents())
    {
      VisitedFrom(0, steps);
      VisitedInReverseFrom(|nodes|, steps);
      assert Contents()[0..] == Contents() && Contents()[..|nodes|] == Contents();
    }

    // -------------------------------------------------------------- observers

    method Empty() returns (e: bool)
      requires Valid()
      ensures e <==> Contents() == []
    {
      e := head == null;
    }

    method Front() returns (x: T)
      requires Valid() && nodes != []
      ensures x == Contents()[0]
    {
      var it := new Iterator(this, head);
      x := it.cur.data;
    }

    method Back() returns (x: T)
      requires Valid() && nodes != []
      ensures x == Contents()[|nodes| - 1]
    {
      var it := new Iterator(this, null);
      it.Decrement(|nodes|);
      x := it.cur.data;
    }

    method Size() returns (ans: nat)
      requires Valid()
      ensures ans == |Contents()|
    {
      ans := 0;
      var it := new Iterator(this, head);
      while it.cur != null
        invariant fresh(it) && it.owner == this
        invariant ans <= |nodes| && it.cur == NodeAt(nodes, ans)
        invariant Valid() && nodes == old(nodes)
        decreases |nodes| - ans
      {
        it.Increment(ans);
        ans := ans + 1;
      }
    }

    // -------------------------------------------------------------- whole lists

    ghost predicate Disjoint(x: OffsetList<T>)
      reads this, x
    {
      x != this && forall i, j :: 0 <= i < |nodes| && 0 <= j < |x.nodes| ==> nodes[i] != x.nodes[j]
    }

    /** The loop over another list that the copies run. */
    method AppendAll(x: OffsetList<T>)
      requires Valid() && x.Linked() && Disjoint(x)
      modifies this`head, this`tail, this`nodes, nodes
      ensures Valid() && Disjoint(x) && x.Linked() && (old(x.Valid()) ==> x.Valid()) && x.nodes == old(x.nodes)
      ensures forall i :: 0 <= i < |nodes| ==> nodes[i] in old(nodes) || fresh(nodes[i])
      ensures x.Contents() == old(x.Contents()) && Contents() == old(Contents()) + x.Contents()
    {
      var cur := x.head;
      ghost var k := 0;
      while cur != null
        invariant x.Linked() && (old(x.Valid()) ==> x.Valid()) && x.Contents() == old(x.Contents())
        invariant Valid() && Disjoint(x)
        invariant k <= |x.nodes| && cur == NodeAt(x.nodes, k)
        invariant forall i :: 0 <= i < |nodes| ==> nodes[i] in old(nodes) || fresh(nodes[i])
        invariant Contents() == old(Contents()) + x.Contents()[..k]
        decreases |x.nodes| - k
      {
        assert cur == x.nodes[k] && cur.data == x.Contents()[k];
        PushBack(cur.data);
        cur := cur.nxt;
        k := k + 1;
      }
      assert x.Contents()[..k] == x.Contents();
    }

    constructor Copy(x: OffsetList<T>, a: int)
      requires x.Valid()
      ensures Valid() && x.Valid() && Disjoint(x) && fresh(nodes) && alloc == a
      ensures x.nodes == old(x.nodes) && x.Contents() == old(x.Contents()) && Contents() == x.Contents()
    {
      alloc, head, tail, nodes := a, null, null, [];
      new;
      AppendAll(x);
    }

    /** An allocator can only be replaced while the list has no node of the old one. */
    method CopyAssign(x: OffsetList<T>, propagate: bool)
      requires Valid() && x.Valid() && (x == this || Disjoint(x))
      modifies this, nodes
      ensures Valid() && x.Valid() && x.nodes == old(x.nodes)
      ensures x.Contents() == old(x.Contents()) && Contents() == x.Contents()
      ensures x != this ==> Disjoint(x) && alloc == if propagate then x.alloc else old(alloc)
      ensures x != this ==> forall n :: n in old(nodes) ==> !n.alive
    {
      if x == this {
        return;
      }
      Clear();
      if propagate {
        alloc := x.alloc;
      }
      AppendAll(x);
    }

    /** Takes the nodes of the other list when both use equal allocators, its values otherwise. */
    method Take(x: OffsetList<T>)
      requires Valid() && nodes == [] && x.Valid() && Disjoint(x)
      modifies this`head, this`tail, this`nodes, x`head, x`tail, x`nodes, x.nodes
      ensures Valid() && x.Valid() && x.nodes == [] && Contents() == old(x.Contents())
      ensures alloc == x.alloc ==> nodes == old(x.nodes)
      ensures alloc != x.alloc ==> fresh(nodes) && forall n :: n in old(x.nodes) ==> !n.alive
    {
      if alloc == x.alloc {
        head, x.head := x.head, null;
        tail, x.tail := x.tail, null;
        nodes, x.nodes := x.nodes, [];
      } else {
        TakeValues(x);
      }
    }

    method TakeValues(x: OffsetList<T>)
      requires Valid() && nodes == [] && x.Valid() && Disjoint(x)
      modifies this`head, this`tail, this`nodes, x`head, x`tail, x`nodes, x.nodes
      ensures Valid() && x.Valid() && x.nodes == [] && Contents() == old(x.Contents())
      ensures (forall i :: 0 <= i < |nodes| ==> fresh(nodes[i])) && forall n :: n in old(x.nodes) ==> !n.alive
    {
      AppendAll(x);
      x.Clear();
    }

    constructor Move(x: OffsetList<T>, a: int)
      requires x.Valid()
      modifies x`head, x`tail, x`nodes, x.nodes
      ensures Valid() && x.Valid() && x.nodes == [] && Contents() == old(x.Contents()) && alloc == a
      ensures a == x.alloc ==> nodes == old(x.nodes)
      ensures a != x.alloc ==> fresh(nodes) && forall n :: n in old(x.nodes) ==> !n.alive
    {
      alloc, head, tail, nodes := a, null, null, [];
      new;
      Take(x);
    }

    method MoveAssign(x: OffsetList<T>, propagate: bool)
      requires Valid() && x.Valid() && (x == this || Disjoint(x))
      modifies this, nodes, x`head, x`tail, x`nodes, x.nodes
      ensures Valid() && Contents() == old(x.Contents())
      ensures x == this ==> nodes == old(nodes)
      ensures x != this ==> x.Valid() && x.nodes == [] && alloc == if propagate then x.alloc else old(alloc)
      ensures x != this ==> forall n :: n in old(nodes) ==> !n.alive
      ensures x != this && alloc == x.alloc ==> nodes == old(x.nodes)
      ensures x != this && alloc != x.alloc ==> forall n :: n in old(x.nodes) ==> !n.alive
    {
      if x == this {
        return;
      }
      Clear();
      if propagate {
        alloc := x.alloc;
      }
      Take(x);
    }

    /** With equal allocators no node is moved, copied or destroyed. With unequal ones the values are moved
      * into new nodes.
      */
    method Swap(x: OffsetList<T>, propagate: bool) returns (end: SwapEnd)
      requires Valid() && x.Valid() && (x == this || Disjoint(x))
      modifies this, nodes, x, x.nodes
      ensures end == SwapOutcome(old(alloc) == old(x.alloc), propagate, |old(nodes)|, |old(x.nodes)|)
      ensures end == Exchanged ==>
                && Valid() && x.Valid() && Contents() == old(x.Contents()) && x.Contents() == old(Contents())
                && alloc == old(if propagate then x.alloc else alloc) && x.alloc == old(if propagate then alloc else x.alloc)
      ensures old(alloc == x.alloc) ==> nodes == old(x.nodes) && x.nodes == old(nodes)
      ensures end == ReadsDestroyed ==>
                |old(nodes)| > 1 && old(nodes[0].nxt) == old(nodes)[1] == old(nodes)[0].nxt && !old(nodes)[1].alive
      ensures end == WrongAllocator ==>
                || (x.nodes != [] && x.nodes == old(x.nodes) && x.nodes[0].alive && x.nodes[0].maker != x.alloc)
                || (|old(nodes)| > 1 && old(nodes)[1].alive && old(nodes)[1].maker != alloc)
      ensures old(alloc != x.alloc) && end == Exchanged ==>
                && (forall n :: n in old(x.nodes) ==> !n.alive)
                && (forall n :: n in old(nodes) ==> n.alive && n !in nodes && n !in x.nodes)
    {
      if propagate {
        var other := alloc;
        alloc := x.alloc;
        x.alloc := other;
      }
      if alloc == x.alloc {
        SwapChains(x);
        end := Exchanged;
      } else {
        end := SwapValues(x, propagate);
      }
    }

    method SwapChains(x: OffsetList<T>)
      requires Valid() && x.Valid() && alloc == x.alloc
      modifies this`head, this`tail, this`nodes, x`head, x`tail, x`nodes
      ensures Valid() && x.Valid() && nodes == old(x.nodes) && x.nodes == old(nodes)
    {
      var h, t := head, tail;
      head, tail := x.head, x.tail;
      x.head, x.tail := h, t;
      ghost var ns := nodes;
      nodes := x.nodes;
      x.nodes := ns;
    }

    ghost predicate Made(a: int)
      reads this, nodes
    {
      forall n :: n in nodes ==> n.alive && n.maker == a
    }

    /** The values of the other list are copied to new nodes and its nodes cleared; then those of this list
      * are moved over, the loop destroying after each the node that follows it.
      */
    method SwapValues(x: OffsetList<T>, propagated: bool) returns (end: SwapEnd)
      requires Linked() && x.Linked() && Disjoint(x) && alloc != x.alloc
      requires Made(if propagated then x.alloc else alloc) && x.Made(if propagated then alloc else x.alloc)
      modifies this`head, this`tail, this`nodes, nodes, x`head, x`tail, x`nodes, x.nodes
      ensures end == SwapOutcome(false, propagated, |old(nodes)|, |old(x.nodes)|)
      ensures end == ReadsDestroyed ==>
                |old(nodes)| > 1 && old(nodes[0].nxt) == old(nodes)[1] == old(nodes)[0].nxt && !old(nodes)[1].alive
      ensures end == WrongAllocator ==>
                || (x.nodes != [] && x.nodes == old(x.nodes) && x.nodes[0].alive && x.nodes[0].maker != x.alloc)
                || (|old(nodes)| > 1 && old(nodes)[1].alive && old(nodes)[1].maker != alloc)
      ensures end == Exchanged ==>
                && Valid() && x.Valid() && Contents() == old(x.Contents()) && x.Contents() == old(Contents())
                && (forall n :: n in old(x.nodes) ==> !n.alive)
                && (forall n :: n in old(nodes) ==> n.alive && n !in nodes && n !in x.nodes)
    {
      var first := head;
      head, tail, nodes := null, null, [];
      if propagated && x.head != null {
        // The nodes of the other list, which are to be cleared, came from the allocator this list has now.
        AppendAll(x);
        return WrongAllocator;
      }
      ghost var mine := old(nodes);
      assert |mine| > 1 ==> first.nxt == mine[1];
      TakeValues(x);
      end := GiveOver(x, first, propagated, mine);
    }

    /** The second loop of the swap, over the nodes that were this list's. */
    method GiveOver(x: OffsetList<T>, first: Node?<T>, propagated: bool, ghost mine: seq<Node<T>>) returns (end: SwapEnd)
      requires x.Valid() && x.nodes == [] && Distinct(mine) && first == NodeAt(mine, 0)
      requires |mine| > 0 ==> first.nxt == NodeAt(mine, 1)
      requires |mine| > 1 ==> mine[1].alive && (mine[1].maker == alloc <==> !propagated)
      modifies x`head, x`tail, x`nodes, if |mine| > 1 then {mine[1]} else {}
      ensures end == SwapOutcome(false, propagated, |mine|, 0)
      ensures end == Exchanged ==>
                && x.Valid() && x.Contents() == (if mine == [] then [] else [mine[0].data])
                && (forall n :: n in x.nodes ==> fresh(n))
      ensures end == ReadsDestroyed ==> |mine| > 1 && mine[0].nxt == mine[1] && !mine[1].alive
      ensures end == WrongAllocator ==> |mine| > 1 && mine[1].alive && mine[1].maker != alloc
    {
      if first == null {
        return Exchanged;
      }
      x.PushBack(first.data);
      if first.nxt == null {
        return Exchanged;
      }
      if propagated {
        return WrongAllocator;
      }
      first.nxt.Destroy(alloc);
      // The next turn of the loop would read the value of the node just destroyed.
      end := ReadsDestroyed;
    }
  }

  /** How a swap ends: as meant, or at the first step that gives a node back to an allocator it did not come
    * from or reads a node that has been destroyed.
    */
  datatype SwapEnd = Exchanged | WrongAllocator | ReadsDestroyed

  /** For lists of n and m nodes. */
  function SwapOutcome(equal: bool, propagate: bool, n: nat, m: nat): SwapEnd {
    if equal then Exchanged
    else if propagate then if m > 0 || n > 1 then WrongAllocator else Exchanged
    else if n > 1 then ReadsDestroyed else Exchanged
  }

  /** Two values in a list of one allocator, none in a list of another: the swap comes to read a node that it
    * has destroyed.
    */
  method SwapReadsDestroyed() returns (list: OffsetList<int>, other: OffsetList<int>, ghost was: seq<Node<int>>, end: SwapEnd)
    ensures end == ReadsDestroyed && |was| == 2 && !was[1].alive && was[0].nxt == was[1]
  {
    list := new OffsetList<int>(1);
    other := new OffsetList<int>(2);
    list.PushBack(10);
    list.PushBack(20);
    was := list.nodes;
    end := list.Swap(other, false);
  }

  /** Where allocators propagate, one value in the other list is enough: its node would be given back to an
    * allocator it did not come from.
    */
  method SwapGivesBackWrongly() returns (list: OffsetList<int>, other: OffsetList<int>, end: SwapEnd)
    ensures end == WrongAllocator && |other.nodes| == 1 && other.nodes[0].maker != other.alloc
  {
    list := new OffsetList<int>(1);
    other := new OffsetList<int>(2);
    other.PushBack(10);
    end := list.Swap(other, true);
  }

  function Reversed<T>(s: seq<T>): (r: seq<T>) {
    if s == [] then [] else [s[|s| - 1]] + Reversed(s[..|s| - 1])
  }

  lemma {:induction false} ReversedAt<T>(s: seq<T>, k: nat)
    requires k < |s|
    ensures |Reversed(s)| == |s| && Reversed(s)[k] == s[|s| - 1 - k]
  {
    if |s| > 1 {
      ReversedAt(s[..|s| - 1], if k > 0 then k - 1 else 0);
    }
  }

  class Iterator<T> {
    const owner: OffsetList<T>
    var cur: Node?<T>

    constructor (list: OffsetList<T>, position: Node?<T>)
      ensures owner == list && cur == position
    {
      owner, cur := list, position;
    }

    /** Place i of the list, place |nodes| being end(). */
    ghost predicate At(i: nat)
      reads this, owner, owner.nodes
    {
      owner.Valid() && owner.IsPlace(cur, i)
    }

    /** From place i to the next, and from the last place nowhere. */
    method Increment(ghost i: nat)
      requires At(i)
      modifies this
      ensures At(if i < |owner.nodes| then i + 1 else i) && cur == owner.After(old(cur))
    {
      if cur != null {
        cur := cur.nxt;
      }
    }

    /** From place i to the one before. From the first place, where the caller must not be, the step leads
      * to the last.
      */
    method Decrement(ghost i: nat)
      requires At(i)
      modifies this
      ensures At(if i > 0 then i - 1 else |owner.nodes|) && cur == owner.Previous(old(cur))
    {
      if cur != null {
        cur := cur.pre;
      } else {
        cur := owner.tail;
      }
    }
  }

  class ReverseIterator<T> {
    const owner: OffsetList<T>
    var cur: Node?<T>

    constructor (list: OffsetList<T>, position: Node?<T>)
      ensures owner == list && cur == position
    {
      owner, cur := list, position;
    }

    /** Place i counted from the back, place |nodes| being rend(). */
    ghost predicate At(i: nat)
      reads this, owner, owner.nodes
    {
      owner.Valid() && i <= |owner.nodes| && cur == NodeAt(owner.nodes, |owner.nodes| - 1 - i)
    }

    /** From place i to the next, and from the last place nowhere. */
    method Increment(ghost i: nat)
      requires At(i)
      modifies this
      ensures At(if i < |owner.nodes| then i + 1 else i) && cur == owner.ReverseAfter(old(cur))
    {
      if cur != null {
        cur := cur.pre;
      }
    }

    /** From place i to the one before. From the first place, where the caller must not be, the step leads
      * to the last.
      */
    method Decrement(ghost i: nat)
      requires At(i)
      modifies this
      ensures At(if i > 0 then i - 1 else |owner.nodes|) && cur == owner.ReversePrevious(old(cur))
    {
      if cur != null {
        cur := cur.nxt;
      } else {
        cur := owner.head;
      }
    }
  }
}
