/** The queues behind the channels: one doubly linked list a channel, each used under the mutex. */
module MsgChannels {
  import opened OffsetList
  import opened Basics
  import Channels

  class MsgChannels<M> {
    const msgch: seq<OffsetList<M>>

    ghost function Nodes(): set<object>
      reads this, msgch
    {
      set i, k | 0 <= i < |msgch| && 0 <= k < |msgch[i].nodes| :: msgch[i].nodes[k]
    }

    ghost predicate Valid()
      reads this, msgch, Nodes()
    {
      && (forall i :: 0 <= i < |msgch| ==> msgch[i].Valid())
      && (forall i, j :: 0 <= i < |msgch| && 0 <= j < |msgch| && i != j ==> msgch[i].Disjoint(msgch[j]))
    }

    /** The contents of every channel. */
    ghost function Queues(): seq<seq<M>>
      reads this, msgch, Nodes()
    {
      seq(|msgch|, i requires 0 <= i < |msgch| reads this, msgch, Nodes() => msgch[i].Contents())
    }

    ghost function Footprint(ch: nat): set<object>
      reads this, msgch
    {
      if ch < |msgch| then {msgch[ch] as object} + set n: object | n in msgch[ch].nodes else {}
    }

    constructor (channels: nat, alloc: int)
      ensures Valid() && |msgch| == channels && Queues() == Channels.Initial<M>(channels).queues
    {
      var lists: seq<OffsetList<M>> := [];
      for i := 0 to channels
        invariant |lists| == i
        invariant forall k :: 0 <= k < i ==> fresh(lists[k]) && lists[k].Valid() && lists[k].nodes == []
        invariant forall k, l :: 0 <= k < l < i ==> lists[k] != lists[l]
      {
        var list := new OffsetList<M>(alloc);
        lists := lists + [list];
      }
      msgch := lists;
    }

    /** What `send` does between locking and unlocking; a channel that does not exist is refused before. */
    method Send(ch: nat, message: M)
      requires Valid()
      modifies Footprint(ch)
      ensures Valid()
      ensures Queues() == if ch < |msgch| then Channels.Pushed(old(Queues()), ch, message) else old(Queues())
    {
      if ch >= |msgch| {
        return;
      }
      Append(ch, message);
    }

    method Append(ch: nat, message: M)
      requires Valid() && ch < |msgch|
      modifies Footprint(ch)
      ensures Valid()
      ensures Queues() == Channels.Pushed(old(Queues()), ch, message)
    {
      ghost var was := msgch[ch].nodes;
      msgch[ch].PushBack(message);
      assert forall k :: 0 <= k < |was| ==> msgch[ch].nodes[k] == was[k];
      assert forall i :: 0 <= i < |msgch| && i != ch ==>
        msgch[i].nodes == old(msgch[i].nodes) && msgch[i].Contents() == old(msgch[i].Contents());
    }

    method PopFront(ch: nat)
      requires Valid() && ch < |msgch| && msgch[ch].nodes != []
      modifies Footprint(ch)
      ensures Valid()
      ensures Queues() == Channels.Popped(old(Queues()), ch)
    {
      ghost var was := msgch[ch].nodes;
      msgch[ch].PopFront();
      assert forall k :: 0 <= k < |msgch[ch].nodes| ==> msgch[ch].nodes[k] == was[k + 1];
      assert forall i :: 0 <= i < |msgch| && i != ch ==>
        msgch[i].nodes == old(msgch[i].nodes) && msgch[i].Contents() == old(msgch[i].Contents());
    }

    method Take(ch: nat) returns (answer: M)
      requires Valid() && ch < |msgch| && msgch[ch].nodes != []
      modifies Footprint(ch)
      ensures Valid()
      ensures |old(Queues())[ch]| > 0 && answer == old(Queues())[ch][0]
      ensures Queues() == Channels.Popped(old(Queues()), ch)
    {
      answer := msgch[ch].Front();
      PopFront(ch);
    }

    /** What the receiving calls do between the last test and unlocking, the empty answer standing for
      * `try_receive` on an empty queue.
      */
    method TryReceive(ch: nat) returns (answer: Option<M>)
      requires Valid()
      modifies Footprint(ch)
      ensures Valid()
      ensures answer.None? <==> ch >= |msgch| || old(Queues())[ch] == []
      ensures answer.Some? ==> [answer.value] + Queues()[ch] == old(Queues())[ch]
      ensures Queues() == if ch < |msgch| then Channels.Popped(old(Queues()), ch) else old(Queues())
    {
      if ch >= |msgch| {
        return None;
      }
      ghost var before := Queues();
      assert before[ch] == msgch[ch].Contents();
      var empty := msgch[ch].Empty();
      if empty {
        return None;
      }
      var front := Take(ch);
      FrontAndRest(before, ch);
      answer := Some(front);
    }
  }

  lemma FrontAndRest<M>(queues: seq<seq<M>>, ch: nat)
    requires ch < |queues| && queues[ch] != []
    ensures [queues[ch][0]] + Channels.Popped(queues, ch)[ch] == queues[ch]
  {
  }
}
