/** Strong and weak handles as objects that one process at a time works with: copying, moving,
  * assigning, swapping and dropping them, and what that does to the control blocks they share.
  */
module SharedHandles {

  /** The control block. `held` says that the resource is still there; the ghost fields record who
    * refers to the block and how often its resource was deleted and its memory given back.
    */
  class ControlBlock {
    var shrd: int
    var weak: int
    var held: bool
    ghost var strongs: set<Handle>
    ghost var weaks: set<Handle>
    ghost var deleted: nat
    ghost var freed: nat

    constructor ()
      ensures shrd == 0 && weak == 0 && held && strongs == {} && weaks == {} && deleted == 0 && freed == 0
    {
      shrd, weak, held, strongs, weaks, deleted, freed := 0, 0, true, {}, {}, 0, 0;
    }

    ghost function Of(strong: bool): set<Handle>
      reads this
    {
      if strong then strongs else weaks
    }

    /** The counters count the handles; the resource is deleted once, when the last strong handle goes,
      * and the block is freed once, when the last handle goes.
      */
    ghost predicate Settled()
      reads this
    {
      && shrd == |strongs| && weak == |weaks|
      && (held <==> |strongs| > 0) && deleted == (if held then 0 else 1)
      && freed == (if |strongs| + |weaks| > 0 then 0 else 1)
    }

    ghost predicate Valid()
      reads this, strongs`ctrl, weaks`ctrl
    {
      && Settled()
      && (forall h :: h in strongs ==> h.ctrl == this && h.strong)
      && (forall h :: h in weaks ==> h.ctrl == this && !h.strong)
    }

    /** All handles on the books point here, except k, which is about to. */
    ghost predicate ValidBut(k: Handle)
      reads this, strongs`ctrl, weaks`ctrl
    {
      && Settled()
      && (forall h :: h in strongs ==> (h == k || h.ctrl == this) && h.strong)
      && (forall h :: h in weaks ==> (h == k || h.ctrl == this) && !h.strong)
    }

    /** Counts a handle that points here and is not yet on the books. */
    method Enter(strong: bool, ghost h: Handle)
      requires Valid() && h.ctrl == this && h.strong == strong && h !in Of(strong)
      requires |strongs| + |weaks| > 0 && (strong ==> held)
      modifies this
      ensures Valid() && Of(strong) == old(Of(strong)) + {h} && Of(!strong) == old(Of(!strong))
    {
      if strong {
        shrd, strongs := shrd + 1, strongs + {h};
      } else {
        weak, weaks := weak + 1, weaks + {h};
      }
    }

    method DisposeResource()
      modifies this`held, this`deleted
      ensures !held && deleted == old(deleted) + if old(held) then 1 else 0
    {
      if held {
        held, deleted := false, deleted + 1;
      }
    }

    /** Takes a handle off the block's books; the last one frees the block, whose destructor deletes a
      * resource still there.
      */
    method TryDispose(strong: bool, ghost h: Handle)
      requires Settled() && h in Of(strong)
      modifies this
      ensures Settled() && Of(strong) == old(Of(strong)) - {h} && Of(!strong) == old(Of(!strong))
    {
      if strong {
        shrd, strongs := shrd - 1, strongs - {h};
      } else {
        weak, weaks := weak - 1, weaks - {h};
      }
      if shrd <= 0 && weak <= 0 {
        DisposeResource();
        freed := freed + 1;
      } else if shrd <= 0 && weak > 0 {
        DisposeResource();
      }
    }
  }

  /** A strong or a weak handle; `p` is the pointer it gives out, 0 standing for null. */
  class Handle {
    const strong: bool
    var ctrl: ControlBlock?
    var p: nat

    constructor (kind: bool)
      ensures strong == kind && ctrl == null && p == 0
    {
      strong, ctrl, p := kind, null, 0;
    }

    /** The block pointed to has this handle on its books. */
    ghost predicate Booked()
      reads this`ctrl, ctrl, (if ctrl == null then {} else ctrl.strongs + ctrl.weaks)`ctrl
    {
      ctrl != null ==> ctrl.Valid() && this in ctrl.Of(strong)
    }

    ghost predicate Valid()
      reads this, ctrl, (if ctrl == null then {} else ctrl.strongs + ctrl.weaks)`ctrl
    {
      Booked() && (ctrl == null ==> p == 0)
    }

    /** Construction from a pointer. */
    method Own(p_arg: nat)
      requires strong && ctrl == null
      modifies this
      ensures Valid() && ctrl != null && fresh(ctrl) && ctrl.strongs == {this} && ctrl.weaks == {} && p == p_arg
    {
      ctrl := new ControlBlock();
      p := p_arg;
      ctrl.shrd, ctrl.strongs := ctrl.shrd + 1, {this};
    }

    /** Copy construction of an empty handle from one of either kind. A weak handle yields a strong one
      * only while the resource is there; `made` is false where that fails.
      */
    method CopyFrom(orig: Handle) returns (made: bool)
      requires Valid() && ctrl == null && orig.Valid() && orig != this
      modifies this, orig.ctrl
      ensures Valid() && orig.Valid() && orig.ctrl == old(orig.ctrl) && orig.p == old(orig.p)
      ensures made <==> orig.ctrl != null && (strong && !orig.strong ==> old(orig.ctrl.held))
      ensures made ==> ctrl == orig.ctrl && p == orig.p
      ensures made ==> ctrl.Of(strong) == old(orig.ctrl.Of(strong)) + {this}
      ensures made ==> ctrl.Of(!strong) == old(orig.ctrl.Of(!strong))
      ensures !made ==> ctrl == null && p == 0
      ensures !made && orig.ctrl != null ==> unchanged(orig.ctrl)
    {
      if orig.ctrl == null {
        return false;
      }
      if strong && !orig.strong && orig.ctrl.shrd == 0 {
        return false;
      }
      Join(orig);
      made := true;
    }

    /** The stores of a copy construction that goes through. */
    method Join(orig: Handle)
      requires ctrl == null && orig.Booked() && orig.ctrl != null && orig != this
      requires strong ==> orig.ctrl.held
      modifies this, orig.ctrl
      ensures Booked() && ctrl == orig.ctrl && p == orig.p
      ensures ctrl.Of(strong) == old(orig.ctrl.Of(strong)) + {this} && ctrl.Of(!strong) == old(orig.ctrl.Of(!strong))
    {
      NotOnBooks(orig.ctrl);
      ctrl, p := orig.ctrl, orig.p;
      ctrl.Enter(strong, this);
    }

    lemma NotOnBooks(block: ControlBlock?)
      requires block != null ==> block.Valid() && block != ctrl
      ensures block != null ==> this !in block.strongs && this !in block.weaks
    {
    }

    /** Move construction of an empty handle: no counter changes, the old handle is empty after it. */
    method MoveFrom(orig: Handle)
      requires Valid() && ctrl == null && orig.Valid() && orig != this && orig.strong == strong
      modifies this, orig, orig.ctrl
      ensures Valid() && orig.Valid() && orig.ctrl == null
      ensures ctrl == old(orig.ctrl) && p == old(orig.p)
      ensures ctrl != null ==> ctrl.Of(strong) == old(orig.ctrl.Of(strong)) - {orig} + {this}
      ensures ctrl != null ==> ctrl.Of(!strong) == old(orig.ctrl.Of(!strong))
    {
      if orig.ctrl == null {
        return;
      }
      Rename(orig.ctrl, orig, this);
      ghost var block := orig.ctrl;
      assert forall h :: h in block.strongs ==> h == this || (h != orig && h.ctrl == block && h.strong);
      assert forall h :: h in block.weaks ==> h == this || (h != orig && h.ctrl == block && !h.strong);
      ctrl, p := orig.ctrl, orig.p;
      orig.ctrl, orig.p := null, 0;
      assert ctrl.Valid();
    }

    /** The destructor. */
    method Drop()
      requires Valid()
      modifies this, ctrl
      ensures Valid() && ctrl == null
      ensures old(ctrl) != null ==> old(ctrl).Valid() && old(ctrl).Of(strong) == old(ctrl.Of(strong)) - {this}
      ensures old(ctrl) != null ==> old(ctrl).Of(!strong) == old(ctrl.Of(!strong))
    {
      if ctrl != null {
        ctrl.TryDispose(strong, this);
      }
      ctrl, p := null, 0;
    }

    /** On the books of this handle's block, its place is taken by a handle that is to point there. */
    ghost method GiveWayTo(k: Handle)
      requires Booked() && ctrl != null && k.strong == strong && k.ctrl != ctrl
      modifies ctrl
      ensures ctrl.ValidBut(k) && this !in ctrl.strongs && this !in ctrl.weaks
      ensures ctrl.Of(strong) == old(ctrl.Of(strong)) - {this} + {k} && ctrl.Of(!strong) == old(ctrl.Of(!strong))
    {
      Rename(ctrl, this, k);
    }

    /** The store that a block's books have been waiting for. */
    method PointAt(block: ControlBlock?)
      requires block != null ==> block.ValidBut(this) && strong == (this in block.strongs)
      modifies this`ctrl
      ensures ctrl == block && (block != null ==> block.Valid())
    {
      ctrl := block;
    }

    /** On the books of two blocks two handles trade places. */
    ghost method TradePlaces(b: Handle)
      requires Booked() && b.Booked() && strong == b.strong && ctrl != null && b.ctrl != null && ctrl != b.ctrl
      modifies ctrl, b.ctrl
      ensures ctrl.ValidBut(b) && this !in ctrl.strongs && this !in ctrl.weaks
      ensures ctrl.Of(strong) == old(ctrl.Of(strong)) - {this} + {b} && ctrl.Of(!strong) == old(ctrl.Of(!strong))
      ensures b.ctrl.ValidBut(this) && b !in b.ctrl.strongs && b !in b.ctrl.weaks
      ensures b.ctrl.Of(strong) == old(b.ctrl.Of(strong)) - {b} + {this}
      ensures b.ctrl.Of(!strong) == old(b.ctrl.Of(!strong))
    {
      GiveWayTo(b);
      b.GiveWayTo(this);
    }

    /** The two stores of `swap` where both handles have a block. */
    method Exchange(b: Handle)
      requires strong == b.strong && ctrl != null && b.ctrl != null && ctrl != b.ctrl
      requires ctrl.ValidBut(b) && this !in ctrl.strongs && this !in ctrl.weaks && b in ctrl.Of(strong)
      requires b.ctrl.ValidBut(this) && b !in b.ctrl.strongs && b !in b.ctrl.weaks && this in b.ctrl.Of(strong)
      modifies this`ctrl, b`ctrl
      ensures ctrl == old(b.ctrl) && b.ctrl == old(ctrl) && ctrl.Valid() && b.ctrl.Valid()
    {
      var mine := ctrl;
      PointAt(b.ctrl);
      b.PointAt(mine);
    }

    /** Books and stores of `swap` where both handles have a block. */
    method Cross(b: Handle)
      requires Booked() && b.Booked() && strong == b.strong && ctrl != null && b.ctrl != null && ctrl != b.ctrl
      modifies this`ctrl, b`ctrl, ctrl, b.ctrl
      ensures ctrl == old(b.ctrl) && b.ctrl == old(ctrl) && ctrl.Valid() && b.ctrl.Valid()
      ensures ctrl.Of(strong) == old(b.ctrl.Of(strong)) - {b} + {this}
      ensures ctrl.Of(!strong) == old(b.ctrl.Of(!strong))
      ensures b.ctrl.Of(strong) == old(ctrl.Of(strong)) - {this} + {b}
      ensures b.ctrl.Of(!strong) == old(ctrl.Of(!strong))
    {
      TradePlaces(b);
      Exchange(b);
    }

    /** The two stores of `swap` where the other handle is empty. */
    method HandTo(b: Handle)
      requires Booked() && strong == b.strong && ctrl != null && b.ctrl == null
      modifies this`ctrl, b`ctrl, ctrl
      ensures ctrl == null && b.ctrl == old(ctrl) && b.ctrl.Valid()
      ensures b.ctrl.Of(strong) == old(ctrl.Of(strong)) - {this} + {b}
      ensures b.ctrl.Of(!strong) == old(ctrl.Of(!strong))
    {
      GiveWayTo(b);
      var mine := ctrl;
      PointAt(b.ctrl);
      b.PointAt(mine);
    }

    /** Between handles of one block the stores of the block pointers change nothing. */
    method Swap(b: Handle)
      requires Valid() && b.Valid() && strong == b.strong
      modifies this, b, ctrl, b.ctrl
      ensures Valid() && b.Valid()
      ensures ctrl == old(b.ctrl) && p == old(b.p) && b.ctrl == old(ctrl) && b.p == old(p)
      ensures ctrl == b.ctrl != null ==> unchanged(ctrl)
      ensures ctrl != b.ctrl && ctrl != null ==> ctrl.Of(strong) == old(b.ctrl.Of(strong)) - {b} + {this}
      ensures ctrl != b.ctrl && ctrl != null ==> ctrl.Of(!strong) == old(b.ctrl.Of(!strong))
      ensures ctrl != b.ctrl && b.ctrl != null ==> b.ctrl.Of(strong) == old(ctrl.Of(strong)) - {this} + {b}
      ensures ctrl != b.ctrl && b.ctrl != null ==> b.ctrl.Of(!strong) == old(ctrl.Of(!strong))
    {
      if this == b {
        return;
      }
      p, b.p := b.p, p;
      if ctrl == b.ctrl {
        return;
      } else if b.ctrl == null {
        HandTo(b);
      } else if ctrl == null {
        b.HandTo(this);
      } else {
        Cross(b);
      }
    }

    /** Destruction leaves a handle of another block as it is. */
    method DropBeside(other: Handle)
      requires Valid() && other.Valid() && other != this && other.ctrl != null && ctrl != other.ctrl
      modifies this, ctrl
      ensures Valid() && ctrl == null && other.Valid() && unchanged(other.ctrl)
      ensures old(ctrl) != null ==> old(ctrl).Valid() && old(ctrl).Of(strong) == old(ctrl.Of(strong)) - {this}
      ensures old(ctrl) != null ==> old(ctrl).Of(!strong) == old(ctrl.Of(!strong))
    {
      NotOnBooks(other.ctrl);
      Drop();
    }

    /** Swap with an empty temporary handle, which then goes. */
    method GiveUp(tmp: Handle)
      requires Valid() && tmp.Valid() && strong == tmp.strong && ctrl != null && tmp.ctrl == null
      modifies this, ctrl, tmp
      ensures Valid() && tmp.Valid() && tmp.ctrl == null && ctrl == null
      ensures old(ctrl).Valid() && old(ctrl).Of(strong) == old(ctrl.Of(strong)) - {this}
      ensures old(ctrl).Of(!strong) == old(ctrl.Of(!strong))
    {
      tmp.Swap(this);
      tmp.Drop();
    }

    /** Swap of an empty handle with a temporary one that has a block, and then goes. */
    method Receive(tmp: Handle)
      requires Valid() && tmp.Valid() && strong == tmp.strong && ctrl == null && tmp.ctrl != null
      modifies this, tmp, tmp.ctrl
      ensures Valid() && tmp.Valid() && tmp.ctrl == null && ctrl == old(tmp.ctrl) && p == old(tmp.p)
      ensures ctrl.Of(strong) == old(tmp.ctrl.Of(strong)) - {tmp} + {this}
      ensures ctrl.Of(!strong) == old(tmp.ctrl.Of(!strong))
    {
      tmp.Swap(this);
      tmp.DropBeside(this);
    }

    /** Swap of two handles that have different blocks, the temporary one of which then goes. */
    method TakeOver(tmp: Handle)
      requires Valid() && tmp.Valid() && strong == tmp.strong && ctrl != null && tmp.ctrl != null && ctrl != tmp.ctrl
      modifies this, ctrl, tmp, tmp.ctrl
      ensures Valid() && tmp.Valid() && tmp.ctrl == null && ctrl == old(tmp.ctrl) && p == old(tmp.p)
      ensures ctrl.Of(strong) == old(tmp.ctrl.Of(strong)) - {tmp} + {this}
      ensures ctrl.Of(!strong) == old(tmp.ctrl.Of(!strong))
      ensures old(ctrl).Valid() && old(ctrl).Of(strong) == old(ctrl.Of(strong)) - {this}
      ensures old(ctrl).Of(!strong) == old(ctrl.Of(!strong))
    {
      tmp.NotOnBooks(ctrl);
      InAndOut(ctrl.Of(strong), this, tmp);
      tmp.Swap(this);
      tmp.DropBeside(this);
    }

    /** The end of every assignment. */
    method Replace(tmp: Handle)
      requires Valid() && tmp.Valid() && strong == tmp.strong && ctrl != tmp.ctrl
      modifies this, ctrl, tmp, tmp.ctrl
      ensures Valid() && tmp.Valid() && tmp.ctrl == null && ctrl == old(tmp.ctrl) && p == old(tmp.p)
      ensures ctrl != null ==> ctrl.Of(strong) == old(tmp.ctrl.Of(strong)) - {tmp} + {this}
      ensures ctrl != null ==> ctrl.Of(!strong) == old(tmp.ctrl.Of(!strong))
      ensures old(ctrl) != null ==> old(ctrl).Valid() && old(ctrl).Of(strong) == old(ctrl.Of(strong)) - {this}
      ensures old(ctrl) != null ==> old(ctrl).Of(!strong) == old(ctrl.Of(!strong))
    {
      if tmp.ctrl == null {
        GiveUp(tmp);
      } else if ctrl == null {
        Receive(tmp);
      } else {
        TakeOver(tmp);
      }
    }

    method Reset()
      requires Valid()
      modifies this, ctrl
      ensures Valid() && ctrl == null
      ensures old(ctrl) != null ==> old(ctrl).Valid() && old(ctrl).Of(strong) == old(ctrl.Of(strong)) - {this}
      ensures old(ctrl) != null ==> old(ctrl).Of(!strong) == old(ctrl.Of(!strong))
    {
      var tmp := new Handle(strong);
      if ctrl != null {
        Replace(tmp);
      }
    }

    /** The temporary copy of a copy assignment. */
    method CopyOf(orig: Handle) returns (tmp: Handle)
      requires Valid() && orig.Valid() && strong == orig.strong && ctrl != orig.ctrl
      modifies orig.ctrl
      ensures fresh(tmp) && tmp.strong == strong && Valid() && tmp.Valid() && orig.Valid()
      ensures tmp.ctrl == orig.ctrl == old(orig.ctrl) && tmp.p == orig.p
      ensures orig.ctrl != null ==> orig.ctrl.Of(strong) == old(orig.ctrl.Of(strong)) + {tmp}
      ensures orig.ctrl != null ==> orig.ctrl.Of(!strong) == old(orig.ctrl.Of(!strong))
    {
      tmp := new Handle(strong);
      var made := tmp.CopyFrom(orig);
    }

    /** Copy assignment. Nothing happens between handles of one block, not even to the pointer. */
    method CopyAssign(orig: Handle)
      requires Valid() && orig.Valid() && strong == orig.strong
      modifies this, ctrl, orig.ctrl
      ensures Valid() && orig.Valid() && ctrl == orig.ctrl == old(orig.ctrl)
      ensures p == if old(ctrl) == ctrl then old(p) else orig.p
      ensures old(ctrl) == ctrl != null ==> unchanged(ctrl)
      ensures old(ctrl) != ctrl && ctrl != null ==> ctrl.Of(strong) == old(orig.ctrl.Of(strong)) + {this}
      ensures old(ctrl) != ctrl && ctrl != null ==> ctrl.Of(!strong) == old(orig.ctrl.Of(!strong))
      ensures old(ctrl) != ctrl && old(ctrl) != null ==>
                old(ctrl).Valid() && old(ctrl).Of(strong) == old(ctrl.Of(strong)) - {this}
      ensures old(ctrl) != ctrl && old(ctrl) != null ==> old(ctrl).Of(!strong) == old(ctrl.Of(!strong))
    {
      if this == orig || ctrl == orig.ctrl {
        return;
      }
      var tmp := CopyOf(orig);
      Replace(tmp);
    }

    /** The temporary of a move assignment. */
    method MoveOf(orig: Handle) returns (tmp: Handle)
      requires Valid() && orig.Valid() && strong == orig.strong && ctrl != orig.ctrl
      modifies orig, orig.ctrl
      ensures fresh(tmp) && tmp.strong == strong && Valid() && tmp.Valid() && orig.Valid() && orig.ctrl == null
      ensures tmp.ctrl == old(orig.ctrl) && tmp.p == old(orig.p)
      ensures tmp.ctrl != null ==> tmp.ctrl.Of(strong) == old(orig.ctrl.Of(strong)) - {orig} + {tmp}
      ensures tmp.ctrl != null ==> tmp.ctrl.Of(!strong) == old(orig.ctrl.Of(!strong))
    {
      NotOnBooks(orig.ctrl);
      orig.NotOnBooks(ctrl);
      tmp := new Handle(strong);
      tmp.MoveFrom(orig);
    }

    /** Move assignment. Between handles of one block nothing happens: the other handle is not emptied. */
    method MoveAssign(orig: Handle)
      requires Valid() && orig.Valid() && strong == orig.strong
      modifies this, ctrl, orig, orig.ctrl
      ensures Valid() && orig.Valid() && ctrl == old(orig.ctrl)
      ensures orig.ctrl == null <==> old(orig.ctrl == null || ctrl != orig.ctrl)
      ensures p == if old(ctrl) == ctrl then old(p) else old(orig.p)
      ensures old(ctrl) == ctrl ==> orig.ctrl == ctrl && orig.p == old(orig.p)
      ensures old(ctrl) == ctrl != null ==> unchanged(ctrl)
      ensures old(ctrl) != ctrl && ctrl != null ==> ctrl.Of(strong) == old(orig.ctrl.Of(strong)) - {orig} + {this}
      ensures old(ctrl) != ctrl && ctrl != null ==> ctrl.Of(!strong) == old(orig.ctrl.Of(!strong))
      ensures old(ctrl) != ctrl && old(ctrl) != null ==>
                old(ctrl).Valid() && old(ctrl).Of(strong) == old(ctrl.Of(strong)) - {this}
      ensures old(ctrl) != ctrl && old(ctrl) != null ==> old(ctrl).Of(!strong) == old(ctrl.Of(!strong))
    {
      if this == orig || ctrl == orig.ctrl {
        return;
      }
      var tmp := MoveOf(orig);
      Replace(tmp);
    }

    method UseCount() returns (n: int)
      requires Valid()
      ensures n == if ctrl == null then 0 else |ctrl.strongs|
    {
      n := if ctrl == null then 0 else ctrl.shrd;
    }

    /** `lock()` of a weak handle: a strong one, empty exactly when the resource is gone. */
    method Lock() returns (ans: Handle)
      requires Valid() && !strong
      modifies ctrl
      ensures fresh(ans) && ans.strong && ans.Valid() && Valid()
      ensures ans.ctrl == if old(ctrl != null && ctrl.held) then ctrl else null
      ensures ans.ctrl != null ==> ans.p == p && ctrl.strongs == old(ctrl.strongs) + {ans} && ctrl.weaks == old(ctrl.weaks)
      ensures ans.ctrl == null && ctrl != null ==> unchanged(ctrl)
    {
      ans := new Handle(true);
      var made := ans.CopyFrom(this);
    }
  }

  /** Two strong handles of one block, the second move-assigned to the first: it is not emptied. */
  method SourceNotEmptied(p_arg: nat) returns (to: Handle, from: Handle)
    ensures fresh(to) && fresh(from) && to != from && to.strong && from.strong && to.Valid() && from.Valid()
    ensures from.ctrl != null && from.ctrl == to.ctrl && from.p == p_arg && from.ctrl.strongs == {to, from}
  {
    to := new Handle(true);
    to.Own(p_arg);
    from := new Handle(true);
    var made := from.CopyFrom(to);
    to.MoveAssign(from);
  }

  /** On the books of a block one handle takes the place of another of its kind. */
  ghost method Rename(block: ControlBlock?, h: Handle, k: Handle)
    requires block != null ==> block.Settled() && h in block.Of(h.strong) && k !in block.Of(h.strong)
    modifies if block == null then {} else {block}`strongs, if block == null then {} else {block}`weaks
    ensures block != null ==> block.Settled() && block.Of(h.strong) == old(block.Of(h.strong)) - {h} + {k}
    ensures block != null ==> block.Of(!h.strong) == old(block.Of(!h.strong))
  {
    if block != null {
      Replaced(block.Of(h.strong), h, k);
      if h.strong {
        block.strongs := block.strongs - {h} + {k};
      } else {
        block.weaks := block.weaks - {h} + {k};
      }
    }
  }

  lemma InAndOut(handles: set<Handle>, h: Handle, k: Handle)
    requires k !in handles
    ensures handles - {h} + {k} - {k} == handles - {h}
  {
  }

  lemma Replaced(handles: set<Handle>, h: Handle, k: Handle)
    requires h in handles && k !in handles
    ensures |handles - {h} + {k}| == |handles|
  {
  }
}
