/**
  The cast selection a `Link` makes once, at construction (Link.cpp).

  The link binds the slot's static-cast wrapper when `forceStatic` is set or
  when `signalType.isSameOrSubtypeOf(&slotType)` holds, that is when the
  signal's type name is on the slot type's ancestor chain; otherwise it binds
  the dynamic-cast wrapper.
 */
module Links {
  import opened Wrappers
  import opened Types
  import opened Messages
  import opened Slots

  /** A `Link`: its signal, its slot, and whether it bound the static-cast wrapper. */
  datatype LinkRec = LinkRec(signal: SignalId, slot: SlotId, useStatic: bool)

  /** The constructor's choice between the two wrappers. */
  predicate UsesStaticCast(forceStatic: bool, signalType: TypeDef, slotType: TypeDef)
    ensures UsesStaticCast(forceStatic, signalType, slotType) <==> forceStatic || signalType.name in NameChain(slotType)
  {
    forceStatic || IsSameOrSubtypeOf(signalType, Some(slotType))
  }

  /** What `forward(msg)` does on a link: call the bound wrapper once, passing this link. */
  function Forward(link: LinkId, rec: LinkRec, slot: SlotRec, msg: MsgPtr): (r: Option<Call>)
    ensures r.Some? ==> msg.Some? && r.value == Call(rec.slot, msg.value, Some(link))
    ensures !rec.useStatic ==> r == DynamicCastCall(rec.slot, slot.msgType, slot.hasOwner, msg, Some(link))
    ensures rec.useStatic ==> (r.Some? <==> slot.hasOwner && msg.Some?)
  {
    if rec.useStatic
    then StaticCastCall(rec.slot, slot.hasOwner, msg, Some(link))
    else DynamicCastCall(rec.slot, slot.msgType, slot.hasOwner, msg, Some(link))
  }

  /** Truth table, row 1: equal types select the static cast. */
  lemma SameTypeIsStatic(e: TypeDef)
    ensures UsesStaticCast(false, e, e)
  {
    SameOrSubtypeReflexive(e);
  }

  /** Row 2: a slot type that descends from the signal type selects the static cast. */
  lemma {:induction false} DescendantSlotIsStatic(e: TypeDef, r: TypeDef)
    requires e in Chain(r)
    ensures UsesStaticCast(false, e, r)
    decreases r
  {
    if r != e {
      match r.parent
      case None =>
      case Some(p) =>
        assert e in Chain(p);
        DescendantSlotIsStatic(e, p);
    } else {
      SameOrSubtypeReflexive(e);
    }
  }

  /** Row 3: a slot type that is a strict ancestor of the signal type selects the dynamic cast. */
  lemma AncestorSlotIsDynamic(e: TypeDef, r: TypeDef)
    requires NamesIdentifyNodes(e, r)
    requires e.parent.Some? && r in Chain(e.parent.value)
    ensures !UsesStaticCast(false, e, r)
  {
    NotOnAncestorChain(e, r);
    SameOrSubtypeIsDescendant(e, r);
  }

  /** Row 4: unrelated types select the dynamic cast. */
  lemma UnrelatedIsDynamic(e: TypeDef, r: TypeDef)
    requires NamesIdentifyNodes(e, r)
    requires e !in Chain(r) && r !in Chain(e)
    ensures !UsesStaticCast(false, e, r)
  {
    SameOrSubtypeIsDescendant(e, r);
  }

  /**
    Consequence of the literal rule: a link from a signal of a base type to a
    slot of a derived type is static, so a plain base message the signal may
    emit reaches the derived slot's method although a dynamic cast would have
    dropped it.
   */
  lemma StaticPathSkipsCheck(msg: Msg, slot: SlotRec)
    requires msg.kind == MessageType() && slot.hasOwner
    requires slot.msgType == TypeDef("MsgA", Some(MessageType()))
    ensures UsesStaticCast(false, MessageType(), slot.msgType)
    ensures Forward(0, LinkRec(0, 1, true), slot, Some(msg)) == Some(Call(1, msg, Some(0)))
    ensures DynamicCastCall(1, slot.msgType, slot.hasOwner, Some(msg), Some(0)) == None
  {
    assert NameChain(slot.msgType) == ["MsgA", "Message"];
    assert NameChain(msg.kind) == ["Message"];
  }

  /**
    The selection that makes the static cast safe: when the slot's type name
    is on the signal type's chain, every message whose type descends from the
    signal type passes the dynamic check, so both wrappers make the same call.
   */
  predicate SafeStaticCast(signalType: TypeDef, slotType: TypeDef)
  {
    IsSameOrSubtypeOf(slotType, Some(signalType))
  }

  lemma {:induction false} ChainSuffix(t: TypeDef, x: TypeDef)
    requires x in Chain(t)
    ensures forall n :: n in NameChain(x) ==> n in NameChain(t)
    decreases t
  {
    if x != t {
      match t.parent
      case None =>
      case Some(p) =>
        assert x in Chain(p);
        ChainSuffix(p, x);
    }
  }

  lemma SafeStaticCastSound(e: TypeDef, r: TypeDef, link: LinkId, slotId: SlotId, slot: SlotRec, msg: Msg)
    requires slot.msgType == r && SafeStaticCast(e, r) && e in Chain(msg.kind)
    ensures DynamicCastCall(slotId, r, slot.hasOwner, Some(msg), Some(link))
         == StaticCastCall(slotId, slot.hasOwner, Some(msg), Some(link))
  {
    ChainSuffix(msg.kind, e);
  }
}
