/**
  Slot endpoints (Slot.hpp, Slot.cpp): the state an `AnySlot` keeps and its
  two dispatch wrappers.

  A handler is not modelled as code: a call of the bound method is recorded
  as a `Call` value naming the slot, the message and the link pointer the
  method receives. `hasOwner` says whether the object bound at construction
  is non-null.
 */
module Slots {
  import opened Wrappers
  import opened Types
  import opened Messages

  /** An `AnySlot`: fixed message type, owner presence, name ("" when unnamed) and link set. */
  datatype SlotRec = SlotRec(msgType: TypeDef, hasOwner: bool, name: string, links: set<LinkId>)

  /** One invocation of a slot's bound method. */
  datatype Call = Call(slot: SlotId, msg: Msg, link: Option<LinkId>)

  /**
    `dynamicCastFunction`: `dynamic_pointer_cast<TMsg>` succeeds when the
    message's dynamic type is the slot's type or below it, which by the type
    hierarchy's rules is `accepted.IsSameOrSubtypeOf(msg.kind)`; on failure or
    a null owner the message is dropped silently.
   */
  function DynamicCastCall(slot: SlotId, accepted: TypeDef, hasOwner: bool, msg: MsgPtr, link: Option<LinkId>): (r: Option<Call>)
    ensures r.Some? <==> hasOwner && msg.Some? && accepted.name in NameChain(msg.value.kind)
    ensures r.Some? ==> r.value == Call(slot, msg.value, link)
  {
    if msg.Some? && IsSameOrSubtypeOf(accepted, Some(msg.value.kind)) && hasOwner
    then Some(Call(slot, msg.value, link))
    else None
  }

  /** `staticCastFunction`: calls the method for any non-null message and owner, with no type check. */
  function StaticCastCall(slot: SlotId, hasOwner: bool, msg: MsgPtr, link: Option<LinkId>): (r: Option<Call>)
    ensures r.Some? <==> hasOwner && msg.Some?
    ensures r.Some? ==> r.value == Call(slot, msg.value, link)
  {
    if msg.Some? && hasOwner then Some(Call(slot, msg.value, link)) else None
  }

  /**
    Within a hierarchy whose names identify its nodes, the dynamic wrapper
    calls the method exactly for messages whose type is the slot's type or a
    descendant of it.
   */
  lemma DynamicCastAcceptsDescendants(slot: SlotId, accepted: TypeDef, msg: Msg, link: Option<LinkId>)
    requires NamesIdentifyNodes(accepted, msg.kind)
    ensures DynamicCastCall(slot, accepted, true, Some(msg), link).Some? <==> accepted in Chain(msg.kind)
  {
    SameOrSubtypeIsDescendant(accepted, msg.kind);
  }

  /** Whenever the dynamic wrapper calls the method, the static one does the same call. */
  lemma DynamicCallImpliesStatic(slot: SlotId, accepted: TypeDef, hasOwner: bool, msg: MsgPtr, link: Option<LinkId>)
    ensures DynamicCastCall(slot, accepted, hasOwner, msg, link).Some? ==>
              StaticCastCall(slot, hasOwner, msg, link) == DynamicCastCall(slot, accepted, hasOwner, msg, link)
  {
  }

  /**
    The slot tests of the driver program: with Message > MsgA > MsgB, a slot
    of MsgA called dynamically drops a plain Message and accepts MsgA and MsgB.
    The driver leaves out the static call of that slot with a plain Message as
    not a valid static cast, but the static wrapper still makes the call.
   */
  lemma SlotCastExamples(ma: Msg, mm: Msg, mb: Msg)
    requires mm.kind == MessageType()
    requires ma.kind == TypeDef("MsgA", Some(MessageType()))
    requires mb.kind == TypeDef("MsgB", Some(ma.kind))
    ensures DynamicCastCall(0, ma.kind, true, Some(mm), None) == None
    ensures DynamicCastCall(0, ma.kind, true, Some(ma), None) == Some(Call(0, ma, None))
    ensures DynamicCastCall(0, ma.kind, true, Some(mb), None) == Some(Call(0, mb, None))
    ensures StaticCastCall(0, true, Some(mm), None) == Some(Call(0, mm, None))
  {
    assert NameChain(mm.kind) == ["Message"];
    assert NameChain(ma.kind) == ["MsgA", "Message"];
    assert NameChain(mb.kind) == ["MsgB", "MsgA", "Message"];
  }
}
