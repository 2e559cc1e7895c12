/**
  The owner registry of Action.hpp / Action.cpp: a process-wide map from a
  unique name to an action object, and the registration of an action's
  signals and slots under the qualified name "<action>::<endpoint>".

  An action object is named by an id, like the endpoints of `Wiring`; its
  name is fixed when it is constructed.
 */
module Actions {
  import opened Wrappers
  import opened Types
  import opened Directory
  import opened Messages
  import opened Wiring

  type ActionId = nat

  /** An action object: its identity and the name it was constructed with (`name()`). */
  datatype ActionRec = ActionRec(id: ActionId, name: string)

  /** `Action::Type()`: named "Action", no parent. */
  function ActionType(): (t: TypeDef)
    ensures NameChain(t) == ["Action"]
  {
    TypeDef("Action", None)
  }

  /** The name an endpoint `endpoint` of the action named `action` is registered under. */
  function QualifiedName(action: string, endpoint: string): (r: string)
    ensures |r| == |action| + 2 + |endpoint|
    ensures r != ""
  {
    action + "::" + endpoint
  }

  /**
    The static `add(name, action)` on the value of the map: a duplicate name
    is refused (the source throws `runtime_error`) and the map is unchanged.
   */
  function AddAction(actions: map<string, ActionRec>, name: string, a: ActionRec): (r: Option<map<string, ActionRec>>)
  {
    if name in actions then None else Some(actions[name := a])
  }

  /** A name is refused exactly when it is already registered. */
  lemma AddActionRefusesDuplicates(actions: map<string, ActionRec>, name: string, a: ActionRec)
    ensures AddAction(actions, name, a).None? <==> name in actions
  {
  }

  /** After a successful `add`, `getAction(name)` returns the action and every other name is as before. */
  lemma AddActionThenGet(actions: map<string, ActionRec>, name: string, a: ActionRec, other: string)
    requires AddAction(actions, name, a).Some?
    ensures Lookup(AddAction(actions, name, a).value, name) == Some(a)
    ensures other != name ==> Lookup(AddAction(actions, name, a).value, other) == Lookup(actions, other)
  {
  }

  /** In a qualified name whose action part has no colon, the first colon ends the action part. */
  lemma FirstColon(action: string, endpoint: string)
    requires ':' !in action
    ensures forall i :: 0 <= i < |action| ==> QualifiedName(action, endpoint)[i] != ':'
    ensures QualifiedName(action, endpoint)[|action|] == ':'
  {
    var q := QualifiedName(action, endpoint);
    forall i | 0 <= i < |action| ensures q[i] != ':' {
      assert q[i] == action[i];
    }
  }

  /**
    Action names without a colon keep qualified names apart: distinct
    (action, endpoint) pairs never share one.
   */
  lemma QualifiedNameUnique(a1: string, e1: string, a2: string, e2: string)
    requires ':' !in a1 && ':' !in a2
    requires QualifiedName(a1, e1) == QualifiedName(a2, e2)
    ensures a1 == a2 && e1 == e2
  {
    var q := QualifiedName(a1, e1);
    FirstColon(a1, e1);
    FirstColon(a2, e2);
    assert |a1| == |a2|;
    assert a1 == q[..|a1|] == a2;
    assert e1 == q[|a1| + 2..] == e2;
  }

  /** Without that restriction two endpoints of different actions can collide. */
  lemma QualifiedNameCollision()
    ensures QualifiedName("a::b", "c") == QualifiedName("a", "b::c")
  {
  }

  /** `Action::m_actions` with the ids handed out so far. */
  class Registry {
    var actions: map<string, ActionRec>
    var nextId: nat

    /** Every action is registered under its own name with an id already handed out. */
    ghost predicate Valid()
      reads this
    {
      forall n :: n in actions ==> actions[n].name == n && actions[n].id < nextId
    }

    constructor ()
      ensures Valid() && actions == map[]
    {
      actions := map[];
      nextId := 0;
    }

    /**
      `Action(name)`: construct an action object and register it with the
      static `add`. On a duplicate name the constructor throws, no object
      results and the map is unchanged.
     */
    method Create(name: string) returns (a: Option<ActionRec>)
      requires Valid()
      modifies this
      ensures Valid()
      ensures name in old(actions) <==> a.None?
      ensures a.None? ==> actions == old(actions) && nextId == old(nextId)
      ensures a.Some? ==> && a.value == ActionRec(old(nextId), name)
                          && Some(actions) == AddAction(old(actions), name, a.value)
                          && nextId == old(nextId) + 1
      ensures a.Some? ==> forall n :: n in old(actions) ==> old(actions)[n].id != a.value.id
    {
      if name in actions {
        return None;
      }
      var rec := ActionRec(nextId, name);
      actions := actions[name := rec];
      nextId := nextId + 1;
      return Some(rec);
    }

    /** `getAction(name)`: the registered action, or null when the name is absent. */
    function GetAction(name: string): (r: Option<ActionRec>)
      reads this
      requires Valid()
      ensures r.Some? <==> name in actions
      ensures r.Some? ==> r.value.name == name && r.value == actions[name]
    {
      Lookup(actions, name)
    }

    /** `clearActions`: forget every name. */
    method ClearActions()
      modifies this
      ensures Valid()
      ensures actions == map[] && nextId == old(nextId)
    {
      actions := map[];
    }
  }

  /**
    `add(name, signal)` of action `a`: `setName` on the signal with the
    qualified name. A signal already registered under that name is silently
    replaced.
   */
  method AddSignal(w: World, a: ActionRec, name: string, s: SignalId)
    requires w.Valid() && s in w.signals
    modifies w
    ensures w.Valid()
    ensures var q := QualifiedName(a.name, name);
            && w.signalDir == Renamed(old(w.signalDir), old(w.signals[s].name), q, s)
            && w.signals == old(w.signals)[s := old(w.signals[s]).(name := q)]
            && w.GetSignal(q) == Some(s)
    ensures w.slots == old(w.slots) && w.links == old(w.links) && w.nextId == old(w.nextId)
    ensures w.slotDir == old(w.slotDir) && w.calls == old(w.calls)
  {
    w.SetSignalName(s, QualifiedName(a.name, name));
  }

  /** `add(name, slot)` of action `a`: `setName` on the slot with the qualified name. */
  method AddSlot(w: World, a: ActionRec, name: string, k: SlotId)
    requires w.Valid() && k in w.slots
    modifies w
    ensures w.Valid()
    ensures var q := QualifiedName(a.name, name);
            && w.slotDir == Renamed(old(w.slotDir), old(w.slots[k].name), q, k)
            && w.slots == old(w.slots)[k := old(w.slots[k]).(name := q)]
            && w.GetSlot(q) == Some(k)
    ensures w.signals == old(w.signals) && w.links == old(w.links) && w.nextId == old(w.nextId)
    ensures w.signalDir == old(w.signalDir) && w.calls == old(w.calls)
  {
    w.SetSlotName(k, QualifiedName(a.name, name));
  }
}
