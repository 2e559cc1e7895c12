/**
  The process-wide name directories of Signal.hpp and Slot.hpp
  (`AnySignal::m_signalMap`, `AnySlot::m_slotMap`): maps from a name to an
  endpoint, with last-writer-wins overwrite and "" meaning "unregistered".
  Signals and slots each have their own directory; both follow these rules.
 */
module Directory {
  import opened Wrappers

  /** `get(name)`: the registered endpoint, or null when the name is absent. */
  function Lookup<Id>(dir: map<string, Id>, name: string): (r: Option<Id>)
    ensures r.Some? <==> name in dir
    ensures r.Some? ==> dir[name] == r.value
  {
    if name in dir then Some(dir[name]) else None
  }

  /** `unregisterName`: erase the entry keyed by the endpoint's current name, whoever it maps to. */
  function Unregistered<Id>(dir: map<string, Id>, current: string): (r: map<string, Id>)
    ensures current !in r && r.Keys == dir.Keys - {current}
    ensures forall n :: n in r ==> r[n] == dir[n]
  {
    dir - {current}
  }

  /**
    `setName(name)` by endpoint `id` currently named `current`: unregister the
    current name, then, unless `name` is "", map `name` to `id`.
   */
  function Renamed<Id>(dir: map<string, Id>, current: string, name: string, id: Id): (r: map<string, Id>)
    ensures r.Keys == dir.Keys - {current} + (if name != "" then {name} else {})
    ensures forall n :: n in r ==> r[n] == if name != "" && n == name then id else dir[n]
  {
    var d := Unregistered(dir, current);
    if name != "" then d[name := id] else d
  }

  /** After a non-empty `setName(name)`, `get(name)` finds the endpoint. */
  lemma RenamedFinds<Id>(dir: map<string, Id>, current: string, name: string, id: Id)
    requires name != ""
    ensures Lookup(Renamed(dir, current, name, id), name) == Some(id)
  {
  }

  /** After `setName("")`, nothing new is registered and the old name is gone. */
  lemma RenamedEmpty<Id>(dir: map<string, Id>, current: string, id: Id)
    ensures Renamed(dir, current, "", id).Keys == dir.Keys - {current}
    ensures Lookup(Renamed(dir, current, "", id), current) == None
  {
  }

  /** The previous name no longer resolves unless it is reused. */
  lemma RenamedForgetsOld<Id>(dir: map<string, Id>, current: string, name: string, id: Id)
    requires current != name
    ensures Lookup(Renamed(dir, current, name, id), current) == None
  {
  }

  /** Every other name keeps its association. */
  lemma RenamedFrame<Id>(dir: map<string, Id>, current: string, name: string, id: Id, other: string)
    requires other != current && other != name
    ensures Lookup(Renamed(dir, current, name, id), other) == Lookup(dir, other)
  {
  }

  /**
    Last writer wins: when `b` takes the name `a` holds, the name resolves to
    `b`; when `a` is later renamed, its `unregisterName` erases that entry even
    though it now belongs to `b`.
   */
  lemma LastWriterWins<Id>(dir: map<string, Id>, a: Id, b: Id, n: string, m: string)
    requires n != "" && m != "" && m != n && a != b
    ensures var d1 := Renamed(dir, "", n, a);
            var d2 := Renamed(d1, "", n, b);
            var d3 := Renamed(d2, n, m, a);
            Lookup(d2, n) == Some(b) && Lookup(d3, n) == None && Lookup(d3, m) == Some(a)
  {
  }
}
