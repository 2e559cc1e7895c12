/**
  The name-based type hierarchy of Type.hpp.

  A `TypeDef` is an immutable node holding a name and an optional parent.
  Modelling it as an inductive datatype makes every parent chain finite and
  acyclic by construction, which the source only assumes.
 */
module Types {
  import opened Wrappers

  datatype TypeDef = TypeDef(name: string, parent: Option<TypeDef>)

  /** The nodes met walking up from `t` to its root, `t` first. */
  function Chain(t: TypeDef): (r: seq<TypeDef>)
    ensures |r| >= 1 && r[0] == t
    decreases t
  {
    match t.parent
    case None => [t]
    case Some(p) => [t] + Chain(p)
  }

  /** The names of `Chain(t)`, in the same order. */
  function NameChain(t: TypeDef): (r: seq<string>)
    ensures |r| == |Chain(t)|
    ensures forall i :: 0 <= i < |r| ==> r[i] == Chain(t)[i].name
    decreases t
  {
    match t.parent
    case None => [t.name]
    case Some(p) => [t.name] + NameChain(p)
  }

  /** Number of nodes on the chain of a possibly null TypeDef pointer. */
  function Depth(t: Option<TypeDef>): nat
  {
    match t
    case None => 0
    case Some(n) => |Chain(n)|
  }

  /**
    `self.isSameOrSubtypeOf(other)`: walk up from the ARGUMENT comparing names
    with `self`. It holds exactly when `self`'s name is on `other`'s name chain,
    so `a.IsSameOrSubtypeOf(b)` means that b is a or a descendant of a,
    the reverse of what the method's name suggests.
   */
  function IsSameOrSubtypeOf(self: TypeDef, other: Option<TypeDef>): (r: bool)
    ensures r <==> other.Some? && self.name in NameChain(other.value)
    decreases other
  {
    match other
    case None => false
    case Some(t) => t.name == self.name || IsSameOrSubtypeOf(self, t.parent)
  }

  /**
    The loop of Type.hpp: reassign the argument up the parent chain until a
    name matches or the chain runs out. `steps` counts the nodes examined.
   */
  method SameOrSubtype(self: TypeDef, other: Option<TypeDef>) returns (r: bool, ghost steps: nat)
    ensures r == IsSameOrSubtypeOf(self, other)
    ensures steps <= Depth(other)
    ensures r ==> 1 <= steps && NameChain(other.value)[steps - 1] == self.name
  {
    var t := other;
    steps := 0;
    while t.Some?
      invariant IsSameOrSubtypeOf(self, t) == IsSameOrSubtypeOf(self, other)
      invariant steps + Depth(t) == Depth(other)
      invariant t.Some? ==> other.Some? && NameChain(t.value) == NameChain(other.value)[steps..]
      decreases t
    {
      steps := steps + 1;
      if t.value.name == self.name {
        return true, steps;
      }
      NameChainTail(t.value, NameChain(other.value), steps - 1);
      t := t.value.parent;
    }
    return false, steps;
  }

  /** One step up the chain drops the first name. */
  lemma NameChainTail(t: TypeDef, names: seq<string>, i: nat)
    requires i <= |names| && NameChain(t) == names[i..]
    ensures t.parent.Some? ==> NameChain(t.parent.value) == names[i + 1..]
  {
    if t.parent.Some? {
      assert names[i + 1..] == names[i..][1..];
    }
  }

  /** Every node on a chain is at most as deep as the chain's start. */
  lemma {:induction false} ChainDepth(t: TypeDef, x: TypeDef)
    requires x in Chain(t)
    ensures |Chain(x)| <= |Chain(t)|
    ensures x == t || (t.parent.Some? && x in Chain(t.parent.value))
    decreases t
  {
    match t.parent
    case None =>
    case Some(p) =>
      if x != t {
        assert x in Chain(p);
        ChainDepth(p, x);
      }
  }

  /**
    Within one hierarchy whose names identify its nodes, the name-based test
    is structural: it holds iff `b` is `a` or one of `a`'s descendants.
   */
  ghost predicate NamesIdentifyNodes(a: TypeDef, b: TypeDef)
  {
    forall x, y :: x in Chain(a) && y in Chain(b) && x.name == y.name ==> x == y
  }

  lemma SameOrSubtypeIsDescendant(a: TypeDef, b: TypeDef)
    requires NamesIdentifyNodes(a, b)
    ensures IsSameOrSubtypeOf(a, Some(b)) <==> a in Chain(b)
  {
    if IsSameOrSubtypeOf(a, Some(b)) {
      var i :| 0 <= i < |NameChain(b)| && NameChain(b)[i] == a.name;
      assert Chain(b)[i] in Chain(b) && a in Chain(a);
    }
    if a in Chain(b) {
      var i :| 0 <= i < |Chain(b)| && Chain(b)[i] == a;
      assert NameChain(b)[i] == a.name;
    }
  }

  /** A node never lies on the chain of one of its strict ancestors. */
  lemma NotOnAncestorChain(e: TypeDef, r: TypeDef)
    requires e.parent.Some? && r in Chain(e.parent.value)
    ensures e !in Chain(r)
  {
    ChainDepth(e.parent.value, r);
    if e in Chain(r) {
      ChainDepth(r, e);
    }
  }

  /** Reflexivity: a type is found at the first step of its own chain. */
  lemma SameOrSubtypeReflexive(t: TypeDef)
    ensures IsSameOrSubtypeOf(t, Some(t))
  {
    assert NameChain(t)[0] == t.name;
  }

  /** Only names are compared: equal name chains give equal answers. */
  lemma ComparesNamesOnly(a1: TypeDef, a2: TypeDef, b1: TypeDef, b2: TypeDef)
    requires a1.name == a2.name && NameChain(b1) == NameChain(b2)
    ensures IsSameOrSubtypeOf(a1, Some(b1)) == IsSameOrSubtypeOf(a2, Some(b2))
  {
  }

  /**
    Two unrelated hierarchies that reuse a name collide: `x` is not on `y`'s
    chain, yet the name-based test finds it.
   */
  lemma NameCollision()
    ensures var x := TypeDef("Base", None);
            var y := TypeDef("Leaf", Some(TypeDef("Base", Some(TypeDef("Other", None)))));
            x !in Chain(y) && IsSameOrSubtypeOf(x, Some(y))
  {
    var x := TypeDef("Base", None);
    var y := TypeDef("Leaf", Some(TypeDef("Base", Some(TypeDef("Other", None)))));
    assert NameChain(y)[1] == "Base";
  }

  /** The usage example of Type.hpp: `A` is a root and `B`'s parent is `A`. */
  lemma DocExample()
    ensures var a := TypeDef("A", None);
            var b := TypeDef("B", Some(a));
            a.parent == None && b.parent.Some? && b.parent.value.name == "A"
            && IsSameOrSubtypeOf(a, Some(b)) && !IsSameOrSubtypeOf(b, Some(a))
  {
    var a := TypeDef("A", None);
    var b := TypeDef("B", Some(a));
    assert NameChain(b) == ["B", "A"];
    assert NameChain(a) == ["A"];
  }
}
