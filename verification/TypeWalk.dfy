/**
 The generator's depth-first walk: a type is marked before its dependencies are
 visited, so a cycle ends, and declared after them.
 */
module TypeWalk {
  import opened TypeGraph

  ghost function Elements(order: seq<Ref>): set<Ref> {
    set r | r in order
  }

  /** Marked but not yet declared: the walk is still inside these. */
  ghost function Open(emitted: set<Ref>, order: seq<Ref>): set<Ref> {
    emitted - Elements(order)
  }

  ghost predicate Distinct(order: seq<Ref>) {
    forall i, j :: 0 <= i < j < |order| ==> order[i] != order[j]
  }

  /** Every dependency of a declared type is marked, and declared before it unless it leads back to it. */
  ghost predicate DependenciesFirst(p: Program, emitted: set<Ref>, order: seq<Ref>) {
    forall i, v :: 0 <= i < |order| && Edge(p, order[i], v) && v !in p.overridden ==>
      v in emitted && (v in order[..i] || Reaches(p, v, order[i]))
  }

  ghost predicate Consistent(p: Program, emitted: set<Ref>, order: seq<Ref>) {
    && Distinct(order)
    && Elements(order) <= emitted
    && (forall r :: r in emitted ==> Declarable(p, r))
    && DependenciesFirst(p, emitted, order)
  }

  /** The walk is inside a chain of types that all lead to `r`. */
  ghost predicate LeadsTo(p: Program, open: set<Ref>, r: Ref) {
    forall g :: g in open ==> Reaches(p, g, r)
  }

  ghost function Structs(p: Program): set<Ref> {
    set q, n | q in p.pkgs && n in p.pkgs[q] :: Ref(q, n)
  }

  ghost predicate Visited(p: Program, emitted: set<Ref>, r: Ref) {
    r in emitted || r in p.overridden
  }

  lemma EmittedAreStructs(p: Program, emitted: set<Ref>, order: seq<Ref>)
    requires Consistent(p, emitted, order)
    ensures emitted <= Structs(p)
  {
    forall r | r in emitted
      ensures r in Structs(p)
    {
      assert Declarable(p, r);
      assert Ref(r.qual, r.name) == r;
    }
  }

  /** Declaring a type whose dependencies are all marked, those still open leading to it. */
  lemma Declare(p: Program, emitted: set<Ref>, order: seq<Ref>, r: Ref)
    requires Consistent(p, emitted, order)
    requires r in Open(emitted, order) && LeadsTo(p, Open(emitted, order), r)
    requires forall v :: Edge(p, r, v) ==> Visited(p, emitted, v)
    ensures Consistent(p, emitted, order + [r])
    ensures Open(emitted, order + [r]) == Open(emitted, order) - {r}
  {
    var now := order + [r];
    assert Elements(now) == Elements(order) + {r};
    forall i, v | 0 <= i < |now| && Edge(p, now[i], v) && v !in p.overridden
      ensures v in emitted && (v in now[..i] || Reaches(p, v, now[i]))
    {
      if i < |order| {
        assert now[..i] == order[..i];
      } else {
        assert now[..i] == order;
      }
    }
  }

  /** Marking a type before its dependencies are visited. */
  lemma Mark(p: Program, emitted: set<Ref>, order: seq<Ref>, r: Ref)
    requires Consistent(p, emitted, order) && r !in emitted && Declarable(p, r)
    requires LeadsTo(p, Open(emitted, order), r)
    ensures Consistent(p, emitted + {r}, order)
    ensures Open(emitted + {r}, order) == Open(emitted, order) + {r}
    ensures LeadsTo(p, Open(emitted + {r}, order), r)
  {
    ReachesSelf(p, r);
  }

  lemma LeadsOn(p: Program, open: set<Ref>, r: Ref, d: Ref)
    requires LeadsTo(p, open, r) && Edge(p, r, d)
    ensures LeadsTo(p, open, d)
  {
    forall g | g in open
      ensures Reaches(p, g, d)
    {
      ReachesLast(p, g, r, d);
    }
  }

  class Generator {
    var emitted: set<Ref>
    var order: seq<Ref>
    var count: nat

    constructor ()
      ensures emitted == {} && order == [] && count == 0
    {
      emitted, order, count := {}, [], 0;
    }

    /**
     Visits one type. On success it is marked, with everything it reaches;
     what was declared stays, in place; and what the walk was inside of it
     still is. On failure some type it reaches must be refused.
     */
    method Walk(p: Program, r: Ref) returns (ok: bool, ghost bad: Ref)
      requires Consistent(p, emitted, order) && LeadsTo(p, Open(emitted, order), r)
      requires count == |order|
      modifies this
      ensures ok ==> Consistent(p, emitted, order) && count == |order|
      ensures ok ==> old(order) <= order && old(emitted) <= emitted && Visited(p, emitted, r)
      ensures ok ==> Open(emitted, order) == old(Open(emitted, order))
      ensures ok ==> forall u :: u in emitted && u !in old(emitted) ==> Reaches(p, r, u)
      ensures !ok ==> Refused(p, bad) && Reaches(p, r, bad)
      decreases Structs(p) - emitted, 0
    {
      bad := r;
      ReachesSelf(p, r);
      if r in emitted {
        return true, bad;
      }
      if r in p.overridden {
        return true, bad;
      }
      if r.qual !in p.pkgs {
        return false, bad;
      }
      if r.name !in p.pkgs[r.qual] {
        return false, bad;
      }
      if p.pkgs[r.qual][r.name].marshals {
        return false, bad;
      }
      Mark(p, emitted, order, r);
      EmittedAreStructs(p, emitted + {r}, order);
      emitted := emitted + {r};
      ok, bad := WalkFields(p, r);
      if ok {
        Declare(p, emitted, order, r);
        order := order + [r];
        count := count + 1;
      }
    }

    /** Visits the dependencies of a type just marked, field by field. */
    method WalkFields(p: Program, r: Ref) returns (ok: bool, ghost bad: Ref)
      requires Consistent(p, emitted, order) && LeadsTo(p, Open(emitted, order), r)
      requires Declarable(p, r) && r in Open(emitted, order) && count == |order|
      modifies this
      ensures ok ==> Consistent(p, emitted, order) && count == |order|
      ensures ok ==> old(order) <= order && old(emitted) <= emitted
      ensures ok ==> Open(emitted, order) == old(Open(emitted, order))
      ensures ok ==> forall u :: u in emitted && u !in old(emitted) ==> Reaches(p, r, u)
      ensures ok ==> forall v :: Edge(p, r, v) ==> Visited(p, emitted, v)
      ensures !ok ==> Refused(p, bad) && Reaches(p, r, bad)
      decreases Structs(p) - emitted, 2
    {
      var fields := p.pkgs[r.qual][r.name].fields;
      bad := r;
      ok := true;
      for i := 0 to |fields|
        invariant ok && Consistent(p, emitted, order) && count == |order|
        invariant old(order) <= order && old(emitted) <= emitted
        invariant Open(emitted, order) == old(Open(emitted, order))
        invariant forall u :: u in emitted && u !in old(emitted) ==> Reaches(p, r, u)
        invariant forall j, v :: 0 <= j < i && Mentions(p, r.qual, fields[j], v) ==> Visited(p, emitted, v)
      {
        ghost var before := emitted;
        DepsAreMentioned(p, r.qual, fields[i]);
        ok, bad := WalkAll(p, r, FieldDeps(p, r.qual, fields[i]));
        if !ok {
          return;
        }
        assert forall v :: Visited(p, before, v) ==> Visited(p, emitted, v);
      }
    }

    /** Visits a list of dependencies of a type. */
    method WalkAll(p: Program, r: Ref, deps: seq<Ref>) returns (ok: bool, ghost bad: Ref)
      requires Consistent(p, emitted, order) && LeadsTo(p, Open(emitted, order), r)
      requires count == |order|
      requires forall d :: d in deps ==> Edge(p, r, d)
      modifies this
      ensures ok ==> Consistent(p, emitted, order) && count == |order|
      ensures ok ==> old(order) <= order && old(emitted) <= emitted
      ensures ok ==> Open(emitted, order) == old(Open(emitted, order))
      ensures ok ==> forall u :: u in emitted && u !in old(emitted) ==> Reaches(p, r, u)
      ensures ok ==> forall v :: v in deps ==> Visited(p, emitted, v)
      ensures !ok ==> Refused(p, bad) && Reaches(p, r, bad)
      decreases Structs(p) - emitted, 1
    {
      bad := r;
      ok := true;
      for i := 0 to |deps|
        invariant ok && Consistent(p, emitted, order) && count == |order|
        invariant old(order) <= order && old(emitted) <= emitted
        invariant Open(emitted, order) == old(Open(emitted, order))
        invariant forall u :: u in emitted && u !in old(emitted) ==> Reaches(p, r, u)
        invariant forall v :: v in deps[..i] ==> Visited(p, emitted, v)
      {
        ghost var before := emitted;
        LeadsOn(p, Open(emitted, order), r, deps[i]);
        ok, bad := Walk(p, deps[i]);
        if !ok {
          ReachesFirst(p, r, deps[i], bad);
          return;
        }
        forall u | u in emitted && u !in before
          ensures Reaches(p, r, u)
        {
          ReachesFirst(p, r, deps[i], u);
        }
        assert deps[..i + 1] == deps[..i] + [deps[i]];
        assert forall v :: Visited(p, before, v) ==> Visited(p, emitted, v);
      }
    }

    /**
     Visits every root in turn. Success means nothing reachable is refused, and
     then exactly the reachable types that are not rendered as scalars are
     declared, each once and after its dependencies; failure means something
     reachable is refused.
     */
    method WalkRoots(p: Program, roots: seq<Ref>) returns (ok: bool, ghost bad: Ref)
      requires emitted == {} && order == [] && count == 0
      modifies this
      ensures ok ==> Distinct(order) && count == |order|
      ensures ok ==> forall u :: u in order <==> FromRoots(p, roots, u) && u !in p.overridden
      ensures ok ==> forall u :: FromRoots(p, roots, u) ==> !Refused(p, u)
      ensures ok ==> Sorted(p, order)
      ensures !ok ==> Refused(p, bad) && FromRoots(p, roots, bad)
    {
      ok := true;
      bad := Ref("", "");
      for i := 0 to |roots|
        invariant ok && Consistent(p, emitted, order) && count == |order|
        invariant Open(emitted, order) == {}
        invariant forall u :: u in emitted ==> FromRoots(p, roots, u)
        invariant forall j :: 0 <= j < i ==> Visited(p, emitted, roots[j])
      {
        ghost var before := emitted;
        ok, bad := Walk(p, roots[i]);
        if !ok {
          return;
        }
        assert forall v :: Visited(p, before, v) ==> Visited(p, emitted, v);
      }
      DeclaredAreReachable(p, emitted, order, roots);
      DeclaredInOrder(p, emitted, order);
    }
  }

  ghost predicate FromRoots(p: Program, roots: seq<Ref>, u: Ref) {
    exists i :: 0 <= i < |roots| && Reaches(p, roots[i], u)
  }

  /** A type is declared before every type that depends on it, but for cycles. */
  ghost predicate Sorted(p: Program, order: seq<Ref>) {
    forall i, j :: 0 <= i < |order| && 0 <= j < |order| && Edge(p, order[i], order[j]) ==>
      j < i || Reaches(p, order[j], order[i])
  }

  /** Nothing is open at the end, so what is marked is what is declared. */
  lemma MarkedIsDeclared(emitted: set<Ref>, order: seq<Ref>, u: Ref)
    requires Elements(order) <= emitted && Open(emitted, order) == {}
    ensures u in emitted <==> u in order
  {
    assert u in Elements(order) <==> u in order;
    assert u in Open(emitted, order) <==> u in emitted && u !in order;
  }

  lemma ReachedIsVisited(p: Program, emitted: set<Ref>, order: seq<Ref>, roots: seq<Ref>, u: Ref)
    requires Consistent(p, emitted, order) && Open(emitted, order) == {}
    requires forall j :: 0 <= j < |roots| ==> Visited(p, emitted, roots[j])
    requires FromRoots(p, roots, u)
    ensures Visited(p, emitted, u)
  {
    var i :| 0 <= i < |roots| && Reaches(p, roots[i], u);
    var steps: nat :| ReachesIn(p, roots[i], u, steps);
    forall x, y | x in emitted && Edge(p, x, y)
      ensures y in emitted || y in p.overridden
    {
      MarkedIsDeclared(emitted, order, x);
    }
    ClosedHoldsReachable(p, emitted, roots[i], u, steps);
  }

  lemma DeclaredInOrder(p: Program, emitted: set<Ref>, order: seq<Ref>)
    requires Consistent(p, emitted, order)
    ensures Sorted(p, order)
  {
    forall i, j | 0 <= i < |order| && 0 <= j < |order| && Edge(p, order[i], order[j])
      ensures j < i || Reaches(p, order[j], order[i])
    {
      assert order[j] in Elements(order);
      assert Declarable(p, order[j]);
    }
  }

  /** A finished walk has declared everything it reached. */
  lemma DeclaredAreReachable(p: Program, emitted: set<Ref>, order: seq<Ref>, roots: seq<Ref>)
    requires Consistent(p, emitted, order) && Open(emitted, order) == {}
    requires forall u :: u in emitted ==> FromRoots(p, roots, u)
    requires forall j :: 0 <= j < |roots| ==> Visited(p, emitted, roots[j])
    ensures forall u :: u in order <==> FromRoots(p, roots, u) && u !in p.overridden
    ensures forall u :: FromRoots(p, roots, u) ==> !Refused(p, u)
  {
    forall u
      ensures u in order <==> FromRoots(p, roots, u) && u !in p.overridden
      ensures FromRoots(p, roots, u) ==> !Refused(p, u)
    {
      MarkedIsDeclared(emitted, order, u);
      if FromRoots(p, roots, u) {
        ReachedIsVisited(p, emitted, order, roots, u);
      }
    }
  }
}
