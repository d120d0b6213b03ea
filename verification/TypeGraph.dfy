/**
 The Go type declarations the TypeScript generator reads, as a graph: which
 named types a struct's fields make the generator visit.
 */
module TypeGraph {
  import opened Wrappers

  /** A named type: the package it is declared in, and its name there. */
  datatype Ref = Ref(qual: string, name: string)

  datatype TypeExpr =
    | Ident(name: string)
    | Star(base: TypeExpr)
    | Array(elem: TypeExpr)
    | MapOf(key: TypeExpr, value: TypeExpr)
    | Selector(pkg: string, name: string)
    | Other

  /** A field never sent, one whose kinds are listed by hand, or one read from its type. */
  datatype Field = Skipped | Listed(kinds: seq<Ref>) | Typed(ty: TypeExpr)

  datatype Struct = Struct(fields: seq<Field>, marshals: bool)

  /** The packages that load, their structs, and the types rendered as scalars. */
  datatype Program = Program(pkgs: map<string, map<string, Struct>>, overridden: set<Ref>)

  predicate IsStruct(p: Program, r: Ref) {
    r.qual in p.pkgs && r.name in p.pkgs[r.qual]
  }

  /** The named types an expression mentions. */
  function NamedDeps(qual: string, e: TypeExpr): seq<Ref> {
    match e
    case Ident(name) => [Ref(qual, name)]
    case Star(base) => NamedDeps(qual, base)
    case Array(elem) => NamedDeps(qual, elem)
    case MapOf(key, value) => NamedDeps(qual, key) + NamedDeps(qual, value)
    case Selector(pkg, name) => [Ref(pkg, name)]
    case Other => []
  }

  // ---- What a type expression mentions --------------------------------------

  /** From a type expression to one it is made of. */
  datatype Step = ToBase | ToElement | ToKey | ToValue

  ghost function Part(e: TypeExpr, step: Step): Option<TypeExpr> {
    match step
    case ToBase => if e.Star? then Some(e.base) else None
    case ToElement => if e.Array? then Some(e.elem) else None
    case ToKey => if e.MapOf? then Some(e.key) else None
    case ToValue => if e.MapOf? then Some(e.value) else None
  }

  /** The part of an expression that a path of steps leads to. */
  ghost function PartAt(e: TypeExpr, path: seq<Step>): Option<TypeExpr> {
    if path == [] then Some(e)
    else
      var part := Part(e, path[0]);
      if part.None? then None else PartAt(part.value, path[1..])
  }

  ghost predicate IsNameOf(qual: string, e: TypeExpr, r: Ref) {
    (e.Ident? && r == Ref(qual, e.name)) || (e.Selector? && r == Ref(e.pkg, e.name))
  }

  /** Some part of the expression is this name, in this package or with another's before it. */
  ghost predicate Names(qual: string, e: TypeExpr, r: Ref) {
    exists path :: PartAt(e, path).Some? && IsNameOf(qual, PartAt(e, path).value, r)
  }

  lemma PartNames(qual: string, e: TypeExpr, step: Step, r: Ref)
    requires Part(e, step).Some? && Names(qual, Part(e, step).value, r)
    ensures Names(qual, e, r)
  {
    var part := Part(e, step).value;
    var path :| PartAt(part, path).Some? && IsNameOf(qual, PartAt(part, path).value, r);
    assert ([step] + path)[1..] == path;
    assert PartAt(e, [step] + path) == PartAt(part, path);
  }

  lemma {:induction false} DepsAreNamed(qual: string, e: TypeExpr, r: Ref)
    requires r in NamedDeps(qual, e)
    ensures Names(qual, e, r)
  {
    match e
    case Ident(_) => assert PartAt(e, []) == Some(e);
    case Selector(_, _) => assert PartAt(e, []) == Some(e);
    case Star(base) =>
      DepsAreNamed(qual, base, r);
      PartNames(qual, e, ToBase, r);
    case Array(elem) =>
      DepsAreNamed(qual, elem, r);
      PartNames(qual, e, ToElement, r);
    case MapOf(key, value) =>
      if r in NamedDeps(qual, key) {
        DepsAreNamed(qual, key, r);
        PartNames(qual, e, ToKey, r);
      } else {
        DepsAreNamed(qual, value, r);
        PartNames(qual, e, ToValue, r);
      }
    case Other =>
  }

  lemma {:induction false} NamedAreDeps(qual: string, e: TypeExpr, path: seq<Step>, r: Ref)
    requires PartAt(e, path).Some? && IsNameOf(qual, PartAt(e, path).value, r)
    ensures r in NamedDeps(qual, e)
    decreases |path|
  {
    if path != [] {
      NamedAreDeps(qual, Part(e, path[0]).value, path[1..], r);
    }
  }

  /** Every name an expression is made of is found, however deep in it, and no other. */
  lemma NamedDepsAre(qual: string, e: TypeExpr, r: Ref)
    ensures r in NamedDeps(qual, e) <==> Names(qual, e, r)
  {
    if r in NamedDeps(qual, e) {
      DepsAreNamed(qual, e, r);
    }
    if Names(qual, e, r) {
      var path :| PartAt(e, path).Some? && IsNameOf(qual, PartAt(e, path).value, r);
      NamedAreDeps(qual, e, path, r);
    }
  }

  // ---- What a field makes the generator visit -------------------------------

  function OnlyStructs(p: Program, refs: seq<Ref>): (r: seq<Ref>)
    ensures forall d :: d in r <==> d in refs && IsStruct(p, d)
  {
    if refs == [] then []
    else
      var rest := OnlyStructs(p, refs[..|refs| - 1]);
      if IsStruct(p, refs[|refs| - 1]) then rest + [refs[|refs| - 1]] else rest
  }

  /** The types one field makes the generator visit, in order. */
  function FieldDeps(p: Program, qual: string, f: Field): seq<Ref> {
    match f
    case Skipped => []
    case Listed(kinds) => kinds
    case Typed(ty) => OnlyStructs(p, NamedDeps(qual, ty))
  }

  /** A field leads to the kinds listed for it, or to the structs its type is made of. */
  ghost predicate Mentions(p: Program, qual: string, f: Field, v: Ref) {
    (f.Listed? && v in f.kinds) || (f.Typed? && IsStruct(p, v) && Names(qual, f.ty, v))
  }

  lemma DepsAreMentioned(p: Program, qual: string, f: Field)
    ensures forall v :: v in FieldDeps(p, qual, f) <==> Mentions(p, qual, f, v)
  {
    if f.Typed? {
      forall v
        ensures v in NamedDeps(qual, f.ty) <==> Names(qual, f.ty, v)
      {
        NamedDepsAre(qual, f.ty, v);
      }
    }
  }

  /** A type that can be declared: a struct with no wire form of its own. */
  predicate Declarable(p: Program, r: Ref) {
    r !in p.overridden && IsStruct(p, r) && !p.pkgs[r.qual][r.name].marshals
  }

  /** A type the generator must refuse if it meets it. */
  predicate Refused(p: Program, r: Ref) {
    r !in p.overridden && !Declarable(p, r)
  }

  ghost predicate Edge(p: Program, u: Ref, v: Ref) {
    && Declarable(p, u)
    && var fields := p.pkgs[u.qual][u.name].fields;
       exists i :: 0 <= i < |fields| && Mentions(p, u.qual, fields[i], v)
  }

  ghost predicate ReachesIn(p: Program, u: Ref, v: Ref, steps: nat)
    decreases steps
  {
    if steps == 0 then u == v
    else exists w :: Edge(p, u, w) && ReachesIn(p, w, v, steps - 1)
  }

  ghost predicate Reaches(p: Program, u: Ref, v: Ref) {
    exists steps: nat :: ReachesIn(p, u, v, steps)
  }

  lemma ReachesSelf(p: Program, u: Ref)
    ensures Reaches(p, u, u)
  {
    assert ReachesIn(p, u, u, 0);
  }

  lemma ReachesFirst(p: Program, u: Ref, w: Ref, v: Ref)
    requires Edge(p, u, w) && Reaches(p, w, v)
    ensures Reaches(p, u, v)
  {
    var steps: nat :| ReachesIn(p, w, v, steps);
    assert ReachesIn(p, u, v, steps + 1);
  }

  lemma {:induction false} ReachesLastIn(p: Program, u: Ref, v: Ref, w: Ref, steps: nat)
    requires ReachesIn(p, u, v, steps) && Edge(p, v, w)
    ensures ReachesIn(p, u, w, steps + 1)
    decreases steps
  {
    if steps == 0 {
      assert Edge(p, u, w) && ReachesIn(p, w, w, 0);
    } else {
      var x :| Edge(p, u, x) && ReachesIn(p, x, v, steps - 1);
      ReachesLastIn(p, x, v, w, steps - 1);
    }
  }

  lemma ReachesLast(p: Program, u: Ref, v: Ref, w: Ref)
    requires Reaches(p, u, v) && Edge(p, v, w)
    ensures Reaches(p, u, w)
  {
    var steps: nat :| ReachesIn(p, u, v, steps);
    ReachesLastIn(p, u, v, w, steps);
  }

  /** A set closed under edges holds everything its members reach, types rendered as scalars aside. */
  lemma {:induction false} ClosedHoldsReachable(p: Program, s: set<Ref>, u: Ref, v: Ref, steps: nat)
    requires forall x, y :: x in s && Edge(p, x, y) ==> y in s || y in p.overridden
    requires u in s || u in p.overridden
    requires ReachesIn(p, u, v, steps)
    ensures v in s || v in p.overridden
    decreases steps
  {
    if steps > 0 {
      var w :| Edge(p, u, w) && ReachesIn(p, w, v, steps - 1);
      ClosedHoldsReachable(p, s, w, v, steps - 1);
    }
  }
}
