/** Patterns, values and types of a `match`, and what it means for a row of patterns to match
    a row of values (crates/fors-check/src/pat.rs, crates/fors-check/src/exhaust.rs). */
module Patterns {

  import opened Wrappers

  type TyId = nat

  /** The constructor a pattern tests. Symbols are their text. */
  datatype Ctor =
    | Variant(def: nat, idx: nat)
    | Bool(b: bool)
    | Tuple(arity: nat)
    | Struct(def: nat)
    | Int(n: int)
    | Str(text: string)

  datatype Pat = Wild | Con(ctor: Ctor, subs: seq<Pat>)

  /** A run-time value: a constructor applied to components, or a value no constructor can test
      (a float, a function, ...). */
  datatype Value = Data(ctor: Ctor, subs: seq<Value>) | Opaque(id: nat)

  datatype Witness = Any | Of(ctor: Ctor, subs: seq<Witness>)

  /** The complete constructor set of a column's type, or `Infinite`. */
  datatype Sig = Finite(ctors: seq<(Ctor, seq<TyId>)>) | Infinite

  /** Which literals an `Infinite` type has: the integers of its range, all strings, or none. The
      type `never` has no values at all, and is `Infinite` too. */
  datatype Literals = Integers(min: int, max: int) | Strings | NoLiterals | NoValues

  /** What the checker looks up about types: the signature of a type, the component types of one
      of its constructors, and the literals of an infinite type. */
  datatype Types = Types(sig: TyId -> Sig, fields: (TyId, Ctor) -> seq<TyId>, literals: TyId -> Literals)

  predicate IsLiteral(c: Ctor) {
    c.Int? || c.Str?
  }

  /** The two lookups agree, signatures list at least one constructor and each once, no finite
      signature holds an integer or string literal, and every integer type holds zero. */
  ghost predicate Coherent(env: Types) {
    && (forall ty, c :: IsLiteral(c) ==> env.fields(ty, c) == [])
    && (forall ty, i :: env.sig(ty).Finite? && 0 <= i < |env.sig(ty).ctors| ==>
          && env.sig(ty).ctors[i].1 == env.fields(ty, env.sig(ty).ctors[i].0)
          && !IsLiteral(env.sig(ty).ctors[i].0))
    && (forall ty :: env.sig(ty).Finite? ==> env.sig(ty).ctors != [])
    && (forall ty, i, j :: env.sig(ty).Finite? && 0 <= i < j < |env.sig(ty).ctors| ==>
          env.sig(ty).ctors[i].0 != env.sig(ty).ctors[j].0)
    && (forall ty :: env.literals(ty).Integers? ==> env.literals(ty).min <= 0 <= env.literals(ty).max)
  }

  predicate Declares(sig: Sig, c: Ctor) {
    sig.Finite? && exists i | 0 <= i < |sig.ctors| :: sig.ctors[i].0 == c
  }

  /** `c` builds values of type `ty`. */
  predicate Builds(env: Types, ty: TyId, c: Ctor) {
    match env.sig(ty)
    case Finite(_) => Declares(env.sig(ty), c)
    case Infinite =>
      match env.literals(ty)
      case Integers(min, max) => c.Int? && min <= c.n <= max
      case Strings => c.Str?
      case NoLiterals => false
      case NoValues => false
  }

  predicate HasType(env: Types, v: Value, ty: TyId)
    decreases v, 0
  {
    match v
    case Data(c, subs) => Builds(env, ty, c) && HaveTypes(env, subs, env.fields(ty, c))
    case Opaque(_) => env.sig(ty).Infinite? && env.literals(ty).NoLiterals?
  }

  predicate HaveTypes(env: Types, vs: seq<Value>, tys: seq<TyId>)
    decreases vs, 1
  {
    |vs| == |tys| && (vs == [] || (HasType(env, vs[0], tys[0]) && HaveTypes(env, vs[1..], tys[1..])))
  }

  /** Every constructor pattern has as many components as its column's type says. Lowering keeps
      this even for a pattern it has rejected, so it is all the algorithm may assume. */
  predicate Shaped(env: Types, p: Pat, ty: TyId)
    decreases p, 0
  {
    match p
    case Wild => true
    case Con(c, subs) => AllShaped(env, subs, env.fields(ty, c))
  }

  predicate AllShaped(env: Types, ps: seq<Pat>, tys: seq<TyId>)
    decreases ps, 1
  {
    |ps| == |tys| && (ps == [] || (Shaped(env, ps[0], tys[0]) && AllShaped(env, ps[1..], tys[1..])))
  }

  /** The pattern checks against the type: every constructor it tests builds values of its column. */
  predicate Typed(env: Types, p: Pat, ty: TyId)
    decreases p, 0
  {
    match p
    case Wild => true
    case Con(c, subs) => Builds(env, ty, c) && AllTyped(env, subs, env.fields(ty, c))
  }

  predicate AllTyped(env: Types, ps: seq<Pat>, tys: seq<TyId>)
    decreases ps, 1
  {
    |ps| == |tys| && (ps == [] || (Typed(env, ps[0], tys[0]) && AllTyped(env, ps[1..], tys[1..])))
  }

  predicate Matrix(env: Types, rows: seq<seq<Pat>>, tys: seq<TyId>) {
    forall i | 0 <= i < |rows| :: AllShaped(env, rows[i], tys)
  }

  predicate Matches(p: Pat, v: Value)
    decreases p, 0
  {
    match p
    case Wild => true
    case Con(c, subs) => v.Data? && v.ctor == c && RowMatches(subs, v.subs)
  }

  predicate RowMatches(ps: seq<Pat>, vs: seq<Value>)
    decreases ps, 1
  {
    |ps| == |vs| && (ps == [] || (Matches(ps[0], vs[0]) && RowMatches(ps[1..], vs[1..])))
  }

  predicate Covered(rows: seq<seq<Pat>>, vs: seq<Value>) {
    rows != [] && (RowMatches(rows[0], vs) || Covered(rows[1..], vs))
  }

  /** `v` is one of the values the witness `w` stands for. */
  predicate Instance(w: Witness, v: Value)
    decreases w, 0
  {
    match w
    case Any => true
    case Of(c, ws) => v.Data? && v.ctor == c && Instances(ws, v.subs)
  }

  predicate Instances(ws: seq<Witness>, vs: seq<Value>)
    decreases ws, 1
  {
    |ws| == |vs| && (ws == [] || (Instance(ws[0], vs[0]) && Instances(ws[1..], vs[1..])))
  }

  /** The number of constructor nodes of a pattern. */
  function Nodes(p: Pat): nat
    decreases p, 0
  {
    match p
    case Wild => 0
    case Con(_, subs) => 1 + RowNodes(subs)
  }

  function RowNodes(ps: seq<Pat>): nat
    decreases ps, 1
  {
    if ps == [] then 0 else Nodes(ps[0]) + RowNodes(ps[1..])
  }

  function MatrixNodes(rows: seq<seq<Pat>>): nat {
    if rows == [] then 0 else RowNodes(rows[0]) + MatrixNodes(rows[1..])
  }

  // ---- Concatenation laws of the row predicates ----

  lemma {:induction false} RowNodesConcat(a: seq<Pat>, b: seq<Pat>)
    ensures RowNodes(a + b) == RowNodes(a) + RowNodes(b)
  {
    if a == [] {
      assert a + b == b;
    } else {
      assert (a + b)[1..] == a[1..] + b;
      RowNodesConcat(a[1..], b);
    }
  }

  lemma {:induction false} AllShapedConcat(env: Types, a: seq<Pat>, b: seq<Pat>, s: seq<TyId>, t: seq<TyId>)
    requires |a| == |s|
    ensures AllShaped(env, a + b, s + t) <==> AllShaped(env, a, s) && AllShaped(env, b, t)
  {
    if a == [] {
      assert a + b == b && s + t == t;
    } else {
      assert (a + b)[1..] == a[1..] + b && (s + t)[1..] == s[1..] + t;
      AllShapedConcat(env, a[1..], b, s[1..], t);
    }
  }

  lemma {:induction false} AllTypedConcat(env: Types, a: seq<Pat>, b: seq<Pat>, s: seq<TyId>, t: seq<TyId>)
    requires |a| == |s|
    ensures AllTyped(env, a + b, s + t) <==> AllTyped(env, a, s) && AllTyped(env, b, t)
  {
    if a == [] {
      assert a + b == b && s + t == t;
    } else {
      assert (a + b)[1..] == a[1..] + b && (s + t)[1..] == s[1..] + t;
      AllTypedConcat(env, a[1..], b, s[1..], t);
    }
  }

  lemma {:induction false} HaveTypesConcat(env: Types, a: seq<Value>, b: seq<Value>, s: seq<TyId>, t: seq<TyId>)
    requires |a| == |s|
    ensures HaveTypes(env, a + b, s + t) <==> HaveTypes(env, a, s) && HaveTypes(env, b, t)
  {
    if a == [] {
      assert a + b == b && s + t == t;
    } else {
      assert (a + b)[1..] == a[1..] + b && (s + t)[1..] == s[1..] + t;
      HaveTypesConcat(env, a[1..], b, s[1..], t);
    }
  }

  lemma {:induction false} RowMatchesConcat(a: seq<Pat>, b: seq<Pat>, u: seq<Value>, v: seq<Value>)
    requires |a| == |u|
    ensures RowMatches(a + b, u + v) <==> RowMatches(a, u) && RowMatches(b, v)
  {
    if a == [] {
      assert a + b == b && u + v == v;
    } else {
      assert (a + b)[1..] == a[1..] + b && (u + v)[1..] == u[1..] + v;
      RowMatchesConcat(a[1..], b, u[1..], v);
    }
  }

  lemma {:induction false} InstancesConcat(a: seq<Witness>, b: seq<Witness>, u: seq<Value>, v: seq<Value>)
    requires |a| == |u|
    ensures Instances(a + b, u + v) <==> Instances(a, u) && Instances(b, v)
  {
    if a == [] {
      assert a + b == b && u + v == v;
    } else {
      assert (a + b)[1..] == a[1..] + b && (u + v)[1..] == u[1..] + v;
      InstancesConcat(a[1..], b, u[1..], v);
    }
  }

  // ---- Rows of wildcards ----

  function Wilds(n: nat): (ws: seq<Pat>)
    ensures |ws| == n
  {
    seq(n, _ => Wild)
  }

  lemma {:induction false} WildsFacts(env: Types, tys: seq<TyId>)
    ensures AllShaped(env, Wilds(|tys|), tys) && AllTyped(env, Wilds(|tys|), tys)
    ensures RowNodes(Wilds(|tys|)) == 0
  {
    if tys != [] {
      assert Wilds(|tys|)[1..] == Wilds(|tys[1..]|);
      WildsFacts(env, tys[1..]);
    }
  }

  lemma {:induction false} WildsMatch(vs: seq<Value>)
    ensures RowMatches(Wilds(|vs|), vs)
  {
    if vs != [] {
      assert Wilds(|vs|)[1..] == Wilds(|vs[1..]|);
      WildsMatch(vs[1..]);
    }
  }
}
