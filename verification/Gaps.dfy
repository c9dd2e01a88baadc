/** When the usefulness algorithm is right although it takes every integer type for infinite and a
    constructor for a value (crates/fors-check/src/exhaust.rs): `Gap` is the algorithm that does
    neither. */
module Gaps {
  import opened Wrappers
  import opened Patterns
  import opened Usefulness
  import opened Exactness

  // ---- Types with values ----

  ghost predicate HasValue(env: Types, ty: TyId) {
    exists v :: HasType(env, v, ty)
  }

  ghost predicate AllHaveValues(env: Types, tys: seq<TyId>) {
    forall t | t in tys :: HasValue(env, t)
  }

  /** Constructor `c` builds values of type `ty`, and there are some. */
  ghost predicate Makes(env: Types, ty: TyId, c: Ctor) {
    Builds(env, ty, c) && AllHaveValues(env, env.fields(ty, c))
  }

  lemma {:induction false} ValuesOf(env: Types, tys: seq<TyId>) returns (vs: seq<Value>)
    requires AllHaveValues(env, tys)
    ensures HaveTypes(env, vs, tys)
  {
    vs := [];
    if tys != [] {
      assert HasValue(env, tys[0]);
      var v :| HasType(env, v, tys[0]);
      var rest := ValuesOf(env, tys[1..]);
      vs := [v] + rest;
      assert vs[1..] == rest;
    }
  }

  lemma {:induction false} ComponentsHaveValues(env: Types, vs: seq<Value>, tys: seq<TyId>)
    requires HaveTypes(env, vs, tys)
    ensures AllHaveValues(env, tys)
  {
    if tys != [] {
      ComponentsHaveValues(env, vs[1..], tys[1..]);
      assert HasType(env, vs[0], tys[0]);
    }
  }

  /** A type has values if and only if one of its constructors makes some, or it has values no
      constructor tests. */
  lemma HasValueIff(env: Types, ty: TyId)
    ensures HasValue(env, ty) <==>
            (env.sig(ty).Infinite? && env.literals(ty).NoLiterals?) || exists c :: Makes(env, ty, c)
  {
    if v :| HasType(env, v, ty) {
      if v.Data? {
        ComponentsHaveValues(env, v.subs, env.fields(ty, v.ctor));
        assert Makes(env, ty, v.ctor);
      }
    }
    if c :| Makes(env, ty, c) {
      var vs := ValuesOf(env, env.fields(ty, c));
      assert HasType(env, Data(c, vs), ty);
    }
    if env.sig(ty).Infinite? && env.literals(ty).NoLiterals? {
      assert HasType(env, Opaque(0), ty);
    }
  }

  /** No type contains itself: components rank below. */
  ghost predicate Grounded(env: Types, rank: TyId -> nat) {
    forall ty, k, t :: env.sig(ty).Finite? && 0 <= k < |env.sig(ty).ctors| && t in env.sig(ty).ctors[k].1 ==>
      rank(t) < rank(ty)
  }

  /** Whether a type has values, read off the declarations. */
  ghost predicate Populated(env: Types, rank: TyId -> nat, ty: TyId)
    requires Grounded(env, rank)
    decreases rank(ty)
  {
    match env.sig(ty)
    case Infinite => !env.literals(ty).NoValues?
    case Finite(ctors) =>
      exists k | 0 <= k < |ctors| :: forall t | t in ctors[k].1 :: Populated(env, rank, t)
  }

  lemma {:induction false} PopulatedIff(env: Types, rank: TyId -> nat, ty: TyId)
    requires Coherent(env) && Grounded(env, rank)
    ensures Populated(env, rank, ty) <==> HasValue(env, ty)
    decreases rank(ty)
  {
    HasValueIff(env, ty);
    if env.sig(ty).Infinite? {
      assert env.literals(ty).Integers? ==> Makes(env, ty, Int(0));
      assert env.literals(ty).Strings? ==> Makes(env, ty, Str(""));
    } else {
      var ctors := env.sig(ty).ctors;
      forall k, t | 0 <= k < |ctors| && t in ctors[k].1 ensures Populated(env, rank, t) <==> HasValue(env, t) {
        PopulatedIff(env, rank, t);
      }
      if Populated(env, rank, ty) {
        var k :| 0 <= k < |ctors| && forall t | t in ctors[k].1 :: Populated(env, rank, t);
        assert AllHaveValues(env, ctors[k].1);
        assert Makes(env, ty, ctors[k].0);
      }
      if c :| Makes(env, ty, c) {
        var k :| 0 <= k < |ctors| && ctors[k].0 == c;
        assert AllHaveValues(env, ctors[k].1);
        assert forall t | t in ctors[k].1 :: Populated(env, rank, t);
        assert Populated(env, rank, ty);
      }
    }
  }

  // ---- The exact algorithm ----

  /** Some constructor that makes values of the column's type heads no row, or the type has values
      no constructor tests. */
  ghost predicate LacksHead(env: Types, ty: TyId, rows: seq<seq<Pat>>)
    requires Heads(rows)
  {
    (env.sig(ty).Infinite? && env.literals(ty).NoLiterals?) || exists c :: Makes(env, ty, c) && !HeadOccurs(rows, c)
  }

  ghost predicate Gap(env: Types, cols: seq<TyId>, rows: seq<seq<Pat>>, q: seq<Pat>)
    requires Query(env, cols, rows, q)
    decreases MatrixNodes(rows) + RowNodes(q), |cols|
  {
    if q == [] then rows == []
    else
      match q[0]
      case Con(c, subs) =>
        SpecializeQuery(env, cols, rows, q, c);
        var tys := env.fields(cols[0], c);
        Gap(env, tys + cols[1..], Specialized(rows, c, |tys|), subs + q[1..])
      case Wild =>
        DefaultQuery(env, cols, rows, q);
        if LacksHead(env, cols[0], rows) then Gap(env, cols[1..], DefaultRows(rows), q[1..])
        else
          exists c | Builds(env, cols[0], c) && HeadOccurs(rows, c) ::
            SpecializeQuery(env, cols, rows, q, c);
            var tys := env.fields(cols[0], c);
            Gap(env, tys + cols[1..], Specialized(rows, c, |tys|), Wilds(|tys|) + q[1..])
  }

  /** Without a gap, every well-typed row of values the query matches is covered. */
  lemma {:induction false} NoGapIsCovered(env: Types, cols: seq<TyId>, rows: seq<seq<Pat>>, q: seq<Pat>, vs: seq<Value>)
    requires Query(env, cols, rows, q) && !Gap(env, cols, rows, q)
    requires HaveTypes(env, vs, cols) && RowMatches(q, vs)
    ensures Covered(rows, vs)
    decreases MatrixNodes(rows) + RowNodes(q), |cols|, 1
  {
    if q == [] {
      assert AllShaped(env, rows[0], cols);
    } else if q[0].Con? {
      SpecializeQuery(env, cols, rows, q, q[0].ctor);
      CoveredUnder(env, cols, rows, q, q[0].subs, vs);
    } else {
      DefaultQuery(env, cols, rows, q);
      if LacksHead(env, cols[0], rows) {
        NoGapIsCovered(env, cols[1..], DefaultRows(rows), q[1..], vs[1..]);
        DefaultSound(rows, vs[0], vs[1..]);
        assert [vs[0]] + vs[1..] == vs;
      } else {
        var c := vs[0].ctor;
        assert HaveTypes(env, vs[0].subs, env.fields(cols[0], c));
        ComponentsHaveValues(env, vs[0].subs, env.fields(cols[0], c));
        assert Makes(env, cols[0], c);
        SpecializeQuery(env, cols, rows, q, c);
        WildsMatch(vs[0].subs);
        CoveredUnder(env, cols, rows, q, Wilds(|env.fields(cols[0], c)|), vs);
      }
    }
  }

  /** The same, when the query goes on under the constructor of the first value. */
  lemma {:induction false} CoveredUnder(env: Types, cols: seq<TyId>, rows: seq<seq<Pat>>, q: seq<Pat>, subs: seq<Pat>,
                                        vs: seq<Value>)
    requires Query(env, cols, rows, q) && q != [] && Heads(rows)
    requires HaveTypes(env, vs, cols) && RowMatches(q, vs) && vs[0].Data? && RowMatches(subs, vs[0].subs)
    requires q[0] == Con(vs[0].ctor, subs)
             || (q[0].Wild? && HeadOccurs(rows, vs[0].ctor) && subs == Wilds(|env.fields(cols[0], vs[0].ctor)|))
    requires var tys := env.fields(cols[0], vs[0].ctor);
             && Query(env, tys + cols[1..], Specialized(rows, vs[0].ctor, |tys|), subs + q[1..])
             && !Gap(env, tys + cols[1..], Specialized(rows, vs[0].ctor, |tys|), subs + q[1..])
    ensures Covered(rows, vs)
    decreases MatrixNodes(rows) + RowNodes(q), |cols|, 0
  {
    hide Gap, Specialized;
    var Data(c, us) := vs[0];
    var tys := env.fields(cols[0], c);
    SpecializeQuery(env, cols, rows, q, c);
    assert HaveTypes(env, us, tys);
    HaveTypesConcat(env, us, vs[1..], tys, cols[1..]);
    RowMatchesConcat(subs, q[1..], us, vs[1..]);
    NoGapIsCovered(env, tys + cols[1..], Specialized(rows, c, |tys|), subs + q[1..], us + vs[1..]);
    SpecializedCovers(env, cols, rows, c, us, vs[1..]);
    assert [vs[0]] + vs[1..] == vs;
  }

  /** A gap holds a well-typed row of values the query matches and no row does. */
  lemma {:induction false} GapValue(env: Types, cols: seq<TyId>, rows: seq<seq<Pat>>, q: seq<Pat>) returns (vs: seq<Value>)
    requires Query(env, cols, rows, q) && AllTyped(env, q, cols) && Gap(env, cols, rows, q)
    ensures HaveTypes(env, vs, cols) && RowMatches(q, vs) && !Covered(rows, vs)
    decreases MatrixNodes(rows) + RowNodes(q), |cols|, 1
  {
    if q == [] {
      vs := [];
    } else if q[0].Con? {
      SpecializeQuery(env, cols, rows, q, q[0].ctor);
      vs := GapUnder(env, cols, rows, q, q[0].ctor, q[0].subs);
    } else {
      DefaultQuery(env, cols, rows, q);
      if LacksHead(env, cols[0], rows) {
        var rest := GapValue(env, cols[1..], DefaultRows(rows), q[1..]);
        var v := UnheadedValue(env, cols[0], rows);
        DefaultCovers(rows, v, rest);
        vs := [v] + rest;
        assert vs[1..] == rest;
      } else {
        var c :| Builds(env, cols[0], c) && HeadOccurs(rows, c) &&
                 (SpecializeQuery(env, cols, rows, q, c);
                  var tys := env.fields(cols[0], c);
                  Gap(env, tys + cols[1..], Specialized(rows, c, |tys|), Wilds(|tys|) + q[1..]));
        SpecializeQuery(env, cols, rows, q, c);
        vs := GapUnder(env, cols, rows, q, c, Wilds(|env.fields(cols[0], c)|));
      }
    }
  }

  /** The same, when the gap lies under the constructor `c`. */
  lemma {:induction false} GapUnder(env: Types, cols: seq<TyId>, rows: seq<seq<Pat>>, q: seq<Pat>, c: Ctor,
                                    subs: seq<Pat>)
    returns (vs: seq<Value>)
    requires Query(env, cols, rows, q) && q != [] && Heads(rows) && AllTyped(env, q, cols)
    requires Builds(env, cols[0], c)
    requires q[0] == Con(c, subs) || (q[0].Wild? && HeadOccurs(rows, c) && subs == Wilds(|env.fields(cols[0], c)|))
    requires var tys := env.fields(cols[0], c);
             && Query(env, tys + cols[1..], Specialized(rows, c, |tys|), subs + q[1..])
             && Gap(env, tys + cols[1..], Specialized(rows, c, |tys|), subs + q[1..])
    ensures HaveTypes(env, vs, cols) && RowMatches(q, vs) && !Covered(rows, vs)
    decreases MatrixNodes(rows) + RowNodes(q), |cols|, 0
  {
    hide Gap, Specialized, Covered, Matrix, MatrixNodes, RowNodes;
    var tys := env.fields(cols[0], c);
    TypedUnder(env, cols, rows, q, c, subs);
    SpecializeQuery(env, cols, rows, q, c);
    var us := GapValue(env, tys + cols[1..], Specialized(rows, c, |tys|), subs + q[1..]);
    var u, rest := us[..|tys|], us[|tys|..];
    assert us == u + rest;
    HaveTypesConcat(env, u, rest, tys, cols[1..]);
    RowMatchesConcat(subs, q[1..], u, rest);
    SpecializedCovers(env, cols, rows, c, u, rest);
    vs := [Data(c, u)] + rest;
    assert vs[1..] == rest;
  }

  /** A typed query stays typed under a constructor. */
  lemma TypedUnder(env: Types, cols: seq<TyId>, rows: seq<seq<Pat>>, q: seq<Pat>, c: Ctor, subs: seq<Pat>)
    requires Query(env, cols, rows, q) && q != [] && AllTyped(env, q, cols)
    requires q[0] == Con(c, subs) || (q[0].Wild? && subs == Wilds(|env.fields(cols[0], c)|))
    ensures |subs| == |env.fields(cols[0], c)| && AllTyped(env, subs + q[1..], env.fields(cols[0], c) + cols[1..])
  {
    hide Matrix, MatrixNodes, RowNodes;
    var tys := env.fields(cols[0], c);
    WildsFacts(env, tys);
    assert Shaped(env, q[0], cols[0]) && Typed(env, q[0], cols[0]);
    assert |subs| == |tys| && AllTyped(env, subs, tys);
    AllTypedConcat(env, subs, q[1..], tys, cols[1..]);
  }

  /** A value of the type whose constructor heads no row. */
  lemma UnheadedValue(env: Types, ty: TyId, rows: seq<seq<Pat>>) returns (v: Value)
    requires Heads(rows) && LacksHead(env, ty, rows)
    ensures HasType(env, v, ty) && (v.Data? ==> !HeadOccurs(rows, v.ctor))
  {
    if c :| Makes(env, ty, c) && !HeadOccurs(rows, c) {
      var vs := ValuesOf(env, env.fields(ty, c));
      v := Data(c, vs);
    } else {
      v := Opaque(0);
    }
  }

  /** A well-typed query has a gap if and only if it matches some well-typed row of values that no
      row of the matrix matches. */
  lemma GapIsExact(env: Types, cols: seq<TyId>, rows: seq<seq<Pat>>, q: seq<Pat>)
    requires Query(env, cols, rows, q) && AllTyped(env, q, cols)
    ensures Gap(env, cols, rows, q) <==>
            exists vs :: HaveTypes(env, vs, cols) && RowMatches(q, vs) && !Covered(rows, vs)
  {
    if Gap(env, cols, rows, q) {
      var vs := GapValue(env, cols, rows, q);
    } else {
      forall vs | HaveTypes(env, vs, cols) && RowMatches(q, vs) ensures Covered(rows, vs) {
        NoGapIsCovered(env, cols, rows, q, vs);
      }
    }
  }

  /** The algorithm misses no gap. */
  lemma GapIsFound(env: Types, cols: seq<TyId>, rows: seq<seq<Pat>>, q: seq<Pat>)
    requires Query(env, cols, rows, q) && AllTyped(env, q, cols) && Gap(env, cols, rows, q)
    ensures Plain(env, cols, rows, q).found.Some?
  {
    hide Gap, Plain;
    var vs := GapValue(env, cols, rows, q);
    if Plain(env, cols, rows, q).found.None? {
      NotUsefulIsCovered(env, cols, rows, q, vs);
    }
  }
}
