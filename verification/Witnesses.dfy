/** When a reported witness is a value of its type (crates/fors-check/src/exhaust.rs): exactly when
    every literal it was given is one its column's type has, and every constructor it was given has
    values. */
module Witnesses {
  import opened Wrappers
  import opened Patterns
  import opened Usefulness
  import opened Exactness
  import opened Gaps
  import opened FalseAlarms

  ghost predicate TypedInstance(env: Types, cols: seq<TyId>, w: seq<Witness>) {
    exists vs :: Instances(w, vs) && HaveTypes(env, vs, cols)
  }

  /** Wherever the run leaves a column without a signature to name a literal, there is one to name;
      wherever it leaves one with a signature, the first constructor that heads no row makes values. */
  ghost predicate Names(env: Types, cols: seq<TyId>, rows: seq<seq<Pat>>, q: seq<Pat>)
    requires Query(env, cols, rows, q) && Plain(env, cols, rows, q).found.Some?
    decreases MatrixNodes(rows) + RowNodes(q), |cols|, 1, 0
  {
    if q == [] then true
    else
      match q[0]
      case Con(c, subs) =>
        SpecializeQuery(env, cols, rows, q, c);
        var tys := env.fields(cols[0], c);
        Names(env, tys + cols[1..], Specialized(rows, c, |tys|), subs + q[1..])
      case Wild =>
        DefaultQuery(env, cols, rows, q);
        if Complete(env, cols, rows) then NamesEach(env, cols, rows, q, 0)
        else
          && FirstNames(env, cols[0], rows)
          && Names(env, cols[1..], DefaultRows(rows), q[1..])
  }

  ghost predicate FirstNames(env: Types, ty: TyId, rows: seq<seq<Pat>>)
    requires Heads(rows)
  {
    match env.sig(ty)
    case Infinite => Nameable(env, ty, rows)
    case Finite(ctors) =>
      var m := FirstMissing(ctors, rows, 0);
      m.Some? ==> AllHaveValues(env, ctors[m.value].1)
  }

  /** The same for the first constructor, from the `k`th on, that has a witness. */
  ghost predicate NamesEach(env: Types, cols: seq<TyId>, rows: seq<seq<Pat>>, q: seq<Pat>, k: nat)
    requires Query(env, cols, rows, q) && q != [] && q[0].Wild?
    requires Complete(env, cols, rows) && k <= |env.sig(cols[0]).ctors|
    requires PlainEach(env, cols, rows, q, k).found.Some?
    decreases MatrixNodes(rows) + RowNodes(q), |cols|, 0, |env.sig(cols[0]).ctors| - k
  {
    var (c, tys) := env.sig(cols[0]).ctors[k];
    SpecializeQuery(env, cols, rows, q, c);
    if Plain(env, tys + cols[1..], Specialized(rows, c, |tys|), Wilds(|tys|) + q[1..]).found.Some? then
      Names(env, tys + cols[1..], Specialized(rows, c, |tys|), Wilds(|tys|) + q[1..])
    else NamesEach(env, cols, rows, q, k + 1)
  }

  // ---- Witnesses put together ----

  lemma PrefixTyped(env: Types, cols: seq<TyId>, head: Witness, w: seq<Witness>)
    requires cols != []
    ensures TypedInstance(env, cols, [head] + w) <==> NamesValue(env, head, cols[0]) && TypedInstance(env, cols[1..], w)
  {
    assert ([head] + w)[1..] == w;
    if TypedInstance(env, cols, [head] + w) {
      var vs :| Instances([head] + w, vs) && HaveTypes(env, vs, cols);
      assert Instance(head, vs[0]) && HasType(env, vs[0], cols[0]);
      assert Instances(w, vs[1..]) && HaveTypes(env, vs[1..], cols[1..]);
    }
    if NamesValue(env, head, cols[0]) && TypedInstance(env, cols[1..], w) {
      var v :| Instance(head, v) && HasType(env, v, cols[0]);
      var vs :| Instances(w, vs) && HaveTypes(env, vs, cols[1..]);
      assert ([v] + vs)[1..] == vs;
      assert Instances([head] + w, [v] + vs) && HaveTypes(env, [v] + vs, cols);
    }
  }

  lemma CombineTyped(env: Types, cols: seq<TyId>, c: Ctor, w: seq<Witness>)
    requires cols != [] && Builds(env, cols[0], c) && |env.fields(cols[0], c)| <= |w|
    ensures TypedInstance(env, cols, Combine(c, |env.fields(cols[0], c)|, w))
            <==> TypedInstance(env, env.fields(cols[0], c) + cols[1..], w)
  {
    var tys := env.fields(cols[0], c);
    var combined := Combine(c, |tys|, w);
    if TypedInstance(env, cols, combined) {
      var vs :| Instances(combined, vs) && HaveTypes(env, vs, cols);
      var us := CombineInstances(c, |tys|, w, vs);
      assert HasType(env, vs[0], cols[0]) && HaveTypes(env, us, tys);
      HaveTypesConcat(env, us, vs[1..], tys, cols[1..]);
    }
    if TypedInstance(env, tys + cols[1..], w) {
      var us :| Instances(w, us) && HaveTypes(env, us, tys + cols[1..]);
      InstancesLength(w, us);
      HaveTypesLength(env, us, tys + cols[1..]);
      var u, rest := us[..|tys|], us[|tys|..];
      assert us == u + rest && w == w[..|tys|] + w[|tys|..];
      HaveTypesConcat(env, u, rest, tys, cols[1..]);
      InstancesConcat(w[..|tys|], w[|tys|..], u, rest);
      var vs := [Data(c, u)] + rest;
      assert vs[1..] == rest && combined[1..] == w[|tys|..];
      assert Instance(combined[0], vs[0]) && HasType(env, vs[0], cols[0]);
      assert Instances(combined, vs) && HaveTypes(env, vs, cols);
    }
  }

  lemma InstancesLength(w: seq<Witness>, vs: seq<Value>)
    requires Instances(w, vs)
    ensures |w| == |vs|
  {
  }

  lemma HaveTypesLength(env: Types, vs: seq<Value>, tys: seq<TyId>)
    requires HaveTypes(env, vs, tys)
    ensures |vs| == |tys|
  {
  }

  lemma {:induction false} AnysInstance(vs: seq<Value>)
    ensures Instances(Anys(|vs|), vs)
  {
    if vs != [] {
      AnysInstance(vs[1..]);
      assert Anys(|vs|)[1..] == Anys(|vs[1..]|);
    }
  }

  /** A constructor with nothing said of its components names a value if and only if it makes one. */
  lemma AnysNameValue(env: Types, ty: TyId, c: Ctor)
    requires Builds(env, ty, c)
    ensures NamesValue(env, Of(c, Anys(|env.fields(ty, c)|)), ty) <==> AllHaveValues(env, env.fields(ty, c))
  {
    var tys := env.fields(ty, c);
    if AllHaveValues(env, tys) {
      var vs := ValuesOf(env, tys);
      HaveTypesLength(env, vs, tys);
      AnysInstance(vs);
      assert Instance(Of(c, Anys(|tys|)), Data(c, vs)) && HasType(env, Data(c, vs), ty);
    }
    if v :| Instance(Of(c, Anys(|tys|)), v) && HasType(env, v, ty) {
      ComponentsHaveValues(env, v.subs, tys);
    }
  }

  // ---- The condition is exact ----

  /** The witness of a well-typed query stands for some well-typed row of values if and only if every
      literal it needed could be named and every constructor it was given makes values. */
  lemma {:induction false} WitnessTypedIff(env: Types, cols: seq<TyId>, rows: seq<seq<Pat>>, q: seq<Pat>)
    requires Query(env, cols, rows, q) && AllTyped(env, q, cols) && Plain(env, cols, rows, q).found.Some?
    ensures TypedInstance(env, cols, Plain(env, cols, rows, q).found.value) <==> Names(env, cols, rows, q)
    decreases MatrixNodes(rows) + RowNodes(q), |cols|, 2, 0
  {
    if q == [] {
      assert Instances([], []) && HaveTypes(env, [], []);
    } else if q[0].Con? {
      hide AllShaped, Shaped, Matrix;
      SpecializeQuery(env, cols, rows, q, q[0].ctor);
      NamesUnder(env, cols, rows, q, q[0].ctor, q[0].subs);
    } else if Complete(env, cols, rows) {
      EachTypedIff(env, cols, rows, q, 0);
    } else {
      TypedBeyond(env, cols, rows, q);
    }
  }

  lemma {:induction false} TypedBeyond(env: Types, cols: seq<TyId>, rows: seq<seq<Pat>>, q: seq<Pat>)
    requires Query(env, cols, rows, q) && AllTyped(env, q, cols) && Plain(env, cols, rows, q).found.Some?
    requires q != [] && q[0].Wild? && Heads(rows) && !Complete(env, cols, rows)
    ensures TypedInstance(env, cols, Plain(env, cols, rows, q).found.value) <==> Names(env, cols, rows, q)
    decreases MatrixNodes(rows) + RowNodes(q), |cols|, 1, 0
  {
    DefaultQuery(env, cols, rows, q);
    var sub := Plain(env, cols[1..], DefaultRows(rows), q[1..]).found.value;
    WitnessTypedIff(env, cols[1..], DefaultRows(rows), q[1..]);
    var head := Plain(env, cols, rows, q).found.value[0];
    PrefixTyped(env, cols, head, sub);
    if env.sig(cols[0]).Infinite? {
      MissingLiteralTyped(env, cols[0], rows);
    } else {
      var m := FirstMissing(env.sig(cols[0]).ctors, rows, 0).value;
      AnysNameValue(env, cols[0], env.sig(cols[0]).ctors[m].0);
    }
  }

  lemma {:induction false} EachTypedIff(env: Types, cols: seq<TyId>, rows: seq<seq<Pat>>, q: seq<Pat>, k: nat)
    requires Query(env, cols, rows, q) && AllTyped(env, q, cols) && q != [] && q[0].Wild?
    requires Complete(env, cols, rows) && k <= |env.sig(cols[0]).ctors|
    requires PlainEach(env, cols, rows, q, k).found.Some?
    ensures TypedInstance(env, cols, PlainEach(env, cols, rows, q, k).found.value) <==> NamesEach(env, cols, rows, q, k)
    decreases MatrixNodes(rows) + RowNodes(q), |cols|, 1, |env.sig(cols[0]).ctors| - k
  {
    hide Plain, Names, Specialized, AllShaped, Shaped, Matrix;
    var (c, tys) := env.sig(cols[0]).ctors[k];
    SpecializeQuery(env, cols, rows, q, c);
    if Plain(env, tys + cols[1..], Specialized(rows, c, |tys|), Wilds(|tys|) + q[1..]).found.Some? {
      assert Builds(env, cols[0], c);
      NamesUnder(env, cols, rows, q, c, Wilds(|tys|));
    } else {
      EachTypedIff(env, cols, rows, q, k + 1);
    }
  }

  lemma {:induction false} NamesUnder(env: Types, cols: seq<TyId>, rows: seq<seq<Pat>>, q: seq<Pat>, c: Ctor,
                                      subs: seq<Pat>)
    requires Query(env, cols, rows, q) && q != [] && Heads(rows) && AllTyped(env, q, cols)
    requires Builds(env, cols[0], c)
    requires q[0] == Con(c, subs) || (q[0].Wild? && HeadOccurs(rows, c) && subs == Wilds(|env.fields(cols[0], c)|))
    requires var tys := env.fields(cols[0], c);
             && Query(env, tys + cols[1..], Specialized(rows, c, |tys|), subs + q[1..])
             && Plain(env, tys + cols[1..], Specialized(rows, c, |tys|), subs + q[1..]).found.Some?
    ensures var tys := env.fields(cols[0], c);
            var w := Plain(env, tys + cols[1..], Specialized(rows, c, |tys|), subs + q[1..]).found.value;
            && |w| >= |tys|
            && (TypedInstance(env, cols, Combine(c, |tys|, w))
                <==> Names(env, tys + cols[1..], Specialized(rows, c, |tys|), subs + q[1..]))
    decreases MatrixNodes(rows) + RowNodes(q), |cols|, 0, 0
  {
    hide Plain, Names, Specialized, AllShaped, Shaped, Matrix, MatrixNodes, RowNodes;
    var tys := env.fields(cols[0], c);
    SpecializeQuery(env, cols, rows, q, c);
    TypedUnder(env, cols, rows, q, c, subs);
    WitnessTypedIff(env, tys + cols[1..], Specialized(rows, c, |tys|), subs + q[1..]);
    CombineTyped(env, cols, c, Plain(env, tys + cols[1..], Specialized(rows, c, |tys|), subs + q[1..]).found.value);
  }

  // ---- Few rows always leave literals to name ----

  /** Every type in play without a signature has strings, or more integers from zero up than rows. */
  ghost predicate LiteralsLeft(env: Types, reach: iset<TyId>, n: nat) {
    forall ty | ty in reach && env.sig(ty).Infinite? ::
      env.literals(ty).Strings? || (env.literals(ty).Integers? && n <= env.literals(ty).max)
  }

  lemma {:induction false} FewRowsName(env: Types, cols: seq<TyId>, rows: seq<seq<Pat>>, q: seq<Pat>, reach: iset<TyId>)
    requires Query(env, cols, rows, q) && AllTyped(env, q, cols) && Plain(env, cols, rows, q).found.Some?
    requires Inhabited(env, reach) && Within(cols, reach) && LiteralsLeft(env, reach, |rows|)
    ensures Names(env, cols, rows, q)
    decreases MatrixNodes(rows) + RowNodes(q), |cols|, 2, 0
  {
    if q == [] {
    } else if q[0].Con? {
      hide AllShaped, Shaped, Matrix;
      SpecializeQuery(env, cols, rows, q, q[0].ctor);
      FewRowsNameUnder(env, cols, rows, q, q[0].ctor, q[0].subs, reach);
    } else if Complete(env, cols, rows) {
      FewRowsEach(env, cols, rows, q, 0, reach);
    } else {
      DefaultQuery(env, cols, rows, q);
      NoMoreRows(rows, Tuple(0), 0);
      if env.literals(cols[0]).Integers? && env.sig(cols[0]).Infinite? {
        FewRowsNameable(env, cols[0], rows);
      }
      FewRowsName(env, cols[1..], DefaultRows(rows), q[1..], reach);
    }
  }

  lemma {:induction false} FewRowsEach(env: Types, cols: seq<TyId>, rows: seq<seq<Pat>>, q: seq<Pat>, k: nat,
                                       reach: iset<TyId>)
    requires Query(env, cols, rows, q) && AllTyped(env, q, cols) && q != [] && q[0].Wild?
    requires Complete(env, cols, rows) && k <= |env.sig(cols[0]).ctors|
    requires PlainEach(env, cols, rows, q, k).found.Some?
    requires Inhabited(env, reach) && Within(cols, reach) && LiteralsLeft(env, reach, |rows|)
    ensures NamesEach(env, cols, rows, q, k)
    decreases MatrixNodes(rows) + RowNodes(q), |cols|, 1, |env.sig(cols[0]).ctors| - k
  {
    hide Plain, Names, Specialized, AllShaped, Shaped, Matrix;
    var (c, tys) := env.sig(cols[0]).ctors[k];
    SpecializeQuery(env, cols, rows, q, c);
    if Plain(env, tys + cols[1..], Specialized(rows, c, |tys|), Wilds(|tys|) + q[1..]).found.Some? {
      assert Builds(env, cols[0], c);
      FewRowsNameUnder(env, cols, rows, q, c, Wilds(|tys|), reach);
    } else {
      FewRowsEach(env, cols, rows, q, k + 1, reach);
    }
  }

  lemma {:induction false} FewRowsNameUnder(env: Types, cols: seq<TyId>, rows: seq<seq<Pat>>, q: seq<Pat>, c: Ctor,
                                        subs: seq<Pat>, reach: iset<TyId>)
    requires Query(env, cols, rows, q) && q != [] && Heads(rows) && AllTyped(env, q, cols)
    requires Inhabited(env, reach) && Within(cols, reach) && LiteralsLeft(env, reach, |rows|) && Builds(env, cols[0], c)
    requires q[0] == Con(c, subs) || (q[0].Wild? && HeadOccurs(rows, c) && subs == Wilds(|env.fields(cols[0], c)|))
    requires var tys := env.fields(cols[0], c);
             && Query(env, tys + cols[1..], Specialized(rows, c, |tys|), subs + q[1..])
             && Plain(env, tys + cols[1..], Specialized(rows, c, |tys|), subs + q[1..]).found.Some?
    ensures var tys := env.fields(cols[0], c);
            Names(env, tys + cols[1..], Specialized(rows, c, |tys|), subs + q[1..])
    decreases MatrixNodes(rows) + RowNodes(q), |cols|, 0, 0
  {
    hide Plain, Names, Specialized, AllShaped, Shaped, Matrix, MatrixNodes, RowNodes;
    var tys := env.fields(cols[0], c);
    SpecializeQuery(env, cols, rows, q, c);
    TypedUnder(env, cols, rows, q, c, subs);
    WithinNext(env, reach, cols, c);
    NoMoreRows(rows, c, |tys|);
    FewRowsName(env, tys + cols[1..], Specialized(rows, c, |tys|), subs + q[1..], reach);
  }
}
