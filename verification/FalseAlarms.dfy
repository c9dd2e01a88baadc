/** The queries the usefulness algorithm finds useful without a gap (crates/fors-check/src/exhaust.rs):
    where it leaves its column for the default rows although no value is left there. */
module FalseAlarms {
  import opened Wrappers
  import opened Patterns
  import opened Usefulness
  import opened Exactness
  import opened Gaps

  // ---- The branch that can fail ----

  /** The algorithm goes on with the default rows, but every constructor that makes values of the
      column's type heads a row. */
  ghost predicate Exhausted(env: Types, cols: seq<TyId>, rows: seq<seq<Pat>>)
    requires cols != [] && Heads(rows)
  {
    !Complete(env, cols, rows) && !LacksHead(env, cols[0], rows)
  }

  /** A column is exhausted in three ways: its type is `never`; it is an integer type, all of whose
      integers head a row; or only constructors without values head none. */
  lemma ExhaustedIff(env: Types, cols: seq<TyId>, rows: seq<seq<Pat>>)
    requires Coherent(env) && cols != [] && Heads(rows)
    ensures Exhausted(env, cols, rows) <==>
            match env.sig(cols[0])
            case Finite(ctors) =>
              && (exists k | 0 <= k < |ctors| :: !HeadOccurs(rows, ctors[k].0))
              && (forall k | 0 <= k < |ctors| && !HeadOccurs(rows, ctors[k].0) :: !AllHaveValues(env, ctors[k].1))
            case Infinite =>
              match env.literals(cols[0])
              case Integers(min, max) => forall n | min <= n <= max :: HeadOccurs(rows, Int(n))
              case NoValues => true
              case _ => false
  {
    var ty := cols[0];
    match env.sig(ty) {
      case Finite(ctors) =>
        if !LacksHead(env, ty, rows) {
          forall k | 0 <= k < |ctors| && !HeadOccurs(rows, ctors[k].0) ensures !AllHaveValues(env, ctors[k].1) {
            assert Builds(env, ty, ctors[k].0);
            assert !Makes(env, ty, ctors[k].0);
          }
        }
      case Infinite =>
        if env.literals(ty).Strings? {
          var k := UnheadedCandidate(true, rows, |rows| + 1);
          assert Makes(env, ty, Candidate(true, k));
        }
        if env.literals(ty).Integers? {
          forall n | env.literals(ty).min <= n <= env.literals(ty).max ensures Makes(env, ty, Int(n)) {
            assert env.fields(ty, Int(n)) == [];
          }
        }
    }
  }

  // ---- Exactly where the answer is wrong ----

  /** The query under constructor `c` has a gap. */
  ghost predicate LeavesGap(env: Types, cols: seq<TyId>, rows: seq<seq<Pat>>, q: seq<Pat>, c: Ctor)
    requires Query(env, cols, rows, q) && q != [] && q[0].Wild? && Heads(rows)
  {
    SpecializeQuery(env, cols, rows, q, c);
    var tys := env.fields(cols[0], c);
    Gap(env, tys + cols[1..], Specialized(rows, c, |tys|), Wilds(|tys|) + q[1..])
  }

  /** The answer comes from an exhausted column and from nothing else. */
  ghost predicate FalseAlarm(env: Types, cols: seq<TyId>, rows: seq<seq<Pat>>, q: seq<Pat>)
    requires Query(env, cols, rows, q)
    decreases MatrixNodes(rows) + RowNodes(q), |cols|, 1
  {
    if q == [] then false
    else
      match q[0]
      case Con(c, subs) =>
        SpecializeQuery(env, cols, rows, q, c);
        var tys := env.fields(cols[0], c);
        FalseAlarm(env, tys + cols[1..], Specialized(rows, c, |tys|), subs + q[1..])
      case Wild =>
        DefaultQuery(env, cols, rows, q);
        if Complete(env, cols, rows) then
          && PlainEach(env, cols, rows, q, 0).found.Some?
          && forall j: nat | j < |env.sig(cols[0]).ctors| && FoundUnder(env, cols, rows, q, j) ::
               FalseUnder(env, cols, rows, q, j)
        else if Exhausted(env, cols, rows) then
          && Plain(env, cols[1..], DefaultRows(rows), q[1..]).found.Some?
          && forall c | Builds(env, cols[0], c) && HeadOccurs(rows, c) :: !LeavesGap(env, cols, rows, q, c)
        else FalseAlarm(env, cols[1..], DefaultRows(rows), q[1..])
  }

  /** The query under the `j`th constructor of a complete signature is found useful. */
  ghost predicate FoundUnder(env: Types, cols: seq<TyId>, rows: seq<seq<Pat>>, q: seq<Pat>, j: nat)
    requires Query(env, cols, rows, q) && q != [] && q[0].Wild?
    requires Complete(env, cols, rows) && j < |env.sig(cols[0]).ctors|
  {
    var (c, tys) := env.sig(cols[0]).ctors[j];
    SpecializeQuery(env, cols, rows, q, c);
    Plain(env, tys + cols[1..], Specialized(rows, c, |tys|), Wilds(|tys|) + q[1..]).found.Some?
  }

  /** The query under the `j`th constructor is a false alarm. */
  ghost predicate FalseUnder(env: Types, cols: seq<TyId>, rows: seq<seq<Pat>>, q: seq<Pat>, j: nat)
    requires Query(env, cols, rows, q) && q != [] && q[0].Wild?
    requires Complete(env, cols, rows) && j < |env.sig(cols[0]).ctors|
    decreases MatrixNodes(rows) + RowNodes(q), |cols|, 0
  {
    var (c, tys) := env.sig(cols[0]).ctors[j];
    SpecializeQuery(env, cols, rows, q, c);
    FalseAlarm(env, tys + cols[1..], Specialized(rows, c, |tys|), Wilds(|tys|) + q[1..])
  }

  /** A false alarm is a well-typed query found useful without a gap. */
  lemma {:induction false} FalseAlarmIff(env: Types, cols: seq<TyId>, rows: seq<seq<Pat>>, q: seq<Pat>)
    requires Query(env, cols, rows, q) && AllTyped(env, q, cols)
    ensures FalseAlarm(env, cols, rows, q) <==> Plain(env, cols, rows, q).found.Some? && !Gap(env, cols, rows, q)
    decreases MatrixNodes(rows) + RowNodes(q), |cols|, 2
  {
    if q != [] {
      if q[0].Con? {
        SpecializeQuery(env, cols, rows, q, q[0].ctor);
        TypedUnder(env, cols, rows, q, q[0].ctor, q[0].subs);
        var tys := env.fields(cols[0], q[0].ctor);
        FalseAlarmIff(env, tys + cols[1..], Specialized(rows, q[0].ctor, |tys|), q[0].subs + q[1..]);
      } else {
        DefaultQuery(env, cols, rows, q);
        if Complete(env, cols, rows) {
          CompleteIff(env, cols, rows, q);
        } else if !Exhausted(env, cols, rows) {
          FalseAlarmIff(env, cols[1..], DefaultRows(rows), q[1..]);
        }
      }
    }
  }

  lemma {:induction false} CompleteIff(env: Types, cols: seq<TyId>, rows: seq<seq<Pat>>, q: seq<Pat>)
    requires Query(env, cols, rows, q) && AllTyped(env, q, cols) && q != [] && q[0].Wild? && Complete(env, cols, rows)
    ensures FalseAlarm(env, cols, rows, q) <==>
            PlainEach(env, cols, rows, q, 0).found.Some? && !Gap(env, cols, rows, q)
    decreases MatrixNodes(rows) + RowNodes(q), |cols|, 1
  {
    hide Plain, PlainEach, Specialized, MatrixNodes, RowNodes, AllShaped, Shaped, AllTyped, Typed;
    var ctors := env.sig(cols[0]).ctors;
    forall j: nat | j < |ctors|
      ensures FalseUnder(env, cols, rows, q, j)
              <==> FoundUnder(env, cols, rows, q, j) && !LeavesGap(env, cols, rows, q, ctors[j].0)
      ensures LeavesGap(env, cols, rows, q, ctors[j].0) ==> FoundUnder(env, cols, rows, q, j)
    {
      UnderIff(env, cols, rows, q, j);
    }
    CompleteGap(env, cols, rows, q);
    if PlainEach(env, cols, rows, q, 0).found.Some? {
      var j := EachFound(env, cols, rows, q, 0);
    }
  }

  lemma {:induction false} UnderIff(env: Types, cols: seq<TyId>, rows: seq<seq<Pat>>, q: seq<Pat>, j: nat)
    requires Query(env, cols, rows, q) && AllTyped(env, q, cols) && q != [] && q[0].Wild?
    requires Complete(env, cols, rows) && j < |env.sig(cols[0]).ctors|
    ensures var gap := LeavesGap(env, cols, rows, q, env.sig(cols[0]).ctors[j].0);
            && (FalseUnder(env, cols, rows, q, j) <==> FoundUnder(env, cols, rows, q, j) && !gap)
            && (gap ==> FoundUnder(env, cols, rows, q, j))
    decreases MatrixNodes(rows) + RowNodes(q), |cols|, 0
  {
    hide Plain, PlainEach, FalseAlarm, Gap, Specialized, AllShaped, Shaped, AllTyped, Typed;
    var (c, tys) := env.sig(cols[0]).ctors[j];
    SpecializeQuery(env, cols, rows, q, c);
    TypedUnder(env, cols, rows, q, c, Wilds(|tys|));
    FalseAlarmIff(env, tys + cols[1..], Specialized(rows, c, |tys|), Wilds(|tys|) + q[1..]);
    if Gap(env, tys + cols[1..], Specialized(rows, c, |tys|), Wilds(|tys|) + q[1..]) {
      GapIsFound(env, tys + cols[1..], Specialized(rows, c, |tys|), Wilds(|tys|) + q[1..]);
    }
  }

  lemma CompleteGap(env: Types, cols: seq<TyId>, rows: seq<seq<Pat>>, q: seq<Pat>)
    requires Query(env, cols, rows, q) && q != [] && q[0].Wild? && Complete(env, cols, rows)
    ensures Gap(env, cols, rows, q) <==>
            exists j: nat | j < |env.sig(cols[0]).ctors| :: LeavesGap(env, cols, rows, q, env.sig(cols[0]).ctors[j].0)
  {
    hide Plain, PlainEach, Specialized, MatrixNodes, RowNodes, AllShaped, Shaped;
    var ctors := env.sig(cols[0]).ctors;
    assert !LacksHead(env, cols[0], rows);
    assert Gap(env, cols, rows, q) <==>
           exists c | Builds(env, cols[0], c) && HeadOccurs(rows, c) :: LeavesGap(env, cols, rows, q, c);
    forall j: nat | j < |ctors| ensures Builds(env, cols[0], ctors[j].0) && HeadOccurs(rows, ctors[j].0) {
    }
  }

  /** The answer on a well-typed query, that some well-typed row of values is left, is right if and
      only if it is no false alarm. */
  lemma AnswerRightIff(env: Types, cols: seq<TyId>, rows: seq<seq<Pat>>, q: seq<Pat>)
    requires Query(env, cols, rows, q) && AllTyped(env, q, cols)
    ensures (Plain(env, cols, rows, q).found.Some?
             <==> exists vs :: HaveTypes(env, vs, cols) && RowMatches(q, vs) && !Covered(rows, vs))
            <==> !FalseAlarm(env, cols, rows, q)
  {
    hide Plain, FalseAlarm, Gap;
    FalseAlarmIff(env, cols, rows, q);
    GapIsExact(env, cols, rows, q);
    if Gap(env, cols, rows, q) {
      GapIsFound(env, cols, rows, q);
    }
  }

  // ---- Queries that meet no exhausted column ----

  /** No wildcard query the algorithm reaches has an exhausted column. */
  ghost predicate Clear(env: Types, cols: seq<TyId>, rows: seq<seq<Pat>>, q: seq<Pat>)
    requires Query(env, cols, rows, q)
    decreases MatrixNodes(rows) + RowNodes(q), |cols|, 1
  {
    if q == [] then true
    else
      match q[0]
      case Con(c, subs) =>
        SpecializeQuery(env, cols, rows, q, c);
        var tys := env.fields(cols[0], c);
        Clear(env, tys + cols[1..], Specialized(rows, c, |tys|), subs + q[1..])
      case Wild =>
        DefaultQuery(env, cols, rows, q);
        if Complete(env, cols, rows) then
          forall j: nat | j < |env.sig(cols[0]).ctors| :: ClearUnder(env, cols, rows, q, j)
        else !Exhausted(env, cols, rows) && Clear(env, cols[1..], DefaultRows(rows), q[1..])
  }

  ghost predicate ClearUnder(env: Types, cols: seq<TyId>, rows: seq<seq<Pat>>, q: seq<Pat>, j: nat)
    requires Query(env, cols, rows, q) && q != [] && q[0].Wild?
    requires Complete(env, cols, rows) && j < |env.sig(cols[0]).ctors|
    decreases MatrixNodes(rows) + RowNodes(q), |cols|, 0
  {
    var (c, tys) := env.sig(cols[0]).ctors[j];
    SpecializeQuery(env, cols, rows, q, c);
    Clear(env, tys + cols[1..], Specialized(rows, c, |tys|), Wilds(|tys|) + q[1..])
  }

  lemma {:induction false} ClearIsRight(env: Types, cols: seq<TyId>, rows: seq<seq<Pat>>, q: seq<Pat>)
    requires Query(env, cols, rows, q) && Clear(env, cols, rows, q)
    ensures !FalseAlarm(env, cols, rows, q)
    decreases MatrixNodes(rows) + RowNodes(q), |cols|
  {
    if q != [] {
      if q[0].Con? {
        SpecializeQuery(env, cols, rows, q, q[0].ctor);
        var tys := env.fields(cols[0], q[0].ctor);
        ClearIsRight(env, tys + cols[1..], Specialized(rows, q[0].ctor, |tys|), q[0].subs + q[1..]);
      } else {
        DefaultQuery(env, cols, rows, q);
        if !Complete(env, cols, rows) {
          ClearIsRight(env, cols[1..], DefaultRows(rows), q[1..]);
        } else if PlainEach(env, cols, rows, q, 0).found.Some? {
          var j := EachFound(env, cols, rows, q, 0);
          var (c, tys) := env.sig(cols[0]).ctors[j];
          SpecializeQuery(env, cols, rows, q, c);
          assert ClearUnder(env, cols, rows, q, j);
          ClearIsRight(env, tys + cols[1..], Specialized(rows, c, |tys|), Wilds(|tys|) + q[1..]);
          assert FoundUnder(env, cols, rows, q, j) && !FalseUnder(env, cols, rows, q, j);
        }
      }
    }
  }

  /** Where the algorithm meets no exhausted column, the decision is exact: a well-typed query is
      useful if and only if it matches some well-typed row of values that no row of the matrix
      matches. */
  lemma UsefulnessIsExact(env: Types, cols: seq<TyId>, rows: seq<seq<Pat>>, q: seq<Pat>)
    requires Query(env, cols, rows, q) && AllTyped(env, q, cols) && Clear(env, cols, rows, q)
    ensures Plain(env, cols, rows, q).found.Some? <==>
            exists vs :: HaveTypes(env, vs, cols) && RowMatches(q, vs) && !Covered(rows, vs)
  {
    hide Plain, FalseAlarm, Clear;
    ClearIsRight(env, cols, rows, q);
    AnswerRightIff(env, cols, rows, q);
  }

  // ---- Too few rows to exhaust a column ----

  /** The set of types is closed under components. */
  ghost predicate Reaches(env: Types, reach: iset<TyId>) {
    forall ty, c, t | ty in reach && Builds(env, ty, c) && t in env.fields(ty, c) :: t in reach
  }

  ghost predicate Within(tys: seq<TyId>, reach: iset<TyId>) {
    forall t | t in tys :: t in reach
  }

  /** Every type in play has values. */
  ghost predicate Inhabited(env: Types, reach: iset<TyId>) {
    Reaches(env, reach) && forall ty | ty in reach :: HasValue(env, ty)
  }

  /** Every integer type in play has more values than there are rows. */
  ghost predicate FewRows(env: Types, reach: iset<TyId>, n: nat) {
    forall ty | ty in reach && env.literals(ty).Integers? :: n <= env.literals(ty).max - env.literals(ty).min
  }

  lemma WithinNext(env: Types, reach: iset<TyId>, cols: seq<TyId>, c: Ctor)
    requires Reaches(env, reach) && cols != [] && Within(cols, reach) && Builds(env, cols[0], c)
    ensures Within(env.fields(cols[0], c), reach) && Within(env.fields(cols[0], c) + cols[1..], reach)
  {
  }

  lemma {:induction false} NoMoreRows(rows: seq<seq<Pat>>, c: Ctor, arity: nat)
    requires Heads(rows)
    ensures |Specialized(rows, c, arity)| <= |rows| && |DefaultRows(rows)| <= |rows|
  {
    if rows != [] {
      NoMoreRows(rows[1..], c, arity);
    }
  }

  lemma FewRowsLeave(env: Types, cols: seq<TyId>, rows: seq<seq<Pat>>, reach: iset<TyId>)
    requires Coherent(env) && cols != [] && Heads(rows)
    requires Inhabited(env, reach) && cols[0] in reach && FewRows(env, reach, |rows|)
    ensures !Exhausted(env, cols, rows)
  {
    ExhaustedIff(env, cols, rows);
    match env.sig(cols[0]) {
      case Finite(ctors) =>
        forall k | 0 <= k < |ctors| ensures AllHaveValues(env, ctors[k].1) {
          assert Builds(env, cols[0], ctors[k].0);
        }
      case Infinite =>
        assert HasValue(env, cols[0]);
        if env.literals(cols[0]).Integers? {
          var Integers(min, max) := env.literals(cols[0]);
          var k := Unheaded(rows, (i: nat) => Int(min + i), max - min + 1);
        }
    }
  }

  /** With values in every type in play, and fewer rows than any integer type in play has values, no
      column is exhausted. */
  lemma {:induction false} FewRowsClear(env: Types, cols: seq<TyId>, rows: seq<seq<Pat>>, q: seq<Pat>, reach: iset<TyId>)
    requires Query(env, cols, rows, q) && AllTyped(env, q, cols)
    requires Inhabited(env, reach) && Within(cols, reach) && FewRows(env, reach, |rows|)
    ensures Clear(env, cols, rows, q)
    decreases MatrixNodes(rows) + RowNodes(q), |cols|, 1
  {
    if q != [] {
      if q[0].Con? {
        SpecializeQuery(env, cols, rows, q, q[0].ctor);
        FewRowsUnder(env, cols, rows, q, q[0].ctor, q[0].subs, reach);
      } else {
        DefaultQuery(env, cols, rows, q);
        if Complete(env, cols, rows) {
          forall j: nat | j < |env.sig(cols[0]).ctors| ensures ClearUnder(env, cols, rows, q, j) {
            var (c, tys) := env.sig(cols[0]).ctors[j];
            SpecializeQuery(env, cols, rows, q, c);
            assert Builds(env, cols[0], c);
            FewRowsUnder(env, cols, rows, q, c, Wilds(|tys|), reach);
          }
        } else {
          NoMoreRows(rows, Tuple(0), 0);
          FewRowsLeave(env, cols, rows, reach);
          FewRowsClear(env, cols[1..], DefaultRows(rows), q[1..], reach);
        }
      }
    }
  }

  lemma {:induction false} FewRowsUnder(env: Types, cols: seq<TyId>, rows: seq<seq<Pat>>, q: seq<Pat>, c: Ctor,
                                        subs: seq<Pat>, reach: iset<TyId>)
    requires Query(env, cols, rows, q) && q != [] && Heads(rows) && AllTyped(env, q, cols)
    requires Inhabited(env, reach) && Within(cols, reach) && FewRows(env, reach, |rows|) && Builds(env, cols[0], c)
    requires q[0] == Con(c, subs) || (q[0].Wild? && HeadOccurs(rows, c) && subs == Wilds(|env.fields(cols[0], c)|))
    requires var tys := env.fields(cols[0], c);
             Query(env, tys + cols[1..], Specialized(rows, c, |tys|), subs + q[1..])
    ensures var tys := env.fields(cols[0], c);
            Clear(env, tys + cols[1..], Specialized(rows, c, |tys|), subs + q[1..])
    decreases MatrixNodes(rows) + RowNodes(q), |cols|, 0
  {
    hide Clear, Specialized;
    var tys := env.fields(cols[0], c);
    SpecializeQuery(env, cols, rows, q, c);
    TypedUnder(env, cols, rows, q, c, subs);
    WithinNext(env, reach, cols, c);
    NoMoreRows(rows, c, |tys|);
    FewRowsClear(env, tys + cols[1..], Specialized(rows, c, |tys|), subs + q[1..], reach);
  }
}
