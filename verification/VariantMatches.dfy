/** Matches on an enum with one arm a variant (crates/fors-check/src/exhaust.rs), where taking every
    variant for inhabited shows: exactly when the report is wrong. */
module VariantMatches {
  import opened Wrappers
  import opened Patterns
  import opened Usefulness
  import opened Exactness
  import opened Gaps
  import opened Witnesses
  import opened CheckMatch

  ghost predicate EnumType(env: Types, s: TyId, ctors: seq<(Ctor, seq<TyId>)>) {
    Coherent(env) && env.sig(s) == Finite(ctors)
  }

  /** One arm `variant(_, .., _)` for each pick. */
  ghost predicate Picks(arms: seq<Arm>, ctors: seq<(Ctor, seq<TyId>)>, picks: seq<nat>) {
    && |arms| == |picks| && DistinctNodes(arms)
    && forall i | 0 <= i < |picks| ::
         picks[i] < |ctors| && arms[i].1 == Con(ctors[picks[i]].0, Wilds(|ctors[picks[i]].1|))
  }

  lemma PicksMatch(env: Types, s: TyId, ctors: seq<(Ctor, seq<TyId>)>, arms: seq<Arm>, picks: seq<nat>)
    requires EnumType(env, s, ctors) && Picks(arms, ctors, picks)
    ensures Match(env, arms, s)
    ensures forall i | 0 <= i < |arms| :: Typed(env, arms[i].1, s)
  {
    forall i | 0 <= i < |arms| ensures AllShaped(env, [arms[i].1], [s]) && Typed(env, arms[i].1, s) {
      var (c, tys) := ctors[picks[i]];
      WildsFacts(env, tys);
      assert tys == env.fields(s, c) && Builds(env, s, c);
      assert [arms[i].1][1..] == [] && [s][1..] == [] && AllShaped(env, [], []);
    }
  }

  // ---- What falls through ----

  lemma PickMatches(env: Types, s: TyId, ctors: seq<(Ctor, seq<TyId>)>, arms: seq<Arm>, picks: seq<nat>, i: nat,
                    k: nat, v: Value)
    requires EnumType(env, s, ctors) && Picks(arms, ctors, picks) && i < |arms| && k < |ctors|
    requires v.Data? && v.ctor == ctors[k].0 && |v.subs| == |ctors[k].1|
    ensures Matches(arms[i].1, v) <==> picks[i] == k
  {
    WildsMatch(v.subs);
    assert picks[i] != k ==> ctors[picks[i]].0 != ctors[k].0;
  }

  /** Some value falls through exactly when some variant that makes values is not picked. */
  lemma FallsThroughIff(env: Types, s: TyId, ctors: seq<(Ctor, seq<TyId>)>, arms: seq<Arm>, picks: seq<nat>)
    requires EnumType(env, s, ctors) && Picks(arms, ctors, picks)
    ensures (exists v :: HasType(env, v, s) && Chosen(arms, v).None?)
            <==> exists k: nat | k < |ctors| :: k !in picks && AllHaveValues(env, ctors[k].1)
  {
    if v :| HasType(env, v, s) && Chosen(arms, v).None? {
      var k: nat :| k < |ctors| && ctors[k].0 == v.ctor;
      HaveTypesLength(env, v.subs, ctors[k].1);
      ComponentsHaveValues(env, v.subs, ctors[k].1);
      var j := FirstMatching(arms, v);
      ChosenIsFirst(arms, j, v);
      forall i | 0 <= i < |picks| ensures picks[i] != k {
        PickMatches(env, s, ctors, arms, picks, i, k, v);
      }
    }
    if k: nat :| k < |ctors| && k !in picks && AllHaveValues(env, ctors[k].1) {
      var vs := ValuesOf(env, ctors[k].1);
      HaveTypesLength(env, vs, ctors[k].1);
      var v := Data(ctors[k].0, vs);
      assert HasType(env, v, s);
      forall i | 0 <= i < |arms| ensures !Matches(arms[i].1, v) {
        PickMatches(env, s, ctors, arms, picks, i, k, v);
      }
      var j := FirstMatching(arms, v);
      ChosenIsFirst(arms, j, v);
    }
  }

  // ---- What is reported ----

  lemma PickHeads(env: Types, s: TyId, ctors: seq<(Ctor, seq<TyId>)>, arms: seq<Arm>, picks: seq<nat>, n: nat, k: nat)
    requires EnumType(env, s, ctors) && Picks(arms, ctors, picks) && n <= |arms| && k < |ctors|
    ensures HeadOccurs(FirstRows(arms, n), ctors[k].0) <==> k in picks[..n]
  {
    var rows: seq<seq<Pat>> := FirstRows(arms, n);
    if k in picks[..n] {
      var i :| 0 <= i < n && picks[i] == k;
      assert rows[i][0].ctor == ctors[k].0;
    }
    if HeadOccurs(rows, ctors[k].0) {
      var i :| 0 <= i < |rows| && rows[i][0].Con? && rows[i][0].ctor == ctors[k].0;
      assert ctors[picks[i]].0 == ctors[k].0;
      assert picks[..n][i] == k;
    }
  }

  /** Some value the witness stands for. */
  function SomeValue(w: Witness): Value
    decreases w, 0
  {
    match w
    case Any => Opaque(0)
    case Of(c, ws) => Data(c, SomeValues(ws))
  }

  function SomeValues(ws: seq<Witness>): (vs: seq<Value>)
    ensures |vs| == |ws| && Instances(ws, vs)
    decreases ws, 1
  {
    if ws == [] then []
    else
      var vs := [SomeValue(ws[0])] + SomeValues(ws[1..]);
      assert vs[1..] == SomeValues(ws[1..]);
      vs
  }

  /** Below a row of wildcards nothing is useful. */
  lemma WildRowCovers(env: Types, cols: seq<TyId>, rows: seq<seq<Pat>>, q: seq<Pat>)
    requires Query(env, cols, rows, q) && Wilds(|cols|) in rows
    ensures Plain(env, cols, rows, q).found.None?
  {
    hide Plain;
    if Plain(env, cols, rows, q).found.Some? {
      var w := Plain(env, cols, rows, q).found.value;
      var vs := SomeValues(w);
      WitnessIsUncovered(env, cols, rows, q, vs);
      WildsMatch(vs);
      RowCovers(rows, Wilds(|cols|), vs);
    }
  }

  lemma {:induction false} RowCovers(rows: seq<seq<Pat>>, r: seq<Pat>, vs: seq<Value>)
    requires r in rows && RowMatches(r, vs)
    ensures Covered(rows, vs)
  {
    if rows[0] != r {
      RowCovers(rows[1..], r, vs);
    }
  }

  lemma {:induction false} SpecializedHolds(rows: seq<seq<Pat>>, c: Ctor, arity: nat, i: nat)
    requires Heads(rows) && i < |rows| && rows[i][0].Con? && rows[i][0].ctor == c
    ensures rows[i][0].subs + rows[i][1..] in Specialized(rows, c, arity)
  {
    if i > 0 {
      SpecializedHolds(rows[1..], c, arity, i - 1);
    }
  }

  lemma {:induction false} NothingSpecialized(rows: seq<seq<Pat>>, c: Ctor, arity: nat)
    requires Heads(rows) && !HeadOccurs(rows, c) && forall i | 0 <= i < |rows| :: rows[i][0].Con?
    ensures Specialized(rows, c, arity) == []
  {
    if rows != [] {
      HeadOccursCons(rows, c);
      NothingSpecialized(rows[1..], c, arity);
    }
  }

  /** Against no rows wildcards are useful. */
  lemma {:induction false} NoRowsFound(env: Types, cols: seq<TyId>)
    requires Coherent(env)
    ensures Query(env, cols, [], Wilds(|cols|)) && Plain(env, cols, [], Wilds(|cols|)).found.Some?
  {
    WildsFacts(env, cols);
    if cols != [] {
      NoRowsFound(env, cols[1..]);
      assert Wilds(|cols|)[1..] == Wilds(|cols[1..]|);
      assert env.sig(cols[0]).Finite? ==> !HeadOccurs([], env.sig(cols[0]).ctors[0].0);
    }
  }

  /** The query under a variant: useful exactly when the variant is not picked before. */
  lemma UnderPick(env: Types, s: TyId, ctors: seq<(Ctor, seq<TyId>)>, arms: seq<Arm>, picks: seq<nat>, n: nat, k: nat)
    requires EnumType(env, s, ctors) && Picks(arms, ctors, picks) && n <= |arms| && k < |ctors|
    ensures var (c, tys) := ctors[k];
            var spec := Specialized(FirstRows(arms, n), c, |tys|);
            && Query(env, tys, spec, Wilds(|tys|))
            && (Plain(env, tys, spec, Wilds(|tys|)).found.Some? <==> k !in picks[..n])
  {
    hide Plain;
    var rows: seq<seq<Pat>> := FirstRows(arms, n);
    var (c, tys) := ctors[k];
    PicksMatch(env, s, ctors, arms, picks);
    PickHeads(env, s, ctors, arms, picks, n, k);
    SpecializedFacts(env, [s], rows, c);
    assert tys + [s][1..] == tys;
    WildsFacts(env, tys);
    if k in picks[..n] {
      var i :| 0 <= i < n && picks[i] == k;
      SpecializedHolds(rows, c, |tys|, i);
      assert rows[i][0].subs + rows[i][1..] == Wilds(|tys|);
      WildRowCovers(env, tys, Specialized(rows, c, |tys|), Wilds(|tys|));
    } else {
      NothingSpecialized(rows, c, |tys|);
      NoRowsFound(env, tys);
    }
  }

  /** A witness is reported exactly when some variant is not picked. */
  lemma ReportedIff(env: Types, s: TyId, ctors: seq<(Ctor, seq<TyId>)>, arms: seq<Arm>, picks: seq<nat>, report: Report)
    requires EnumType(env, s, ctors) && Picks(arms, ctors, picks)
    ensures Match(env, arms, s)
    ensures Decides(env, arms, s, report) ==>
              (report.missing.Some? <==> exists k: nat | k < |ctors| :: k !in picks)
  {
    PicksMatch(env, s, ctors, arms, picks);
    if Decides(env, arms, s, report) {
      var rows: seq<seq<Pat>> := FirstRows(arms, |arms|);
      assert picks[..|arms|] == picks;
      forall k: nat | k < |ctors| ensures HeadOccurs(rows, ctors[k].0) <==> k in picks {
        PickHeads(env, s, ctors, arms, picks, |arms|, k);
      }
      WildsFacts(env, [s]);
      assert Wilds(1) == [Wild] && [Wild][1..] == [] && [s][1..] == [];
      DefaultQuery(env, [s], rows, [Wild]);
      if Complete(env, [s], rows) {
        hide Plain, Specialized, HeadOccurs;
        if PlainEach(env, [s], rows, [Wild], 0).found.Some? {
          var j := EachFound(env, [s], rows, [Wild], 0);
          var (c, tys) := ctors[j];
          assert tys + [s][1..] == tys && Wilds(|tys|) + [Wild][1..] == Wilds(|tys|);
          UnderPick(env, s, ctors, arms, picks, |arms|, j);
          assert false;
        }
        assert ArmRun(env, arms, s, |arms|).found == PlainEach(env, [s], rows, [Wild], 0).found by {
          PlainComplete(env, [s], rows, [Wild]);
        }
      } else {
        WildcardInDefault(rows);
        assert Plain(env, [], DefaultRows(rows), []).found.Some?;
      }
    }
  }

  lemma PlainComplete(env: Types, cols: seq<TyId>, rows: seq<seq<Pat>>, q: seq<Pat>)
    requires Query(env, cols, rows, q) && q != [] && q[0].Wild? && Complete(env, cols, rows)
    ensures Plain(env, cols, rows, q).found == PlainEach(env, cols, rows, q, 0).found
  {
  }

  /** The report on an enum matched variant by variant is right about values falling through if and
      only if every variant is picked, or one that makes values is not. */
  lemma VariantMatchExact(env: Types, s: TyId, ctors: seq<(Ctor, seq<TyId>)>, arms: seq<Arm>, picks: seq<nat>, report: Report)
    requires EnumType(env, s, ctors) && Picks(arms, ctors, picks)
    ensures Match(env, arms, s)
    ensures Decides(env, arms, s, report) ==>
              ((report.missing.Some? <==> exists v :: HasType(env, v, s) && Chosen(arms, v).None?)
               <==> || (forall k: nat | k < |ctors| :: k in picks)
                    || (exists k: nat | k < |ctors| :: k !in picks && AllHaveValues(env, ctors[k].1)))
  {
    ReportedIff(env, s, ctors, arms, picks, report);
    FallsThroughIff(env, s, ctors, arms, picks);
  }

  /** An arm is reported exactly when its variant is picked before; this is right if and only if it is,
      or the variant makes values. */
  lemma VariantArmExact(env: Types, s: TyId, ctors: seq<(Ctor, seq<TyId>)>, arms: seq<Arm>, picks: seq<nat>, k: nat,
                        report: Report)
    requires EnumType(env, s, ctors) && Picks(arms, ctors, picks) && k < |arms|
    ensures Match(env, arms, s)
    ensures Decides(env, arms, s, report) ==>
              && (arms[k].0 in report.unreachable <==> picks[k] in picks[..k])
              && ((arms[k].0 in report.unreachable
                   <==> !exists v :: HasType(env, v, s) && Chosen(arms, v) == Some(arms[k]))
                  <==> picks[k] in picks[..k] || AllHaveValues(env, ctors[picks[k]].1))
  {
    PicksMatch(env, s, ctors, arms, picks);
    if Decides(env, arms, s, report) {
      var (c, tys) := ctors[picks[k]];
      UnreachableMeans(env, arms, s, |arms|, k);
      UnderPick(env, s, ctors, arms, picks, k, picks[k]);
      assert tys + [s][1..] == tys && Wilds(|tys|) + [arms[k].1][1..] == Wilds(|tys|);
      assert ArmRun(env, arms, s, k).found.None? <==> picks[k] in picks[..k];
      PickIsChosen(env, s, ctors, arms, picks, k);
    }
  }

  lemma PickIsChosen(env: Types, s: TyId, ctors: seq<(Ctor, seq<TyId>)>, arms: seq<Arm>, picks: seq<nat>, k: nat)
    requires EnumType(env, s, ctors) && Picks(arms, ctors, picks) && k < |arms|
    ensures (exists v :: HasType(env, v, s) && Chosen(arms, v) == Some(arms[k]))
            <==> picks[k] !in picks[..k] && AllHaveValues(env, ctors[picks[k]].1)
  {
    var (c, tys) := ctors[picks[k]];
    if v :| HasType(env, v, s) && Chosen(arms, v) == Some(arms[k]) {
      var j := FirstMatching(arms, v);
      ChosenIsFirst(arms, j, v);
      assert arms[j] == arms[k] && j == k;
      ComponentsHaveValues(env, v.subs, tys);
      HaveTypesLength(env, v.subs, tys);
      forall i | 0 <= i < k ensures picks[i] != picks[k] {
        PickMatches(env, s, ctors, arms, picks, i, picks[k], v);
      }
    }
    if picks[k] !in picks[..k] && AllHaveValues(env, tys) {
      var vs := ValuesOf(env, tys);
      HaveTypesLength(env, vs, tys);
      var v := Data(c, vs);
      assert HasType(env, v, s);
      forall i | 0 <= i <= k ensures Matches(arms[i].1, v) <==> i == k {
        PickMatches(env, s, ctors, arms, picks, i, picks[k], v);
        assert i < k ==> picks[..k][i] == picks[i];
      }
      ChosenIsFirst(arms, k, v);
    }
  }

  // ---- A variant that holds `never` ----

  lemma NeverHasNoValue(env: Types, never: TyId)
    requires env.sig(never).Infinite? && env.literals(never).NoValues?
    ensures !HasValue(env, never)
  {
  }

  /** An enum `ok(i32)`, `bad(never)`: matching `ok(_)` alone handles every value and is reported;
      with an arm `bad(_)` besides, no value chooses that arm, and nothing is reported. */
  lemma NeverIsReported(env: Types, s: TyId, int32: TyId, never: TyId, okay: Ctor, bad: Ctor, report: Report)
    requires EnumType(env, s, [(okay, [int32]), (bad, [never])])
    requires env.sig(int32).Infinite? && env.literals(int32) == Integers(-0x8000_0000, 0x7FFF_FFFF)
    requires env.sig(never).Infinite? && env.literals(never).NoValues?
    ensures var one, two := [(0, Con(okay, [Wild]))], [(0, Con(okay, [Wild])), (1, Con(bad, [Wild]))];
            && Match(env, one, s) && Match(env, two, s)
            && (Decides(env, one, s, report) ==> report.missing.Some?)
            && (forall v | HasType(env, v, s) :: Chosen(one, v).Some?)
            && (Decides(env, two, s, report) ==> report.missing.None? && report.unreachable == [])
            && (forall v | HasType(env, v, s) :: Chosen(two, v) != Some(two[1]))
  {
    var ctors := [(okay, [int32]), (bad, [never])];
    var one, two := [(0, Con(okay, [Wild]))], [(0, Con(okay, [Wild])), (1, Con(bad, [Wild]))];
    assert Wilds(1) == [Wild];
    NeverHasNoValue(env, never);
    assert never in ctors[1].1 && !AllHaveValues(env, ctors[1].1);
    ReportedIff(env, s, ctors, one, [0], report);
    FallsThroughIff(env, s, ctors, one, [0]);
    assert 1 !in [0];
    ReportedIff(env, s, ctors, two, [0, 1], report);
    VariantArmExact(env, s, ctors, two, [0, 1], 0, report);
    VariantArmExact(env, s, ctors, two, [0, 1], 1, report);
    PickIsChosen(env, s, ctors, two, [0, 1], 1);
    if Decides(env, two, s, report) {
      hide ArmRun;
      UnreachableMeans(env, two, s, 2, 0);
      UnreachableMeans(env, two, s, 2, 1);
      assert UnreachableBefore(env, two, s, 1) == [] && UnreachableBefore(env, two, s, 2) == [];
    }
  }
}
