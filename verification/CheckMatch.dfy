/** Checking one `match` within the step budget (crates/fors-check/src/exhaust.rs): the budgeted
    walk refines the plain algorithm; what its report means, and when it is complete. */
module CheckMatch {
  import opened Wrappers
  import opened Patterns
  import opened Usefulness
  import opened Exactness
  import opened Gaps
  import opened FalseAlarms
  import opened Witnesses

  const TY_ERROR: TyId := 0
  const NO_TY: TyId := 0xFFFF_FFFF
  const MATCH_STEP_FACTOR: nat := 256

  class Budget {
    var steps: nat
    const limit: nat

    constructor (limit: nat)
      ensures steps == 0 && this.limit == limit
    {
      this.steps, this.limit := 0, limit;
    }

    method Charge(n: nat) returns (ok: bool)
      modifies this`steps
      ensures steps == old(steps) + n && (ok <==> steps <= limit)
    {
      steps := steps + n;
      ok := steps <= limit;
    }
  }

  // ---- Counting against a limit ----

  function Total(charges: seq<nat>): nat {
    if charges == [] then 0 else charges[0] + Total(charges[1..])
  }

  /** The count when charging stops: at the first charge that takes it over the limit, or at the end. */
  function CountUntil(charges: seq<nat>, count: nat, limit: nat): nat {
    if charges == [] then count
    else if count + charges[0] > limit then count + charges[0]
    else CountUntil(charges[1..], count + charges[0], limit)
  }

  /** The count stops beyond the limit exactly when all charges together pass it. */
  lemma {:induction false} CountStops(charges: seq<nat>, count: nat, limit: nat)
    requires count <= limit
    ensures CountUntil(charges, count, limit) <= count + Total(charges)
    ensures CountUntil(charges, count, limit) > limit <==> count + Total(charges) > limit
    ensures count + Total(charges) <= limit ==> CountUntil(charges, count, limit) == count + Total(charges)
  {
    if charges != [] && count + charges[0] <= limit {
      CountStops(charges[1..], count + charges[0], limit);
    }
  }

  lemma {:induction false} CountOn(a: seq<nat>, b: seq<nat>, count: nat, limit: nat)
    requires count <= limit
    ensures Total(a + b) == Total(a) + Total(b)
    ensures CountUntil(a + b, count, limit)
            == if count + Total(a) > limit then CountUntil(a, count, limit)
               else CountUntil(b, count + Total(a), limit)
    decreases |a|
  {
    if a == [] {
      assert a + b == b;
    } else {
      assert (a + b)[1..] == a[1..] + b;
      CountOn(a[1..], b, if count + a[0] > limit then 0 else count + a[0], limit);
    }
  }

  lemma CountFirst(x: nat, rest: seq<nat>, count: nat, limit: nat)
    ensures Total([x] + rest) == x + Total(rest)
    ensures CountUntil([x] + rest, count, limit)
            == if count + x > limit then count + x else CountUntil(rest, count + x, limit)
  {
    assert ([x] + rest)[1..] == rest;
  }

  method Specialize(rows: seq<seq<Pat>>, c: Ctor, arity: nat) returns (out: seq<seq<Pat>>)
    requires Heads(rows)
    ensures out == Specialized(rows, c, arity)
  {
    out := [];
    for i := 0 to |rows|
      invariant out == Specialized(rows[..i], c, arity)
    {
      var r := rows[i];
      assert rows[..i + 1] == rows[..i] + [r];
      SpecializedSnoc(rows[..i], r, c, arity);
      match r[0] {
        case Wild =>
          out := out + [Wilds(arity) + r[1..]];
        case Con(rc, subs) =>
          if rc == c {
            out := out + [subs + r[1..]];
          }
      }
    }
    assert rows[..|rows|] == rows;
  }

  lemma {:induction false} SpecializedSnoc(rows: seq<seq<Pat>>, r: seq<Pat>, c: Ctor, arity: nat)
    requires Heads(rows) && r != []
    ensures Specialized(rows + [r], c, arity) == Specialized(rows, c, arity) + SpecializedRow(r, c, arity)
  {
    if rows != [] {
      SpecializedSnoc(rows[1..], r, c, arity);
      assert (rows + [r])[1..] == rows[1..] + [r];
    }
  }

  method FindLiteral(isStr: bool, rows: seq<seq<Pat>>) returns (w: Witness)
    requires Heads(rows)
    ensures w == MissingLiteral(isStr, rows, 0)
  {
    for n := 0 to |rows| + 1
      invariant MissingLiteral(isStr, rows, n) == MissingLiteral(isStr, rows, 0)
    {
      if !HeadOccurs(rows, Candidate(isStr, n)) {
        return Of(Candidate(isStr, n), []);
      }
    }
    w := Any;
  }

  /** The budgeted walk: it aborts exactly when the plain algorithm's steps exceed what is left,
      and otherwise gives the plain algorithm's answer at the plain algorithm's cost. */
  method Useful(env: Types, cols: seq<TyId>, rows: seq<seq<Pat>>, q: seq<Pat>, budget: Budget)
    returns (r: Option<Option<seq<Witness>>>)
    requires Query(env, cols, rows, q)
    modifies budget`steps
    ensures r.None? <==> old(budget.steps) + Total(Plain(env, cols, rows, q).charges) > budget.limit
    ensures r.Some? ==> r.value == Plain(env, cols, rows, q).found
    ensures budget.steps == CountUntil(Plain(env, cols, rows, q).charges, old(budget.steps), budget.limit)
    decreases MatrixNodes(rows) + RowNodes(q), |cols|
  {
    ghost var run := Plain(env, cols, rows, q).charges;
    assert run == [|rows|] + run[1..];
    CountFirst(|rows|, run[1..], budget.steps, budget.limit);
    var ok := budget.Charge(|rows|);
    if !ok {
      return None;
    }
    if q == [] {
      return Some(if rows == [] then Some([]) else None);
    }
    match q[0] {
      case Con(c, subs) =>
        SpecializeQuery(env, cols, rows, q, c);
        var tys := env.fields(cols[0], c);
        var spec := Specialize(rows, c, |tys|);
        var sub := Useful(env, tys + cols[1..], spec, subs + q[1..], budget);
        if sub.None? {
          return None;
        }
        return Some(CombineFound(c, |tys|, sub.value));
      case Wild =>
        DefaultQuery(env, cols, rows, q);
        match env.sig(cols[0]) {
          case Finite(ctors) =>
            var missing := FirstMissing(ctors, rows, 0);
            if missing.None? {
              r := UsefulEach(env, cols, rows, q, budget);
            } else {
              var sub := Useful(env, cols[1..], DefaultRows(rows), q[1..], budget);
              if sub.None? {
                return None;
              }
              var (mc, msub) := ctors[missing.value];
              return Some(PrefixFound(Of(mc, Anys(|msub|)), sub.value));
            }
          case Infinite =>
            var sub := Useful(env, cols[1..], DefaultRows(rows), q[1..], budget);
            if sub.None? {
              return None;
            }
            var w0 := FindLiteral(env.literals(cols[0]).Strings?, rows);
            return Some(PrefixFound(w0, sub.value));
        }
    }
  }

  /** The loop over a complete signature: every constructor is tried, whatever was found. */
  method UsefulEach(env: Types, cols: seq<TyId>, rows: seq<seq<Pat>>, q: seq<Pat>, budget: Budget)
    returns (r: Option<Option<seq<Witness>>>)
    requires Query(env, cols, rows, q) && q != [] && q[0].Wild? && Complete(env, cols, rows)
    requires budget.steps <= budget.limit
    modifies budget`steps
    ensures r.None? <==> old(budget.steps) + Total(PlainEach(env, cols, rows, q, 0).charges) > budget.limit
    ensures r.Some? ==> r.value == PlainEach(env, cols, rows, q, 0).found
    ensures budget.steps == CountUntil(PlainEach(env, cols, rows, q, 0).charges, old(budget.steps), budget.limit)
    decreases MatrixNodes(rows) + RowNodes(q), |cols|, 0
  {
    hide Plain, PlainEach, Total, CountUntil, Matrix, AllShaped, HeadOccurs, Specialized, MatrixNodes, RowNodes;
    var ctors := env.sig(cols[0]).ctors;
    var first: Option<seq<Witness>> := None;
    for k := 0 to |ctors|
      invariant budget.steps <= budget.limit
      invariant budget.steps + Total(PlainEach(env, cols, rows, q, k).charges)
                == old(budget.steps) + Total(PlainEach(env, cols, rows, q, 0).charges)
      invariant CountUntil(PlainEach(env, cols, rows, q, k).charges, budget.steps, budget.limit)
                == CountUntil(PlainEach(env, cols, rows, q, 0).charges, old(budget.steps), budget.limit)
      invariant (if first.Some? then first else PlainEach(env, cols, rows, q, k).found)
                == PlainEach(env, cols, rows, q, 0).found
    {
      var (c, tys) := ctors[k];
      SpecializeQuery(env, cols, rows, q, c);
      var spec := Specialize(rows, c, |tys|);
      CountEach(env, cols, rows, q, k, budget.steps, budget.limit);
      var sub := Useful(env, tys + cols[1..], spec, Wilds(|tys|) + q[1..], budget);
      if sub.None? {
        return None;
      }
      if first.None? && sub.value.Some? {
        first := Some(Combine(c, |tys|, sub.value.value));
      }
    }
    NoneLeft(env, cols, rows, q, budget.steps, budget.limit);
    r := Some(first);
  }

  lemma NoneLeft(env: Types, cols: seq<TyId>, rows: seq<seq<Pat>>, q: seq<Pat>, count: nat, limit: nat)
    requires Query(env, cols, rows, q) && q != [] && q[0].Wild? && Complete(env, cols, rows)
    ensures var last := PlainEach(env, cols, rows, q, |env.sig(cols[0]).ctors|);
            last.found.None? && Total(last.charges) == 0 && CountUntil(last.charges, count, limit) == count
  {
  }

  /** The `k`th constructor's query, begun at `count`, and the queries after it. */
  lemma CountEach(env: Types, cols: seq<TyId>, rows: seq<seq<Pat>>, q: seq<Pat>, k: nat, count: nat, limit: nat)
    requires Query(env, cols, rows, q) && q != [] && q[0].Wild? && Complete(env, cols, rows)
    requires k < |env.sig(cols[0]).ctors| && count <= limit
    ensures var (c, tys) := env.sig(cols[0]).ctors[k];
            && Query(env, tys + cols[1..], Specialized(rows, c, |tys|), Wilds(|tys|) + q[1..])
            && var here := Plain(env, tys + cols[1..], Specialized(rows, c, |tys|), Wilds(|tys|) + q[1..]);
            var each, rest := PlainEach(env, cols, rows, q, k), PlainEach(env, cols, rows, q, k + 1);
            && each.found == (if here.found.Some? then CombineFound(c, |tys|, here.found) else rest.found)
            && Total(each.charges) == Total(here.charges) + Total(rest.charges)
            && CountUntil(each.charges, count, limit)
               == (if count + Total(here.charges) > limit then CountUntil(here.charges, count, limit)
                   else CountUntil(rest.charges, count + Total(here.charges), limit))
            && (count + Total(here.charges) <= limit ==>
                  CountUntil(here.charges, count, limit) == count + Total(here.charges))
  {
    hide Plain, Total, CountUntil, Matrix, AllShaped, HeadOccurs, Specialized;
    var (c, tys) := env.sig(cols[0]).ctors[k];
    SpecializeQuery(env, cols, rows, q, c);
    var here := Plain(env, tys + cols[1..], Specialized(rows, c, |tys|), Wilds(|tys|) + q[1..]);
    var rest := PlainEach(env, cols, rows, q, k + 1);
    CountOn(here.charges, rest.charges, count, limit);
    CountStops(here.charges, count, limit);
  }

  // ---- One `match` ----

  type Arm = (nat, Pat)

  datatype Report =
    | Silent
    | Exceeded(steps: nat, limit: nat)
    | Finished(steps: nat, unreachable: seq<nat>, missing: Option<Witness>)

  function FirstRows(arms: seq<Arm>, n: nat): (rows: seq<seq<Pat>>)
    requires n <= |arms|
    ensures |rows| == n && forall i | 0 <= i < n :: rows[i] == [arms[i].1]
  {
    seq(n, i requires 0 <= i < n => [arms[i].1])
  }

  ghost predicate Match(env: Types, arms: seq<Arm>, s: TyId) {
    Coherent(env) && forall i | 0 <= i < |arms| :: AllShaped(env, [arms[i].1], [s])
  }

  /** The query for arm `i` against the arms before it; for `i == |arms|`, the wildcard query. */
  ghost function ArmRun(env: Types, arms: seq<Arm>, s: TyId, i: nat): Run
    requires Match(env, arms, s) && i <= |arms|
  {
    WildsFacts(env, [s]);
    assert Wilds(1) == [Wild];
    Plain(env, [s], FirstRows(arms, i), [if i < |arms| then arms[i].1 else Wild])
  }

  ghost function ChargesBefore(env: Types, arms: seq<Arm>, s: TyId, i: nat): seq<nat>
    requires Match(env, arms, s) && i <= |arms| + 1
  {
    if i == 0 then [] else ChargesBefore(env, arms, s, i - 1) + ArmRun(env, arms, s, i - 1).charges
  }

  ghost function UnreachableBefore(env: Types, arms: seq<Arm>, s: TyId, i: nat): seq<nat>
    requires Match(env, arms, s) && i <= |arms|
  {
    if i == 0 then []
    else UnreachableBefore(env, arms, s, i - 1)
         + (if ArmRun(env, arms, s, i - 1).found.None? then [arms[i - 1].0] else [])
  }

  lemma {:induction false} ChargesSplit(env: Types, arms: seq<Arm>, s: TyId, i: nat, j: nat) returns (rest: seq<nat>)
    requires Match(env, arms, s) && i <= j <= |arms| + 1
    ensures ChargesBefore(env, arms, s, j) == ChargesBefore(env, arms, s, i) + rest
    decreases j
  {
    hide Plain, ArmRun, AllShaped, Shaped;
    rest := [];
    if i < j {
      rest := ChargesSplit(env, arms, s, i, j - 1);
      rest := rest + ArmRun(env, arms, s, j - 1).charges;
    }
  }

  /** Query `i`, begun after the queries before it, ends over the limit or not as all queries do. */
  lemma CountArm(env: Types, arms: seq<Arm>, s: TyId, i: nat, limit: nat)
    requires Match(env, arms, s) && i <= |arms| && Total(ChargesBefore(env, arms, s, i)) <= limit
    ensures var before := Total(ChargesBefore(env, arms, s, i));
            var run := ArmRun(env, arms, s, i).charges;
            var all := ChargesBefore(env, arms, s, |arms| + 1);
            && Total(ChargesBefore(env, arms, s, i + 1)) == before + Total(run)
            && (before + Total(run) <= limit ==> CountUntil(run, before, limit) == before + Total(run))
            && (before + Total(run) > limit ==>
                  Total(all) > limit && CountUntil(run, before, limit) == CountUntil(all, 0, limit))
  {
    hide Plain, AllShaped, Shaped, ArmRun;
    var before, run := ChargesBefore(env, arms, s, i), ArmRun(env, arms, s, i).charges;
    CountOn(before, run, 0, limit);
    CountStops(run, Total(before), limit);
    var rest := ChargesSplit(env, arms, s, i + 1, |arms| + 1);
    CountOn(before + run, rest, 0, limit);
  }

  ghost predicate Silenced(arms: seq<Arm>, s: TyId) {
    s == TY_ERROR || s == NO_TY || arms == []
  }

  ghost function FirstWitness(w: Option<seq<Witness>>): Option<Witness>
    requires w.Some? ==> w.value != []
  {
    if w.Some? then Some(w.value[0]) else None
  }

  /** The answers of a finished check are the plain algorithm's, arm by arm. */
  ghost predicate Decides(env: Types, arms: seq<Arm>, s: TyId, report: Report)
    requires Match(env, arms, s)
  {
    && report.Finished?
    && report.unreachable == UnreachableBefore(env, arms, s, |arms|)
    && report.missing == FirstWitness(ArmRun(env, arms, s, |arms|).found)
  }

  method CheckMatch(env: Types, arms: seq<Arm>, nodeCount: nat, s: TyId) returns (report: Report)
    requires Match(env, arms, s)
    ensures report.Silent? <==> Silenced(arms, s)
    ensures report.Exceeded? <==>
            !Silenced(arms, s) && Total(ChargesBefore(env, arms, s, |arms| + 1)) > MATCH_STEP_FACTOR * nodeCount
    ensures report.Exceeded? ==> report.limit == MATCH_STEP_FACTOR * nodeCount
    ensures report.Exceeded? ==>
              report.steps == CountUntil(ChargesBefore(env, arms, s, |arms| + 1), 0, report.limit)
    ensures report.Finished? ==> Decides(env, arms, s, report)
    ensures report.Finished? ==> report.steps == Total(ChargesBefore(env, arms, s, |arms| + 1))
  {
    hide Plain, AllShaped, Shaped;
    if s == TY_ERROR || s == NO_TY || arms == [] {
      return Silent;
    }
    var limit := MATCH_STEP_FACTOR * nodeCount;
    var budget := new Budget(limit);
    var unreachable: seq<nat> := [];
    for i := 0 to |arms|
      invariant budget.limit == limit
      invariant budget.steps == Total(ChargesBefore(env, arms, s, i)) <= limit
      invariant unreachable == UnreachableBefore(env, arms, s, i)
    {
      CountArm(env, arms, s, i, limit);
      var r := Useful(env, [s], FirstRows(arms, i), [arms[i].1], budget);
      if r.None? {
        return Exceeded(budget.steps, limit);
      }
      if r.value.None? {
        unreachable := unreachable + [arms[i].0];
      }
    }
    WildsFacts(env, [s]);
    assert Wilds(1) == [Wild];
    CountArm(env, arms, s, |arms|, limit);
    var r := Useful(env, [s], FirstRows(arms, |arms|), [Wild], budget);
    if r.None? {
      return Exceeded(budget.steps, limit);
    }
    report := Finished(budget.steps, unreachable, if r.value.Some? then Some(r.value.value[0]) else None);
  }

  // ---- What a report means ----

  /** First-match semantics. */
  function Chosen(arms: seq<Arm>, v: Value): Option<Arm> {
    if arms == [] then None
    else if Matches(arms[0].1, v) then Some(arms[0])
    else Chosen(arms[1..], v)
  }

  function Without(arms: seq<Arm>, dead: seq<nat>): seq<Arm> {
    if arms == [] then []
    else (if arms[0].0 in dead then [] else [arms[0]]) + Without(arms[1..], dead)
  }

  predicate DistinctNodes(arms: seq<Arm>) {
    forall i, j | 0 <= i < j < |arms| :: arms[i].0 != arms[j].0
  }

  lemma {:induction false} CoveredByArm(arms: seq<Arm>, n: nat, v: Value)
    requires n <= |arms|
    ensures Covered(FirstRows(arms, n), [v]) <==> exists i :: 0 <= i < n && Matches(arms[i].1, v)
  {
    if n > 0 {
      var last := arms[n - 1].1;
      CoveredByArm(arms, n - 1, v);
      assert FirstRows(arms, n) == FirstRows(arms, n - 1) + [[last]];
      CoveredAppend(FirstRows(arms, n - 1), [[last]], [v]);
      assert RowMatches([last], [v]) <==> Matches(last, v);
      assert Covered([[last]], [v]) <==> Matches(last, v);
    }
  }

  lemma {:induction false} UnreachableMeans(env: Types, arms: seq<Arm>, s: TyId, n: nat, k: nat)
    requires Match(env, arms, s) && DistinctNodes(arms) && n <= |arms| && k < |arms|
    ensures arms[k].0 in UnreachableBefore(env, arms, s, n) <==> k < n && ArmRun(env, arms, s, k).found.None?
  {
    if n > 0 {
      UnreachableMeans(env, arms, s, n - 1, k);
    }
  }

  /** A reported arm is never the first to match. */
  lemma DeadArmIsShadowed(env: Types, arms: seq<Arm>, s: TyId, k: nat, v: Value)
    requires Match(env, arms, s) && k < |arms| && ArmRun(env, arms, s, k).found.None?
    requires HasType(env, v, s) && Matches(arms[k].1, v)
    ensures exists i :: 0 <= i < k && Matches(arms[i].1, v)
  {
    assert HaveTypes(env, [v], [s]) && RowMatches([arms[k].1], [v]);
    NotUsefulIsCovered(env, [s], FirstRows(arms, k), [arms[k].1], [v]);
    CoveredByArm(arms, k, v);
  }

  lemma {:induction false} ChosenIsFirst(arms: seq<Arm>, k: nat, v: Value)
    requires k <= |arms| && forall i | 0 <= i < k :: !Matches(arms[i].1, v)
    requires k < |arms| ==> Matches(arms[k].1, v)
    ensures Chosen(arms, v) == if k < |arms| then Some(arms[k]) else None
  {
    if k > 0 {
      ChosenIsFirst(arms[1..], k - 1, v);
    }
  }

  lemma {:induction false} WithoutChooses(arms: seq<Arm>, dead: seq<nat>, v: Value)
    requires Chosen(arms, v).Some? ==> Chosen(arms, v).value.0 !in dead
    ensures Chosen(Without(arms, dead), v) == Chosen(arms, v)
  {
    if arms != [] {
      if !Matches(arms[0].1, v) {
        WithoutChooses(arms[1..], dead, v);
      }
      if arms[0].0 in dead {
        assert Without(arms, dead) == Without(arms[1..], dead);
      } else {
        assert Without(arms, dead)[1..] == Without(arms[1..], dead);
      }
    }
  }

  lemma FirstMatching(arms: seq<Arm>, v: Value) returns (k: nat)
    ensures k <= |arms| && (forall i | 0 <= i < k :: !Matches(arms[i].1, v))
    ensures k < |arms| ==> Matches(arms[k].1, v)
  {
    k := 0;
    while k < |arms| && !Matches(arms[k].1, v)
      invariant k <= |arms| && forall i | 0 <= i < k :: !Matches(arms[i].1, v)
    {
      k := k + 1;
    }
  }

  /** Deleting every arm reported as unreachable leaves the chosen arm unchanged, for every value
      of the scrutinee's type. */
  lemma DeletingUnreachableArms(env: Types, arms: seq<Arm>, s: TyId, report: Report, v: Value)
    requires Match(env, arms, s) && DistinctNodes(arms) && Decides(env, arms, s, report)
    requires HasType(env, v, s)
    ensures Chosen(Without(arms, report.unreachable), v) == Chosen(arms, v)
  {
    var k := FirstMatching(arms, v);
    ChosenIsFirst(arms, k, v);
    if k < |arms| {
      UnreachableMeans(env, arms, s, |arms|, k);
      if ArmRun(env, arms, s, k).found.None? {
        DeadArmIsShadowed(env, arms, s, k, v);
      }
    }
    WithoutChooses(arms, report.unreachable, v);
  }

  /** Without a missing witness no value of the type falls through; with one, every value the
      witness stands for does. */
  lemma ExhaustiveMeans(env: Types, arms: seq<Arm>, s: TyId, report: Report, v: Value)
    requires Match(env, arms, s) && Decides(env, arms, s, report)
    ensures report.missing.None? && HasType(env, v, s) ==> Chosen(arms, v).Some?
    ensures report.missing.Some? && Instance(report.missing.value, v) ==> Chosen(arms, v).None?
  {
    var k := FirstMatching(arms, v);
    ChosenIsFirst(arms, k, v);
    CoveredByArm(arms, |arms|, v);
    WildsFacts(env, [s]);
    assert Wilds(1) == [Wild] && RowMatches([Wild], [v]);
    var run := ArmRun(env, arms, s, |arms|);
    if run.found.None? && HasType(env, v, s) {
      assert HaveTypes(env, [v], [s]);
      NotUsefulIsCovered(env, [s], FirstRows(arms, |arms|), [Wild], [v]);
    }
    if run.found.Some? && Instance(run.found.value[0], v) {
      assert Instances(run.found.value, [v]);
      WitnessIsUncovered(env, [s], FirstRows(arms, |arms|), [Wild], [v]);
    }
  }

  lemma {:induction false} DeadArmIsNotChosen(env: Types, arms: seq<Arm>, s: TyId, k: nat, v: Value)
    requires Match(env, arms, s) && DistinctNodes(arms) && k < |arms|
    requires ArmRun(env, arms, s, k).found.None? && HasType(env, v, s)
    ensures Chosen(arms, v) != Some(arms[k])
  {
    var j := FirstMatching(arms, v);
    ChosenIsFirst(arms, j, v);
    if j < |arms| && arms[j] == arms[k] {
      DeadArmIsShadowed(env, arms, s, k, v);
    }
  }

  /** `v` is a value of the type that `p` matches and none of the first `n` arms does. */
  ghost predicate FirstToMatch(env: Types, arms: seq<Arm>, s: TyId, n: nat, p: Pat, v: Value)
    requires n <= |arms|
  {
    HasType(env, v, s) && Matches(p, v) && forall i | 0 <= i < n :: !Matches(arms[i].1, v)
  }

  /** The rows of arms leave a gap for a pattern if and only if it is the first to match some value. */
  lemma {:induction false} FirstMatchIffGap(env: Types, arms: seq<Arm>, s: TyId, n: nat, p: Pat)
    requires Match(env, arms, s) && n <= |arms| && Shaped(env, p, s) && Typed(env, p, s)
    ensures Query(env, [s], FirstRows(arms, n), [p])
    ensures Gap(env, [s], FirstRows(arms, n), [p]) <==>
            exists v :: FirstToMatch(env, arms, s, n, p, v)
  {
    hide Gap;
    var rows := FirstRows(arms, n);
    assert [p][1..] == [] && [s][1..] == [];
    assert AllTyped(env, [], []) && AllShaped(env, [], []);
    GapIsExact(env, [s], rows, [p]);
    if Gap(env, [s], rows, [p]) {
      var vs :| HaveTypes(env, vs, [s]) && RowMatches([p], vs) && !Covered(rows, vs);
      assert vs == [vs[0]] && HasType(env, vs[0], s) && Matches(p, vs[0]);
      CoveredByArm(arms, n, vs[0]);
      assert FirstToMatch(env, arms, s, n, p, vs[0]);
    }
    if exists v :: FirstToMatch(env, arms, s, n, p, v) {
      var v :| FirstToMatch(env, arms, s, n, p, v);
      CoveredByArm(arms, n, v);
      assert [v][1..] == [] && HaveTypes(env, [], []) && RowMatches([], []);
      assert HaveTypes(env, [v], [s]) && RowMatches([p], [v]);
    }
  }

  /** A well-typed arm is chosen by some value of the type if and only if the arms before it leave it
      a gap. */
  lemma {:induction false} ArmIffGap(env: Types, arms: seq<Arm>, s: TyId, k: nat)
    requires Match(env, arms, s) && DistinctNodes(arms) && k < |arms| && Typed(env, arms[k].1, s)
    ensures Query(env, [s], FirstRows(arms, k), [arms[k].1])
    ensures Gap(env, [s], FirstRows(arms, k), [arms[k].1]) <==>
            exists v :: HasType(env, v, s) && Chosen(arms, v) == Some(arms[k])
  {
    hide Gap;
    assert AllShaped(env, [arms[k].1], [s]);
    FirstMatchIffGap(env, arms, s, k, arms[k].1);
    if v :| HasType(env, v, s) && Chosen(arms, v) == Some(arms[k]) {
      var j := FirstMatching(arms, v);
      ChosenIsFirst(arms, j, v);
      assert arms[j] == arms[k];
      assert FirstToMatch(env, arms, s, k, arms[k].1, v);
    }
    if v :| FirstToMatch(env, arms, s, k, arms[k].1, v) {
      ChosenIsFirst(arms, k, v);
    }
  }

  /** Some value of the type falls through if and only if the arms leave the wildcard a gap. */
  lemma {:induction false} FallsThroughIffGap(env: Types, arms: seq<Arm>, s: TyId)
    requires Match(env, arms, s)
    ensures Query(env, [s], FirstRows(arms, |arms|), [Wild])
    ensures Gap(env, [s], FirstRows(arms, |arms|), [Wild]) <==>
            exists v :: HasType(env, v, s) && Chosen(arms, v).None?
  {
    hide Gap;
    FirstMatchIffGap(env, arms, s, |arms|, Wild);
    if v :| HasType(env, v, s) && Chosen(arms, v).None? {
      var j := FirstMatching(arms, v);
      ChosenIsFirst(arms, j, v);
      assert FirstToMatch(env, arms, s, |arms|, Wild, v);
    }
    if v :| FirstToMatch(env, arms, s, |arms|, Wild, v) {
      ChosenIsFirst(arms, |arms|, v);
    }
  }

  // ---- When the report is right ----

  /** What a report says of a well-typed arm, that no value of the type chooses it, is right if and
      only if the arm's query is no false alarm. */
  lemma {:induction false} UnreachableRightIff(env: Types, arms: seq<Arm>, s: TyId, report: Report, k: nat)
    requires Match(env, arms, s) && DistinctNodes(arms) && Decides(env, arms, s, report)
    requires k < |arms| && Typed(env, arms[k].1, s)
    ensures Query(env, [s], FirstRows(arms, k), [arms[k].1])
    ensures (arms[k].0 in report.unreachable <==> !exists v :: HasType(env, v, s) && Chosen(arms, v) == Some(arms[k]))
            <==> !FalseAlarm(env, [s], FirstRows(arms, k), [arms[k].1])
  {
    hide Gap, Plain, FalseAlarm, Shaped, Typed;
    UnreachableMeans(env, arms, s, |arms|, k);
    ArmIffGap(env, arms, s, k);
    assert AllTyped(env, [arms[k].1], [s]);
    FalseAlarmIff(env, [s], FirstRows(arms, k), [arms[k].1]);
    if Gap(env, [s], FirstRows(arms, k), [arms[k].1]) {
      GapIsFound(env, [s], FirstRows(arms, k), [arms[k].1]);
    }
  }

  /** What a report says of values falling through is right if and only if the wildcard's query is no
      false alarm. */
  lemma {:induction false} MissingRightIff(env: Types, arms: seq<Arm>, s: TyId, report: Report)
    requires Match(env, arms, s) && Decides(env, arms, s, report)
    ensures Query(env, [s], FirstRows(arms, |arms|), [Wild])
    ensures (report.missing.Some? <==> exists v :: HasType(env, v, s) && Chosen(arms, v).None?)
            <==> !FalseAlarm(env, [s], FirstRows(arms, |arms|), [Wild])
  {
    hide Gap, Plain, FalseAlarm;
    FallsThroughIffGap(env, arms, s);
    FalseAlarmIff(env, [s], FirstRows(arms, |arms|), [Wild]);
    if Gap(env, [s], FirstRows(arms, |arms|), [Wild]) {
      GapIsFound(env, [s], FirstRows(arms, |arms|), [Wild]);
    }
  }

  /** Where the wildcard's query meets no exhausted column, a missing witness is reported if and only if
      some value of the type falls through. */
  lemma {:induction false} ClearReportIsRight(env: Types, arms: seq<Arm>, s: TyId, report: Report)
    requires Match(env, arms, s) && Decides(env, arms, s, report)
    requires AllShaped(env, [Wild], [s]) && Clear(env, [s], FirstRows(arms, |arms|), [Wild])
    ensures report.missing.Some? <==> exists v :: HasType(env, v, s) && Chosen(arms, v).None?
  {
    hide Clear, FalseAlarm;
    MissingRightIff(env, arms, s, report);
    ClearIsRight(env, [s], FirstRows(arms, |arms|), [Wild]);
  }

  /** With values in every type in play, and fewer arms before it than any integer type in play has
      values, a well-typed arm is reported if and only if no value of the type chooses it. */
  lemma {:induction false} UnreachableIsExact(env: Types, arms: seq<Arm>, s: TyId, report: Report, k: nat, reach: iset<TyId>)
    requires Match(env, arms, s) && DistinctNodes(arms) && Decides(env, arms, s, report)
    requires k < |arms| && Typed(env, arms[k].1, s)
    requires Inhabited(env, reach) && s in reach && FewRows(env, reach, k)
    ensures arms[k].0 in report.unreachable <==> !exists v :: HasType(env, v, s) && Chosen(arms, v) == Some(arms[k])
  {
    hide Clear, FalseAlarm, Shaped, Typed;
    UnreachableRightIff(env, arms, s, report, k);
    assert AllTyped(env, [arms[k].1], [s]);
    FewRowsClear(env, [s], FirstRows(arms, k), [arms[k].1], reach);
    ClearIsRight(env, [s], FirstRows(arms, k), [arms[k].1]);
  }

  /** With values in every type in play, and fewer arms than any integer type in play has values, a
      missing witness is reported if and only if some value of the type falls through. */
  lemma {:induction false} MissingIsExact(env: Types, arms: seq<Arm>, s: TyId, report: Report, reach: iset<TyId>)
    requires Match(env, arms, s) && Decides(env, arms, s, report)
    requires Inhabited(env, reach) && s in reach && FewRows(env, reach, |arms|)
    ensures report.missing.Some? <==> exists v :: HasType(env, v, s) && Chosen(arms, v).None?
  {
    hide Clear;
    MissingRightIff(env, arms, s, report);
    FewRowsClear(env, [s], FirstRows(arms, |arms|), [Wild], reach);
    ClearReportIsRight(env, arms, s, report);
  }

  /** A reported witness stands for some value of the type if and only if every literal it needed
      could be named and every constructor it was given makes values. */
  lemma {:induction false} MissingWitnessIsReal(env: Types, arms: seq<Arm>, s: TyId, report: Report)
    requires Match(env, arms, s) && Decides(env, arms, s, report) && report.missing.Some?
    ensures Query(env, [s], FirstRows(arms, |arms|), [Wild])
    ensures Plain(env, [s], FirstRows(arms, |arms|), [Wild]).found.Some?
    ensures NamesValue(env, report.missing.value, s) <==> Names(env, [s], FirstRows(arms, |arms|), [Wild])
  {
    hide Names, Plain;
    WildsFacts(env, [s]);
    assert Wilds(1) == [Wild];
    var w := ArmRun(env, arms, s, |arms|).found.value;
    WitnessTypedIff(env, [s], FirstRows(arms, |arms|), [Wild]);
    PrefixTyped(env, [s], w[0], []);
    assert w == [w[0]] + [] && Instances([], []) && HaveTypes(env, [], []);
    assert TypedInstance(env, [], []);
  }
}
