/** What the step count of a `match` counts (crates/fors-check/src/exhaust.rs): every row of every
    matrix the queries form, and where that leads on matches of integer literals. */
module Steps {
  import opened Wrappers
  import opened Patterns
  import opened Usefulness
  import opened Exactness
  import opened CheckMatch

  // ---- The queries a query leads to ----

  /** One usefulness query: its columns' types, its matrix and its row. */
  datatype Ask = Ask(cols: seq<TyId>, rows: seq<seq<Pat>>, q: seq<Pat>)

  ghost predicate Sound(env: Types, a: Ask) {
    Query(env, a.cols, a.rows, a.q)
  }

  function Weight(a: Ask): nat {
    MatrixNodes(a.rows) + RowNodes(a.q)
  }

  predicate Below(b: Ask, a: Ask) {
    Weight(b) < Weight(a) || (Weight(b) == Weight(a) && |b.cols| < |a.cols|)
  }

  /** The first column opened by a constructor, `subs` standing for the query's components. */
  function Opened(env: Types, a: Ask, c: Ctor, subs: seq<Pat>): Ask
    requires Heads(a.rows) && a.cols != [] && a.q != []
  {
    var tys := env.fields(a.cols[0], c);
    Ask(tys + a.cols[1..], Specialized(a.rows, c, |tys|), subs + a.q[1..])
  }

  /** The first column left out, with the rows that have a wildcard there. */
  function Left(a: Ask): Ask
    requires Heads(a.rows) && a.cols != [] && a.q != []
  {
    Ask(a.cols[1..], DefaultRows(a.rows), a.q[1..])
  }

  /** One query for each constructor of the list, in order. */
  ghost function Each(env: Types, a: Ask, ctors: seq<(Ctor, seq<TyId>)>): (r: seq<Ask>)
    requires Sound(env, a) && a.q != [] && a.q[0].Wild? && Heads(a.rows)
    requires forall k | 0 <= k < |ctors| :: HeadOccurs(a.rows, ctors[k].0)
    ensures forall b | b in r :: Sound(env, b) && Below(b, a)
  {
    if ctors == [] then []
    else
      var c := ctors[0].0;
      SpecializeQuery(env, a.cols, a.rows, a.q, c);
      [Opened(env, a, c, Wilds(|env.fields(a.cols[0], c)|))] + Each(env, a, ctors[1..])
  }

  /** The queries one query asks next: under its own constructor; or, for a wildcard, under every
      constructor of a signature all of which head rows, and otherwise past the column. */
  ghost function Next(env: Types, a: Ask): (r: seq<Ask>)
    requires Sound(env, a)
    ensures forall b | b in r :: Sound(env, b) && Below(b, a)
  {
    if a.q == [] then []
    else
      match a.q[0]
      case Con(c, subs) =>
        SpecializeQuery(env, a.cols, a.rows, a.q, c);
        [Opened(env, a, c, subs)]
      case Wild =>
        DefaultQuery(env, a.cols, a.rows, a.q);
        if Complete(env, a.cols, a.rows) then Each(env, a, env.sig(a.cols[0]).ctors) else [Left(a)]
  }

  /** The query and all that follow from it, in the order in which they are asked. */
  ghost function Asked(env: Types, a: Ask): seq<Ask>
    requires Sound(env, a)
    decreases Weight(a), |a.cols|, 1, 0
  {
    [a] + AskedAll(env, a, Next(env, a))
  }

  ghost function AskedAll(env: Types, above: Ask, asks: seq<Ask>): seq<Ask>
    requires forall b | b in asks :: Sound(env, b) && Below(b, above)
    decreases Weight(above), |above.cols|, 0, |asks|
  {
    if asks == [] then []
    else
      assert asks[0] in asks && Below(asks[0], above);
      Asked(env, asks[0]) + AskedAll(env, above, asks[1..])
  }

  /** The number of rows of each matrix. */
  function Rows(asks: seq<Ask>): (r: seq<nat>)
    ensures |r| == |asks| && forall k | 0 <= k < |asks| :: r[k] == |asks[k].rows|
  {
    seq(|asks|, k requires 0 <= k < |asks| => |asks[k].rows|)
  }

  lemma {:induction false} RowsConcat(x: seq<Ask>, y: seq<Ask>)
    ensures Rows(x + y) == Rows(x) + Rows(y)
  {
  }

  // ---- The charges are the rows of the matrices formed ----

  /** The plain algorithm charges, matrix by matrix, one step a row. */
  lemma {:induction false} ChargesAreRows(env: Types, a: Ask)
    requires Sound(env, a)
    ensures Plain(env, a.cols, a.rows, a.q).charges == Rows(Asked(env, a))
    decreases Weight(a), |a.cols|, 1, 0
  {
    var next := Next(env, a);
    RowsConcat([a], AskedAll(env, a, next));
    assert Rows([a]) == [|a.rows|];
    if a.q == [] {
    } else if a.q[0].Con? || !Complete(env, a.cols, a.rows) {
      assert next == [next[0]] && next[1..] == [];
      assert AskedAll(env, a, next) == Asked(env, next[0]) + AskedAll(env, a, []) == Asked(env, next[0]);
      assert next[0] in next;
      if a.q[0].Con? {
        SpecializeQuery(env, a.cols, a.rows, a.q, a.q[0].ctor);
      } else {
        DefaultQuery(env, a.cols, a.rows, a.q);
      }
      ChargesAreRows(env, next[0]);
    } else {
      var ctors := env.sig(a.cols[0]).ctors;
      assert ctors[0..] == ctors;
      EachChargesRows(env, a, 0);
    }
  }

  lemma {:induction false} EachChargesRows(env: Types, a: Ask, k: nat)
    requires Sound(env, a) && a.q != [] && a.q[0].Wild?
    requires Complete(env, a.cols, a.rows) && k <= |env.sig(a.cols[0]).ctors|
    ensures PlainEach(env, a.cols, a.rows, a.q, k).charges
            == Rows(AskedAll(env, a, Each(env, a, env.sig(a.cols[0]).ctors[k..])))
    decreases Weight(a), |a.cols|, 0, |env.sig(a.cols[0]).ctors| - k
  {
    hide Plain, Asked, Specialized, MatrixNodes, RowNodes, AllShaped, Shaped, HeadOccurs;
    var ctors := env.sig(a.cols[0]).ctors;
    if k < |ctors| {
      var c := ctors[k].0;
      assert ctors[k..][1..] == ctors[k + 1..];
      SpecializeQuery(env, a.cols, a.rows, a.q, c);
      var b := Opened(env, a, c, Wilds(|env.fields(a.cols[0], c)|));
      var rest := Each(env, a, ctors[k + 1..]);
      assert Each(env, a, ctors[k..]) == [b] + rest && ([b] + rest)[1..] == rest;
      assert b in [b] + rest;
      ChargesAreRows(env, b);
      EachChargesRows(env, a, k + 1);
      RowsConcat(Asked(env, b), AskedAll(env, a, rest));
    }
  }

  // ---- One `match` ----

  /** The query for arm `i` against the arms before it; for `i == |arms|`, the wildcard query. */
  function ArmAsk(arms: seq<Arm>, s: TyId, i: nat): Ask
    requires i <= |arms|
  {
    Ask([s], FirstRows(arms, i), [if i < |arms| then arms[i].1 else Wild])
  }

  lemma {:induction false} ArmAskSound(env: Types, arms: seq<Arm>, s: TyId, i: nat)
    requires Match(env, arms, s) && i <= |arms|
    ensures Sound(env, ArmAsk(arms, s, i))
  {
    WildsFacts(env, [s]);
    assert Wilds(1) == [Wild];
  }

  /** Everything the first `n` queries of the match ask. */
  ghost function AllAsked(env: Types, arms: seq<Arm>, s: TyId, n: nat): seq<Ask>
    requires Match(env, arms, s) && n <= |arms| + 1
  {
    if n == 0 then []
    else
      ArmAskSound(env, arms, s, n - 1);
      AllAsked(env, arms, s, n - 1) + Asked(env, ArmAsk(arms, s, n - 1))
  }

  /** The steps of a check are the rows of all matrices formed for all its queries. */
  lemma {:induction false} StepsAreRows(env: Types, arms: seq<Arm>, s: TyId, n: nat)
    requires Match(env, arms, s) && n <= |arms| + 1
    ensures ChargesBefore(env, arms, s, n) == Rows(AllAsked(env, arms, s, n))
  {
    if n > 0 {
      hide Asked, Plain, AllShaped, Shaped;
      StepsAreRows(env, arms, s, n - 1);
      ArmAskSound(env, arms, s, n - 1);
      ChargesAreRows(env, ArmAsk(arms, s, n - 1));
      RowsConcat(AllAsked(env, arms, s, n - 1), Asked(env, ArmAsk(arms, s, n - 1)));
    }
  }

  // ---- A match of integer literals ----

  /** Arms of different integer literals and no wildcard. */
  predicate LiteralArms(arms: seq<Arm>) {
    && (forall i | 0 <= i < |arms| :: arms[i].1.Con? && arms[i].1.ctor.Int? && arms[i].1.subs == [])
    && (forall i, j | 0 <= i < j < |arms| :: arms[i].1 != arms[j].1)
  }

  lemma {:induction false} OtherLiterals(rows: seq<seq<Pat>>, c: Ctor, arity: nat)
    requires Heads(rows) && !HeadOccurs(rows, c) && forall i | 0 <= i < |rows| :: rows[i][0].Con?
    ensures Specialized(rows, c, arity) == [] && DefaultRows(rows) == []
  {
    if rows != [] {
      HeadOccursCons(rows, c);
      OtherLiterals(rows[1..], c, arity);
    }
  }

  lemma {:induction false} TotalOfTwo(x: nat)
    ensures Total([x] + [0]) == x
  {
    CountFirst(x, [0], 0, 0);
    assert [0][1..] == [];
  }

  /** The query of arm `i` costs one step for each arm before it. */
  lemma {:induction false} LiteralCost(env: Types, arms: seq<Arm>, s: TyId, i: nat)
    requires Match(env, arms, s) && env.sig(s).Infinite? && LiteralArms(arms) && i <= |arms|
    ensures Total(ArmRun(env, arms, s, i).charges) == i
  {
    var rows: seq<seq<Pat>> := FirstRows(arms, i);
    TotalOfTwo(i);
    assert [s][1..] == [];
    if i < |arms| {
      var c := arms[i].1.ctor;
      forall j | 0 <= j < |rows| ensures rows[j][0].Con? && rows[j][0].ctor != c {
        assert rows[j][0] == arms[j].1 != arms[i].1;
      }
      OtherLiterals(rows, c, 0);
      assert env.fields(s, c) == [] && [arms[i].1][1..] == [];
      SpecializeQuery(env, [s], rows, [arms[i].1], c);
      assert Plain(env, [], [], []).charges == [0];
      assert env.fields(s, c) + [s][1..] == [] && arms[i].1.subs + [arms[i].1][1..] == [];
    } else {
      WildcardInDefault(rows);
      WildsFacts(env, [s]);
      assert Wilds(1) == [Wild] && [Wild][1..] == [];
      DefaultQuery(env, [s], rows, [Wild]);
      assert Plain(env, [], [], []).charges == [0];
    }
  }

  lemma {:induction false} Triangle(n: nat)
    requires n > 0
    ensures (n - 1) * (n - 2) + 2 * (n - 1) == n * (n - 1)
  {
  }

  lemma {:induction false} LiteralsCost(env: Types, arms: seq<Arm>, s: TyId, n: nat)
    requires Match(env, arms, s) && env.sig(s).Infinite? && LiteralArms(arms) && n <= |arms| + 1
    ensures 2 * Total(ChargesBefore(env, arms, s, n)) == n * (n - 1)
  {
    if n > 0 {
      hide Plain, ArmRun;
      LiteralsCost(env, arms, s, n - 1);
      LiteralCost(env, arms, s, n - 1);
      CountOn(ChargesBefore(env, arms, s, n - 1), ArmRun(env, arms, s, n - 1).charges, 0, 0);
      Triangle(n);
    }
  }

  /** A match of `n` different integer literals and no wildcard takes `n * (n + 1) / 2` steps, so at
      one pattern node an arm the checker gives up from 512 arms on. */
  lemma {:induction false} LiteralMatchGivesUp(env: Types, arms: seq<Arm>, s: TyId)
    requires Match(env, arms, s) && env.sig(s).Infinite? && LiteralArms(arms) && arms != []
    ensures var steps := Total(ChargesBefore(env, arms, s, |arms| + 1));
            && 2 * steps == |arms| * (|arms| + 1)
            && (steps > MATCH_STEP_FACTOR * |arms| <==> |arms| >= 512)
  {
    hide ChargesBefore, Total;
    LiteralsCost(env, arms, s, |arms| + 1);
    Threshold(Total(ChargesBefore(env, arms, s, |arms| + 1)), |arms|);
  }

  lemma {:induction false} Threshold(steps: nat, n: nat)
    requires 2 * steps == (n + 1) * n && n > 0
    ensures steps > 256 * n <==> n >= 512
  {
    if n >= 512 {
      ProductsAscend(513, n + 1, n);
    } else {
      ProductsAscend(n + 1, 512, n);
    }
  }

  lemma {:induction false} ProductsAscend(a: nat, b: nat, n: nat)
    requires a <= b
    ensures a * n <= b * n
  {
  }
}
