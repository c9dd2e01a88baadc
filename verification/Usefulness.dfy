/** The plain usefulness algorithm of crates/fors-check/src/exhaust.rs: `Plain` is the
    unbudgeted recursion with its charges, and its matrices keep the meaning of patterns. */
module Usefulness {
  import opened Wrappers
  import opened Patterns

  // ---- Specialised and default matrices ----

  predicate Heads(rows: seq<seq<Pat>>) {
    forall i | 0 <= i < |rows| :: rows[i] != []
  }

  predicate HeadOccurs(rows: seq<seq<Pat>>, c: Ctor)
    requires Heads(rows)
  {
    exists i | 0 <= i < |rows| :: rows[i][0].Con? && rows[i][0].ctor == c
  }

  lemma HeadOccursCons(rows: seq<seq<Pat>>, c: Ctor)
    requires rows != [] && Heads(rows)
    ensures Heads(rows[1..])
    ensures HeadOccurs(rows, c) <==> (rows[0][0].Con? && rows[0][0].ctor == c) || HeadOccurs(rows[1..], c)
  {
    if HeadOccurs(rows[1..], c) {
      var i :| 0 <= i < |rows[1..]| && rows[1..][i][0].Con? && rows[1..][i][0].ctor == c;
      assert rows[i + 1] == rows[1..][i];
    }
    if HeadOccurs(rows, c) && !(rows[0][0].Con? && rows[0][0].ctor == c) {
      var i :| 0 <= i < |rows| && rows[i][0].Con? && rows[i][0].ctor == c;
      assert rows[1..][i - 1] == rows[i];
    }
  }

  function SpecializedRow(r: seq<Pat>, c: Ctor, arity: nat): seq<seq<Pat>>
    requires r != []
  {
    match r[0]
    case Wild => [Wilds(arity) + r[1..]]
    case Con(rc, subs) => if rc == c then [subs + r[1..]] else []
  }

  function Specialized(rows: seq<seq<Pat>>, c: Ctor, arity: nat): seq<seq<Pat>>
    requires Heads(rows)
  {
    if rows == [] then [] else SpecializedRow(rows[0], c, arity) + Specialized(rows[1..], c, arity)
  }

  function DefaultRows(rows: seq<seq<Pat>>): seq<seq<Pat>>
    requires Heads(rows)
  {
    if rows == [] then []
    else (if rows[0][0].Wild? then [rows[0][1..]] else []) + DefaultRows(rows[1..])
  }

  /** The position of the first constructor of the signature, from `i` on, that heads no row. */
  function FirstMissing(ctors: seq<(Ctor, seq<TyId>)>, rows: seq<seq<Pat>>, i: nat): (r: Option<nat>)
    requires Heads(rows) && i <= |ctors|
    ensures r.Some? ==> i <= r.value < |ctors| && !HeadOccurs(rows, ctors[r.value].0)
    ensures r.None? ==> forall k | i <= k < |ctors| :: HeadOccurs(rows, ctors[k].0)
    decreases |ctors| - i
  {
    if i == |ctors| then None
    else if !HeadOccurs(rows, ctors[i].0) then Some(i)
    else FirstMissing(ctors, rows, i + 1)
  }

  lemma {:induction false} MissingIsFirst(ctors: seq<(Ctor, seq<TyId>)>, rows: seq<seq<Pat>>, i: nat)
    requires Heads(rows) && i <= |ctors| && FirstMissing(ctors, rows, i).Some?
    ensures forall k | i <= k < FirstMissing(ctors, rows, i).value :: HeadOccurs(rows, ctors[k].0)
    decreases |ctors| - i
  {
    if HeadOccurs(rows, ctors[i].0) {
      MissingIsFirst(ctors, rows, i + 1);
    }
  }

  // ---- A literal no row uses ----

  function Decimal(n: nat): string {
    if n < 10 then ["0123456789"[n]] else Decimal(n / 10) + ["0123456789"[n % 10]]
  }

  function Candidate(isStr: bool, n: nat): Ctor {
    if isStr then Str("other" + Decimal(n)) else Int(n)
  }

  /** The first of the candidates `n`, `n + 1`, .. `|rows|` that heads no row. */
  function MissingLiteral(isStr: bool, rows: seq<seq<Pat>>, n: nat): Witness
    requires Heads(rows)
    decreases |rows| + 1 - n
  {
    if n > |rows| then Any
    else if !HeadOccurs(rows, Candidate(isStr, n)) then Of(Candidate(isStr, n), [])
    else MissingLiteral(isStr, rows, n + 1)
  }

  // ---- The algorithm ----

  /** The outcome of one query: what every matrix formed costs, in order, and a witness row when the
      query is useful. */
  datatype Run = Run(charges: seq<nat>, found: Option<seq<Witness>>)

  function Combine(c: Ctor, arity: nat, w: seq<Witness>): seq<Witness>
    requires arity <= |w|
  {
    [Of(c, w[..arity])] + w[arity..]
  }

  function CombineFound(c: Ctor, arity: nat, w: Option<seq<Witness>>): Option<seq<Witness>>
    requires w.Some? ==> arity <= |w.value|
  {
    if w.Some? then Some(Combine(c, arity, w.value)) else None
  }

  function PrefixFound(head: Witness, w: Option<seq<Witness>>): Option<seq<Witness>> {
    if w.Some? then Some([head] + w.value) else None
  }

  function Anys(n: nat): seq<Witness> {
    seq(n, _ => Any)
  }

  ghost predicate Query(env: Types, cols: seq<TyId>, rows: seq<seq<Pat>>, q: seq<Pat>) {
    Coherent(env) && Matrix(env, rows, cols) && AllShaped(env, q, cols)
  }

  ghost predicate Complete(env: Types, cols: seq<TyId>, rows: seq<seq<Pat>>) {
    && cols != [] && env.sig(cols[0]).Finite? && Heads(rows)
    && forall k | 0 <= k < |env.sig(cols[0]).ctors| :: HeadOccurs(rows, env.sig(cols[0]).ctors[k].0)
  }

  ghost function Plain(env: Types, cols: seq<TyId>, rows: seq<seq<Pat>>, q: seq<Pat>): (r: Run)
    requires Query(env, cols, rows, q)
    ensures r.found.Some? ==> |r.found.value| == |cols|
    decreases MatrixNodes(rows) + RowNodes(q), |cols|, 1, 0
  {
    if q == [] then
      Run([|rows|], if rows == [] then Some([]) else None)
    else
      match q[0]
      case Con(c, subs) =>
        SpecializeQuery(env, cols, rows, q, c);
        var tys := env.fields(cols[0], c);
        var sub := Plain(env, tys + cols[1..], Specialized(rows, c, |tys|), subs + q[1..]);
        Run([|rows|] + sub.charges, CombineFound(c, |tys|, sub.found))
      case Wild =>
        DefaultQuery(env, cols, rows, q);
        match env.sig(cols[0])
        case Finite(ctors) =>
          (match FirstMissing(ctors, rows, 0)
           case None =>
             var each := PlainEach(env, cols, rows, q, 0);
             Run([|rows|] + each.charges, each.found)
           case Some(m) =>
             var sub := Plain(env, cols[1..], DefaultRows(rows), q[1..]);
             Run([|rows|] + sub.charges, PrefixFound(Of(ctors[m].0, Anys(|ctors[m].1|)), sub.found)))
        case Infinite =>
          var sub := Plain(env, cols[1..], DefaultRows(rows), q[1..]);
          Run([|rows|] + sub.charges, PrefixFound(MissingLiteral(env.literals(cols[0]).Strings?, rows, 0), sub.found))
  }

  /** Every constructor of a complete signature from the `k`th on, none skipped; the first
      witness wins. */
  ghost function PlainEach(env: Types, cols: seq<TyId>, rows: seq<seq<Pat>>, q: seq<Pat>, k: nat): (r: Run)
    requires Query(env, cols, rows, q) && q != [] && q[0].Wild?
    requires Complete(env, cols, rows) && k <= |env.sig(cols[0]).ctors|
    ensures r.found.Some? ==> |r.found.value| == |cols|
    decreases MatrixNodes(rows) + RowNodes(q), |cols|, 0, |env.sig(cols[0]).ctors| - k
  {
    var ctors := env.sig(cols[0]).ctors;
    if k == |ctors| then Run([], None)
    else
      var (c, tys) := ctors[k];
      SpecializeQuery(env, cols, rows, q, c);
      var here := Plain(env, tys + cols[1..], Specialized(rows, c, |tys|), Wilds(|tys|) + q[1..]);
      var rest := PlainEach(env, cols, rows, q, k + 1);
      Run(here.charges + rest.charges,
          if here.found.Some? then CombineFound(c, |tys|, here.found) else rest.found)
  }

  // ---- The sub-queries are well formed and smaller ----

  lemma {:induction false} SpecializedFacts(env: Types, cols: seq<TyId>, rows: seq<seq<Pat>>, c: Ctor)
    requires cols != [] && Matrix(env, rows, cols)
    ensures Heads(rows)
    ensures Matrix(env, Specialized(rows, c, |env.fields(cols[0], c)|), env.fields(cols[0], c) + cols[1..])
    ensures MatrixNodes(Specialized(rows, c, |env.fields(cols[0], c)|)) <= MatrixNodes(rows)
    ensures HeadOccurs(rows, c) ==> MatrixNodes(Specialized(rows, c, |env.fields(cols[0], c)|)) < MatrixNodes(rows)
  {
    if rows != [] {
      var tys := env.fields(cols[0], c);
      var r := rows[0];
      assert AllShaped(env, r, cols) && Shaped(env, r[0], cols[0]);
      SpecializedFacts(env, cols, rows[1..], c);
      HeadOccursCons(rows, c);
      var rest := Specialized(rows[1..], c, |tys|);
      assert Specialized(rows, c, |tys|) == SpecializedRow(r, c, |tys|) + rest;
      match r[0] {
        case Wild =>
          WildsFacts(env, tys);
          AllShapedConcat(env, Wilds(|tys|), r[1..], tys, cols[1..]);
          RowNodesConcat(Wilds(|tys|), r[1..]);
          assert Specialized(rows, c, |tys|)[1..] == rest;
        case Con(rc, subs) =>
          assert RowNodes(r) == 1 + RowNodes(subs) + RowNodes(r[1..]);
          if rc == c {
            assert AllShaped(env, subs, tys);
            AllShapedConcat(env, subs, r[1..], tys, cols[1..]);
            RowNodesConcat(subs, r[1..]);
            assert Specialized(rows, c, |tys|)[1..] == rest;
          } else {
            assert Specialized(rows, c, |tys|) == rest;
          }
      }
    }
  }

  lemma {:induction false} DefaultFacts(env: Types, cols: seq<TyId>, rows: seq<seq<Pat>>)
    requires cols != [] && Matrix(env, rows, cols)
    ensures Heads(rows)
    ensures Matrix(env, DefaultRows(rows), cols[1..])
    ensures MatrixNodes(DefaultRows(rows)) <= MatrixNodes(rows)
  {
    if rows != [] {
      assert AllShaped(env, rows[0], cols);
      DefaultFacts(env, cols, rows[1..]);
      var rest := DefaultRows(rows[1..]);
      if rows[0][0].Wild? {
        assert DefaultRows(rows) == [rows[0][1..]] + rest;
        assert DefaultRows(rows)[1..] == rest;
      } else {
        assert DefaultRows(rows) == rest;
      }
    }
  }

  /** Specialising by `c` keeps the query well formed; the constructor nodes never grow, and
      shrink when `c` heads a row or the query. */
  lemma SpecializeQuery(env: Types, cols: seq<TyId>, rows: seq<seq<Pat>>, q: seq<Pat>, c: Ctor)
    requires Query(env, cols, rows, q) && q != []
    ensures Heads(rows)
    ensures var tys := env.fields(cols[0], c);
            var spec := Specialized(rows, c, |tys|);
            && Matrix(env, spec, tys + cols[1..])
            && (q[0].Con? && q[0].ctor == c ==>
                  && |q[0].subs| == |tys|
                  && Query(env, tys + cols[1..], spec, q[0].subs + q[1..])
                  && MatrixNodes(spec) + RowNodes(q[0].subs + q[1..]) < MatrixNodes(rows) + RowNodes(q))
            && (q[0].Wild? ==>
                  && Query(env, tys + cols[1..], spec, Wilds(|tys|) + q[1..])
                  && (HeadOccurs(rows, c) ==>
                        MatrixNodes(spec) + RowNodes(Wilds(|tys|) + q[1..]) < MatrixNodes(rows) + RowNodes(q)))
  {
    var tys := env.fields(cols[0], c);
    SpecializedFacts(env, cols, rows, c);
    assert Shaped(env, q[0], cols[0]);
    if q[0].Con? && q[0].ctor == c {
      assert AllShaped(env, q[0].subs, tys);
      AllShapedConcat(env, q[0].subs, q[1..], tys, cols[1..]);
      RowNodesConcat(q[0].subs, q[1..]);
    }
    if q[0].Wild? {
      WildsFacts(env, tys);
      AllShapedConcat(env, Wilds(|tys|), q[1..], tys, cols[1..]);
      RowNodesConcat(Wilds(|tys|), q[1..]);
    }
  }

  lemma DefaultQuery(env: Types, cols: seq<TyId>, rows: seq<seq<Pat>>, q: seq<Pat>)
    requires Query(env, cols, rows, q) && q != []
    ensures Heads(rows)
    ensures Query(env, cols[1..], DefaultRows(rows), q[1..])
    ensures MatrixNodes(DefaultRows(rows)) + RowNodes(q[1..]) <= MatrixNodes(rows) + RowNodes(q)
  {
    DefaultFacts(env, cols, rows);
  }

  // ---- What the two matrices cover ----

  lemma {:induction false} CoveredAppend(a: seq<seq<Pat>>, b: seq<seq<Pat>>, vs: seq<Value>)
    ensures Covered(a + b, vs) <==> Covered(a, vs) || Covered(b, vs)
  {
    if a == [] {
      assert a + b == b;
    } else {
      assert (a + b)[1..] == a[1..] + b;
      CoveredAppend(a[1..], b, vs);
    }
  }

  lemma {:induction false} SpecializedCovers(env: Types, cols: seq<TyId>, rows: seq<seq<Pat>>, c: Ctor, subs: seq<Value>, rest: seq<Value>)
    requires cols != [] && Matrix(env, rows, cols) && Heads(rows)
    requires |subs| == |env.fields(cols[0], c)|
    ensures Covered(Specialized(rows, c, |subs|), subs + rest) <==> Covered(rows, [Data(c, subs)] + rest)
  {
    if rows != [] {
      var r := rows[0];
      var vs := [Data(c, subs)] + rest;
      assert AllShaped(env, r, cols) && Shaped(env, r[0], cols[0]);
      SpecializedCovers(env, cols, rows[1..], c, subs, rest);
      assert vs[1..] == rest;
      assert RowMatches(r, vs) == (|r| == |vs| && Matches(r[0], vs[0]) && RowMatches(r[1..], rest));
      CoveredAppend(SpecializedRow(r, c, |subs|), Specialized(rows[1..], c, |subs|), subs + rest);
      match r[0] {
        case Wild =>
          WildsMatch(subs);
          RowMatchesConcat(Wilds(|subs|), r[1..], subs, rest);
        case Con(rc, ps) =>
          if rc == c {
            assert AllShaped(env, ps, env.fields(cols[0], c));
            RowMatchesConcat(ps, r[1..], subs, rest);
          }
      }
    }
  }

  /** A first value whose constructor heads no row is covered by wildcard rows alone. */
  lemma {:induction false} DefaultCovers(rows: seq<seq<Pat>>, v: Value, rest: seq<Value>)
    requires Heads(rows) && (v.Data? ==> !HeadOccurs(rows, v.ctor))
    ensures Covered(DefaultRows(rows), rest) <==> Covered(rows, [v] + rest)
  {
    if rows != [] {
      var r := rows[0];
      if v.Data? {
        HeadOccursCons(rows, v.ctor);
      }
      DefaultCovers(rows[1..], v, rest);
      var vs := [v] + rest;
      assert vs[1..] == rest;
      assert RowMatches(r, vs) == (|r| == |vs| && Matches(r[0], v) && RowMatches(r[1..], rest));
      CoveredAppend(if r[0].Wild? then [r[1..]] else [], DefaultRows(rows[1..]), rest);
    }
  }

  /** Wildcard-only coverage is coverage, whatever the first value. */
  lemma {:induction false} DefaultSound(rows: seq<seq<Pat>>, v: Value, rest: seq<Value>)
    requires Heads(rows) && Covered(DefaultRows(rows), rest)
    ensures Covered(rows, [v] + rest)
  {
    assert ([v] + rest)[1..] == rest;
    CoveredAppend(if rows[0][0].Wild? then [rows[0][1..]] else [], DefaultRows(rows[1..]), rest);
    if !(rows[0][0].Wild? && RowMatches(rows[0][1..], rest)) {
      DefaultSound(rows[1..], v, rest);
    }
  }

  /** No default row is left exactly when every row begins with a constructor. */
  lemma {:induction false} WildcardInDefault(rows: seq<seq<Pat>>)
    requires Heads(rows)
    ensures DefaultRows(rows) == [] <==> forall i | 0 <= i < |rows| :: rows[i][0].Con?
  {
    if rows != [] {
      WildcardInDefault(rows[1..]);
      if forall i | 0 <= i < |rows[1..]| :: rows[1..][i][0].Con? {
        forall i | 0 < i < |rows| ensures rows[i][0].Con? {
          assert rows[i] == rows[1..][i - 1];
        }
      }
    }
  }
}
