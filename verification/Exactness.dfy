/** The answers of the plain usefulness algorithm are sound: a witness row stands only for uncovered
    values, and without one every value of the query is covered. */
module Exactness {
  import opened Wrappers
  import opened Patterns
  import opened Usefulness

  // ---- The literal search always succeeds ----

  lemma {:induction false} DecimalInjective(a: nat, b: nat)
    requires Decimal(a) == Decimal(b)
    ensures a == b
  {
    var x, y := Decimal(a), Decimal(b);
    assert x[|x| - 1] == "0123456789"[a % 10] && y[|y| - 1] == "0123456789"[b % 10];
    assert a % 10 == b % 10;
    if a >= 10 && b >= 10 {
      assert x[..|x| - 1] == Decimal(a / 10) && y[..|y| - 1] == Decimal(b / 10);
      DecimalInjective(a / 10, b / 10);
    } else {
      DecimalNonempty(a / 10);
      DecimalNonempty(b / 10);
    }
  }

  lemma DecimalNonempty(n: nat)
    ensures Decimal(n) != []
  {
  }

  lemma CandidateInjective(isStr: bool, a: nat, b: nat)
    requires Candidate(isStr, a) == Candidate(isStr, b)
    ensures a == b
  {
    if isStr {
      var pre := "other";
      assert (pre + Decimal(a))[|pre|..] == Decimal(a) && (pre + Decimal(b))[|pre|..] == Decimal(b);
      DecimalInjective(a, b);
    }
  }

  /** Pigeonhole: a matrix is headed by at most one constructor per row. */
  lemma {:induction false} HeadedCtors(rows: seq<seq<Pat>>, cs: set<Ctor>)
    requires Heads(rows) && forall c | c in cs :: HeadOccurs(rows, c)
    ensures |cs| <= |rows|
  {
    if rows == [] {
      assert cs == {};
    } else {
      var same := if rows[0][0].Con? && rows[0][0].ctor in cs then {rows[0][0].ctor} else {};
      forall c | c in cs - same ensures HeadOccurs(rows[1..], c) {
        HeadOccursCons(rows, c);
      }
      HeadedCtors(rows[1..], cs - same);
      assert cs == (cs - same) + same;
    }
  }

  function Firsts(f: nat -> Ctor, n: nat): set<Ctor> {
    if n == 0 then {} else Firsts(f, n - 1) + {f(n - 1)}
  }

  lemma {:induction false} FirstsHold(f: nat -> Ctor, n: nat, c: Ctor) returns (k: nat)
    requires c in Firsts(f, n)
    ensures k < n && f(k) == c
  {
    if f(n - 1) == c {
      k := n - 1;
    } else {
      k := FirstsHold(f, n - 1, c);
    }
  }

  lemma {:induction false} FirstsSize(f: nat -> Ctor, n: nat)
    requires forall a: nat, b: nat | a < b < n :: f(a) != f(b)
    ensures |Firsts(f, n)| == n
  {
    if n > 0 {
      FirstsSize(f, n - 1);
      if f(n - 1) in Firsts(f, n - 1) {
        var k := FirstsHold(f, n - 1, f(n - 1));
      }
    }
  }

  /** Of more different constructors than there are rows, one heads no row. */
  lemma Unheaded(rows: seq<seq<Pat>>, f: nat -> Ctor, n: nat) returns (k: nat)
    requires Heads(rows) && |rows| < n && forall a: nat, b: nat | a < b < n :: f(a) != f(b)
    ensures k < n && !HeadOccurs(rows, f(k))
  {
    FirstsSize(f, n);
    if forall c | c in Firsts(f, n) :: HeadOccurs(rows, c) {
      HeadedCtors(rows, Firsts(f, n));
    }
    var c :| c in Firsts(f, n) && !HeadOccurs(rows, c);
    k := FirstsHold(f, n, c);
  }

  lemma UnheadedCandidate(isStr: bool, rows: seq<seq<Pat>>, n: nat) returns (k: nat)
    requires Heads(rows) && |rows| < n
    ensures k < n && !HeadOccurs(rows, Candidate(isStr, k))
  {
    forall a: nat, b: nat | a < b < n ensures Candidate(isStr, a) != Candidate(isStr, b) {
      if Candidate(isStr, a) == Candidate(isStr, b) {
        CandidateInjective(isStr, a, b);
      }
    }
    k := Unheaded(rows, (i: nat) => Candidate(isStr, i), n);
  }

  /** The search never falls through: it names the first literal that heads no row. */
  lemma {:induction false} MissingLiteralFound(isStr: bool, rows: seq<seq<Pat>>, n: nat) returns (m: nat)
    requires Heads(rows) && n <= |rows| + 1
    requires forall k: nat | k < n :: HeadOccurs(rows, Candidate(isStr, k))
    ensures n <= m <= |rows| && MissingLiteral(isStr, rows, n) == Of(Candidate(isStr, m), [])
    ensures !HeadOccurs(rows, Candidate(isStr, m)) && forall k: nat | k < m :: HeadOccurs(rows, Candidate(isStr, k))
    decreases |rows| + 1 - n
  {
    if n > |rows| {
      var k := UnheadedCandidate(isStr, rows, n);
      assert false;
    } else if HeadOccurs(rows, Candidate(isStr, n)) {
      m := MissingLiteralFound(isStr, rows, n + 1);
    } else {
      m := n;
    }
  }

  ghost predicate NamesValue(env: Types, w: Witness, ty: TyId) {
    exists v :: Instance(w, v) && HasType(env, v, ty)
  }

  /** Some literal the search tries is a value of the type and heads no row. Only integers from
      zero up are tried. */
  predicate Nameable(env: Types, ty: TyId, rows: seq<seq<Pat>>)
    requires Heads(rows)
  {
    match env.literals(ty)
    case Integers(_, max) => exists n: nat | n <= max :: !HeadOccurs(rows, Int(n))
    case Strings => true
    case NoLiterals => false
    case NoValues => false
  }

  /** The literal named in a witness is a value of its column if and only if the column's type has
      strings, or has an integer from zero up that heads no row. */
  lemma MissingLiteralTyped(env: Types, ty: TyId, rows: seq<seq<Pat>>)
    requires Coherent(env) && Heads(rows) && env.sig(ty).Infinite?
    ensures NamesValue(env, MissingLiteral(env.literals(ty).Strings?, rows, 0), ty) <==> Nameable(env, ty, rows)
  {
    var isStr := env.literals(ty).Strings?;
    var m := MissingLiteralFound(isStr, rows, 0);
    var w := MissingLiteral(isStr, rows, 0);
    if Builds(env, ty, Candidate(isStr, m)) {
      var v := Data(Candidate(isStr, m), []);
      assert env.fields(ty, v.ctor) == [] && HaveTypes(env, [], []);
      assert Instance(w, v) && HasType(env, v, ty);
    } else {
      forall v | Instance(w, v) ensures !HasType(env, v, ty) {
      }
      if env.literals(ty).Integers? {
        forall n: nat | n <= env.literals(ty).max ensures HeadOccurs(rows, Int(n)) {
          assert HeadOccurs(rows, Candidate(isStr, n));
        }
      }
    }
  }

  /** Too few rows to head all integers from zero up always leave one to name. */
  lemma FewRowsNameable(env: Types, ty: TyId, rows: seq<seq<Pat>>)
    requires Heads(rows) && env.literals(ty).Integers? && |rows| <= env.literals(ty).max
    ensures Nameable(env, ty, rows)
  {
    var k := UnheadedCandidate(false, rows, env.literals(ty).max + 1);
    assert Candidate(false, k) == Int(k);
  }

  // ---- Not useful: everything the query matches is covered ----

  lemma {:induction false} EachNotFound(env: Types, cols: seq<TyId>, rows: seq<seq<Pat>>, q: seq<Pat>, k: nat, j: nat)
    requires Query(env, cols, rows, q) && q != [] && q[0].Wild?
    requires Complete(env, cols, rows) && k <= j < |env.sig(cols[0]).ctors|
    requires PlainEach(env, cols, rows, q, k).found.None?
    ensures var (c, tys) := env.sig(cols[0]).ctors[j];
            && Query(env, tys + cols[1..], Specialized(rows, c, |tys|), Wilds(|tys|) + q[1..])
            && Plain(env, tys + cols[1..], Specialized(rows, c, |tys|), Wilds(|tys|) + q[1..]).found.None?
    decreases j - k
  {
    hide Plain, Specialized, Shaped, AllShaped, MatrixNodes, RowNodes, HeadOccurs;
    SpecializeQuery(env, cols, rows, q, env.sig(cols[0]).ctors[k].0);
    if k < j {
      EachNotFound(env, cols, rows, q, k + 1, j);
    }
  }

  /** If the algorithm answers "not useful", every well-typed row of values the query matches is
      matched by a row of the matrix. */
  lemma {:induction false} NotUsefulIsCovered(env: Types, cols: seq<TyId>, rows: seq<seq<Pat>>, q: seq<Pat>, vs: seq<Value>)
    requires Query(env, cols, rows, q) && Plain(env, cols, rows, q).found.None?
    requires HaveTypes(env, vs, cols) && RowMatches(q, vs)
    ensures Covered(rows, vs)
    decreases MatrixNodes(rows) + RowNodes(q), |cols|
  {
    if q == [] {
      assert AllShaped(env, rows[0], cols);
    } else if q[0].Wild? && (env.sig(cols[0]).Infinite? || !Complete(env, cols, rows)) {
      DefaultQuery(env, cols, rows, q);
      NotUsefulIsCovered(env, cols[1..], DefaultRows(rows), q[1..], vs[1..]);
      DefaultSound(rows, vs[0], vs[1..]);
      assert [vs[0]] + vs[1..] == vs;
    } else {
      var Data(c, us) := vs[0];
      var tys := env.fields(cols[0], c);
      SpecializeQuery(env, cols, rows, q, c);
      var subs := if q[0].Wild? then Wilds(|tys|) else q[0].subs;
      if q[0].Wild? {
        var j :| 0 <= j < |env.sig(cols[0]).ctors| && env.sig(cols[0]).ctors[j].0 == c;
        EachNotFound(env, cols, rows, q, 0, j);
        WildsMatch(us);
      }
      assert HaveTypes(env, us, tys);
      HaveTypesConcat(env, us, vs[1..], tys, cols[1..]);
      RowMatchesConcat(subs, q[1..], us, vs[1..]);
      NotUsefulIsCovered(env, tys + cols[1..], Specialized(rows, c, |tys|), subs + q[1..], us + vs[1..]);
      SpecializedCovers(env, cols, rows, c, us, vs[1..]);
      assert [vs[0]] + vs[1..] == vs;
    }
  }

  // ---- Useful: the witness is uncovered ----

  /** The witness of a complete signature comes from its first constructor that has one. */
  lemma {:induction false} EachFound(env: Types, cols: seq<TyId>, rows: seq<seq<Pat>>, q: seq<Pat>, k: nat) returns (j: nat)
    requires Query(env, cols, rows, q) && q != [] && q[0].Wild?
    requires Complete(env, cols, rows) && k <= |env.sig(cols[0]).ctors|
    requires PlainEach(env, cols, rows, q, k).found.Some?
    ensures k <= j < |env.sig(cols[0]).ctors|
    ensures var (c, tys) := env.sig(cols[0]).ctors[j];
            && Query(env, tys + cols[1..], Specialized(rows, c, |tys|), Wilds(|tys|) + q[1..])
            && var here := Plain(env, tys + cols[1..], Specialized(rows, c, |tys|), Wilds(|tys|) + q[1..]).found;
            && here.Some?
            && PlainEach(env, cols, rows, q, k).found == CombineFound(c, |tys|, here)
    ensures forall l | k <= l < j ::
              var (c, tys) := env.sig(cols[0]).ctors[l];
              && Query(env, tys + cols[1..], Specialized(rows, c, |tys|), Wilds(|tys|) + q[1..])
              && Plain(env, tys + cols[1..], Specialized(rows, c, |tys|), Wilds(|tys|) + q[1..]).found.None?
    decreases |env.sig(cols[0]).ctors| - k
  {
    hide Plain, Specialized, Shaped, AllShaped, MatrixNodes, RowNodes, HeadOccurs;
    var (c, tys) := env.sig(cols[0]).ctors[k];
    SpecializeQuery(env, cols, rows, q, c);
    if Plain(env, tys + cols[1..], Specialized(rows, c, |tys|), Wilds(|tys|) + q[1..]).found.Some? {
      j := k;
    } else {
      j := EachFound(env, cols, rows, q, k + 1);
    }
  }

  /** If the algorithm answers with a witness, every row of values the witness stands for is
      matched by the query and by no row of the matrix. */
  lemma {:induction false} WitnessIsUncovered(env: Types, cols: seq<TyId>, rows: seq<seq<Pat>>, q: seq<Pat>, vs: seq<Value>)
    requires Query(env, cols, rows, q) && Plain(env, cols, rows, q).found.Some?
    requires Instances(Plain(env, cols, rows, q).found.value, vs)
    ensures RowMatches(q, vs) && !Covered(rows, vs)
    decreases MatrixNodes(rows) + RowNodes(q), |cols|, 1
  {
    if q != [] {
      if q[0].Con? {
        SpecializeQuery(env, cols, rows, q, q[0].ctor);
        WitnessUnder(env, cols, rows, q, vs, q[0].ctor, q[0].subs);
      } else if env.sig(cols[0]).Infinite? || !Complete(env, cols, rows) {
        WitnessBeyond(env, cols, rows, q, vs);
      } else {
        var j := EachFound(env, cols, rows, q, 0);
        var (c, tys) := env.sig(cols[0]).ctors[j];
        SpecializeQuery(env, cols, rows, q, c);
        WitnessUnder(env, cols, rows, q, vs, c, Wilds(|tys|));
      }
    }
  }

  /** The witness came from specialising by `c`. */
  lemma {:induction false} WitnessUnder(env: Types, cols: seq<TyId>, rows: seq<seq<Pat>>, q: seq<Pat>, vs: seq<Value>,
                                        c: Ctor, subs: seq<Pat>)
    requires Query(env, cols, rows, q) && q != [] && Heads(rows)
    requires q[0] == Con(c, subs) || (q[0].Wild? && HeadOccurs(rows, c) && subs == Wilds(|env.fields(cols[0], c)|))
    requires var tys := env.fields(cols[0], c);
             && Query(env, tys + cols[1..], Specialized(rows, c, |tys|), subs + q[1..])
             && var sub := Plain(env, tys + cols[1..], Specialized(rows, c, |tys|), subs + q[1..]).found;
             && sub.Some?
             && Instances(Combine(c, |tys|, sub.value), vs)
    ensures RowMatches(q, vs) && !Covered(rows, vs)
    decreases MatrixNodes(rows) + RowNodes(q), |cols|, 0
  {
    hide Plain;
    var tys := env.fields(cols[0], c);
    SpecializeQuery(env, cols, rows, q, c);
    var w := Plain(env, tys + cols[1..], Specialized(rows, c, |tys|), subs + q[1..]).found.value;
    var us := CombineInstances(c, |tys|, w, vs);
    WitnessIsUncovered(env, tys + cols[1..], Specialized(rows, c, |tys|), subs + q[1..], us + vs[1..]);
    SpecializedCovers(env, cols, rows, c, us, vs[1..]);
    RowMatchesConcat(subs, q[1..], us, vs[1..]);
    assert Matches(q[0], vs[0]);
  }

  /** The witness came from the default matrix. */
  lemma {:induction false} WitnessBeyond(env: Types, cols: seq<TyId>, rows: seq<seq<Pat>>, q: seq<Pat>, vs: seq<Value>)
    requires Query(env, cols, rows, q) && q != [] && q[0].Wild? && Plain(env, cols, rows, q).found.Some?
    requires env.sig(cols[0]).Infinite? || !Complete(env, cols, rows)
    requires Instances(Plain(env, cols, rows, q).found.value, vs)
    ensures RowMatches(q, vs) && !Covered(rows, vs)
    decreases MatrixNodes(rows) + RowNodes(q), |cols|, 0
  {
    var w := Plain(env, cols, rows, q).found.value;
    DefaultQuery(env, cols, rows, q);
    var sub := Plain(env, cols[1..], DefaultRows(rows), q[1..]).found.value;
    assert w[1..] == sub && Instance(w[0], vs[0]);
    if env.sig(cols[0]).Infinite? {
      var m := MissingLiteralFound(env.literals(cols[0]).Strings?, rows, 0);
    }
    WitnessIsUncovered(env, cols[1..], DefaultRows(rows), q[1..], vs[1..]);
    DefaultCovers(rows, vs[0], vs[1..]);
    assert [vs[0]] + vs[1..] == vs;
  }

  lemma CombineInstances(c: Ctor, arity: nat, w: seq<Witness>, vs: seq<Value>) returns (us: seq<Value>)
    requires arity <= |w| && Instances(Combine(c, arity, w), vs)
    ensures |us| == arity && vs == [Data(c, us)] + vs[1..] && Instances(w, us + vs[1..])
  {
    us := vs[0].subs;
    assert Instance(Combine(c, arity, w)[0], vs[0]) && Instances(w[..arity], us);
    assert Combine(c, arity, w)[1..] == w[arity..] && w[..arity] + w[arity..] == w;
    InstancesConcat(w[..arity], w[arity..], us, vs[1..]);
  }
}
