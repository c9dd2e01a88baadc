/** Matches on integer types (crates/fors-check/src/exhaust.rs), where taking the type for
    infinite shows: exactly when the report is wrong, and what it then says. */
module IntegerMatches {
  import opened Wrappers
  import opened Patterns
  import opened Usefulness
  import opened Exactness
  import opened Gaps
  import opened FalseAlarms
  import opened CheckMatch

  ghost predicate IntegerType(env: Types, s: TyId, min: int, max: int) {
    Coherent(env) && env.sig(s).Infinite? && env.literals(s) == Integers(min, max)
  }

  predicate HasWildcard(arms: seq<Arm>) {
    exists i | 0 <= i < |arms| :: arms[i].1.Wild?
  }

  predicate Lists(arms: seq<Arm>, n: int) {
    exists i | 0 <= i < |arms| :: arms[i].1 == Con(Int(n), [])
  }

  /** A witness is reported exactly when no arm is a wildcard. */
  lemma {:induction false} ReportedIff(env: Types, arms: seq<Arm>, s: TyId, min: int, max: int, report: Report)
    requires IntegerType(env, s, min, max) && Match(env, arms, s) && Decides(env, arms, s, report)
    ensures report.missing.Some? <==> !HasWildcard(arms)
  {
    var rows := FirstRows(arms, |arms|);
    WildsFacts(env, [s]);
    assert Wilds(1) == [Wild];
    WildcardInDefault(rows);
    DefaultQuery(env, [s], rows, [Wild]);
    assert forall i | 0 <= i < |arms| :: rows[i][0] == arms[i].1;
    assert [Wild][1..] == [] && [s][1..] == [];
    assert Plain(env, [], DefaultRows(rows), []).found.Some? <==> DefaultRows(rows) == [];
    if HasWildcard(arms) {
      var i :| 0 <= i < |arms| && arms[i].1.Wild?;
      assert rows[i][0].Wild?;
    }
  }

  /** A value of the type is an integer in range, matched by wildcards and by its own literal. */
  lemma {:induction false} IntegerMatched(env: Types, arms: seq<Arm>, s: TyId, min: int, max: int, i: nat, n: int)
    requires IntegerType(env, s, min, max) && Match(env, arms, s) && i < |arms|
    ensures Matches(arms[i].1, Data(Int(n), [])) <==> arms[i].1.Wild? || arms[i].1 == Con(Int(n), [])
  {
    assert AllShaped(env, [arms[i].1], [s]);
  }

  /** Some value falls through exactly when no arm is a wildcard and some integer in range is not
      listed. */
  lemma {:induction false} FallsThroughIff(env: Types, arms: seq<Arm>, s: TyId, min: int, max: int)
    requires IntegerType(env, s, min, max) && Match(env, arms, s)
    ensures (exists v :: HasType(env, v, s) && Chosen(arms, v).None?)
            <==> !HasWildcard(arms) && exists n | min <= n <= max :: !Lists(arms, n)
  {
    if v :| HasType(env, v, s) && Chosen(arms, v).None? {
      var n := v.ctor.n;
      assert HaveTypes(env, v.subs, []) && v == Data(Int(n), []);
      Unmatched(env, arms, s, min, max, n);
    }
    if !HasWildcard(arms) && exists n | min <= n <= max :: !Lists(arms, n) {
      var n :| min <= n <= max && !Lists(arms, n);
      Unmatched(env, arms, s, min, max, n);
      assert HaveTypes(env, [], []) && HasType(env, Data(Int(n), []), s);
    }
  }

  lemma {:induction false} Unmatched(env: Types, arms: seq<Arm>, s: TyId, min: int, max: int, n: int)
    requires IntegerType(env, s, min, max) && Match(env, arms, s)
    ensures Chosen(arms, Data(Int(n), [])).None? <==> !HasWildcard(arms) && !Lists(arms, n)
  {
    var v := Data(Int(n), []);
    var k := FirstMatching(arms, v);
    ChosenIsFirst(arms, k, v);
    forall i | 0 <= i < |arms|
      ensures Matches(arms[i].1, v) <==> arms[i].1.Wild? || arms[i].1 == Con(Int(n), [])
    {
      IntegerMatched(env, arms, s, min, max, i, n);
    }
  }

  /** The report on a match over an integer type is right about values falling through if and only
      if the match has a wildcard or leaves some integer of the type unlisted. */
  lemma {:induction false} IntegerMatchExact(env: Types, arms: seq<Arm>, s: TyId, min: int, max: int, report: Report)
    requires IntegerType(env, s, min, max) && Match(env, arms, s) && Decides(env, arms, s, report)
    ensures (report.missing.Some? <==> exists v :: HasType(env, v, s) && Chosen(arms, v).None?)
            <==> HasWildcard(arms) || exists n | min <= n <= max :: !Lists(arms, n)
  {
    ReportedIff(env, arms, s, min, max, report);
    FallsThroughIff(env, arms, s, min, max);
  }

  // ---- Two matches that go wrong ----

  /** One arm for each of `n` integers from `low` on. */
  function Listing(low: int, n: nat): (arms: seq<Arm>)
    ensures |arms| == n && forall i | 0 <= i < n :: arms[i] == (i, Con(Int(low + i), []))
  {
    seq(n, i => (i, Con(Int(low + i), [])))
  }

  lemma ListingMatches(env: Types, s: TyId, low: int, n: nat)
    requires Coherent(env)
    ensures Match(env, Listing(low, n), s)
  {
    forall i | 0 <= i < n ensures AllShaped(env, [Listing(low, n)[i].1], [s]) {
      assert AllShaped(env, [], env.fields(s, Int(low + i)));
      assert [Listing(low, n)[i].1][1..] == [] && [s][1..] == [];
    }
  }

  /** A match that lists every integer of the type, such as all 256 of `u8`, is reported as not
      exhaustive although every value is handled. */
  lemma {:induction false} AllListedIsReported(env: Types, s: TyId, min: int, max: int, report: Report)
    requires IntegerType(env, s, min, max)
    ensures Match(env, Listing(min, max - min + 1), s)
    ensures Decides(env, Listing(min, max - min + 1), s, report) ==> report.missing.Some?
    ensures forall v | HasType(env, v, s) :: Chosen(Listing(min, max - min + 1), v).Some?
  {
    var arms := Listing(min, max - min + 1);
    ListingMatches(env, s, min, max - min + 1);
    if Decides(env, arms, s, report) {
      ReportedIff(env, arms, s, min, max, report);
    }
    FallsThroughIff(env, arms, s, min, max);
    forall n | min <= n <= max ensures Lists(arms, n) {
      assert arms[n - min].1 == Con(Int(n), []);
    }
  }

  /** A match that lists the integers of a signed type from zero up, such as the 128 of `i8`, is
      rightly reported; but the witness is the integer above the range, and `-1` is uncovered. */
  lemma {:induction false} WitnessBeyondRange(env: Types, s: TyId, min: int, max: int, report: Report)
    requires IntegerType(env, s, min, max) && min < 0
    ensures Match(env, Listing(0, max + 1), s)
    ensures Decides(env, Listing(0, max + 1), s, report) ==> report.missing == Some(Of(Int(max + 1), []))
    ensures !NamesValue(env, Of(Int(max + 1), []), s)
    ensures HasType(env, Data(Int(-1), []), s) && Chosen(Listing(0, max + 1), Data(Int(-1), [])).None?
  {
    var arms := Listing(0, max + 1);
    ListingMatches(env, s, 0, max + 1);
    if Decides(env, arms, s, report) {
      ReportedIff(env, arms, s, min, max, report);
      NamesNext(env, arms, s, min, max);
    }
    assert !HasWildcard(arms) && !Lists(arms, -1);
    Unmatched(env, arms, s, min, max, -1);
    assert HaveTypes(env, [], []);
  }

  /** The witness of a match that lists the integers from zero to the last is the one after it. */
  lemma NamesNext(env: Types, arms: seq<Arm>, s: TyId, min: int, max: int)
    requires IntegerType(env, s, min, max) && arms == Listing(0, max + 1) && Match(env, arms, s)
    ensures var found := ArmRun(env, arms, s, |arms|).found;
            found.Some? ==> found.value[0] == Of(Int(max + 1), [])
  {
    var rows := FirstRows(arms, |arms|);
    WildsFacts(env, [s]);
    assert Wilds(1) == [Wild];
    DefaultQuery(env, [s], rows, [Wild]);
    var m := MissingLiteralFound(false, rows, 0);
    forall k: nat | k <= max ensures HeadOccurs(rows, Candidate(false, k)) {
      assert rows[k][0] == Con(Int(k), []);
    }
    assert m == max + 1;
  }

  // ---- A listed column beside another ----

  /** A pair of an integer and a truth value. */
  ghost predicate PairType(env: Types, s: TyId, u: TyId, b: TyId, min: int, max: int) {
    && IntegerType(env, u, min, max)
    && env.sig(s) == Finite([(Tuple(2), [u, b])])
    && env.sig(b) == Finite([(Bool(false), []), (Bool(true), [])])
  }

  /** One arm for each integer, all but the first for any truth value. */
  function PairListing(min: int, n: nat): (arms: seq<Arm>)
    ensures |arms| == n
    ensures forall i | 0 <= i < n ::
              arms[i] == (i, Con(Tuple(2), [Con(Int(min + i), []), if i == 0 then Con(Bool(true), []) else Wild]))
  {
    seq(n, i => (i, Con(Tuple(2), [Con(Int(min + i), []), if i == 0 then Con(Bool(true), []) else Wild])))
  }

  lemma PairListingMatches(env: Types, s: TyId, u: TyId, b: TyId, min: int, max: int, n: nat)
    requires PairType(env, s, u, b, min, max)
    ensures Match(env, PairListing(min, n), s)
  {
    assert env.sig(s).ctors[0].1 == env.fields(s, Tuple(2)) == [u, b];
    assert env.sig(b).ctors[1].1 == env.fields(b, Bool(true)) == [];
    forall i | 0 <= i < n ensures AllShaped(env, [PairListing(min, n)[i].1], [s]) {
      var Con(c, subs) := PairListing(min, n)[i].1;
      assert AllShaped(env, [], []);
      assert Shaped(env, subs[0], u) && Shaped(env, subs[1], b);
      assert subs[1..] == [subs[1]] && [u, b][1..] == [b] && [subs[1]][1..] == [] && [b][1..] == [];
      assert AllShaped(env, [subs[1]], [b]) && AllShaped(env, subs, [u, b]);
      assert [PairListing(min, n)[i].1][1..] == [] && [s][1..] == [];
    }
  }

  lemma {:induction false} SpecializedAt(rows: seq<seq<Pat>>, c: Ctor, arity: nat)
    requires Heads(rows) && forall i | 0 <= i < |rows| :: rows[i][0].Con? && rows[i][0].ctor == c
    ensures |Specialized(rows, c, arity)| == |rows|
    ensures forall i | 0 <= i < |rows| :: Specialized(rows, c, arity)[i] == rows[i][0].subs + rows[i][1..]
  {
    if rows != [] {
      SpecializedAt(rows[1..], c, arity);
    }
  }

  /** Under the pairs of the listing every integer heads a row. */
  lemma PairsExhausted(env: Types, s: TyId, u: TyId, b: TyId, min: int, max: int)
    requires PairType(env, s, u, b, min, max)
    ensures var rows := FirstRows(PairListing(min, max - min + 1), max - min + 1);
            var spec := Specialized(rows, Tuple(2), 2);
            Heads(spec) && Exhausted(env, [u, b], spec)
  {
    var rows := FirstRows(PairListing(min, max - min + 1), max - min + 1);
    SpecializedAt(rows, Tuple(2), 2);
    var spec := Specialized(rows, Tuple(2), 2);
    hide Specialized;
    forall n | min <= n <= max ensures HeadOccurs(spec, Int(n)) {
      assert spec[n - min][0] == Con(Int(n), []);
    }
    ExhaustedIff(env, [u, b], spec);
  }

  lemma {:induction false} PairsNotClear(env: Types, s: TyId, u: TyId, b: TyId, min: int, max: int)
    requires PairType(env, s, u, b, min, max)
    ensures var rows := FirstRows(PairListing(min, max - min + 1), max - min + 1);
            Query(env, [s], rows, [Wild]) && !Clear(env, [s], rows, [Wild])
  {
    hide Exhausted, Specialized, Shaped, AllShaped;
    var rows := FirstRows(PairListing(min, max - min + 1), max - min + 1);
    PairListingMatches(env, s, u, b, min, max, max - min + 1);
    PairsExhausted(env, s, u, b, min, max);
    WildsFacts(env, [s]);
    assert Wilds(1) == [Wild];
    SpecializeQuery(env, [s], rows, [Wild], Tuple(2));
    TupleFields(env, s, u, b, min, max);
    var cols, q := [u, b] + [s][1..], Wilds(2) + [Wild][1..];
    assert cols == [u, b] && q[0].Wild?;
    assert !Clear(env, cols, Specialized(rows, Tuple(2), 2), q);
    assert rows[0][0].ctor == Tuple(2);
    assert Complete(env, [s], rows) && !ClearUnder(env, [s], rows, [Wild], 0);
  }

  lemma TupleFields(env: Types, s: TyId, u: TyId, b: TyId, min: int, max: int)
    requires PairType(env, s, u, b, min, max)
    ensures env.fields(s, Tuple(2)) == [u, b]
  {
    assert env.sig(s).ctors[0].1 == env.fields(s, Tuple(2));
  }

  /** An exhausted column does not make a report wrong by itself: a match on pairs that lists every
      integer, but for the first of them only `true`, meets one, and rightly reports. */
  lemma {:induction false} ExhaustedYetRight(env: Types, s: TyId, u: TyId, b: TyId, min: int, max: int, report: Report)
    requires PairType(env, s, u, b, min, max)
    ensures var arms := PairListing(min, max - min + 1);
            && Match(env, arms, s)
            && Query(env, [s], FirstRows(arms, |arms|), [Wild])
            && !Clear(env, [s], FirstRows(arms, |arms|), [Wild])
            && (Decides(env, arms, s, report) ==> report.missing.Some?)
            && exists v :: HasType(env, v, s) && Chosen(arms, v).None?
  {
    hide Clear, FirstRows, Match;
    var arms := PairListing(min, max - min + 1);
    PairListingMatches(env, s, u, b, min, max, max - min + 1);
    PairsNotClear(env, s, u, b, min, max);
    UncoveredPair(env, s, u, b, min, max);
    var v :| HasType(env, v, s) && Chosen(arms, v).None?;
    if Decides(env, arms, s, report) {
      ExhaustiveMeans(env, arms, s, report, v);
    }
  }

  lemma UncoveredPair(env: Types, s: TyId, u: TyId, b: TyId, min: int, max: int)
    requires PairType(env, s, u, b, min, max)
    ensures exists v :: HasType(env, v, s) && Chosen(PairListing(min, max - min + 1), v).None?
  {
    var arms := PairListing(min, max - min + 1);
    var pair := [Data(Int(min), []), Data(Bool(false), [])];
    var v := Data(Tuple(2), pair);
    assert env.sig(s).ctors[0].1 == env.fields(s, Tuple(2)) == [u, b];
    assert env.sig(b).ctors[0].1 == env.fields(b, Bool(false)) == [];
    assert HaveTypes(env, [], []) && HasType(env, pair[0], u) && HasType(env, pair[1], b);
    assert pair[1..] == [pair[1]] && [u, b][1..] == [b] && [pair[1]][1..] == [] && [b][1..] == [];
    assert HaveTypes(env, [pair[1]], [b]) && HaveTypes(env, pair, [u, b]);
    assert HasType(env, v, s);
    forall i | 0 <= i < |arms| ensures !Matches(arms[i].1, v) {
      var subs := arms[i].1.subs;
      assert subs[1..] == [subs[1]] && pair[1..] == [pair[1]];
      if i == 0 {
        assert !Matches(subs[1], pair[1]) && !RowMatches([subs[1]], [pair[1]]);
      } else {
        assert !Matches(subs[0], pair[0]);
      }
      assert !RowMatches(subs, pair);
    }
    var k := FirstMatching(arms, v);
    ChosenIsFirst(arms, k, v);
  }
}
