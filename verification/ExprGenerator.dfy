/** The operator ladder of the program generator (tools/fuzz/gen.py). Each draw from the random
    source is an arbitrary choice, so what is proved holds for every seed. */
module ExprGenerator {
  import opened ExprGrammar
  import opened ExprParser

  // ---- `s` is what the tree derives, whatever follows ----

  ghost predicate IsOr(s: seq<Tok>, e: OrExpr) { forall k :: YOr(e, k) == s + k }
  ghost predicate IsAnd(s: seq<Tok>, e: AndExpr) { forall k :: YAnd(e, k) == s + k }
  ghost predicate IsNot(s: seq<Tok>, e: NotExpr) { forall k :: YNot(e, k) == s + k }
  ghost predicate IsCmp(s: seq<Tok>, e: CmpExpr) { forall k :: YCmp(e, k) == s + k }
  ghost predicate IsRange(s: seq<Tok>, e: RangeExpr) { forall k :: YRange(e, k) == s + k }
  ghost predicate IsAdd(s: seq<Tok>, e: AddExpr) { forall k :: YAdd(e, k) == s + k }
  ghost predicate IsMul(s: seq<Tok>, e: MulExpr) { forall k :: YMul(e, k) == s + k }
  ghost predicate IsCast(s: seq<Tok>, e: CastExpr) { forall k :: YCast(e, k) == s + k }
  ghost predicate IsUnary(s: seq<Tok>, e: Unary) { forall k :: YUnary(e, k) == s + k }
  ghost predicate IsPrimary(s: seq<Tok>, e: Primary) { forall k :: YPrimary(e, k) == s + k }
  ghost predicate IsFields(s: seq<Tok>, e: Fields) { forall k :: YFields(e, k) == s + k }
  ghost predicate IsOps(s: seq<Tok>, e: PostOps) { forall k :: YPostOps(e, k) == s + k }

  lemma UseCast(s: seq<Tok>, e: CastExpr, k: seq<Tok>)
    requires IsCast(s, e)
    ensures YCast(e, k) == s + k
  {
  }

  /** A draw of `lo` to `hi`. */
  method Draw(lo: nat, hi: nat) returns (n: nat)
    requires lo <= hi
    ensures lo <= n <= hi
  {
    n :| lo <= n <= hi;
  }

  method Chance() returns (b: bool)
  {
    b := *;
  }

  method GenOr(d: nat) returns (s: seq<Tok>, ghost e: OrExpr)
    ensures IsOr(s, e)
    decreases d, 12
  {
    var a, x := GenAnd(d);
    s, e := a, OrExpr(x, OrNil);
    var n := Draw(0, if d > 0 then 1 else 0);
    if n > 0 {
      var b, y := GenAnd(d - 1);
      s, e := a + [Or] + b, OrExpr(x, OrCons(y, OrNil));
      forall k ensures YOr(e, k) == s + k {
        assert YOrTail(e.more, k) == [Or] + YAnd(y, k);
        assert a + ([Or] + (b + k)) == s + k;
      }
    }
  }

  method GenAnd(d: nat) returns (s: seq<Tok>, ghost e: AndExpr)
    ensures IsAnd(s, e)
    decreases d, 11
  {
    var a, x := GenNot(d);
    s, e := a, AndExpr(x, AndNil);
    var n := Draw(0, if d > 0 then 1 else 0);
    if n > 0 {
      var b, y := GenNot(d - 1);
      s, e := a + [And] + b, AndExpr(x, AndCons(y, AndNil));
      forall k ensures YAnd(e, k) == s + k {
        assert YAndTail(e.more, k) == [And] + YNot(y, k);
        assert a + ([And] + (b + k)) == s + k;
      }
    }
  }

  method GenNot(d: nat) returns (s: seq<Tok>, ghost e: NotExpr)
    ensures IsNot(s, e)
    decreases d, 10
  {
    var negate := Chance();
    if d > 0 && negate {
      var a, x := GenNot(d - 1);
      s, e := [Not] + a, NotOf(x);
      forall k ensures YNot(e, k) == s + k {
        assert [Not] + (a + k) == s + k;
      }
    } else {
      var a, x := GenCmp(d);
      s, e := a, Plain(x);
    }
  }

  method GenCmp(d: nat) returns (s: seq<Tok>, ghost e: CmpExpr)
    ensures IsCmp(s, e)
    decreases d, 9
  {
    var bits := Chance();
    if d > 0 && bits {
      s, e := GenBit(d);
      return;
    }
    var a, x := GenRange(d);
    s, e := a, Compare(x, CmpNil);
    var compare := Chance();
    if d > 0 && compare {
      var op: CmpOp := *;
      var b, y := GenRange(d - 1);
      s, e := a + [Cmp(op)] + b, Compare(x, CmpTo(op, y));
      forall k ensures YCmp(e, k) == s + k {
        var k' := YCmpTail(e.other, k);
        assert k' == [Cmp(op)] + (b + k) && YRange(x, k') == a + k';
        assert a + ([Cmp(op)] + (b + k)) == s + k;
      }
    }
  }

  method GenBit(d: nat) returns (s: seq<Tok>, ghost e: CmpExpr)
    requires d > 0
    ensures IsCmp(s, e)
    decreases d, 8
  {
    var a, x := GenCast(d - 1);
    var b, y := GenCast(d - 1);
    if * {
      var op: ShiftOp := *;
      s, e := a + [Shift(op)] + b, ShiftOnce(op, x, y);
      forall k ensures YCmp(e, k) == s + k {
        UseCast(b, y, k);
        UseCast(a, x, [Shift(op)] + (b + k));
        assert a + ([Shift(op)] + (b + k)) == s + k;
      }
      return;
    }
    var op: BitOp := *;
    var n := Draw(2, 3);
    var c: seq<Tok> := [];
    ghost var more := BitNil;
    if n == 3 {
      var f, z := GenCast(d - 1);
      c, more := [Bit(op)] + f, BitCons(z, BitNil);
      forall k ensures YBitTail(more, op, k) == c + k {
        assert [Bit(op)] + (f + k) == c + k;
      }
    }
    s, e := a + [Bit(op)] + b + c, BitChain(op, x, y, more);
    forall k ensures YCmp(e, k) == s + k {
      assert YBitTail(more, op, k) == c + k;
      UseCast(b, y, c + k);
      UseCast(a, x, [Bit(op)] + (b + (c + k)));
      assert a + ([Bit(op)] + (b + (c + k))) == s + k;
    }
  }

  method GenRange(d: nat) returns (s: seq<Tok>, ghost e: RangeExpr)
    ensures IsRange(s, e)
    decreases d, 8
  {
    var a, x := GenAdd(d);
    s, e := a, RangeExpr(x, RangeNil);
    var range := Chance();
    if d > 0 && range {
      var inc: bool := *;
      var b, y := GenAdd(d - 1);
      s, e := a + [Range(inc)] + b, RangeExpr(x, RangeTo(inc, y));
      forall k ensures YRange(e, k) == s + k {
        assert YRangeTail(e.high, k) == [Range(inc)] + YAdd(y, k);
        assert a + ([Range(inc)] + (b + k)) == s + k;
      }
    }
  }

  method GenAdd(d: nat) returns (s: seq<Tok>, ghost e: AddExpr)
    ensures IsAdd(s, e)
    decreases d, 7
  {
    var a, x := GenMul(d);
    s, e := a, AddExpr(x, AddNil);
    var n := Draw(0, if d > 0 then 1 else 0);
    if n > 0 {
      var op: AddOp := *;
      var b, y := GenMul(d - 1);
      s, e := a + [Add(op)] + b, AddExpr(x, AddCons(op, y, AddNil));
      forall k ensures YAdd(e, k) == s + k {
        assert YAddTail(e.more, k) == [Add(op)] + YMul(y, k);
        assert a + ([Add(op)] + (b + k)) == s + k;
      }
    }
  }

  method GenMul(d: nat) returns (s: seq<Tok>, ghost e: MulExpr)
    ensures IsMul(s, e)
    decreases d, 6
  {
    var a, x := GenCast(d);
    s, e := a, MulExpr(x, MulNil);
    var n := Draw(0, if d > 0 then 1 else 0);
    if n > 0 {
      var op: MulOp := *;
      var b, y := GenCast(d - 1);
      s, e := a + [Mul(op)] + b, MulExpr(x, MulCons(op, y, MulNil));
      forall k ensures YMul(e, k) == s + k {
        assert YMulTail(e.more, k) == [Mul(op)] + YCast(y, k);
        assert a + ([Mul(op)] + (b + k)) == s + k;
      }
    }
  }

  method GenCast(d: nat) returns (s: seq<Tok>, ghost e: CastExpr)
    ensures IsCast(s, e)
    decreases d, 5
  {
    var a, x := GenUnary(d);
    s, e := a, CastExpr(x, CastNil);
    var cast := Chance();
    if d > 0 && cast {
      var f, fields := GenFields();
      s, e := a + [As, Id] + f, CastExpr(x, CastTo(fields, CastNil));
      forall k ensures YCast(e, k) == s + k {
        assert YCasts(e.casts, k) == [As] + ([Id] + YFields(fields, k));
        assert a + ([As] + ([Id] + (f + k))) == s + k;
      }
    }
  }

  method GenUnary(d: nat) returns (s: seq<Tok>, ghost e: Unary)
    ensures IsUnary(s, e)
    decreases d, 4
  {
    var prefix := Chance();
    if d > 0 && prefix {
      var op: PreOp := *;
      var a, x := GenUnary(d - 1);
      s, e := [PreTok(op)] + a, Prefix(op, x);
      forall k ensures YUnary(e, k) == s + k {
        assert [PreTok(op)] + (a + k) == s + k;
      }
    } else {
      s, e := GenPostfix(d);
    }
  }

  method GenPostfix(d: nat) returns (s: seq<Tok>, ghost e: Unary)
    ensures IsUnary(s, e)
    decreases d, 3
  {
    var a, p, fs, fields := GenPrimary(d);
    var n := Draw(0, if d > 0 then 2 else 0);
    var c := fs;
    ghost var ops := AsOps(fields);
    FieldsAsOps(fields, fs);
    for j := 0 to n
      invariant IsOps(c, ops)
    {
      if * {
        ops := SnocOp(ops, Try(PostNil), [Question], c);
        c := c + [Question];
      } else {
        ops := SnocOp(ops, Access(PostNil), [Dot, Id], c);
        c := c + [Dot, Id];
      }
    }
    s, e := a + c, Postfix(p, ops);
    forall k ensures YUnary(e, k) == s + k {
      assert YPostOps(ops, k) == c + k;
      assert a + (c + k) == s + k;
    }
  }

  /** A path is a name and the fields after it; the fields are returned beside the primary. */
  method GenPrimary(d: nat) returns (s: seq<Tok>, ghost p: Primary, fs: seq<Tok>, ghost fields: Fields)
    ensures IsPrimary(s, p) && IsFields(fs, fields)
    decreases d, 2
  {
    fs, fields := [], FieldNil;
    var group := Chance();
    if d > 0 && group {
      s, p := GenGroup(d - 1);
    } else if * {
      s, p := [Literal], Lit;
    } else if * {
      s, p := [Dot, Id], DotLit;
      forall k ensures YPrimary(p, k) == s + k {
        assert [Dot] + ([Id] + k) == s + k;
      }
    } else {
      s, p := [Id], Name;
      fs, fields := GenFields();
    }
  }

  method GenFields() returns (s: seq<Tok>, ghost fields: Fields)
    ensures IsFields(s, fields)
  {
    s, fields := [], FieldNil;
    var n := Draw(0, 2);
    for j := 0 to n
      invariant IsFields(s, fields)
    {
      ghost var was, before := fields, s;
      s, fields := [Dot, Id] + s, Field(fields);
      forall k ensures YFields(fields, k) == s + k {
        assert [Dot] + ([Id] + (before + k)) == s + k;
      }
    }
  }

  method GenGroup(d: nat) returns (s: seq<Tok>, ghost p: Primary)
    ensures IsPrimary(s, p)
    decreases d, 13
  {
    var n := Draw(0, 3);
    if n == 0 {
      s, p := [Open, Close], Group(NoItems);
      forall k ensures YPrimary(p, k) == s + k {
        assert [Open] + ([Close] + k) == s + k;
      }
      return;
    }
    var a, x := GenOr(d);
    var trailing: bool := *;
    var c: seq<Tok> := if n == 1 && trailing then [Comma] else [];
    ghost var t := if n == 1 && trailing then Trailing else Last;
    for j := 1 to n
      invariant forall k :: YItemTail(t, k) == c + k
    {
      var b, y := GenOr(d);
      ghost var before := c;
      c := [Comma] + b + c;
      t := Then(y, t);
      forall k ensures YItemTail(t, k) == c + k {
        assert [Comma] + (b + (before + k)) == c + k;
      }
    }
    s, p := [Open] + a + c + [Close], Group(Item(x, t));
    forall k ensures YPrimary(p, k) == s + k {
      assert YItemTail(t, [Close] + k) == c + ([Close] + k);
      assert [Open] + (a + (c + ([Close] + k))) == s + k;
    }
  }

  // ---- Postfixes at the end ----

  function AsOps(t: Fields): PostOps {
    match t
    case FieldNil => PostNil
    case Field(more) => Access(AsOps(more))
  }

  lemma {:induction false} FieldsAsOps(t: Fields, s: seq<Tok>)
    requires IsFields(s, t)
    ensures IsOps(s, AsOps(t))
  {
    forall k ensures YPostOps(AsOps(t), k) == s + k {
      SameTokens(t, k);
    }
  }

  lemma {:induction false} SameTokens(t: Fields, k: seq<Tok>)
    ensures YPostOps(AsOps(t), k) == YFields(t, k)
  {
    if t.Field? {
      SameTokens(t.more, k);
    }
  }

  function Chain(t: PostOps, u: PostOps): PostOps {
    match t
    case PostNil => u
    case Try(more) => Try(Chain(more, u))
    case Access(more) => Access(Chain(more, u))
  }

  lemma {:induction false} ThenTokens(t: PostOps, u: PostOps, k: seq<Tok>)
    ensures YPostOps(Chain(t, u), k) == YPostOps(t, YPostOps(u, k))
  {
    match t {
      case PostNil =>
      case Try(more) => ThenTokens(more, u, k);
      case Access(more) => ThenTokens(more, u, k);
    }
  }

  lemma SnocOp(t: PostOps, u: PostOps, x: seq<Tok>, s: seq<Tok>) returns (r: PostOps)
    requires IsOps(s, t)
    requires (u == Try(PostNil) && x == [Question]) || (u == Access(PostNil) && x == [Dot, Id])
    ensures IsOps(s + x, r)
  {
    hide YPostOps, Chain;
    r := Chain(t, u);
    forall k ensures YPostOps(r, k) == s + x + k {
      ThenTokens(t, u, k);
      OpTokens(u, x, k);
      assert YPostOps(t, x + k) == s + (x + k);
      assert s + (x + k) == s + x + k;
    }
  }

  lemma OpTokens(u: PostOps, x: seq<Tok>, k: seq<Tok>)
    requires (u == Try(PostNil) && x == [Question]) || (u == Access(PostNil) && x == [Dot, Id])
    ensures YPostOps(u, k) == x + k
  {
    assert [Dot] + ([Id] + k) == [Dot, Id] + k;
    assert YPostOps(PostNil, k) == k;
  }

  /** Every expression the generator prints is read back to its end by the recogniser. */
  method GenExpr(d: nat) returns (s: seq<Tok>)
    ensures Accepts(s) && Derives(s)
  {
    ghost var e: OrExpr;
    s, e := GenOr(d);
    assert YOr(e, []) == s + [] == s;
    AcceptsIffDerived(s);
  }
}
