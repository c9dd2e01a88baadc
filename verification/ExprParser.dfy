/** Deterministic recognition on the operator ladder: which derivation tree a token string starts
    with, and the proof that this finds every derivation and only derivations. */
module ExprParser {
  import opened ExprGrammar

  datatype Parse<T> = Fail | Done(tree: T, rest: seq<Tok>)

  function Head(ts: seq<Tok>): Tok {
    if ts == [] then Eof else ts[0]
  }

  function POr(ts: seq<Tok>): (r: Parse<OrExpr>)
    ensures r.Done? ==> ts == YOr(r.tree, r.rest) && |r.rest| < |ts|
    decreases |ts|, 12
  {
    match PAnd(ts)
    case Fail => Fail
    case Done(e, ts1) =>
      match POrTail(ts1)
      case Fail => Fail
      case Done(more, ts2) => Done(OrExpr(e, more), ts2)
  }

  function POrTail(ts: seq<Tok>): (r: Parse<OrTail>)
    ensures r.Done? ==> ts == YOrTail(r.tree, r.rest) && |r.rest| <= |ts|
    decreases |ts|, 0
  {
    if Head(ts) != Or then Done(OrNil, ts)
    else
      match PAnd(ts[1..])
      case Fail => Fail
      case Done(e, ts1) =>
        match POrTail(ts1)
        case Fail => Fail
        case Done(more, ts2) => Done(OrCons(e, more), ts2)
  }

  function PAnd(ts: seq<Tok>): (r: Parse<AndExpr>)
    ensures r.Done? ==> ts == YAnd(r.tree, r.rest) && |r.rest| < |ts|
    decreases |ts|, 11
  {
    match PNot(ts)
    case Fail => Fail
    case Done(e, ts1) =>
      match PAndTail(ts1)
      case Fail => Fail
      case Done(more, ts2) => Done(AndExpr(e, more), ts2)
  }

  function PAndTail(ts: seq<Tok>): (r: Parse<AndTail>)
    ensures r.Done? ==> ts == YAndTail(r.tree, r.rest) && |r.rest| <= |ts|
    decreases |ts|, 0
  {
    if Head(ts) != And then Done(AndNil, ts)
    else
      match PNot(ts[1..])
      case Fail => Fail
      case Done(e, ts1) =>
        match PAndTail(ts1)
        case Fail => Fail
        case Done(more, ts2) => Done(AndCons(e, more), ts2)
  }

  function PNot(ts: seq<Tok>): (r: Parse<NotExpr>)
    ensures r.Done? ==> ts == YNot(r.tree, r.rest) && |r.rest| < |ts|
    decreases |ts|, 10
  {
    if Head(ts) == Not then
      match PNot(ts[1..])
      case Fail => Fail
      case Done(e, ts1) => Done(NotOf(e), ts1)
    else
      match PCmp(ts)
      case Fail => Fail
      case Done(c, ts1) => Done(Plain(c), ts1)
  }

  function PCmp(ts: seq<Tok>): (r: Parse<CmpExpr>)
    ensures r.Done? ==> ts == YCmp(r.tree, r.rest) && |r.rest| < |ts|
    decreases |ts|, 9
  {
    match PCast(ts)
    case Fail => Fail
    case Done(l, ts1) => PCmpFrom(l, ts1)
  }

  /** The operator after the first cast expression decides between the two alternatives. */
  function PCmpFrom(l: CastExpr, ts: seq<Tok>): (r: Parse<CmpExpr>)
    ensures r.Done? ==> YCast(l, ts) == YCmp(r.tree, r.rest) && |r.rest| <= |ts|
    decreases |ts|, 4
  {
    match Head(ts)
    case Bit(op) => PBitChain(op, l, ts)
    case Shift(op) => PShift(op, l, ts)
    case _ =>
      match PRangeFrom(l, ts)
      case Fail => Fail
      case Done(range, ts1) =>
        match PCmpTail(ts1)
        case Fail => Fail
        case Done(other, ts2) => Done(Compare(range, other), ts2)
  }

  function PShift(op: ShiftOp, l: CastExpr, ts: seq<Tok>): (r: Parse<CmpExpr>)
    requires Head(ts) == Shift(op)
    ensures r.Done? ==> YCast(l, ts) == YCmp(r.tree, r.rest) && |r.rest| <= |ts|
    decreases |ts|, 0
  {
    match PCast(ts[1..])
    case Fail => Fail
    case Done(r, ts1) =>
      assert ts == [Shift(op)] + YCast(r, ts1);
      Done(ShiftOnce(op, l, r), ts1)
  }

  function PBitChain(op: BitOp, l: CastExpr, ts: seq<Tok>): (r: Parse<CmpExpr>)
    requires Head(ts) == Bit(op)
    ensures r.Done? ==> YCast(l, ts) == YCmp(r.tree, r.rest) && |r.rest| <= |ts|
    decreases |ts|, 0
  {
    match PCast(ts[1..])
    case Fail => Fail
    case Done(r, ts1) =>
      match PBitTail(op, ts1)
      case Fail => Fail
      case Done(more, ts2) =>
        assert ts == [Bit(op)] + YCast(r, YBitTail(more, op, ts2));
        Done(BitChain(op, l, r, more), ts2)
  }

  function PBitTail(op: BitOp, ts: seq<Tok>): (r: Parse<BitTail>)
    ensures r.Done? ==> ts == YBitTail(r.tree, op, r.rest) && |r.rest| <= |ts|
    decreases |ts|, 0
  {
    if Head(ts) != Bit(op) then Done(BitNil, ts)
    else
      match PCast(ts[1..])
      case Fail => Fail
      case Done(e, ts1) =>
        match PBitTail(op, ts1)
        case Fail => Fail
        case Done(more, ts2) => Done(BitCons(e, more), ts2)
  }

  function PCmpTail(ts: seq<Tok>): (r: Parse<CmpTail>)
    ensures r.Done? ==> ts == YCmpTail(r.tree, r.rest) && |r.rest| <= |ts|
    decreases |ts|, 0
  {
    if !Head(ts).Cmp? then Done(CmpNil, ts)
    else
      match PRange(ts[1..])
      case Fail => Fail
      case Done(e, ts1) => Done(CmpTo(ts[0].cmp, e), ts1)
  }

  function PRange(ts: seq<Tok>): (r: Parse<RangeExpr>)
    ensures r.Done? ==> ts == YRange(r.tree, r.rest) && |r.rest| < |ts|
    decreases |ts|, 8
  {
    match PCast(ts)
    case Fail => Fail
    case Done(c, ts1) => PRangeFrom(c, ts1)
  }

  /** A range whose first cast expression `seed` is already read. */
  function PRangeFrom(seed: CastExpr, ts: seq<Tok>): (r: Parse<RangeExpr>)
    ensures r.Done? ==> YCast(seed, ts) == YRange(r.tree, r.rest) && |r.rest| <= |ts|
    decreases |ts|, 3
  {
    match PAddFrom(seed, ts)
    case Fail => Fail
    case Done(low, ts1) =>
      match PRangeTail(ts1)
      case Fail => Fail
      case Done(high, ts2) =>
        Done(RangeExpr(low, high), ts2)
  }

  function PRangeTail(ts: seq<Tok>): (r: Parse<RangeTail>)
    ensures r.Done? ==> ts == YRangeTail(r.tree, r.rest) && |r.rest| <= |ts|
    decreases |ts|, 0
  {
    if !Head(ts).Range? then Done(RangeNil, ts)
    else
      match PAdd(ts[1..])
      case Fail => Fail
      case Done(e, ts1) => Done(RangeTo(ts[0].inclusive, e), ts1)
  }

  function PAdd(ts: seq<Tok>): (r: Parse<AddExpr>)
    ensures r.Done? ==> ts == YAdd(r.tree, r.rest) && |r.rest| < |ts|
    decreases |ts|, 7
  {
    match PCast(ts)
    case Fail => Fail
    case Done(c, ts1) => PAddFrom(c, ts1)
  }

  function PAddFrom(seed: CastExpr, ts: seq<Tok>): (r: Parse<AddExpr>)
    ensures r.Done? ==> YCast(seed, ts) == YAdd(r.tree, r.rest) && |r.rest| <= |ts|
    decreases |ts|, 2
  {
    match PMulFrom(seed, ts)
    case Fail => Fail
    case Done(first, ts1) =>
      match PAddTail(ts1)
      case Fail => Fail
      case Done(more, ts2) =>
        Done(AddExpr(first, more), ts2)
  }

  function PAddTail(ts: seq<Tok>): (r: Parse<AddTail>)
    ensures r.Done? ==> ts == YAddTail(r.tree, r.rest) && |r.rest| <= |ts|
    decreases |ts|, 0
  {
    if !Head(ts).Add? then Done(AddNil, ts)
    else
      match PMul(ts[1..])
      case Fail => Fail
      case Done(e, ts1) =>
        match PAddTail(ts1)
        case Fail => Fail
        case Done(more, ts2) => Done(AddCons(ts[0].add, e, more), ts2)
  }

  function PMul(ts: seq<Tok>): (r: Parse<MulExpr>)
    ensures r.Done? ==> ts == YMul(r.tree, r.rest) && |r.rest| < |ts|
    decreases |ts|, 6
  {
    match PCast(ts)
    case Fail => Fail
    case Done(c, ts1) => PMulFrom(c, ts1)
  }

  function PMulFrom(seed: CastExpr, ts: seq<Tok>): (r: Parse<MulExpr>)
    ensures r.Done? ==> YCast(seed, ts) == YMul(r.tree, r.rest) && |r.rest| <= |ts|
    decreases |ts|, 1
  {
    match PMulTail(ts)
    case Fail => Fail
    case Done(more, ts1) => Done(MulExpr(seed, more), ts1)
  }

  function PMulTail(ts: seq<Tok>): (r: Parse<MulTail>)
    ensures r.Done? ==> ts == YMulTail(r.tree, r.rest) && |r.rest| <= |ts|
    decreases |ts|, 0
  {
    if !Head(ts).Mul? then Done(MulNil, ts)
    else
      match PCast(ts[1..])
      case Fail => Fail
      case Done(e, ts1) =>
        match PMulTail(ts1)
        case Fail => Fail
        case Done(more, ts2) => Done(MulCons(ts[0].mul, e, more), ts2)
  }

  function PCast(ts: seq<Tok>): (r: Parse<CastExpr>)
    ensures r.Done? ==> ts == YCast(r.tree, r.rest) && |r.rest| < |ts|
    decreases |ts|, 5
  {
    match PUnary(ts)
    case Fail => Fail
    case Done(u, ts1) =>
      match PCasts(ts1)
      case Fail => Fail
      case Done(casts, ts2) => Done(CastExpr(u, casts), ts2)
  }

  function PCasts(ts: seq<Tok>): (r: Parse<Casts>)
    ensures r.Done? ==> ts == YCasts(r.tree, r.rest) && |r.rest| <= |ts|
    decreases |ts|, 0
  {
    if Head(ts) != As then Done(CastNil, ts)
    else if Head(ts[1..]) != Id then Fail
    else
      var Done(fields, ts1) := PFields(ts[2..]);
      match PCasts(ts1)
      case Fail => Fail
      case Done(more, ts2) =>
        Done(CastTo(fields, more), ts2)
  }

  function PFields(ts: seq<Tok>): (r: Parse<Fields>)
    ensures r.Done? && ts == YFields(r.tree, r.rest) && |r.rest| <= |ts|
    decreases |ts|, 0
  {
    if Head(ts) == Dot && Head(ts[1..]) == Id then
      var Done(more, ts1) := PFields(ts[2..]);
      Done(Field(more), ts1)
    else Done(FieldNil, ts)
  }

  function PUnary(ts: seq<Tok>): (r: Parse<Unary>)
    ensures r.Done? ==> ts == YUnary(r.tree, r.rest) && |r.rest| < |ts|
    decreases |ts|, 4
  {
    if Head(ts) == Add(Minus) || Head(ts) == MoveKw then
      match PUnary(ts[1..])
      case Fail => Fail
      case Done(u, ts1) => Done(Prefix(if ts[0] == MoveKw then Move else Negate, u), ts1)
    else
      match PPrimary(ts)
      case Fail => Fail
      case Done(p, ts1) =>
        match PPostOps(ts1)
        case Fail => Fail
        case Done(ops, ts2) => Done(Postfix(p, ops), ts2)
  }

  function PPostOps(ts: seq<Tok>): (r: Parse<PostOps>)
    ensures r.Done? ==> ts == YPostOps(r.tree, r.rest) && |r.rest| <= |ts|
    decreases |ts|, 0
  {
    if Head(ts) == Question then
      match PPostOps(ts[1..])
      case Fail => Fail
      case Done(more, ts1) => Done(Try(more), ts1)
    else if Head(ts) == Dot then
      if Head(ts[1..]) != Id then Fail
      else
        match PPostOps(ts[2..])
        case Fail => Fail
        case Done(more, ts1) =>
          Done(Access(more), ts1)
    else Done(PostNil, ts)
  }

  function PPrimary(ts: seq<Tok>): (r: Parse<Primary>)
    ensures r.Done? ==> ts == YPrimary(r.tree, r.rest) && |r.rest| < |ts|
    decreases |ts|, 1
  {
    match Head(ts)
    case Literal => Done(Lit, ts[1..])
    case Id => Done(Name, ts[1..])
    case Dot =>
      if Head(ts[1..]) == Id then
        assert ts == [Dot] + ([Id] + ts[2..]);
        Done(DotLit, ts[2..])
      else Fail
    case Open =>
      (match PItems(ts[1..])
       case Fail => Fail
       case Done(items, ts1) =>
         if Head(ts1) != Close then Fail
         else
           assert ts1 == [Close] + ts1[1..];
           Done(Group(items), ts1[1..]))
    case _ => Fail
  }

  function PItems(ts: seq<Tok>): (r: Parse<Items>)
    ensures r.Done? ==> ts == YItems(r.tree, r.rest) && |r.rest| <= |ts|
    decreases |ts|, 13
  {
    if Head(ts) == Close then Done(NoItems, ts)
    else
      match POr(ts)
      case Fail => Fail
      case Done(e, ts1) =>
        match PItemTail(ts1)
        case Fail => Fail
        case Done(rest, ts2) => Done(Item(e, rest), ts2)
  }

  function PItemTail(ts: seq<Tok>): (r: Parse<ItemTail>)
    ensures r.Done? ==> ts == YItemTail(r.tree, r.rest) && |r.rest| <= |ts|
    decreases |ts|, 0
  {
    if Head(ts) != Comma then Done(Last, ts)
    else if Head(ts[1..]) == Close then Done(Trailing, ts[1..])
    else
      match POr(ts[1..])
      case Fail => Fail
      case Done(e, ts1) =>
        match PItemTail(ts1)
        case Fail => Fail
        case Done(rest, ts2) => Done(Then(e, rest), ts2)
  }

  // ---- Completeness: the tree a token string was derived from is the one found ----

  /** The tokens that would continue a cast expression, a product, a sum, a range, .. */
  predicate EndsCast(t: Tok) { t != Question && t != Dot && t != As }
  predicate EndsMul(t: Tok) { EndsCast(t) && !t.Mul? }
  predicate EndsAdd(t: Tok) { EndsMul(t) && !t.Add? }
  predicate EndsRange(t: Tok) { EndsAdd(t) && !t.Range? }
  predicate EndsCmp(t: Tok) { EndsRange(t) && !t.Cmp? && !t.Bit? && !t.Shift? }
  predicate EndsAnd(t: Tok) { EndsCmp(t) && t != And }
  predicate EndsOr(t: Tok) { EndsAnd(t) && t != Or }

  lemma {:induction false} FindsOr(e: OrExpr, k: seq<Tok>)
    requires EndsOr(Head(k))
    ensures POr(YOr(e, k)) == Done(e, k)
    decreases e
  {
    FindsOrTail(e.more, k);
    FindsAnd(e.first, YOrTail(e.more, k));
  }

  lemma {:induction false} FindsOrTail(t: OrTail, k: seq<Tok>)
    requires EndsOr(Head(k))
    ensures POrTail(YOrTail(t, k)) == Done(t, k) && EndsAnd(Head(YOrTail(t, k)))
    decreases t
  {
    if t.OrCons? {
      FindsOrTail(t.more, k);
      FindsAnd(t.e, YOrTail(t.more, k));
      assert YOrTail(t, k)[1..] == YAnd(t.e, YOrTail(t.more, k));
    }
  }

  lemma {:induction false} FindsAnd(e: AndExpr, k: seq<Tok>)
    requires EndsAnd(Head(k))
    ensures PAnd(YAnd(e, k)) == Done(e, k)
    decreases e
  {
    FindsAndTail(e.more, k);
    FindsNot(e.first, YAndTail(e.more, k));
  }

  lemma {:induction false} FindsAndTail(t: AndTail, k: seq<Tok>)
    requires EndsAnd(Head(k))
    ensures PAndTail(YAndTail(t, k)) == Done(t, k) && EndsCmp(Head(YAndTail(t, k)))
    decreases t
  {
    if t.AndCons? {
      FindsAndTail(t.more, k);
      FindsNot(t.e, YAndTail(t.more, k));
      assert YAndTail(t, k)[1..] == YNot(t.e, YAndTail(t.more, k));
    }
  }

  lemma {:induction false} FindsNot(e: NotExpr, k: seq<Tok>)
    requires EndsCmp(Head(k))
    ensures PNot(YNot(e, k)) == Done(e, k)
    decreases e
  {
    match e {
      case NotOf(n) =>
        FindsNot(n, k);
        assert YNot(e, k)[1..] == YNot(n, k);
      case Plain(c) =>
        FindsCmp(c, k);
        CmpStarts(c, k);
    }
  }

  lemma {:induction false} FindsCmp(e: CmpExpr, k: seq<Tok>)
    requires EndsCmp(Head(k))
    ensures PCmp(YCmp(e, k)) == Done(e, k)
    decreases e, 1
  {
    match e {
      case BitChain(op, l, r, more) =>
        FindsBitChain(e, k);
      case ShiftOnce(op, l, r) =>
        FindsShift(e, k);
      case Compare(range, other) =>
        FindsCmpTail(other, k);
        FindsCompare(range, other, k);
    }
  }

  lemma {:induction false} FindsBitChain(e: CmpExpr, k: seq<Tok>)
    requires e.BitChain? && EndsCmp(Head(k))
    ensures PCmp(YCmp(e, k)) == Done(e, k)
    decreases e, 0
  {
    var BitChain(op, l, r, more) := e;
    hide PCast, YCast, PBitTail, YBitTail;
    FindsBitTail(more, op, k);
    var right := YCast(r, YBitTail(more, op, k));
    FindsCast(r, YBitTail(more, op, k));
    var rest := [Bit(op)] + right;
    assert rest[1..] == right;
    FindsCast(l, rest);
    assert PCmpFrom(l, rest) == PBitChain(op, l, rest) == Done(e, k);
  }

  lemma {:induction false} FindsShift(e: CmpExpr, k: seq<Tok>)
    requires e.ShiftOnce? && EndsCmp(Head(k))
    ensures PCmp(YCmp(e, k)) == Done(e, k)
    decreases e, 0
  {
    var ShiftOnce(op, l, r) := e;
    hide PCast, YCast;
    FindsCast(r, k);
    var rest := [Shift(op)] + YCast(r, k);
    assert rest[1..] == YCast(r, k);
    FindsCast(l, rest);
    assert PCmpFrom(l, rest) == Done(e, k);
  }

  lemma {:induction false} FindsCompare(range: RangeExpr, other: CmpTail, k: seq<Tok>)
    requires PCmpTail(YCmpTail(other, k)) == Done(other, k)
    requires var h := Head(YCmpTail(other, k)); EndsRange(h) && !h.Bit? && !h.Shift?
    ensures PCmp(YCmp(Compare(range, other), k)) == Done(Compare(range, other), k)
    decreases range, 1
  {
    var k' := YCmpTail(other, k);
    var seed, rest := range.low.first.first, AfterSeed(range, k');
    RangeGoesOn(range, k');
    FindsRange(range, k');
    FindsCast(seed, rest);
    assert PCmpFrom(seed, rest) == Done(Compare(range, other), k);
  }

  /** What follows the first cast expression of a range. */
  function AfterSeed(e: RangeExpr, k: seq<Tok>): seq<Tok> {
    YMulTail(e.low.first.more, YAddTail(e.low.more, YRangeTail(e.high, k)))
  }

  /** After the first cast expression of a range comes no bitwise or shift operator. */
  lemma RangeGoesOn(e: RangeExpr, k: seq<Tok>)
    requires !Head(k).Bit? && !Head(k).Shift?
    ensures YRange(e, k) == YCast(e.low.first.first, AfterSeed(e, k))
    ensures !Head(AfterSeed(e, k)).Bit? && !Head(AfterSeed(e, k)).Shift?
  {
    var high := YRangeTail(e.high, k);
    var more := YAddTail(e.low.more, high);
    assert YRange(e, k) == YAdd(e.low, high) == YMul(e.low.first, more);
    assert !Head(high).Bit? && !Head(high).Shift?;
    assert !Head(more).Bit? && !Head(more).Shift?;
  }

  lemma {:induction false} FindsBitTail(t: BitTail, op: BitOp, k: seq<Tok>)
    requires EndsCmp(Head(k))
    ensures PBitTail(op, YBitTail(t, op, k)) == Done(t, k) && EndsCast(Head(YBitTail(t, op, k)))
    decreases t
  {
    if t.BitCons? {
      FindsBitTail(t.more, op, k);
      FindsCast(t.e, YBitTail(t.more, op, k));
      assert YBitTail(t, op, k)[1..] == YCast(t.e, YBitTail(t.more, op, k));
    }
  }

  lemma {:induction false} FindsCmpTail(t: CmpTail, k: seq<Tok>)
    requires EndsCmp(Head(k))
    ensures PCmpTail(YCmpTail(t, k)) == Done(t, k)
    ensures var h := Head(YCmpTail(t, k)); EndsRange(h) && !h.Bit? && !h.Shift?
    decreases t
  {
    if t.CmpTo? {
      FindsRange(t.e, k);
      assert YCmpTail(t, k)[1..] == YRange(t.e, k);
    }
  }

  lemma {:induction false} FindsRange(e: RangeExpr, k: seq<Tok>)
    requires EndsRange(Head(k))
    ensures PRange(YRange(e, k)) == Done(e, k)
    ensures PRangeFrom(e.low.first.first, AfterSeed(e, k)) == Done(e, k)
    ensures EndsCast(Head(AfterSeed(e, k)))
    decreases e, 0
  {
    FindsRangeTail(e.high, k);
    FindsAdd(e.low, YRangeTail(e.high, k));
    FindsCast(e.low.first.first, AfterSeed(e, k));
  }

  lemma {:induction false} FindsRangeTail(t: RangeTail, k: seq<Tok>)
    requires EndsRange(Head(k))
    ensures PRangeTail(YRangeTail(t, k)) == Done(t, k) && EndsAdd(Head(YRangeTail(t, k)))
    decreases t
  {
    if t.RangeTo? {
      FindsAdd(t.e, k);
      assert YRangeTail(t, k)[1..] == YAdd(t.e, k);
    }
  }

  lemma {:induction false} FindsAdd(e: AddExpr, k: seq<Tok>)
    requires EndsAdd(Head(k))
    ensures PAdd(YAdd(e, k)) == Done(e, k)
    ensures PAddFrom(e.first.first, YMulTail(e.first.more, YAddTail(e.more, k))) == Done(e, k)
    ensures EndsCast(Head(YMulTail(e.first.more, YAddTail(e.more, k))))
    decreases e
  {
    FindsAddTail(e.more, k);
    FindsMul(e.first, YAddTail(e.more, k));
    FindsCast(e.first.first, YMulTail(e.first.more, YAddTail(e.more, k)));
  }

  lemma {:induction false} FindsAddTail(t: AddTail, k: seq<Tok>)
    requires EndsAdd(Head(k))
    ensures PAddTail(YAddTail(t, k)) == Done(t, k) && EndsMul(Head(YAddTail(t, k)))
    decreases t
  {
    if t.AddCons? {
      FindsAddTail(t.more, k);
      FindsMul(t.e, YAddTail(t.more, k));
      assert YAddTail(t, k)[1..] == YMul(t.e, YAddTail(t.more, k));
    }
  }

  lemma {:induction false} FindsMul(e: MulExpr, k: seq<Tok>)
    requires EndsMul(Head(k))
    ensures PMul(YMul(e, k)) == Done(e, k)
    ensures PMulFrom(e.first, YMulTail(e.more, k)) == Done(e, k)
    ensures EndsCast(Head(YMulTail(e.more, k)))
    decreases e
  {
    FindsMulTail(e.more, k);
    FindsCast(e.first, YMulTail(e.more, k));
  }

  lemma {:induction false} FindsMulTail(t: MulTail, k: seq<Tok>)
    requires EndsMul(Head(k))
    ensures PMulTail(YMulTail(t, k)) == Done(t, k) && EndsCast(Head(YMulTail(t, k)))
    decreases t
  {
    if t.MulCons? {
      FindsMulTail(t.more, k);
      FindsCast(t.e, YMulTail(t.more, k));
      assert YMulTail(t, k)[1..] == YCast(t.e, YMulTail(t.more, k));
    }
  }

  lemma {:induction false} FindsCast(e: CastExpr, k: seq<Tok>)
    requires EndsCast(Head(k))
    ensures PCast(YCast(e, k)) == Done(e, k)
    decreases e
  {
    FindsCasts(e.casts, k);
    FindsUnary(e.u, YCasts(e.casts, k));
  }

  lemma {:induction false} FindsCasts(t: Casts, k: seq<Tok>)
    requires EndsCast(Head(k))
    ensures PCasts(YCasts(t, k)) == Done(t, k)
    ensures var h := Head(YCasts(t, k)); h != Question && h != Dot
    decreases t
  {
    if t.CastTo? {
      FindsCasts(t.more, k);
      FindsFields(t.fields, YCasts(t.more, k));
      var ts := YCasts(t, k);
      assert ts[1..] == [Id] + YFields(t.fields, YCasts(t.more, k));
      assert ts[2..] == YFields(t.fields, YCasts(t.more, k));
    }
  }

  lemma {:induction false} FindsFields(t: Fields, k: seq<Tok>)
    requires Head(k) != Dot
    ensures PFields(YFields(t, k)) == Done(t, k)
    decreases t
  {
    if t.Field? {
      FindsFields(t.more, k);
      var ts := YFields(t, k);
      assert ts[1..] == [Id] + YFields(t.more, k);
      assert ts[2..] == YFields(t.more, k);
    }
  }

  lemma {:induction false} FindsUnary(e: Unary, k: seq<Tok>)
    requires Head(k) != Question && Head(k) != Dot
    ensures PUnary(YUnary(e, k)) == Done(e, k)
    decreases e
  {
    match e {
      case Prefix(op, u) =>
        FindsUnary(u, k);
        assert YUnary(e, k)[1..] == YUnary(u, k);
      case Postfix(p, ops) =>
        FindsPostOps(ops, k);
        FindsPrimary(p, YPostOps(ops, k));
    }
  }

  lemma {:induction false} FindsPostOps(t: PostOps, k: seq<Tok>)
    requires Head(k) != Question && Head(k) != Dot
    ensures PPostOps(YPostOps(t, k)) == Done(t, k)
    decreases t
  {
    var ts := YPostOps(t, k);
    match t {
      case PostNil =>
      case Try(more) =>
        FindsPostOps(more, k);
        assert ts[1..] == YPostOps(more, k);
      case Access(more) =>
        FindsPostOps(more, k);
        assert ts[1..] == [Id] + YPostOps(more, k);
        assert ts[2..] == YPostOps(more, k);
    }
  }

  lemma {:induction false} FindsPrimary(p: Primary, k: seq<Tok>)
    ensures PPrimary(YPrimary(p, k)) == Done(p, k)
    ensures Head(YPrimary(p, k)) in {Literal, Id, Dot, Open}
    decreases p
  {
    var ts := YPrimary(p, k);
    match p {
      case Lit =>
      case DotLit =>
        assert ts[1..] == [Id] + k && ts[2..] == k;
      case Name =>
      case Group(items) =>
        FindsItems(items, [Close] + k);
        assert ts[1..] == YItems(items, [Close] + k);
        assert ([Close] + k)[1..] == k;
    }
  }

  lemma {:induction false} FindsItems(t: Items, k: seq<Tok>)
    requires Head(k) == Close
    ensures PItems(YItems(t, k)) == Done(t, k)
    decreases t
  {
    if t.Item? {
      FindsItemTail(t.rest, k);
      FindsOr(t.e, YItemTail(t.rest, k));
      OrStarts(t.e, YItemTail(t.rest, k));
    }
  }

  lemma {:induction false} FindsItemTail(t: ItemTail, k: seq<Tok>)
    requires Head(k) == Close
    ensures PItemTail(YItemTail(t, k)) == Done(t, k) && EndsOr(Head(YItemTail(t, k)))
    decreases t
  {
    match t {
      case Last =>
      case Trailing =>
        assert YItemTail(t, k)[1..] == k;
      case Then(e, rest) =>
        FindsItemTail(rest, k);
        FindsOr(e, YItemTail(rest, k));
        OrStarts(e, YItemTail(rest, k));
        assert YItemTail(t, k)[1..] == YOr(e, YItemTail(rest, k));
    }
  }

  // ---- How expressions start ----

  predicate StartsCast(t: Tok) {
    t in {Literal, Id, Dot, Open, Add(Minus), MoveKw}
  }

  lemma UnaryStarts(e: Unary, k: seq<Tok>)
    ensures StartsCast(Head(YUnary(e, k)))
  {
    if e.Postfix? {
      assert Head(YPrimary(e.p, YPostOps(e.ops, k))) in {Literal, Id, Dot, Open};
    }
  }

  lemma CastStarts(e: CastExpr, k: seq<Tok>)
    ensures StartsCast(Head(YCast(e, k)))
  {
    UnaryStarts(e.u, YCasts(e.casts, k));
  }

  lemma CmpStarts(e: CmpExpr, k: seq<Tok>)
    ensures StartsCast(Head(YCmp(e, k)))
  {
    match e {
      case BitChain(op, l, r, more) => CastStarts(l, [Bit(op)] + YCast(r, YBitTail(more, op, k)));
      case ShiftOnce(op, l, r) => CastStarts(l, [Shift(op)] + YCast(r, k));
      case Compare(range, other) =>
        var k' := YCmpTail(other, k);
        assert YRange(range, k') == YAdd(range.low, YRangeTail(range.high, k'));
        CastStarts(range.low.first.first, AfterSeed(range, k'));
    }
  }

  lemma OrStarts(e: OrExpr, k: seq<Tok>)
    ensures StartsCast(Head(YOr(e, k))) || Head(YOr(e, k)) == Not
  {
    var n, k' := e.first.first, YAndTail(e.first.more, YOrTail(e.more, k));
    assert YOr(e, k) == YNot(n, k');
    if n.Plain? {
      CmpStarts(n.c, k');
    }
  }

  // ---- The language and its trees ----

  /** The recogniser consumes the whole string. */
  predicate Accepts(ts: seq<Tok>) {
    POr(ts).Done? && POr(ts).rest == []
  }

  /** The whole string is consumed if and only if the grammar derives it. */
  lemma AcceptsIffDerived(ts: seq<Tok>)
    ensures Accepts(ts) <==> Derives(ts)
  {
    if e: OrExpr :| YOr(e, []) == ts {
      FindsOr(e, []);
    }
  }

  /** The ladder is unambiguous: one token string has one derivation tree. */
  lemma DerivationIsUnique(e: OrExpr, e': OrExpr)
    requires YOr(e, []) == YOr(e', [])
    ensures e == e'
  {
    FindsOr(e, []);
    FindsOr(e', []);
  }
}
