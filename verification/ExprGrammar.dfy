/** The operator ladder of the expression grammar (docs/spec/07-grammar.md, tools/ref/fors_parse.py)
    as derivation trees, over literals, paths, field and `?` postfixes, parenthesised groups and
    casts to plain paths. */
module ExprGrammar {

  datatype BitOp = BitAnd | BitOr | BitXor
  datatype ShiftOp = ShiftLeft | ShiftRight
  datatype CmpOp = Eq | Ne | Lt | Gt | Le | Ge
  datatype AddOp = Plus | Minus
  datatype MulOp = Star | Slash | Percent
  datatype PreOp = Negate | Move

  /** `Literal` stands for a number, a string, `true` or `false`; `Id` for any identifier. The
      minus sign is one token, `Add(Minus)`, prefix or infix. */
  datatype Tok =
    | Literal | Id | Dot | Comma | Open | Close | Question
    | Or | And | Not | As | MoveKw
    | Bit(bit: BitOp) | Shift(shift: ShiftOp) | Cmp(cmp: CmpOp)
    | Range(inclusive: bool) | Add(add: AddOp) | Mul(mul: MulOp)
    | Eof

  // ---- Derivation trees, one datatype per production ----

  datatype OrExpr = OrExpr(first: AndExpr, more: OrTail)
  datatype OrTail = OrNil | OrCons(e: AndExpr, more: OrTail)
  datatype AndExpr = AndExpr(first: NotExpr, more: AndTail)
  datatype AndTail = AndNil | AndCons(e: NotExpr, more: AndTail)
  datatype NotExpr = NotOf(e: NotExpr) | Plain(c: CmpExpr)
  datatype CmpExpr =
    | BitChain(op: BitOp, left: CastExpr, right: CastExpr, more: BitTail)
    | ShiftOnce(sop: ShiftOp, left: CastExpr, right: CastExpr)
    | Compare(range: RangeExpr, other: CmpTail)
  datatype BitTail = BitNil | BitCons(e: CastExpr, more: BitTail)
  datatype CmpTail = CmpNil | CmpTo(op: CmpOp, e: RangeExpr)
  datatype RangeExpr = RangeExpr(low: AddExpr, high: RangeTail)
  datatype RangeTail = RangeNil | RangeTo(inclusive: bool, e: AddExpr)
  datatype AddExpr = AddExpr(first: MulExpr, more: AddTail)
  datatype AddTail = AddNil | AddCons(op: AddOp, e: MulExpr, more: AddTail)
  datatype MulExpr = MulExpr(first: CastExpr, more: MulTail)
  datatype MulTail = MulNil | MulCons(op: MulOp, e: CastExpr, more: MulTail)
  datatype CastExpr = CastExpr(u: Unary, casts: Casts)
  datatype Casts = CastNil | CastTo(fields: Fields, more: Casts)
  datatype Fields = FieldNil | Field(more: Fields)
  datatype Unary = Prefix(op: PreOp, u: Unary) | Postfix(p: Primary, ops: PostOps)
  datatype PostOps = PostNil | Try(more: PostOps) | Access(more: PostOps)
  datatype Primary = Lit | DotLit | Name | Group(items: Items)
  datatype Items = NoItems | Item(e: OrExpr, rest: ItemTail)
  datatype ItemTail = Last | Trailing | Then(e: OrExpr, rest: ItemTail)

  // ---- The token string a tree derives, followed by `k` ----

  function YOr(e: OrExpr, k: seq<Tok>): seq<Tok>
    decreases e
  {
    YAnd(e.first, YOrTail(e.more, k))
  }

  function YOrTail(t: OrTail, k: seq<Tok>): seq<Tok>
    decreases t
  {
    match t
    case OrNil => k
    case OrCons(e, more) => [Or] + YAnd(e, YOrTail(more, k))
  }

  function YAnd(e: AndExpr, k: seq<Tok>): seq<Tok>
    decreases e
  {
    YNot(e.first, YAndTail(e.more, k))
  }

  function YAndTail(t: AndTail, k: seq<Tok>): seq<Tok>
    decreases t
  {
    match t
    case AndNil => k
    case AndCons(e, more) => [And] + YNot(e, YAndTail(more, k))
  }

  function YNot(e: NotExpr, k: seq<Tok>): seq<Tok>
    decreases e
  {
    match e
    case NotOf(n) => [Not] + YNot(n, k)
    case Plain(c) => YCmp(c, k)
  }

  function YCmp(e: CmpExpr, k: seq<Tok>): seq<Tok>
    decreases e
  {
    match e
    case BitChain(op, l, r, more) => YCast(l, [Bit(op)] + YCast(r, YBitTail(more, op, k)))
    case ShiftOnce(op, l, r) => YCast(l, [Shift(op)] + YCast(r, k))
    case Compare(range, other) => YRange(range, YCmpTail(other, k))
  }

  function YBitTail(t: BitTail, op: BitOp, k: seq<Tok>): seq<Tok>
    decreases t
  {
    match t
    case BitNil => k
    case BitCons(e, more) => [Bit(op)] + YCast(e, YBitTail(more, op, k))
  }

  function YCmpTail(t: CmpTail, k: seq<Tok>): seq<Tok>
    decreases t
  {
    match t
    case CmpNil => k
    case CmpTo(op, e) => [Cmp(op)] + YRange(e, k)
  }

  function YRange(e: RangeExpr, k: seq<Tok>): seq<Tok>
    decreases e
  {
    YAdd(e.low, YRangeTail(e.high, k))
  }

  function YRangeTail(t: RangeTail, k: seq<Tok>): seq<Tok>
    decreases t
  {
    match t
    case RangeNil => k
    case RangeTo(inc, e) => [Range(inc)] + YAdd(e, k)
  }

  function YAdd(e: AddExpr, k: seq<Tok>): seq<Tok>
    decreases e
  {
    YMul(e.first, YAddTail(e.more, k))
  }

  function YAddTail(t: AddTail, k: seq<Tok>): seq<Tok>
    decreases t
  {
    match t
    case AddNil => k
    case AddCons(op, e, more) => [Add(op)] + YMul(e, YAddTail(more, k))
  }

  function YMul(e: MulExpr, k: seq<Tok>): seq<Tok>
    decreases e
  {
    YCast(e.first, YMulTail(e.more, k))
  }

  function YMulTail(t: MulTail, k: seq<Tok>): seq<Tok>
    decreases t
  {
    match t
    case MulNil => k
    case MulCons(op, e, more) => [Mul(op)] + YCast(e, YMulTail(more, k))
  }

  function YCast(e: CastExpr, k: seq<Tok>): seq<Tok>
    decreases e
  {
    YUnary(e.u, YCasts(e.casts, k))
  }

  function YCasts(t: Casts, k: seq<Tok>): seq<Tok>
    decreases t
  {
    match t
    case CastNil => k
    case CastTo(fields, more) => [As] + ([Id] + YFields(fields, YCasts(more, k)))
  }

  function YFields(t: Fields, k: seq<Tok>): seq<Tok>
    decreases t
  {
    match t
    case FieldNil => k
    case Field(more) => [Dot] + ([Id] + YFields(more, k))
  }

  function PreTok(op: PreOp): Tok {
    if op.Negate? then Add(Minus) else MoveKw
  }

  function YUnary(e: Unary, k: seq<Tok>): seq<Tok>
    decreases e
  {
    match e
    case Prefix(op, u) => [PreTok(op)] + YUnary(u, k)
    case Postfix(p, ops) => YPrimary(p, YPostOps(ops, k))
  }

  function YPostOps(t: PostOps, k: seq<Tok>): seq<Tok>
    decreases t
  {
    match t
    case PostNil => k
    case Try(more) => [Question] + YPostOps(more, k)
    case Access(more) => [Dot] + ([Id] + YPostOps(more, k))
  }

  function YPrimary(p: Primary, k: seq<Tok>): seq<Tok>
    decreases p
  {
    match p
    case Lit => [Literal] + k
    case DotLit => [Dot] + ([Id] + k)
    case Name => [Id] + k
    case Group(items) => [Open] + YItems(items, [Close] + k)
  }

  function YItems(t: Items, k: seq<Tok>): seq<Tok>
    decreases t
  {
    match t
    case NoItems => k
    case Item(e, rest) => YOr(e, YItemTail(rest, k))
  }

  function YItemTail(t: ItemTail, k: seq<Tok>): seq<Tok>
    decreases t
  {
    match t
    case Last => k
    case Trailing => [Comma] + k
    case Then(e, rest) => [Comma] + YOr(e, YItemTail(rest, k))
  }

  /** The grammar derives the token string `ts` from `expr`. */
  ghost predicate Derives(ts: seq<Tok>) {
    exists e: OrExpr :: YOr(e, []) == ts
  }
}
