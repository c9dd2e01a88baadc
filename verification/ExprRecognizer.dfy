/** The recursive-descent recogniser of tools/ref/fors_parse.py on the operator ladder: a cursor
    that every method advances. A raised error is the result `false`. */
module ExprRecognizer {
  import opened ExprGrammar
  import opened ExprParser

  /** The trees differ with the seed, the tokens read do not. */
  const SEED: CastExpr := CastExpr(Postfix(Name, PostNil), CastNil)

  /** `ts` is all that is left of `from` after a successful parse `p`, and `ok` says whether it was. */
  ghost predicate Reads<T>(ok: bool, ts: seq<Tok>, p: Parse<T>) {
    (ok <==> p.Done?) && (ok ==> ts == p.rest)
  }

  /** Two parses succeed together and leave the same tokens. */
  ghost predicate Same<S, T>(p: Parse<S>, q: Parse<T>) {
    (p.Done? <==> q.Done?) && (p.Done? ==> p.rest == q.rest)
  }

  lemma SeedIrrelevant(c: CastExpr, ts: seq<Tok>)
    ensures Same(PMulFrom(c, ts), PMulFrom(SEED, ts)) && Same(PAddFrom(c, ts), PAddFrom(SEED, ts))
    ensures Same(PRangeFrom(c, ts), PRangeFrom(SEED, ts))
  {
  }

  lemma RangeAfterSum(ts: seq<Tok>)
    ensures PRange(ts).Done? ==> PAdd(ts).Done?
    ensures PAdd(ts).Done? ==> Same(PRange(ts), PRangeTail(PAdd(ts).rest))
    ensures PRangeFrom(SEED, ts).Done? ==> PAddFrom(SEED, ts).Done?
    ensures PAddFrom(SEED, ts).Done? ==> Same(PRangeFrom(SEED, ts), PRangeTail(PAddFrom(SEED, ts).rest))
  {
    if PCast(ts).Done? {
      var c, ts1 := PCast(ts).tree, PCast(ts).rest;
      assert PRange(ts) == PRangeFrom(c, ts1) && PAdd(ts) == PAddFrom(c, ts1);
    }
  }

  lemma CmpAfterCast(ts: seq<Tok>)
    ensures PCast(ts).Fail? ==> PCmp(ts).Fail?
    ensures PCast(ts).Done? ==>
            var ts1 := PCast(ts).rest;
            match Head(ts1)
            case Bit(op) => Same(PCmp(ts), PBitTail(op, ts1))
            case Shift(_) => Same(PCmp(ts), PCast(ts1[1..]))
            case _ => (PCmp(ts).Done? ==> PRangeFrom(SEED, ts1).Done?)
                      && (PRangeFrom(SEED, ts1).Done? ==> Same(PCmp(ts), PCmpTail(PRangeFrom(SEED, ts1).rest)))
  {
    if PCast(ts).Done? {
      var l, ts1 := PCast(ts).tree, PCast(ts).rest;
      SeedIrrelevant(l, ts1);
      assert PCmp(ts) == PCmpFrom(l, ts1);
      match Head(ts1) {
        case Bit(op) => assert PCmp(ts) == PBitChain(op, l, ts1);
        case Shift(op) => assert PCmp(ts) == PShift(op, l, ts1);
        case _ =>
      }
    }
  }

  /** Reading a whole path before the postfixes is the same as reading its fields as postfixes. */
  lemma {:induction false} PathThenPostfix(ts: seq<Tok>)
    ensures Same(PPostOps(ts), PPostOps(PFields(ts).rest))
    decreases |ts|
  {
    if Head(ts) == Dot && Head(ts[1..]) == Id {
      PathThenPostfix(ts[2..]);
    }
  }

  class Recognizer {
    const t: seq<Tok>
    var i: nat

    constructor (ts: seq<Tok>)
      ensures Valid() && Rest() == ts
    {
      t, i := ts + [Eof], 0;
    }

    /** The token list ends with the end marker, and the cursor never passes it. */
    ghost predicate Valid()
      reads this
    {
      t != [] && t[|t| - 1] == Eof && i < |t|
    }

    /** The tokens still to be read. */
    ghost function Rest(): seq<Tok>
      requires Valid()
      reads this
    {
      t[i..|t| - 1]
    }

    /** The token `o` places ahead, clamped to the end marker. */
    function K(o: nat): (k: Tok)
      requires Valid()
      reads this
      ensures k == if o < |Rest()| then Rest()[o] else Eof
    {
      t[if i + o < |t| - 1 then i + o else |t| - 1]
    }

    method Advance()
      requires Valid() && Rest() != []
      modifies this`i
      ensures Valid() && Rest() == old(Rest())[1..] && i == old(i) + 1
    {
      i := i + 1;
    }

    method Opt(x: Tok) returns (b: bool)
      requires Valid() && x != Eof
      modifies this`i
      ensures Valid() && (b <==> Head(old(Rest())) == x)
      ensures b ==> old(Rest()) != [] && Rest() == old(Rest())[1..] && i == old(i) + 1
      ensures !b ==> i == old(i)
    {
      b := K(0) == x;
      if b {
        Advance();
      }
    }

    method ReadOr() returns (ok: bool)
      requires Valid()
      modifies this`i
      ensures Valid() && i >= old(i) && Reads(ok, Rest(), POr(old(Rest())))
      decreases |t| - i, 12
    {
      hide PAnd;
      ok := ReadAnd();
      if !ok {
        return;
      }
      ghost var ts := Rest();
      while true
        invariant Valid() && i >= old(i) && |Rest()| < old(|Rest()|) && Same(POrTail(ts), POrTail(Rest()))
        decreases |t| - i
      {
        var b := Opt(Or);
        if !b {
          break;
        }
        ok := ReadAnd();
        if !ok {
          return;
        }
      }
    }

    method ReadAnd() returns (ok: bool)
      requires Valid()
      modifies this`i
      ensures Valid() && i >= old(i) && Reads(ok, Rest(), PAnd(old(Rest())))
      decreases |t| - i, 11
    {
      hide PNot;
      ok := ReadNot();
      if !ok {
        return;
      }
      ghost var ts := Rest();
      while true
        invariant Valid() && i >= old(i) && |Rest()| < old(|Rest()|) && Same(PAndTail(ts), PAndTail(Rest()))
        decreases |t| - i
      {
        var b := Opt(And);
        if !b {
          break;
        }
        ok := ReadNot();
        if !ok {
          return;
        }
      }
    }

    method ReadNot() returns (ok: bool)
      requires Valid()
      modifies this`i
      ensures Valid() && i >= old(i) && Reads(ok, Rest(), PNot(old(Rest())))
      decreases |t| - i, 10
    {
      var b := Opt(Not);
      if b {
        ok := ReadNot();
      } else {
        ok := ReadCmp();
      }
    }

    method ReadCmp() returns (ok: bool)
      requires Valid()
      modifies this`i
      ensures Valid() && i >= old(i) && Reads(ok, Rest(), PCmp(old(Rest())))
      decreases |t| - i, 9
    {
      hide PCmp, PCast, PRangeFrom, PBitTail;
      CmpAfterCast(Rest());
      ok := ReadCast();
      if !ok {
        return;
      }
      if K(0).Bit? {
        ok := ReadBits(K(0).bit);
        return;
      }
      if K(0).Shift? {
        Advance();
        ok := ReadCast();
        return;
      }
      ok := ReadRange(true);
      if ok && K(0).Cmp? {
        Advance();
        ok := ReadRange(false);
      }
    }

    /** The rest of a chain: as long as the same operator follows, it and another operand. */
    method ReadBits(op: BitOp) returns (ok: bool)
      requires Valid()
      modifies this`i
      ensures Valid() && i >= old(i) && Reads(ok, Rest(), PBitTail(op, old(Rest())))
      decreases |t| - i, 6
    {
      ghost var ts := Rest();
      ok := true;
      while true
        invariant Valid() && ok && i >= old(i) && Same(PBitTail(op, ts), PBitTail(op, Rest()))
        decreases |t| - i
      {
        var b := Opt(Bit(op));
        if !b {
          break;
        }
        ok := ReadCast();
        if !ok {
          return;
        }
      }
    }

    method ReadRange(seeded: bool) returns (ok: bool)
      requires Valid()
      modifies this`i
      ensures Valid() && i >= old(i)
      ensures Reads(ok, Rest(), if seeded then PRangeFrom(SEED, old(Rest())) else PRange(old(Rest())))
      decreases |t| - i, 8
    {
      hide PRange, PRangeFrom, PAdd, PAddFrom;
      ok := ReadAdd(seeded);
      RangeAfterSum(old(Rest()));
      if ok && K(0).Range? {
        Advance();
        ok := ReadAdd(false);
      }
    }

    method ReadAdd(seeded: bool) returns (ok: bool)
      requires Valid()
      modifies this`i
      ensures Valid() && i >= old(i)
      ensures Reads(ok, Rest(), if seeded then PAddFrom(SEED, old(Rest())) else PAdd(old(Rest())))
      decreases |t| - i, 7
    {
      ok := ReadMul(seeded);
      if !seeded && PCast(old(Rest())).Done? {
        SeedIrrelevant(PCast(old(Rest())).tree, PCast(old(Rest())).rest);
      }
      if !ok {
        return;
      }
      ghost var ts := Rest();
      while K(0).Add?
        invariant Valid() && ok && i >= old(i) && Same(PAddTail(ts), PAddTail(Rest()))
        decreases |t| - i
      {
        Advance();
        ok := ReadMul(false);
        if !ok {
          return;
        }
      }
    }

    method ReadMul(seeded: bool) returns (ok: bool)
      requires Valid()
      modifies this`i
      ensures Valid() && i >= old(i)
      ensures Reads(ok, Rest(), if seeded then PMulFrom(SEED, old(Rest())) else PMul(old(Rest())))
      decreases |t| - i, 6
    {
      ok := true;
      if !seeded {
        ok := ReadCast();
        if !ok {
          return;
        }
      }
      ghost var ts := Rest();
      while K(0).Mul?
        invariant Valid() && ok && i >= old(i) && Same(PMulTail(ts), PMulTail(Rest()))
        decreases |t| - i
      {
        Advance();
        ok := ReadCast();
        if !ok {
          return;
        }
      }
    }

    method ReadCast() returns (ok: bool)
      requires Valid()
      modifies this`i
      ensures Valid() && i >= old(i) && Reads(ok, Rest(), PCast(old(Rest())))
      decreases |t| - i, 5
    {
      ok := ReadUnary();
      if !ok {
        return;
      }
      ghost var ts := Rest();
      while true
        invariant Valid() && ok && i >= old(i) && |Rest()| < old(|Rest()|) && Same(PCasts(ts), PCasts(Rest()))
        decreases |t| - i
      {
        var b := Opt(As);
        if !b {
          break;
        }
        ok := ReadPath();
        if !ok {
          return;
        }
      }
    }

    /** A path, as an expression or as a type: an identifier and the fields after it. */
    method ReadPath() returns (ok: bool)
      requires Valid()
      modifies this`i
      ensures Valid() && i >= old(i) && (ok <==> Head(old(Rest())) == Id)
      ensures ok ==> i > old(i) && Rest() == PFields(old(Rest())[1..]).rest
      decreases |t| - i, 0
    {
      if K(0) != Id {
        return false;
      }
      Advance();
      ghost var ts := Rest();
      while K(0) == Dot && K(1) == Id
        invariant Valid() && i > old(i) && PFields(ts).rest == PFields(Rest()).rest
        decreases |t| - i
      {
        Advance();
        Advance();
      }
      ok := true;
    }

    method ReadUnary() returns (ok: bool)
      requires Valid()
      modifies this`i
      ensures Valid() && i >= old(i) && Reads(ok, Rest(), PUnary(old(Rest())))
      decreases |t| - i, 4
    {
      var b := Opt(Add(Minus));
      if !b {
        b := Opt(MoveKw);
      }
      if b {
        ok := ReadUnary();
      } else {
        ok := ReadPostfix();
      }
    }

    method ReadPostfix() returns (ok: bool)
      requires Valid() && Head(Rest()) != Add(Minus) && Head(Rest()) != MoveKw
      modifies this`i
      ensures Valid() && i >= old(i) && Reads(ok, Rest(), PUnary(old(Rest())))
      decreases |t| - i, 3
    {
      hide PPrimary, PPostOps;
      ok := ReadPrimary();
      if ok {
        ok := ReadPostOps();
      }
    }

    method ReadPostOps() returns (ok: bool)
      requires Valid()
      modifies this`i
      ensures Valid() && i >= old(i) && Reads(ok, Rest(), PPostOps(old(Rest())))
      decreases |t| - i, 0
    {
      ghost var ts := Rest();
      ok := true;
      while true
        invariant Valid() && ok && i >= old(i) && Same(PPostOps(ts), PPostOps(Rest()))
        decreases |t| - i
      {
        var b := Opt(Question);
        if !b {
          if K(0) != Dot {
            break;
          }
          Advance();
          if K(0) != Id {
            return false;
          }
          Advance();
        }
      }
    }

    method ReadPrimary() returns (ok: bool)
      requires Valid()
      modifies this`i
      ensures Valid() && i >= old(i) && (ok <==> PPrimary(old(Rest())).Done?)
      ensures ok ==> i > old(i) && Same(PPostOps(Rest()), PPostOps(PPrimary(old(Rest())).rest))
      decreases |t| - i, 2
    {
      if K(0) == Literal {
        Advance();
        return true;
      }
      if K(0) == Dot && K(1) == Id {
        Advance();
        Advance();
        return true;
      }
      if K(0) == Id {
        ok := ReadPath();
        PathThenPostfix(old(Rest())[1..]);
        return;
      }
      ok := Opt(Open);
      if ok {
        ok := ReadItems();
        if ok {
          ok := Opt(Close);
        }
      }
    }

    /** Expressions separated by commas, up to a closing parenthesis. */
    method ReadItems() returns (ok: bool)
      requires Valid()
      modifies this`i
      ensures Valid() && i >= old(i) && Reads(ok, Rest(), PItems(old(Rest())))
      decreases |t| - i, 13
    {
      hide POr;
      ok := true;
      if K(0) == Close {
        return;
      }
      ok := ReadOr();
      if !ok {
        return;
      }
      ghost var ts := Rest();
      while true
        invariant Valid() && ok && i >= old(i) && |Rest()| < old(|Rest()|) && Same(PItemTail(ts), PItemTail(Rest()))
        decreases |t| - i
      {
        var b := Opt(Comma);
        if !b {
          break;
        }
        if K(0) == Close {
          break;
        }
        ok := ReadOr();
        if !ok {
          return;
        }
      }
    }

    /** The recogniser reads an expression up to the end marker exactly when the grammar derives
        the whole token string. */
    method RecognizeAll() returns (ok: bool)
      requires Valid()
      modifies this`i
      ensures ok <==> Derives(old(Rest()))
    {
      ghost var ts := Rest();
      ok := ReadOr();
      ok := ok && i == |t| - 1;
      AcceptsIffDerived(ts);
    }
  }
}
