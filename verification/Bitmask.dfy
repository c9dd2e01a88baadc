/** The AArch64 bitmask immediate (crates/fors-asm/src/bitmask.rs): `DecodeBitMasks` of the Arm
    Architecture Reference Manual (DDI 0487, chapter J1), and the search that inverts it.
    A 64-bit machine word is the sequence of its bits, least significant first. */
module Bitmask {
  import opened Wrappers
  import opened Quotients

  type Word = w: seq<bool> | |w| == 64 witness seq(64, _ => false)

  // ---- Machine operations, bit by bit ----

  function Or(x: Word, y: Word): Word {
    seq(64, k requires 0 <= k < 64 => x[k] || y[k])
  }

  function And(x: Word, y: Word): Word {
    seq(64, k requires 0 <= k < 64 => x[k] && y[k])
  }

  function Shl(x: Word, n: nat): Word {
    seq(64, k requires 0 <= k < 64 => k >= n && x[k - n])
  }

  function Shr(x: Word, n: nat): Word {
    seq(64, k requires 0 <= k < 64 => k + n < 64 && x[k + n])
  }

  /** The word whose `n` low bits are ones. */
  function LowOnes(n: nat): Word {
    seq(64, k requires 0 <= k < 64 => k < n)
  }

  function Zero(): Word {
    LowOnes(0)
  }

  // ---- Remainders ----

  lemma ModSub(k: nat, m: nat, e: nat)
    requires e > 0 && m % e == 0 && m <= k
    ensures (k - m) % e == k % e
  {
    var q, p := k / e, m / e;
    assert k == q * e + k % e && m == p * e;
    assert (q - p) * e == q * e - p * e;
    ModUnique(k - m, e, q - p, k % e);
  }

  lemma ModWrap(k: nat, e: nat)
    requires e > 0 && k < 2 * e
    ensures k % e == if k < e then k else k - e
  {
    ModUnique(k, e, if k < e then 0 else 1, if k < e then k else k - e);
  }

  lemma ModShift(k: nat, r: nat, e: nat)
    requires e > 0
    ensures (k % e + r) % e == (k + r) % e
  {
    var t := k % e + r;
    var q, p := k / e, t / e;
    assert k == q * e + k % e && t == p * e + t % e;
    assert (q + p) * e == q * e + p * e;
    ModUnique(k + r, e, q + p, t % e);
  }

  lemma NextMod(k: nat, e: nat)
    requires e > 0
    ensures (k + 1) % e == if k % e == e - 1 then 0 else k % e + 1
  {
    var q := k / e;
    assert k == q * e + k % e;
    assert (q + 1) * e == q * e + e;
    ModUnique(k + 1, e, if k % e == e - 1 then q + 1 else q, if k % e == e - 1 then 0 else k % e + 1);
  }

  // ---- Decoding ----

  predicate RegSize(size: nat) {
    size == 32 || size == 64
  }

  predicate ElementSize(e: nat) {
    e == 2 || e == 4 || e == 8 || e == 16 || e == 32 || e == 64
  }

  /** The element size a length field stands for. */
  function SizeAt(len: nat): (e: nat)
    requires len <= 6
    ensures 1 <= e <= 64 && (len >= 1 ==> ElementSize(e))
  {
    if len == 0 then 1 else if len == 1 then 2 else if len == 2 then 4
    else if len == 3 then 8 else if len == 4 then 16 else if len == 5 then 32 else 64
  }

  /** The position of the top one of a non-zero field of seven bits. */
  function HighestSetBit(field: nat): (len: nat)
    requires 0 < field < 128
    ensures len <= 6 && SizeAt(len) <= field < 2 * SizeAt(len)
  {
    if field >= 64 then 6 else if field >= 32 then 5 else if field >= 16 then 4
    else if field >= 8 then 3 else if field >= 4 then 2 else if field >= 2 then 1 else 0
  }

  function Ror(x: Word, amount: nat, width: nat): Word
    requires 2 <= width <= 64
  {
    var x := And(x, LowOnes(width));
    var amount := amount % width;
    if amount == 0 then x else Or(Shr(x, amount), And(Shl(x, width - amount), LowOnes(width)))
  }

  function Tiled(pattern: Word, width: nat, total: nat): Word
    requires 0 < width <= 64
  {
    seq(64, k requires 0 <= k < 64 => k < total && pattern[k % width])
  }

  method Replicate(pattern: Word, width: nat, total: nat) returns (result: Word)
    requires ElementSize(width) && RegSize(total) && width <= total
    requires And(pattern, LowOnes(width)) == pattern
    ensures result == Tiled(pattern, width, total)
  {
    result := pattern;
    var filled := width;
    TiledOnce(pattern, width);
    while filled < total
      invariant ElementSize(filled) && width <= filled <= total && filled % width == 0
      invariant result == Tiled(pattern, width, filled)
      decreases total - filled
    {
      TiledTwice(pattern, width, filled);
      result := Or(result, Shl(result, filled));
      filled := filled * 2;
    }
    if total != 64 {
      result := And(result, LowOnes(total));
    }
  }

  lemma TiledOnce(pattern: Word, width: nat)
    requires ElementSize(width) && And(pattern, LowOnes(width)) == pattern
    ensures Tiled(pattern, width, width) == pattern
  {
    forall k | 0 <= k < 64 ensures Tiled(pattern, width, width)[k] == pattern[k] {
      assert pattern[k] == And(pattern, LowOnes(width))[k];
      if k < width {
        ModWrap(k, width);
      }
    }
  }

  lemma TiledTwice(pattern: Word, width: nat, filled: nat)
    requires ElementSize(width) && ElementSize(filled) && width <= filled < 64 && filled % width == 0
    ensures (filled * 2) % width == 0
    ensures Or(Tiled(pattern, width, filled), Shl(Tiled(pattern, width, filled), filled)) == Tiled(pattern, width, filled * 2)
  {
    var t := Tiled(pattern, width, filled);
    ModSub(filled * 2, filled, width);
    forall k | 0 <= k < 64 ensures Or(t, Shl(t, filled))[k] == Tiled(pattern, width, filled * 2)[k] {
      if filled <= k {
        ModSub(k, filled, width);
      }
    }
  }

  /** What a triple `(N, immr, imms)` of bytes decodes to. */
  function Decode(n: nat, immr: nat, imms: nat, regSize: nat): Option<Word>
    requires RegSize(regSize)
  {
    var n, immr, imms := n % 2, immr % 64, imms % 64;
    var concat := n * 64 + (63 - imms);
    if concat == 0 then None
    else
      var len := HighestSetBit(concat);
      if len < 1 then None
      else
        var size := SizeAt(len);
        if size > regSize then None
        else
          var levels := size - 1;
          var s, r := imms % size, immr % size;
          if s == levels then None
          else
            Some(Tiled(Ror(LowOnes(s + 1), r, size), size, regSize))
  }

  method DecodeBitmask(n: nat, immr: nat, imms: nat, regSize: nat) returns (v: Option<Word>)
    requires RegSize(regSize)
    ensures v == Decode(n, immr, imms, regSize)
  {
    var n', immr', imms' := n % 2, immr % 64, imms % 64;
    var concat := n' * 64 + (63 - imms');
    if concat == 0 {
      return None;
    }
    var len := HighestSetBit(concat);
    if len < 1 {
      return None;
    }
    var size := SizeAt(len);
    if size > regSize {
      return None;
    }
    var levels := size - 1;
    var s, r := imms' % size, immr' % size;
    if s == levels {
      return None;
    }
    var telem := Ror(LowOnes(s + 1), r, size);
    RorMasked(LowOnes(s + 1), r, size);
    var word := Replicate(telem, size, regSize);
    v := Some(word);
  }

  lemma RorMasked(x: Word, amount: nat, width: nat)
    requires 2 <= width <= 64
    ensures And(Ror(x, amount, width), LowOnes(width)) == Ror(x, amount, width)
  {
  }

  // ---- The closed form: bit `k` is set exactly when `(k + r) mod e <= s` ----

  predicate Element(e: nat, s: nat, r: nat, regSize: nat) {
    ElementSize(e) && RegSize(regSize) && e <= regSize && s < e - 1 && r < e
  }

  function Pattern(e: nat, s: nat, r: nat, regSize: nat): Word
    requires Element(e, s, r, regSize)
  {
    seq(64, k => k < regSize && (k + r) % e <= s)
  }

  lemma RotatedOnes(e: nat, s: nat, r: nat, k: nat)
    requires ElementSize(e) && s < e - 1 && r < e && k < e
    ensures Ror(LowOnes(s + 1), r, e)[k] <==> (k + r) % e <= s
  {
    ModWrap(k + r, e);
    ModWrap(r, e);
  }

  lemma TiledIsPattern(e: nat, s: nat, r: nat, regSize: nat)
    requires Element(e, s, r, regSize)
    ensures Tiled(Ror(LowOnes(s + 1), r, e), e, regSize) == Pattern(e, s, r, regSize)
  {
    var telem := Ror(LowOnes(s + 1), r, e);
    var tiled, pattern := Tiled(telem, e, regSize), Pattern(e, s, r, regSize);
    forall k | 0 <= k < 64 ensures tiled[k] == pattern[k] {
      hide Ror, Element;
      RotatedOnes(e, s, r, k % e);
      ModShift(k, r, e);
    }
  }

  function SizeOf(n: nat, imms: nat): (e: nat)
    ensures e > 0
  {
    var concat := n % 2 * 64 + (63 - imms % 64);
    if concat == 0 then 1 else SizeAt(HighestSetBit(concat))
  }

  /** The element a triple names: its size, the number of ones less one, and the rotation. */
  function ElementOf(n: nat, immr: nat, imms: nat): (nat, nat, nat) {
    var e := SizeOf(n, imms);
    (e, imms % 64 % e, immr % 64 % e)
  }

  predicate Decodable(n: nat, immr: nat, imms: nat, regSize: nat) {
    var (e, s, r) := ElementOf(n, immr, imms);
    Element(e, s, r, regSize)
  }

  lemma DecodeClosedForm(n: nat, immr: nat, imms: nat, regSize: nat)
    requires RegSize(regSize)
    ensures Decode(n, immr, imms, regSize).Some? <==> Decodable(n, immr, imms, regSize)
    ensures Decodable(n, immr, imms, regSize) ==>
              var (e, s, r) := ElementOf(n, immr, imms);
              Decode(n, immr, imms, regSize) == Some(Pattern(e, s, r, regSize))
  {
    var concat := n % 2 * 64 + (63 - imms % 64);
    var (e, s, r) := ElementOf(n, immr, imms);
    if concat != 0 && HighestSetBit(concat) >= 1 {
      if Element(e, s, r, regSize) {
        TiledIsPattern(e, s, r, regSize);
      }
    }
  }

  // ---- Different elements give different words ----

  predicate Lit(e: nat, s: nat, r: nat, k: nat)
    requires e > 0
  {
    (k + r) % e <= s
  }

  /** Bit `k` is clear and the next bit, cyclically in the register, is set. */
  predicate Rises(w: Word, regSize: nat, k: nat)
    requires RegSize(regSize) && k < regSize
  {
    !w[k] && w[if k + 1 == regSize then 0 else k + 1]
  }

  lemma RegMod(r: nat, e: nat, regSize: nat)
    requires ElementSize(e) && RegSize(regSize) && e <= regSize
    ensures (regSize + r) % e == r % e
  {
    assert regSize % e == 0;
    ModSub(regSize + r, regSize, e);
  }

  /** The word rises exactly once per element. */
  lemma RisesWhere(e: nat, s: nat, r: nat, regSize: nat, k: nat)
    requires Element(e, s, r, regSize) && k < regSize
    ensures Rises(Pattern(e, s, r, regSize), regSize, k) <==> (k + r) % e == e - 1
  {
    var w := Pattern(e, s, r, regSize);
    assert w[k] <==> (k + r) % e <= s;
    NextMod(k + r, e);
    if k + 1 == regSize {
      RegMod(r, e, regSize);
      assert w[0] <==> r % e <= s;
    } else {
      assert w[k + 1] <==> (k + 1 + r) % e <= s;
    }
  }

  /** The first rise inside the register is at `e - 1 - r`. */
  lemma FirstRise(e: nat, s: nat, r: nat, regSize: nat, k: nat)
    requires Element(e, s, r, regSize) && k < regSize && Rises(Pattern(e, s, r, regSize), regSize, k)
    ensures e - 1 - r <= k
  {
    RisesWhere(e, s, r, regSize, k);
    if k < e - 1 - r {
      ModWrap(k + r, e);
    }
  }

  lemma SameRotationAndSize(e: nat, s: nat, r: nat, e': nat, s': nat, r': nat, regSize: nat)
    requires Element(e, s, r, regSize) && Element(e', s', r', regSize) && e <= e'
    requires Pattern(e, s, r, regSize) == Pattern(e', s', r', regSize)
    ensures e == e' && r == r'
  {
    var w := Pattern(e, s, r, regSize);
    var k, k' := e - 1 - r, e' - 1 - r';
    ModWrap(k + r, e);
    ModWrap(k' + r', e');
    RisesWhere(e, s, r, regSize, k);
    RisesWhere(e', s', r', regSize, k');
    FirstRise(e, s, r, regSize, k');
    FirstRise(e', s', r', regSize, k);
    assert k == k';
    if e < e' {
      assert 2 * e <= e';
      ModWrap(k + e + r, e);
      RisesWhere(e, s, r, regSize, k + e);
      RisesWhere(e', s', r', regSize, k + e);
      ModWrap(k + e + r', e');
      assert false;
    }
  }

  lemma SameRun(e: nat, s: nat, r: nat, s': nat, regSize: nat)
    requires Element(e, s, r, regSize) && Element(e, s', r, regSize)
    requires Pattern(e, s, r, regSize) == Pattern(e, s', r, regSize)
    ensures s <= s'
  {
    var k := if s >= r then s - r else s + e - r;
    ModWrap(k + r, e);
    assert Pattern(e, s, r, regSize)[k] && Pattern(e, s', r, regSize)[k];
  }

  /** An element is determined by the word it tiles. */
  lemma PatternInjective(e: nat, s: nat, r: nat, e': nat, s': nat, r': nat, regSize: nat)
    requires Element(e, s, r, regSize) && Element(e', s', r', regSize)
    requires Pattern(e, s, r, regSize) == Pattern(e', s', r', regSize)
    ensures e == e' && s == s' && r == r'
  {
    if e <= e' {
      SameRotationAndSize(e, s, r, e', s', r', regSize);
    } else {
      SameRotationAndSize(e', s', r', e, s, r, regSize);
    }
    SameRun(e, s, r, s', regSize);
    SameRun(e, s', r, s, regSize);
  }

  /** The field values of one instruction: `N` a bit, `immr` and `imms` six bits each. */
  predicate Fields(n: nat, immr: nat, imms: nat) {
    n < 2 && immr < 64 && imms < 64
  }

  lemma TopField(imms: nat, e: nat)
    requires ElementSize(e) && e < 64 && 64 - 2 * e <= imms < 64 - e
    ensures imms % e == imms - (64 - 2 * e)
  {
  }

  /** `N` and `imms` can be read off the element size and the run of ones. */
  lemma ElementFields(n: nat, immr: nat, imms: nat, regSize: nat)
    requires Fields(n, immr, imms) && Decodable(n, immr, imms, regSize)
    ensures var (e, s, r) := ElementOf(n, immr, imms);
            && n == (if e == 64 then 1 else 0)
            && imms == (if e == 64 then s else 64 - 2 * e + s)
            && r == immr % e
  {
    var (e, s, r) := ElementOf(n, immr, imms);
    if e < 64 {
      assert e <= n * 64 + (63 - imms) < 2 * e;
      TopField(imms, e);
    }
  }

  /** Two triples decode to the same word if and only if they agree on `N`, on `imms`, and on
      `immr` modulo the element size. */
  lemma DecodeInjective(n: nat, immr: nat, imms: nat, n': nat, immr': nat, imms': nat, regSize: nat)
    requires Fields(n, immr, imms) && Fields(n', immr', imms') && RegSize(regSize)
    requires Decode(n, immr, imms, regSize).Some? && Decode(n', immr', imms', regSize).Some?
    ensures Decode(n, immr, imms, regSize) == Decode(n', immr', imms', regSize) <==>
            n == n' && imms == imms' && immr % SizeOf(n, imms) == immr' % SizeOf(n, imms)
  {
    DecodeClosedForm(n, immr, imms, regSize);
    DecodeClosedForm(n', immr', imms', regSize);
    ElementFields(n, immr, imms, regSize);
    ElementFields(n', immr', imms', regSize);
    var (e, s, r) := ElementOf(n, immr, imms);
    var (e', s', r') := ElementOf(n', immr', imms');
    if Decode(n, immr, imms, regSize) == Decode(n', immr', imms', regSize) {
      PatternInjective(e, s, r, e', s', r', regSize);
    }
  }

  /** A decoded word is never all zeros or all ones. */
  lemma DecodeNeverUniform(n: nat, immr: nat, imms: nat, regSize: nat)
    requires RegSize(regSize) && Decode(n, immr, imms, regSize).Some?
    ensures Decode(n, immr, imms, regSize) != Some(Zero())
    ensures Decode(n, immr, imms, regSize) != Some(LowOnes(regSize))
  {
    DecodeClosedForm(n, immr, imms, regSize);
    var (e, s, r) := ElementOf(n, immr, imms);
    RisesWhere(e, s, r, regSize, e - 1 - r);
    ModWrap(e - 1, e);
    assert Rises(Pattern(e, s, r, regSize), regSize, e - 1 - r);
  }

  // ---- The search ----

  datatype Triple = Triple(n: nat, immr: nat, imms: nat)

  ghost predicate Encodes(t: Triple, value: Word, regSize: nat) {
    RegSize(regSize) && Fields(t.n, t.immr, t.imms) && Decode(t.n, t.immr, t.imms, regSize) == Some(value)
  }

  /** The search succeeds exactly on the words some triple decodes to, and returns the one triple
      for the word whose rotation is below the element size. */
  method EncodeBitmask(value: Word, regSize: nat) returns (t: Option<Triple>)
    requires RegSize(regSize)
    ensures t.Some? ==> Encodes(t.value, value, regSize)
    ensures t.Some? ==> t.value.immr < SizeOf(t.value.n, t.value.imms)
    ensures t.None? ==> forall u: Triple :: !Encodes(u, value, regSize)
  {
    hide Decode, SizeOf;
    if value == Zero() || value == LowOnes(regSize) {
      forall u: Triple | Encodes(u, value, regSize) ensures false {
        DecodeNeverUniform(u.n, u.immr, u.imms, regSize);
      }
      return None;
    }
    var choices := if regSize == 64 then [1, 0] else [0];
    for c := 0 to |choices|
      invariant forall u: Triple :: u.n in choices[..c] ==> !Encodes(u, value, regSize)
    {
      var n := choices[c];
      for immr := 0 to 64
        invariant forall u: Triple :: u.n == n && u.immr < immr ==> !Encodes(u, value, regSize)
      {
        for imms := 0 to 64
          invariant forall u: Triple :: u.n == n && u.immr < immr ==> !Encodes(u, value, regSize)
          invariant forall u: Triple :: u.n == n && u.immr == immr && u.imms < imms ==> !Encodes(u, value, regSize)
        {
          var v := DecodeBitmask(n, immr, imms, regSize);
          if v == Some(value) {
            assert Encodes(Triple(n, immr, imms), value, regSize);
            assert forall u: Triple :: u.n == n && u.immr < immr ==> !Encodes(u, value, regSize);
            FirstRotationIsLeast(n, immr, imms, value, regSize);
            return Some(Triple(n, immr, imms));
          }
        }
      }
    }
    assert choices[..|choices|] == choices;
    forall u: Triple ensures !Encodes(u, value, regSize) {
      if u.n !in choices && Encodes(u, value, regSize) {
        OneNeedsSixtyFour(u, value, regSize);
      }
    }
    t := None;
  }

  lemma OneNeedsSixtyFour(u: Triple, value: Word, regSize: nat)
    requires Encodes(u, value, regSize) && u.n == 1
    ensures regSize == 64
  {
    DecodeClosedForm(u.n, u.immr, u.imms, regSize);
    ElementFields(u.n, u.immr, u.imms, regSize);
  }

  /** The first triple found has no smaller rotation, so it is already reduced. */
  lemma FirstRotationIsLeast(n: nat, immr: nat, imms: nat, value: Word, regSize: nat)
    requires Encodes(Triple(n, immr, imms), value, regSize)
    requires forall u: Triple :: u.n == n && u.immr < immr ==> !Encodes(u, value, regSize)
    ensures immr < SizeOf(n, imms)
  {
    DecodeClosedForm(n, immr, imms, regSize);
    var (e, s, r) := ElementOf(n, immr, imms);
    ElementFields(n, immr, imms, regSize);
    if immr >= e {
      DecodeClosedForm(n, r, imms, regSize);
      ReducedRotation(immr, e);
      assert ElementOf(n, r, imms) == (e, s, r);
      assert Encodes(Triple(n, r, imms), value, regSize);
    }
  }

  lemma ReducedRotation(immr: nat, e: nat)
    requires ElementSize(e) && immr < 64
    ensures immr % e < 64 && immr % e % e == immr % e && immr % e <= immr
  {
  }

  /** No other reduced triple encodes the word. */
  lemma EncodingIsUnique(t: Triple, u: Triple, value: Word, regSize: nat)
    requires Encodes(t, value, regSize) && t.immr < SizeOf(t.n, t.imms)
    requires Encodes(u, value, regSize) && u.immr < SizeOf(u.n, u.imms)
    ensures t == u
  {
    hide Decode, SizeOf;
    DecodeClosedForm(t.n, t.immr, t.imms, regSize);
    DecodeInjective(t.n, t.immr, t.imms, u.n, u.immr, u.imms, regSize);
    var e := SizeOf(t.n, t.imms);
    ModWrap(t.immr, e);
    ModWrap(u.immr, e);
  }

  // ---- How many words are encodable ----

  datatype Elem = Elem(e: nat, s: nat, r: nat)

  function WordOf(x: Elem, regSize: nat): Word {
    if Element(x.e, x.s, x.r, regSize) then Pattern(x.e, x.s, x.r, regSize) else Zero()
  }

  ghost function Image<A, B>(xs: set<A>, f: A -> B): set<B> {
    set x | x in xs :: f(x)
  }

  lemma {:induction false} ImageCount<A, B>(xs: set<A>, f: A -> B)
    requires forall x, y :: x in xs && y in xs && f(x) == f(y) ==> x == y
    ensures |Image(xs, f)| == |xs|
  {
    if x :| x in xs {
      var rest := xs - {x};
      ImageCount(rest, f);
      assert Image(xs, f) == Image(rest, f) + {f(x)};
      assert f(x) !in Image(rest, f);
    } else {
      assert Image(xs, f) == {};
    }
  }

  function Rotations(e: nat, s: nat, m: nat): (xs: set<Elem>)
    ensures forall x :: x in xs <==> x.e == e && x.s == s && x.r < m
  {
    if m == 0 then {} else Rotations(e, s, m - 1) + {Elem(e, s, m - 1)}
  }

  lemma {:induction false} RotationCount(e: nat, s: nat, m: nat)
    ensures |Rotations(e, s, m)| == m
  {
    if m > 0 {
      RotationCount(e, s, m - 1);
      assert Elem(e, s, m - 1) !in Rotations(e, s, m - 1);
    }
  }

  function Runs(e: nat, m: nat): (xs: set<Elem>)
    ensures forall x :: x in xs <==> x.e == e && x.s < m && x.r < e
  {
    if m == 0 then {} else Runs(e, m - 1) + Rotations(e, m - 1, e)
  }

  lemma NoRuns(e: nat)
    ensures |Runs(e, 0)| == 0
  {
  }

  lemma RunStep(e: nat, m: nat)
    ensures |Runs(e, m + 1)| == |Runs(e, m)| + e
  {
    var a, b := Runs(e, m), Rotations(e, m, e);
    assert a !! b && Runs(e, m + 1) == a + b;
    RotationCount(e, m, e);
  }

  lemma {:induction false} RunCount(e: nat, m: nat)
    ensures |Runs(e, m)| == m * e
  {
    hide *;
    if m == 0 {
      NoRuns(e);
    } else {
      RunStep(e, m - 1);
      RunCount(e, m - 1);
      assert (m - 1) * e + e == m * e;
    }
  }

  function Sizes(regSize: nat): (es: seq<nat>)
    requires RegSize(regSize)
  {
    if regSize == 64 then [2, 4, 8, 16, 32, 64] else [2, 4, 8, 16, 32]
  }

  /** The elements of the given sizes. */
  function Elements(sizes: seq<nat>): (xs: set<Elem>)
    requires forall i | 0 <= i < |sizes| :: sizes[i] > 0
  {
    if sizes == [] then {} else Runs(sizes[0], sizes[0] - 1) + Elements(sizes[1..])
  }

  lemma {:induction false} InElements(x: Elem, sizes: seq<nat>)
    requires forall i | 0 <= i < |sizes| :: sizes[i] > 0
    ensures x in Elements(sizes) <==> x.e in sizes && x.s < x.e - 1 && x.r < x.e
  {
    if sizes != [] {
      InElements(x, sizes[1..]);
      assert x.e in sizes <==> x.e == sizes[0] || x.e in sizes[1..];
    }
  }

  /** The sum of `e * (e - 1)` over the sizes. */
  function ClosedCount(sizes: seq<nat>): int {
    if sizes == [] then 0 else (sizes[0] - 1) * sizes[0] + ClosedCount(sizes[1..])
  }

  predicate DistinctSizes(sizes: seq<nat>) {
    && (forall i | 0 <= i < |sizes| :: sizes[i] > 0)
    && (forall i, j | 0 <= i < j < |sizes| :: sizes[i] != sizes[j])
  }

  lemma ElementStep(sizes: seq<nat>)
    requires DistinctSizes(sizes) && sizes != []
    ensures |Elements(sizes)| == |Runs(sizes[0], sizes[0] - 1)| + |Elements(sizes[1..])|
  {
    var a, b := Runs(sizes[0], sizes[0] - 1), Elements(sizes[1..]);
    forall x | x in a ensures x !in b {
      InElements(x, sizes[1..]);
    }
    assert a !! b;
  }

  lemma {:induction false} ElementCount(sizes: seq<nat>)
    requires DistinctSizes(sizes)
    ensures |Elements(sizes)| == ClosedCount(sizes)
  {
    hide *;
    if sizes == [] {
      NoElements();
    } else {
      DistinctTail(sizes);
      ElementStep(sizes);
      RunCount(sizes[0], sizes[0] - 1);
      ElementCount(sizes[1..]);
      ClosedStep(sizes);
    }
  }

  lemma NoElements()
    ensures |Elements([])| == ClosedCount([]) == 0
  {
  }

  lemma DistinctTail(sizes: seq<nat>)
    requires DistinctSizes(sizes) && sizes != []
    ensures sizes[0] > 0 && DistinctSizes(sizes[1..])
  {
  }

  lemma ClosedStep(sizes: seq<nat>)
    requires sizes != []
    ensures ClosedCount(sizes) == (sizes[0] - 1) * sizes[0] + ClosedCount(sizes[1..])
  {
  }

  /** The words some triple decodes to. */
  ghost function Encodable(regSize: nat): set<Word>
    requires RegSize(regSize)
  {
    set n: nat, immr: nat, imms: nat | n < 2 && immr < 64 && imms < 64 && Decode(n, immr, imms, regSize).Some?
      :: Decode(n, immr, imms, regSize).value
  }

  /** The fields that spell an element. */
  lemma ElementTriple(x: Elem, regSize: nat) returns (t: Triple)
    requires Element(x.e, x.s, x.r, regSize)
    ensures Fields(t.n, t.immr, t.imms) && ElementOf(t.n, t.immr, t.imms) == (x.e, x.s, x.r)
  {
    var (e, s, r) := (x.e, x.s, x.r);
    var n, imms := if e == 64 then 1 else 0, if e == 64 then s else 64 - 2 * e + s;
    if e < 64 {
      TopField(imms, e);
    }
    ModWrap(r, e);
    ModWrap(s, e);
    t := Triple(n, r, imms);
  }

  lemma ElementHasTriple(x: Elem, regSize: nat) returns (t: Triple)
    requires Element(x.e, x.s, x.r, regSize)
    ensures Encodes(t, Pattern(x.e, x.s, x.r, regSize), regSize)
  {
    hide Pattern, Decode, ElementOf;
    t := ElementTriple(x, regSize);
    DecodeClosedForm(t.n, t.immr, t.imms, regSize);
  }

  lemma EncodableAre(regSize: nat)
    requires RegSize(regSize)
    ensures Encodable(regSize) == Image(Elements(Sizes(regSize)), x => WordOf(x, regSize))
  {
    hide Decode, SizeOf, Pattern, Elements;
    var f := x => WordOf(x, regSize);
    var xs := Elements(Sizes(regSize));
    forall x ensures x in xs <==> Element(x.e, x.s, x.r, regSize) {
      InElements(x, Sizes(regSize));
    }
    forall w | w in Encodable(regSize) ensures w in Image(xs, f) {
      var n: nat, immr: nat, imms: nat :| n < 2 && immr < 64 && imms < 64
        && Decode(n, immr, imms, regSize).Some? && Decode(n, immr, imms, regSize).value == w;
      DecodeClosedForm(n, immr, imms, regSize);
      var (e, s, r) := ElementOf(n, immr, imms);
      assert w == f(Elem(e, s, r));
    }
    forall w | w in Image(xs, f) ensures w in Encodable(regSize) {
      var x :| x in xs && w == f(x);
      var t := ElementHasTriple(x, regSize);
    }
  }

  /** There are 5334 encodable 64-bit words and 1302 encodable 32-bit words: the sum of
      `e * (e - 1)` over the element sizes legal at the width. */
  lemma EncodableCount(regSize: nat)
    requires RegSize(regSize)
    ensures |Encodable(regSize)| == ClosedCount(Sizes(regSize)) == if regSize == 64 then 5334 else 1302
  {
    hide Decode, Pattern, Elements;
    EncodableAre(regSize);
    ElementCount(Sizes(regSize));
    var f := x => WordOf(x, regSize);
    var xs := Elements(Sizes(regSize));
    forall x, y | x in xs && y in xs && f(x) == f(y) ensures x == y {
      InElements(x, Sizes(regSize));
      InElements(y, Sizes(regSize));
      PatternInjective(x.e, x.s, x.r, y.e, y.s, y.r, regSize);
    }
    ImageCount(xs, f);
    ClosedCounts();
  }

  lemma ClosedCounts()
    ensures ClosedCount(Sizes(64)) == 5334 && ClosedCount(Sizes(32)) == 1302
  {
    assert Sizes(32)[1..] == [4, 8, 16, 32] && Sizes(64)[1..] == [4, 8, 16, 32, 64];
    assert [4, 8, 16, 32][1..] == [8, 16, 32] && [4, 8, 16, 32, 64][1..] == [8, 16, 32, 64];
    assert [8, 16, 32][1..] == [16, 32] && [8, 16, 32, 64][1..] == [16, 32, 64];
    assert [16, 32][1..] == [32] && [16, 32, 64][1..] == [32, 64] && [32, 64][1..] == [64];
  }
}
