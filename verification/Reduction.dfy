/** The deterministic reduction of tools/ref/reduce_ref.py: strided lanes, a padded lane tree in
    each block of 256, and a tree over the blocks. */
module Reduction {

  import opened Naturals
  import opened Wrappers

  const LANES: nat := 8
  const BLOCK: nat := 256

  // ---- Folds and strides ----

  function Fold<T>(xs: seq<T>, op: (T, T) -> T): T
    requires xs != []
  {
    if |xs| == 1 then xs[0] else op(Fold(xs[..|xs| - 1], op), xs[|xs| - 1])
  }

  /** The elements at `j`, `j + 8`, `j + 16`, .. */
  function Stride<T>(xs: seq<T>, j: nat): (r: seq<T>)
    ensures r != [] <==> j < |xs|
    ensures forall x | x in r :: x in xs
    decreases |xs| - j
  {
    if j >= |xs| then [] else [xs[j]] + Stride(xs, j + LANES)
  }

  // ---- The specified tree ----

  function Comb<T>(a: Option<T>, b: Option<T>, op: (T, T) -> T): Option<T> {
    if a.None? then b else if b.None? then a else Some(op(a.value, b.value))
  }

  function Lane<T>(xs: seq<T>, j: nat, op: (T, T) -> T): Option<T> {
    if j < |xs| then Some(Fold(Stride(xs, j), op)) else None
  }

  function Lanes<T>(xs: seq<T>, op: (T, T) -> T): seq<Option<T>> {
    seq(LANES, j requires 0 <= j < LANES => Lane(xs, j, op))
  }

  function PairLanes<T>(ls: seq<Option<T>>, op: (T, T) -> T): (r: seq<Option<T>>)
    requires |ls| % 2 == 0
    ensures |r| == |ls| / 2
  {
    if ls == [] then [] else [Comb(ls[0], ls[1], op)] + PairLanes(ls[2..], op)
  }

  predicate Padded(n: nat) {
    n == 1 || n == 2 || n == 4 || n == 8
  }

  function LaneTree<T>(ls: seq<Option<T>>, op: (T, T) -> T): Option<T>
    requires Padded(|ls|)
    decreases |ls|
  {
    if |ls| == 1 then ls[0] else LaneTree(PairLanes(ls, op), op)
  }

  function PairBlocks<T>(ps: seq<T>, op: (T, T) -> T): (r: seq<T>)
    ensures |r| == (|ps| + 1) / 2
  {
    if |ps| <= 1 then ps else [op(ps[0], ps[1])] + PairBlocks(ps[2..], op)
  }

  function BlockTree<T>(ps: seq<T>, op: (T, T) -> T): T
    requires ps != []
    decreases |ps|
  {
    if |ps| == 1 then ps[0] else BlockTree(PairBlocks(ps, op), op)
  }

  function BlockValue<T>(xs: seq<T>, op: (T, T) -> T): T
    requires xs != []
  {
    LanePresent(xs, op);
    LaneTree(Lanes(xs, op), op).value
  }

  function BlockValues<T>(xs: seq<T>, op: (T, T) -> T): (r: seq<T>)
    ensures xs != [] ==> r != []
  {
    if xs == [] then []
    else if |xs| <= BLOCK then [BlockValue(xs, op)]
    else [BlockValue(xs[..BLOCK], op)] + BlockValues(xs[BLOCK..], op)
  }

  function Reduced<T>(xs: seq<T>, op: (T, T) -> T): T
    requires xs != []
  {
    BlockTree(BlockValues(xs, op), op)
  }

  function Present<T>(ls: seq<Option<T>>): seq<T> {
    if ls == [] then [] else (if ls[0].Some? then [ls[0].value] else []) + Present(ls[1..])
  }

  lemma PairPresent<T>(ls: seq<Option<T>>, op: (T, T) -> T)
    requires |ls| % 2 == 0
    ensures Present(PairLanes(ls, op)) == [] <==> Present(ls) == []
  {
    if ls != [] {
      PairPresent(ls[2..], op);
      var r := PairLanes(ls, op);
      assert r[1..] == PairLanes(ls[2..], op) && ls[1..][1..] == ls[2..];
      assert Present(ls) == (if ls[0].Some? then [ls[0].value] else []) + Present(ls[1..]);
      assert Present(ls[1..]) == (if ls[1].Some? then [ls[1].value] else []) + Present(ls[2..]);
    }
  }

  lemma {:induction false} TreePresent<T>(ls: seq<Option<T>>, op: (T, T) -> T)
    requires Padded(|ls|)
    ensures LaneTree(ls, op).Some? <==> Present(ls) != []
    decreases |ls|
  {
    if |ls| == 1 {
      assert Present(ls) == (if ls[0].Some? then [ls[0].value] else []) + Present([]);
    } else {
      PairPresent(ls, op);
      TreePresent(PairLanes(ls, op), op);
    }
  }

  lemma LanePresent<T>(xs: seq<T>, op: (T, T) -> T)
    requires xs != []
    ensures LaneTree(Lanes(xs, op), op).Some?
  {
    TreePresent(Lanes(xs, op), op);
  }

  // ---- The loops ----

  method FoldLane<T>(xs: seq<T>, j: nat, op: (T, T) -> T) returns (a: T)
    requires j < |xs|
    ensures Some(a) == Lane(xs, j, op)
  {
    a := xs[j];
    ghost var done := [a];
    var i := j + LANES;
    while i < |xs|
      invariant done != [] && a == Fold(done, op)
      invariant Stride(xs, j) == done + Stride(xs, i)
      decreases |xs| - i
    {
      a := op(a, xs[i]);
      assert done == (done + [xs[i]])[..|done|];
      assert Stride(xs, i) == [xs[i]] + Stride(xs, i + LANES);
      done := done + [xs[i]];
      i := i + LANES;
    }
    assert Stride(xs, j) == done;
  }

  method Block<T>(xs: seq<T>, op: (T, T) -> T) returns (r: T)
    requires xs != []
    ensures r == BlockValue(xs, op)
  {
    hide Stride, Fold;
    var lanes: seq<Option<T>> := [];
    for j := 0 to if LANES < |xs| then LANES else |xs|
      invariant |lanes| == j && forall k | 0 <= k < j :: lanes[k] == Lane(xs, k, op)
    {
      var a := FoldLane(xs, j, op);
      lanes := lanes + [Some(a)];
    }
    lanes := lanes + seq(LANES - |lanes|, _ => None);
    assert lanes == Lanes(xs, op);
    LanePresent(xs, op);
    while |lanes| > 1
      invariant Padded(|lanes|) && LaneTree(lanes, op) == LaneTree(Lanes(xs, op), op)
      decreases |lanes|
    {
      lanes := PairLanes(lanes, op);
    }
    r := lanes[0].value;
  }

  method Reduce<T>(xs: seq<T>, op: (T, T) -> T) returns (r: T)
    requires xs != []
    ensures r == Reduced(xs, op)
  {
    hide BlockValue;
    var ps: seq<T> := [];
    var i := 0;
    while i < |xs|
      invariant 0 <= i
      invariant ps + BlockValues(From(xs, i), op) == BlockValues(xs, op)
      decreases |xs| - i
    {
      var rest := From(xs, i);
      var xs' := rest[..if |rest| < BLOCK then |rest| else BLOCK];
      var p := Block(xs', op);
      assert rest[..|rest|] == rest && (|rest| > BLOCK ==> rest[BLOCK..] == From(xs, i + BLOCK));
      assert BlockValues(rest, op) == [p] + BlockValues(From(xs, i + BLOCK), op);
      ps := ps + [p];
      i := i + BLOCK;
    }
    assert ps == BlockValues(xs, op);
    while |ps| > 1
      invariant ps != [] && BlockTree(ps, op) == Reduced(xs, op)
      decreases |ps|
    {
      ps := PairBlocks(ps, op);
    }
    r := ps[0];
  }

  function From<T>(xs: seq<T>, i: nat): seq<T> {
    if i < |xs| then xs[i..] else []
  }

  // ---- The bracketing depends on the length alone ----

  datatype Term = Leaf(i: nat) | Node(left: Term, right: Term)

  function Leaves(from: nat, n: nat): (ts: seq<Term>)
    ensures |ts| == n && forall i | 0 <= i < n :: ts[i] == Leaf(from + i)
  {
    seq(n, i requires 0 <= i < n => Leaf(from + i))
  }

  function Join(): (Term, Term) -> Term {
    (a, b) => Node(a, b)
  }

  function Shape(n: nat): Term
    requires n > 0
  {
    Reduced(Leaves(0, n), Join())
  }

  /** `h` carries one operation over to the other. */
  ghost predicate Carries<A(!new), B>(h: A -> B, f: (A, A) -> A, g: (B, B) -> B) {
    forall a, b :: h(f(a, b)) == g(h(a), h(b))
  }

  function Map<A, B>(xs: seq<A>, h: A -> B): (ys: seq<B>)
    ensures |ys| == |xs| && forall i | 0 <= i < |xs| :: ys[i] == h(xs[i])
  {
    seq(|xs|, i requires 0 <= i < |xs| => h(xs[i]))
  }

  function MapOption<A, B>(a: Option<A>, h: A -> B): Option<B> {
    if a.Some? then Some(h(a.value)) else None
  }

  function MapLanes<A, B>(xs: seq<Option<A>>, h: A -> B): (ys: seq<Option<B>>)
    ensures |ys| == |xs| && forall i | 0 <= i < |xs| :: ys[i] == MapOption(xs[i], h)
  {
    seq(|xs|, i requires 0 <= i < |xs| => MapOption(xs[i], h))
  }

  lemma {:induction false} FoldCarried<A(!new), B>(xs: seq<A>, h: A -> B, f: (A, A) -> A, g: (B, B) -> B)
    requires xs != [] && Carries(h, f, g)
    ensures h(Fold(xs, f)) == Fold(Map(xs, h), g)
  {
    if |xs| > 1 {
      FoldCarried(xs[..|xs| - 1], h, f, g);
      assert Map(xs, h)[..|xs| - 1] == Map(xs[..|xs| - 1], h);
    }
  }

  lemma {:induction false} StrideMapped<A, B>(xs: seq<A>, h: A -> B, j: nat)
    ensures Stride(Map(xs, h), j) == Map(Stride(xs, j), h)
    decreases |xs| - j
  {
    if j < |xs| {
      StrideMapped(xs, h, j + LANES);
    }
  }

  lemma {:induction false} PairLanesCarried<A(!new), B>(ls: seq<Option<A>>, h: A -> B, f: (A, A) -> A, g: (B, B) -> B)
    requires |ls| % 2 == 0 && Carries(h, f, g)
    ensures MapLanes(PairLanes(ls, f), h) == PairLanes(MapLanes(ls, h), g)
  {
    if ls != [] {
      PairLanesCarried(ls[2..], h, f, g);
      assert MapLanes(ls, h)[2..] == MapLanes(ls[2..], h);
    }
  }

  lemma {:induction false} LaneTreeCarried<A(!new), B>(ls: seq<Option<A>>, h: A -> B, f: (A, A) -> A, g: (B, B) -> B)
    requires Padded(|ls|) && Carries(h, f, g)
    ensures MapOption(LaneTree(ls, f), h) == LaneTree(MapLanes(ls, h), g)
    decreases |ls|
  {
    if |ls| > 1 {
      PairLanesCarried(ls, h, f, g);
      LaneTreeCarried(PairLanes(ls, f), h, f, g);
    }
  }

  lemma BlockCarried<A(!new), B>(xs: seq<A>, h: A -> B, f: (A, A) -> A, g: (B, B) -> B)
    requires xs != [] && Carries(h, f, g)
    ensures h(BlockValue(xs, f)) == BlockValue(Map(xs, h), g)
  {
    forall j | 0 <= j < LANES ensures MapOption(Lane(xs, j, f), h) == Lane(Map(xs, h), j, g) {
      if j < |xs| {
        StrideMapped(xs, h, j);
        FoldCarried(Stride(xs, j), h, f, g);
      }
    }
    assert MapLanes(Lanes(xs, f), h) == Lanes(Map(xs, h), g);
    LaneTreeCarried(Lanes(xs, f), h, f, g);
    LanePresent(xs, f);
  }

  lemma {:induction false} BlocksCarried<A(!new), B>(xs: seq<A>, h: A -> B, f: (A, A) -> A, g: (B, B) -> B)
    requires Carries(h, f, g)
    ensures Map(BlockValues(xs, f), h) == BlockValues(Map(xs, h), g)
  {
    hide Carries;
    if |xs| > BLOCK {
      BlockCarried(xs[..BLOCK], h, f, g);
      BlocksCarried(xs[BLOCK..], h, f, g);
      assert Map(xs, h)[..BLOCK] == Map(xs[..BLOCK], h) && Map(xs, h)[BLOCK..] == Map(xs[BLOCK..], h);
    } else if xs != [] {
      BlockCarried(xs, h, f, g);
    }
  }

  lemma {:induction false} PairBlocksCarried<A(!new), B>(ps: seq<A>, h: A -> B, f: (A, A) -> A, g: (B, B) -> B)
    requires Carries(h, f, g)
    ensures Map(PairBlocks(ps, f), h) == PairBlocks(Map(ps, h), g)
  {
    if |ps| > 1 {
      PairBlocksCarried(ps[2..], h, f, g);
      assert Map(ps, h)[2..] == Map(ps[2..], h);
    }
  }

  lemma {:induction false} BlockTreeCarried<A(!new), B>(ps: seq<A>, h: A -> B, f: (A, A) -> A, g: (B, B) -> B)
    requires ps != [] && Carries(h, f, g)
    ensures h(BlockTree(ps, f)) == BlockTree(Map(ps, h), g)
    decreases |ps|
  {
    if |ps| > 1 {
      PairBlocksCarried(ps, h, f, g);
      BlockTreeCarried(PairBlocks(ps, f), h, f, g);
    }
  }

  function Eval<T>(t: Term, leaf: nat -> T, op: (T, T) -> T): T {
    match t
    case Leaf(i) => leaf(i)
    case Node(a, b) => op(Eval(a, leaf, op), Eval(b, leaf, op))
  }

  /** For every operation, associative or not, the result is the value of one bracketing that
      depends only on the number of elements. */
  lemma ShapeIsFixed<T(!new)>(xs: seq<T>, op: (T, T) -> T)
    requires xs != []
    ensures Reduced(xs, op) == Eval(Shape(|xs|), (i: nat) => if i < |xs| then xs[i] else xs[0], op)
  {
    var leaf: nat -> T := (i: nat) => if i < |xs| then xs[i] else xs[0];
    var h := (t: Term) => Eval(t, leaf, op);
    var ts := Leaves(0, |xs|);
    assert Map(ts, h) == xs;
    assert Carries(h, Join(), op);
    BlocksCarried(ts, h, Join(), op);
    BlockTreeCarried(BlockValues(ts, Join()), h, Join(), op);
  }

  // ---- The bracketing, spelled out ----

  /** Lane `j` holds the elements at `j`, `j + 8`, `j + 16`, .. */
  lemma {:induction false} StrideElements<T>(xs: seq<T>, j: nat, m: nat)
    ensures m < |Stride(xs, j)| <==> j + 8 * m < |xs|
    ensures j + 8 * m < |xs| ==> Stride(xs, j)[m] == xs[j + 8 * m]
    decreases m
  {
    hide Stride;
    StrideStep(xs, j);
    if m > 0 {
      StrideElements(xs, j + LANES, m - 1);
    }
  }

  lemma StrideStep<T>(xs: seq<T>, j: nat)
    ensures Stride(xs, j) == if j >= |xs| then [] else [xs[j]] + Stride(xs, j + 8)
    ensures j >= |xs| ==> Stride(xs, j + 8) == []
  {
  }

  /** The eight lanes are combined pair by pair. */
  lemma EightLanes<T>(ls: seq<Option<T>>, op: (T, T) -> T)
    requires |ls| == 8
    ensures LaneTree(ls, op)
            == Comb(Comb(Comb(ls[0], ls[1], op), Comb(ls[2], ls[3], op), op),
                    Comb(Comb(ls[4], ls[5], op), Comb(ls[6], ls[7], op), op), op)
  {
    var four := [Comb(ls[0], ls[1], op), Comb(ls[2], ls[3], op), Comb(ls[4], ls[5], op), Comb(ls[6], ls[7], op)];
    PairLanesAt(ls, op);
    assert PairLanes(ls, op) == four;
    var two := [Comb(four[0], four[1], op), Comb(four[2], four[3], op)];
    PairLanesAt(four, op);
    assert PairLanes(four, op) == two;
    PairLanesAt(two, op);
    var one := [Comb(two[0], two[1], op)];
    assert PairLanes(two, op) == one;
    assert LaneTree(ls, op) == LaneTree(four, op) && LaneTree(four, op) == LaneTree(two, op);
    assert LaneTree(two, op) == LaneTree(one, op) && LaneTree(one, op) == one[0];
  }

  lemma {:induction false} PairLanesAt<T>(ls: seq<Option<T>>, op: (T, T) -> T)
    requires |ls| % 2 == 0
    ensures forall k | 0 <= k < |ls| / 2 :: PairLanes(ls, op)[k] == Comb(ls[2 * k], ls[2 * k + 1], op)
  {
    if ls != [] {
      PairLanesAt(ls[2..], op);
    }
  }

  /** Block `b` is over the elements from `256 * b` on. */
  lemma {:induction false} BlockAt<T>(xs: seq<T>, op: (T, T) -> T, b: nat)
    ensures b < |BlockValues(xs, op)| <==> 256 * b < |xs|
    ensures 256 * b < |xs| ==>
              BlockValues(xs, op)[b] == BlockValue(xs[256 * b..Min(256 * b + 256, |xs|)], op)
    decreases b
  {
    hide BlockValue;
    if |xs| <= BLOCK {
      assert xs[0..|xs|] == xs;
      assert |BlockValues(xs, op)| == if xs == [] then 0 else 1;
    } else {
      var rest := xs[BLOCK..];
      assert BlockValues(xs, op) == [BlockValue(xs[..BLOCK], op)] + BlockValues(rest, op);
      if b == 0 {
        assert xs[0..BLOCK] == xs[..BLOCK];
      } else {
        BlockAt(rest, op, b - 1);
        if 256 * b < |xs| {
          assert rest[256 * (b - 1)..Min(256 * (b - 1) + 256, |rest|)] == xs[256 * b..Min(256 * b + 256, |xs|)];
        }
      }
    }
  }

  lemma {:induction false} PairBlocksSplit<T>(ps: seq<T>, op: (T, T) -> T, h: nat)
    requires 2 * h <= |ps|
    ensures PairBlocks(ps, op)[..h] == PairBlocks(ps[..2 * h], op)
    ensures PairBlocks(ps, op)[h..] == PairBlocks(ps[2 * h..], op)
  {
    if h > 0 {
      PairBlocksSplit(ps[2..], op, h - 1);
      assert ps[..2 * h][2..] == ps[2..][..2 * (h - 1)] && ps[2..][2 * (h - 1)..] == ps[2 * h..];
      var tail := PairBlocks(ps[2..], op);
      assert PairBlocks(ps, op) == [op(ps[0], ps[1])] + tail;
      assert PairBlocks(ps, op)[..h] == [op(ps[0], ps[1])] + tail[..h - 1];
      assert PairBlocks(ps, op)[h..] == tail[h - 1..];
    } else {
      assert ps[..0] == [] && ps[0..] == ps;
    }
  }

  /** The blocks split at the largest power of two below their number. */
  lemma {:induction false} BlockTreeSplits<T>(ps: seq<T>, op: (T, T) -> T, m: nat)
    requires Pow2(m) < |ps| <= 2 * Pow2(m)
    ensures BlockTree(ps, op) == op(BlockTree(ps[..Pow2(m)], op), BlockTree(ps[Pow2(m)..], op))
    decreases m
  {
    if m == 0 {
      assert PairBlocks(ps, op) == [op(ps[0], ps[1])];
    } else {
      var h := Pow2(m - 1);
      var level := PairBlocks(ps, op);
      BlockTreeSplits(level, op, m - 1);
      PairBlocksSplit(ps, op, h);
      BlockTreeLevel(ps[..2 * h], op);
      BlockTreeLevel(ps[2 * h..], op);
    }
  }

  lemma BlockTreeLevel<T>(ps: seq<T>, op: (T, T) -> T)
    requires ps != []
    ensures BlockTree(ps, op) == BlockTree(PairBlocks(ps, op), op)
  {
  }

  /** Seven and nine elements, for instance. */
  lemma SmallShapes()
    ensures Shape(7) == Node(Node(Node(Leaf(0), Leaf(1)), Node(Leaf(2), Leaf(3))), Node(Node(Leaf(4), Leaf(5)), Leaf(6)))
    ensures Shape(9) == Node(Node(Node(Node(Leaf(0), Leaf(8)), Leaf(1)), Node(Leaf(2), Leaf(3))),
                             Node(Node(Leaf(4), Leaf(5)), Node(Leaf(6), Leaf(7))))
  {
    ShortShape(7);
    ShortShape(9);
  }

  function LaneTerm(n: nat, j: nat): Option<Term> {
    if j >= n then None else if j + 8 >= n then Some(Leaf(j)) else Some(Node(Leaf(j), Leaf(j + 8)))
  }

  lemma LaneFold(ts: seq<Term>, j: nat)
    requires j < |ts|
    ensures Stride(ts, j) == [ts[j]] ==> Lane(ts, j, Join()) == Some(ts[j])
    ensures |Stride(ts, j)| == 2 ==> Lane(ts, j, Join()) == Some(Node(Stride(ts, j)[0], Stride(ts, j)[1]))
  {
    hide Stride;
    var xs := Stride(ts, j);
    if |xs| == 2 {
      assert xs[..1] == [xs[0]];
      assert Fold([xs[0]], Join()) == xs[0];
    }
  }

  lemma ShortShape(n: nat)
    requires 0 < n <= 16
    ensures var op := Join();
            Some(Shape(n))
            == Comb(Comb(Comb(LaneTerm(n, 0), LaneTerm(n, 1), op), Comb(LaneTerm(n, 2), LaneTerm(n, 3), op), op),
                    Comb(Comb(LaneTerm(n, 4), LaneTerm(n, 5), op), Comb(LaneTerm(n, 6), LaneTerm(n, 7), op), op), op)
  {
    hide LaneTree;
    var ts, op := Leaves(0, n), Join();
    forall j | 0 <= j < LANES ensures Lane(ts, j, op) == LaneTerm(n, j) {
      if j < n {
        assert Stride(ts, j + LANES) == if j + 8 < n then [ts[j + 8]] else [];
        assert Stride(ts, j) == [ts[j]] + Stride(ts, j + LANES);
        LaneFold(ts, j);
      }
    }
    EightLanes(Lanes(ts, op), op);
    LanePresent(ts, op);
  }

  // ---- It is the left fold for at most three elements only ----

  /** The length of the left spine. */
  function Spine(t: Term): nat {
    match t
    case Leaf(_) => 0
    case Node(a, _) => Spine(a) + 1
  }

  lemma {:induction false} FoldSpine(ts: seq<Term>)
    requires ts != []
    ensures Spine(Fold(ts, Join())) == Spine(ts[0]) + |ts| - 1
  {
    if |ts| > 1 {
      FoldSpine(ts[..|ts| - 1]);
    }
  }

  lemma {:induction false} BlockTreeSpine(ps: seq<Term>)
    requires ps != []
    ensures Spine(BlockTree(ps, Join())) <= Spine(ps[0]) + |ps| - 1
    decreases |ps|
  {
    if |ps| > 1 {
      BlockTreeSpine(PairBlocks(ps, Join()));
      assert PairBlocks(ps, Join())[0] == Join()(ps[0], ps[1]);
    }
  }

  lemma CombSpine(a: Option<Term>, b: Option<Term>)
    requires a.Some?
    ensures Comb(a, b, Join()).Some? && Spine(Comb(a, b, Join()).value) <= Spine(a.value) + 1
  {
  }

  lemma BlockSpine(ts: seq<Term>)
    requires ts != [] && Spine(ts[0]) == 0
    ensures Spine(BlockValue(ts, Join())) <= (|ts| - 1) / 8 + 3
  {
    hide LaneTree, Stride;
    var op := Join();
    var lanes := Lanes(ts, op);
    EightLanes(lanes, op);
    LanePresent(ts, op);
    StrideElements(ts, 0, 0);
    StrideElements(ts, 0, |Stride(ts, 0)| - 1);
    FoldSpine(Stride(ts, 0));
    assert Spine(lanes[0].value) <= (|ts| - 1) / 8;
    var one := Comb(lanes[0], lanes[1], op);
    var two := Comb(one, Comb(lanes[2], lanes[3], op), op);
    CombSpine(lanes[0], lanes[1]);
    CombSpine(one, Comb(lanes[2], lanes[3], op));
    CombSpine(two, Comb(Comb(lanes[4], lanes[5], op), Comb(lanes[6], lanes[7], op), op));
  }

  lemma SmallFolds(n: nat)
    requires 0 < n <= 4
    ensures Fold(Leaves(0, n), Join())
            == match n
               case 1 => Leaf(0)
               case 2 => Node(Leaf(0), Leaf(1))
               case 3 => Node(Node(Leaf(0), Leaf(1)), Leaf(2))
               case _ => Node(Node(Node(Leaf(0), Leaf(1)), Leaf(2)), Leaf(3))
  {
    assert Leaves(0, 4)[..3] == Leaves(0, 3) && Leaves(0, 3)[..2] == Leaves(0, 2) && Leaves(0, 2)[..1] == Leaves(0, 1);
    assert Fold(Leaves(0, 1), Join()) == Leaf(0);
    assert Fold(Leaves(0, 2), Join()) == Node(Leaf(0), Leaf(1));
    assert Fold(Leaves(0, 3), Join()) == Node(Node(Leaf(0), Leaf(1)), Leaf(2));
  }

  lemma LongSpine(n: nat)
    requires n > 4
    ensures Spine(Shape(n)) < n - 1
  {
    hide BlockTree, BlockValues, BlockValue;
    var ts, op := Leaves(0, n), Join();
    var ps := BlockValues(ts, op);
    var first := ts[..Min(256, n)];
    BlockAt(ts, op, 0);
    assert ts[0..Min(256, n)] == first;
    BlockSpine(first);
    BlockTreeSpine(ps);
    BlockAt(ts, op, |ps| - 1);
    BlockAt(ts, op, |ps|);
  }

  /** The reduction brackets like a left fold for up to three elements, and never for more. */
  lemma SerialUpToThree(n: nat)
    requires n > 0
    ensures Shape(n) == Fold(Leaves(0, n), Join()) <==> n <= 3
  {
    if n <= 4 {
      hide Fold, Shape;
      ShortShape(n);
      SmallFolds(n);
    } else {
      LongSpine(n);
      FoldSpine(Leaves(0, n));
    }
  }

  // ---- For an associative operation the tree is a fold ----

  ghost predicate Associative<T(!new)>(op: (T, T) -> T) {
    forall a, b, c :: op(op(a, b), c) == op(a, op(b, c))
  }

  lemma {:induction false} FoldConcat<T(!new)>(a: seq<T>, b: seq<T>, op: (T, T) -> T)
    requires a != [] && b != [] && Associative(op)
    ensures Fold(a + b, op) == op(Fold(a, op), Fold(b, op))
  {
    var b' := b[..|b| - 1];
    assert (a + b)[..|a + b| - 1] == a + b';
    if |b| == 1 {
      assert a + b' == a;
    } else {
      FoldConcat(a, b', op);
    }
  }

  lemma {:induction false} FoldCons<T(!new)>(x: T, b: seq<T>, op: (T, T) -> T)
    requires b != [] && Associative(op)
    ensures Fold([x] + b, op) == op(x, Fold(b, op))
  {
    FoldConcat([x], b, op);
  }

  lemma {:induction false} PairBlocksFold<T(!new)>(ps: seq<T>, op: (T, T) -> T)
    requires ps != [] && Associative(op)
    ensures Fold(PairBlocks(ps, op), op) == Fold(ps, op)
  {
    if |ps| > 1 {
      var x := op(ps[0], ps[1]);
      assert ps == [ps[0], ps[1]] + ps[2..] && Fold([ps[0], ps[1]], op) == x;
      if |ps| > 2 {
        PairBlocksFold(ps[2..], op);
        FoldCons(x, PairBlocks(ps[2..], op), op);
        FoldConcat([ps[0], ps[1]], ps[2..], op);
      } else {
        assert PairBlocks(ps, op) == [x];
      }
    }
  }

  lemma {:induction false} BlockTreeFold<T(!new)>(ps: seq<T>, op: (T, T) -> T)
    requires ps != [] && Associative(op)
    ensures BlockTree(ps, op) == Fold(ps, op)
    decreases |ps|
  {
    if |ps| > 1 {
      PairBlocksFold(ps, op);
      BlockTreeFold(PairBlocks(ps, op), op);
    }
  }

  lemma {:induction false} PairLanesFold<T(!new)>(ls: seq<Option<T>>, op: (T, T) -> T)
    requires |ls| % 2 == 0 && Present(ls) != [] && Associative(op)
    ensures Present(PairLanes(ls, op)) != []
    ensures Fold(Present(PairLanes(ls, op)), op) == Fold(Present(ls), op)
  {
    PairPresent(ls, op);
    assert |ls| >= 2;
    var head := (if ls[0].Some? then [ls[0].value] else []) + (if ls[1].Some? then [ls[1].value] else []);
    var c := Comb(ls[0], ls[1], op);
    var head' := if c.Some? then [c.value] else [];
    assert ls[1..][1..] == ls[2..];
    assert Present(ls) == head + Present(ls[2..]);
    var rest := PairLanes(ls[2..], op);
    assert PairLanes(ls, op) == [c] + rest && ([c] + rest)[1..] == rest;
    assert Present(PairLanes(ls, op)) == head' + Present(rest);
    PairPresent(ls[2..], op);
    assert head != [] ==> head' != [] && Fold(head', op) == Fold(head, op);
    if Present(ls[2..]) == [] {
      assert Present(ls) == head && Present(PairLanes(ls, op)) == head';
    } else {
      PairLanesFold(ls[2..], op);
      if head == [] {
        assert Present(ls) == Present(ls[2..]) && Present(PairLanes(ls, op)) == Present(rest);
      } else {
        FoldConcat(head, Present(ls[2..]), op);
        FoldConcat(head', Present(rest), op);
      }
    }
  }

  lemma {:induction false} LaneTreeFold<T(!new)>(ls: seq<Option<T>>, op: (T, T) -> T)
    requires Padded(|ls|) && Present(ls) != [] && Associative(op)
    ensures LaneTree(ls, op) == Some(Fold(Present(ls), op))
    decreases |ls|
  {
    if |ls| == 1 {
      assert Present(ls) == (if ls[0].Some? then [ls[0].value] else []) + Present([]);
    } else {
      PairLanesFold(ls, op);
      LaneTreeFold(PairLanes(ls, op), op);
    }
  }

  /** One block, lane by lane, from lane `j` on. */
  function ByLanes<T>(xs: seq<T>, j: nat): (r: seq<T>)
    requires j <= LANES
    ensures forall x | x in r :: x in xs
    decreases LANES - j
  {
    if j == LANES then [] else Stride(xs, j) + ByLanes(xs, j + 1)
  }

  /** The input, block by block and lane by lane. */
  function Arranged<T>(xs: seq<T>): (r: seq<T>)
    ensures forall x | x in r :: x in xs
  {
    if |xs| <= BLOCK then ByLanes(xs, 0) else ByLanes(xs[..BLOCK], 0) + Arranged(xs[BLOCK..])
  }

  lemma {:induction false} LanesFold<T(!new)>(xs: seq<T>, j: nat, op: (T, T) -> T)
    requires j <= LANES && Associative(op)
    ensures var ls := Lanes(xs, op)[j..];
            && (Present(ls) == [] <==> ByLanes(xs, j) == [])
            && (ByLanes(xs, j) != [] ==> Fold(Present(ls), op) == Fold(ByLanes(xs, j), op))
    decreases LANES - j
  {
    if j < LANES {
      LanesFold(xs, j + 1, op);
      var ls, rest := Lanes(xs, op)[j..], Lanes(xs, op)[j + 1..];
      assert ls[1..] == rest && ls[0] == Lane(xs, j, op);
      var head := if ls[0].Some? then [ls[0].value] else [];
      assert Present(ls) == head + Present(rest);
      if j >= |xs| {
        assert Present(ls) == Present(rest) && ByLanes(xs, j) == ByLanes(xs, j + 1);
      } else if Present(rest) == [] {
        assert Present(ls) == head && ByLanes(xs, j) == Stride(xs, j);
      } else {
        FoldCons(ls[0].value, Present(rest), op);
        FoldConcat(Stride(xs, j), ByLanes(xs, j + 1), op);
      }
    }
  }

  lemma BlockFold<T(!new)>(xs: seq<T>, op: (T, T) -> T)
    requires xs != [] && Associative(op)
    ensures ByLanes(xs, 0) != [] && BlockValue(xs, op) == Fold(ByLanes(xs, 0), op)
  {
    assert Stride(xs, 0) != [];
    assert Lanes(xs, op)[0..] == Lanes(xs, op);
    LanesFold(xs, 0, op);
    LaneTreeFold(Lanes(xs, op), op);
  }

  lemma {:induction false} BlocksFold<T(!new)>(xs: seq<T>, op: (T, T) -> T)
    requires xs != [] && Associative(op)
    ensures Arranged(xs) != [] && Fold(BlockValues(xs, op), op) == Fold(Arranged(xs), op)
  {
    if |xs| <= BLOCK {
      BlockFold(xs, op);
    } else {
      BlockFold(xs[..BLOCK], op);
      BlocksFold(xs[BLOCK..], op);
      FoldCons(BlockValue(xs[..BLOCK], op), BlockValues(xs[BLOCK..], op), op);
      FoldConcat(ByLanes(xs[..BLOCK], 0), Arranged(xs[BLOCK..]), op);
    }
  }

  // ---- The order of the elements ----

  function Iota(n: nat): (r: seq<nat>)
    ensures |r| == n && forall i | 0 <= i < n :: r[i] == i
  {
    seq(n, i => i)
  }

  /** The order in which a reduction of `n` elements uses them. */
  function Order(n: nat): (r: seq<nat>)
    ensures forall i | i in r :: i < n
  {
    Arranged(Iota(n))
  }

  function Picked<T>(xs: seq<T>, order: seq<nat>): (r: seq<T>)
    requires forall i | i in order :: i < |xs|
    ensures |r| == |order|
  {
    seq(|order|, k requires 0 <= k < |order| => assert order[k] in order; xs[order[k]])
  }

  lemma {:induction false} ByLanesMapped<A, B>(xs: seq<A>, h: A -> B, j: nat)
    requires j <= LANES
    ensures ByLanes(Map(xs, h), j) == Map(ByLanes(xs, j), h)
    decreases LANES - j
  {
    if j < LANES {
      StrideMapped(xs, h, j);
      ByLanesMapped(xs, h, j + 1);
    }
  }

  lemma MapSplit<A, B>(xs: seq<A>, h: A -> B, n: nat)
    requires n <= |xs|
    ensures Map(xs, h)[..n] == Map(xs[..n], h) && Map(xs, h)[n..] == Map(xs[n..], h)
  {
  }

  lemma MapConcat<A, B>(a: seq<A>, b: seq<A>, h: A -> B)
    ensures Map(a + b, h) == Map(a, h) + Map(b, h)
  {
  }

  lemma {:induction false} ArrangedMapped<A, B>(xs: seq<A>, h: A -> B)
    ensures Arranged(Map(xs, h)) == Map(Arranged(xs), h)
  {
    if |xs| <= BLOCK {
      ByLanesMapped(xs, h, 0);
    } else {
      hide Map, ByLanes;
      MapSplit(xs, h, BLOCK);
      ByLanesMapped(xs[..BLOCK], h, 0);
      ArrangedMapped(xs[BLOCK..], h);
      MapConcat(ByLanes(xs[..BLOCK], 0), Arranged(xs[BLOCK..]), h);
      assert Arranged(Map(xs, h)) == Map(Arranged(xs), h);
    }
  }

  /** A stride over a longer input begins with its element of the first eight. */
  lemma {:induction false} StrideDrop<T>(xs: seq<T>, j: nat)
    requires |xs| > LANES
    ensures Stride(xs, j + LANES) == Stride(xs[LANES..], j)
    decreases |xs| - j
  {
    if j + LANES < |xs| {
      StrideDrop(xs, j + LANES);
    }
  }

  lemma Regroup<T>(x: T, a: seq<T>, b: seq<T>, c: seq<T>, bc: seq<T>)
    requires multiset(bc) == multiset(b) + multiset(c)
    ensures multiset([x] + a + bc) == multiset([x] + b) + multiset(a + c)
  {
  }

  lemma {:induction false} LanesOfLong<T>(xs: seq<T>, j: nat)
    requires j <= LANES < |xs|
    ensures multiset(ByLanes(xs, j)) == multiset(xs[j..LANES]) + multiset(ByLanes(xs[LANES..], j))
    decreases LANES - j
  {
    hide ByLanes, Stride;
    var rest := xs[LANES..];
    if j == LANES {
      NoLanes(xs);
      NoLanes(rest);
      assert xs[j..LANES] == [];
    } else {
      Unfold(xs, j);
      Unfold(rest, j);
      LanesOfLong(xs, j + 1);
      StrideDrop(xs, j);
      assert xs[j..LANES] == [xs[j]] + xs[j + 1..LANES];
      Regroup(xs[j], Stride(rest, j), xs[j + 1..LANES], ByLanes(rest, j + 1), ByLanes(xs, j + 1));
    }
  }

  lemma NoLanes<T>(xs: seq<T>)
    ensures ByLanes(xs, LANES) == []
  {
  }

  lemma Unfold<T>(xs: seq<T>, j: nat)
    requires j < LANES
    ensures ByLanes(xs, j) == Stride(xs, j) + ByLanes(xs, j + 1)
    ensures j < |xs| ==> Stride(xs, j) == [xs[j]] + Stride(xs, j + LANES)
  {
  }

  lemma {:induction false} LanesOfShort<T>(xs: seq<T>, j: nat)
    requires j <= LANES && |xs| <= LANES
    ensures ByLanes(xs, j) == From(xs, j)
    decreases LANES - j
  {
    if j < LANES {
      LanesOfShort(xs, j + 1);
      if j < |xs| {
        assert Stride(xs, j) == [xs[j]];
      }
    }
  }

  lemma {:induction false} BlockOnce<T>(xs: seq<T>)
    ensures multiset(ByLanes(xs, 0)) == multiset(xs)
  {
    if |xs| <= LANES {
      LanesOfShort(xs, 0);
      assert From(xs, 0) == xs;
    } else {
      hide ByLanes, Stride;
      LanesOfLong(xs, 0);
      BlockOnce(xs[LANES..]);
      assert xs == xs[..LANES] + xs[LANES..] && xs[0..LANES] == xs[..LANES];
    }
  }

  lemma {:induction false} ArrangedOnce<T>(xs: seq<T>)
    ensures multiset(Arranged(xs)) == multiset(xs)
  {
    if |xs| <= BLOCK {
      BlockOnce(xs);
    } else {
      BlockOnce(xs[..BLOCK]);
      ArrangedOnce(xs[BLOCK..]);
      assert xs == xs[..BLOCK] + xs[BLOCK..];
    }
  }

  lemma SameLength<T>(a: seq<T>, b: seq<T>)
    requires multiset(a) == multiset(b)
    ensures |a| == |b|
  {
    assert |multiset(a)| == |a| && |multiset(b)| == |b|;
  }

  /** For an associative operation the reduction is the left fold over a permutation of the input
      that depends only on its length and uses every element exactly once. */
  lemma ReducedIsPermutedFold<T(!new)>(xs: seq<T>, op: (T, T) -> T)
    requires xs != [] && Associative(op)
    ensures |Order(|xs|)| == |xs| && multiset(Order(|xs|)) == multiset(Iota(|xs|))
    ensures Reduced(xs, op) == Fold(Picked(xs, Order(|xs|)), op)
  {
    hide Fold, Order;
    BlocksFold(xs, op);
    BlockTreeFold(BlockValues(xs, op), op);
    ArrangedIsPicked(xs);
  }

  lemma ArrangedIsPicked<T>(xs: seq<T>)
    ensures |Order(|xs|)| == |xs| && multiset(Order(|xs|)) == multiset(Iota(|xs|))
    ensures Arranged(xs) == Picked(xs, Order(|xs|))
  {
    hide Arranged;
    var n := |xs|;
    ArrangedOnce(Iota(n));
    SameLength(Order(n), Iota(n));
    if xs != [] {
      var h: nat -> T := (i: nat) => if i < n then xs[i] else xs[0];
      assert Map(Iota(n), h) == xs;
      ArrangedMapped(Iota(n), h);
      forall k | 0 <= k < n ensures Map(Order(n), h)[k] == Picked(xs, Order(n))[k] {
        assert Order(n)[k] in Order(n);
      }
    } else {
      ArrangedOnce(xs);
    }
  }

  ghost predicate Commutative<T(!new)>(op: (T, T) -> T) {
    forall a, b :: op(a, b) == op(b, a)
  }

  lemma {:induction false} FoldPermuted<T(!new)>(a: seq<T>, b: seq<T>, op: (T, T) -> T)
    requires a != [] && b != [] && multiset(a) == multiset(b) && Associative(op) && Commutative(op)
    ensures Fold(a, op) == Fold(b, op)
  {
    SameLength(a, b);
    var x, a' := a[|a| - 1], a[..|a| - 1];
    var l, r := TakeOut(a', x, b) by { assert a == a' + [x]; }
    if |a| > 1 {
      SameLength(a', l + r);
      FoldPermuted(a', l + r, op);
      RotateOut(l, x, r, op);
    }
  }

  lemma TakeOut<T>(a: seq<T>, x: T, b: seq<T>) returns (l: seq<T>, r: seq<T>)
    requires multiset(a + [x]) == multiset(b)
    ensures b == l + [x] + r && multiset(a) == multiset(l + r)
  {
    assert x in multiset(a + [x]) && x in b;
    var i :| 0 <= i < |b| && b[i] == x;
    l, r := b[..i], b[i + 1..];
    assert b == l + [x] + r;
    assert multiset(b) == multiset(l + r) + multiset{x};
    assert multiset(a) == multiset(b) - multiset{x};
  }

  lemma RotateOut<T(!new)>(l: seq<T>, x: T, r: seq<T>, op: (T, T) -> T)
    requires l + r != [] && Associative(op) && Commutative(op)
    ensures Fold(l + [x] + r, op) == op(Fold(l + r, op), x)
  {
    if l == [] {
      assert l + [x] + r == [x] + r && l + r == r;
      FoldCons(x, r, op);
    } else if r == [] {
      assert l + [x] + r == l + [x] && l + r == l;
      FoldConcat(l, [x], op);
    } else {
      FoldConcat(l + [x], r, op);
      FoldConcat(l, [x], op);
      FoldConcat(l, r, op);
    }
  }

  /** With commutativity as well it is the plain left fold of the input. */
  lemma ReducedIsPlainFold<T(!new)>(xs: seq<T>, op: (T, T) -> T)
    requires xs != [] && Associative(op) && Commutative(op)
    ensures Reduced(xs, op) == Fold(xs, op)
  {
    BlocksFold(xs, op);
    BlockTreeFold(BlockValues(xs, op), op);
    ArrangedOnce(xs);
    FoldPermuted(Arranged(xs), xs, op);
  }
}
