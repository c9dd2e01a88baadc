/** The arena of decided patterns (crates/fors-check/src/facts.rs): rows opened and closed while a
    pattern is walked, each row's children written out as one span of `subs` when it closes. */
module PatternArena {
  import opened Wrappers

  /** The slot of a row that matches no component of a parent: the largest 32-bit number. */
  const NO_PAT_SLOT: nat := 0xFFFF_FFFF

  type Slot = n: nat | n <= NO_PAT_SLOT

  datatype Shape = Undecided | Decided(what: nat)

  datatype Row = Row(shape: Shape, node: nat, ty: nat, start: nat, len: nat, slot: Slot)

  datatype Frame = Frame(idx: nat, kids: seq<nat>)

  /** A snapshot of the arena, with its history: the rows closed so far and the roots completed so
      far, each in order. */
  datatype Arena = Arena(
    nodes: seq<Row>, subs: seq<nat>, open: seq<Frame>, lastRoot: Option<nat>,
    closed: seq<nat>, roots: seq<nat>)

  // ---- The forest ----

  function KidBag(open: seq<Frame>): multiset<nat> {
    if open == [] then multiset{} else KidBag(open[..|open| - 1]) + multiset(open[|open| - 1].kids)
  }

  function Range(n: nat): multiset<nat> {
    if n == 0 then multiset{} else Range(n - 1) + multiset{n - 1}
  }

  function OpenRoot(open: seq<Frame>): multiset<nat> {
    if open == [] then multiset{} else multiset{open[0].idx}
  }

  /** Everything placed: children written out, children of open rows, completed roots, the open root. */
  function Bag(a: Arena): multiset<nat> {
    multiset(a.subs) + KidBag(a.open) + multiset(a.roots) + OpenRoot(a.open)
  }

  /** Every row is placed once: as a child in `subs`, as a child of an open row, as a completed
      root, or as the root still open. */
  predicate Placed(a: Arena) {
    Bag(a) == Range(|a.nodes|)
  }

  /** The spans of the closed rows, in closing order, tile `subs[..end]`. */
  predicate Tiled(nodes: seq<Row>, closed: seq<nat>, end: nat) {
    if closed == [] then end == 0 else
      var n := closed[|closed| - 1];
      && n < |nodes| && nodes[n].start + nodes[n].len == end
      && Tiled(nodes, closed[..|closed| - 1], nodes[n].start)
  }

  /** Children come after their parents. */
  predicate ParentsFirst(nodes: seq<Row>, subs: seq<nat>) {
    && (forall n | 0 <= n < |nodes| :: nodes[n].start + nodes[n].len <= |subs|)
    && (forall n, p | 0 <= n < |nodes| && nodes[n].start <= p < nodes[n].start + nodes[n].len :: n < subs[p] < |nodes|)
  }

  predicate LastKid(f: Frame, k: nat) {
    f.kids != [] && f.kids[|f.kids| - 1] == k
  }

  /** The open rows are nested: each is the last child registered under the one outside it. */
  predicate Nested(nodes: seq<Row>, open: seq<Frame>) {
    && (forall i | 0 <= i < |open| :: open[i].idx < |nodes|)
    && (forall i, j | 0 <= i < |open| && 0 <= j < |open[i].kids| :: open[i].idx < open[i].kids[j] < |nodes|)
    && (forall i, j | 0 <= i < j == i + 1 < |open| :: LastKid(open[i], open[j].idx))
  }

  predicate IsOpen(open: seq<Frame>, n: nat) {
    exists i :: 0 <= i < |open| && open[i].idx == n
  }

  predicate ClosedOnce(a: Arena) {
    && (forall i | 0 <= i < |a.closed| :: !IsOpen(a.open, a.closed[i]))
    && (forall i, j | 0 <= i < j < |a.closed| :: a.closed[i] != a.closed[j])
    && (forall n: nat | n < |a.nodes| && n !in a.closed :: a.nodes[n].start == 0 && a.nodes[n].len == 0)
  }

  predicate Valid(a: Arena) {
    && Placed(a)
    && Tiled(a.nodes, a.closed, |a.subs|)
    && ParentsFirst(a.nodes, a.subs)
    && Nested(a.nodes, a.open)
    && ClosedOnce(a)
    && a.lastRoot == if a.open != [] || a.roots == [] then None else Some(a.roots[|a.roots| - 1])
  }

  // ---- Sorting children ----

  type Slots = nat -> Slot

  function SortBySlot(kids: seq<nat>, slot: Slots): seq<nat> {
    if kids == [] then [] else InsertBySlot(kids[0], SortBySlot(kids[1..], slot), slot)
  }

  function InsertBySlot(k: nat, kids: seq<nat>, slot: Slots): seq<nat> {
    if kids == [] || slot(k) <= slot(kids[0]) then [k] + kids else [kids[0]] + InsertBySlot(k, kids[1..], slot)
  }

  function WithSlot(kids: seq<nat>, slot: Slots, s: Slot): seq<nat> {
    if kids == [] then [] else (if slot(kids[0]) == s then [kids[0]] else []) + WithSlot(kids[1..], slot, s)
  }

  predicate InSlotOrder(kids: seq<nat>, slot: Slots) {
    forall i, j | 0 <= i < j < |kids| :: slot(kids[i]) <= slot(kids[j])
  }

  lemma {:induction false} InsertPermutes(k: nat, kids: seq<nat>, slot: Slots)
    ensures multiset(InsertBySlot(k, kids, slot)) == multiset(kids) + multiset{k}
  {
    if kids != [] && slot(k) > slot(kids[0]) {
      InsertPermutes(k, kids[1..], slot);
      assert kids == [kids[0]] + kids[1..];
    }
  }

  lemma WithSlotCons(k: nat, kids: seq<nat>, slot: Slots, s: Slot)
    ensures WithSlot([k] + kids, slot, s) == (if slot(k) == s then [k] else []) + WithSlot(kids, slot, s)
  {
    assert ([k] + kids)[1..] == kids;
  }

  /** A child goes in before those of its own slot, and moves none of the others. */
  lemma {:induction false} InsertIsStable(k: nat, kids: seq<nat>, slot: Slots, s: Slot)
    ensures WithSlot(InsertBySlot(k, kids, slot), slot, s) == (if slot(k) == s then [k] else []) + WithSlot(kids, slot, s)
  {
    hide WithSlot;
    WithSlotCons(k, kids, slot, s);
    if kids != [] && slot(k) > slot(kids[0]) {
      assert kids == [kids[0]] + kids[1..];
      WithSlotCons(kids[0], kids[1..], slot, s);
      InsertIsStable(k, kids[1..], slot, s);
      WithSlotCons(kids[0], InsertBySlot(k, kids[1..], slot), slot, s);
    }
  }

  lemma {:induction false} InsertSorts(k: nat, kids: seq<nat>, slot: Slots)
    requires InSlotOrder(kids, slot)
    ensures InSlotOrder(InsertBySlot(k, kids, slot), slot)
  {
    if kids != [] && slot(k) > slot(kids[0]) {
      InsertSorts(k, kids[1..], slot);
      InsertPermutes(k, kids[1..], slot);
      var rest := InsertBySlot(k, kids[1..], slot);
      hide InsertBySlot;
      forall i | 0 <= i < |rest| ensures slot(kids[0]) <= slot(rest[i]) {
        assert rest[i] in multiset(rest);
      }
    }
  }

  /** Sorting is a stable permutation: in slot order, with every slot's children as they stood. */
  lemma {:induction false} SortIsStable(kids: seq<nat>, slot: Slots, s: Slot)
    ensures InSlotOrder(SortBySlot(kids, slot), slot)
    ensures multiset(SortBySlot(kids, slot)) == multiset(kids)
    ensures WithSlot(SortBySlot(kids, slot), slot, s) == WithSlot(kids, slot, s)
  {
    if kids != [] {
      SortIsStable(kids[1..], slot, s);
      InsertSorts(kids[0], SortBySlot(kids[1..], slot), slot);
      InsertPermutes(kids[0], SortBySlot(kids[1..], slot), slot);
      InsertIsStable(kids[0], SortBySlot(kids[1..], slot), slot, s);
      assert kids == [kids[0]] + kids[1..];
    }
  }

  // ---- The trees the rows stand for ----

  datatype Tree = Tree(shape: Shape, node: nat, ty: nat, kids: seq<Kid>)

  datatype Kid = Kid(slot: Slot, tree: Tree)

  /** The `i`-th child of a row. */
  function Sub(nodes: seq<Row>, subs: seq<nat>, n: nat, i: nat): (k: nat)
    requires ParentsFirst(nodes, subs) && n < |nodes| && i < nodes[n].len
    ensures n < k < |nodes|
  {
    subs[nodes[n].start + i]
  }

  function TreeOf(nodes: seq<Row>, subs: seq<nat>, n: nat): Tree
    requires ParentsFirst(nodes, subs) && n < |nodes|
    decreases |nodes| - n
  {
    var r := nodes[n];
    Tree(r.shape, r.node, r.ty,
         seq(r.len, i requires 0 <= i < r.len =>
           Kid(nodes[Sub(nodes, subs, n, i)].slot, TreeOf(nodes, subs, Sub(nodes, subs, n, i)))))
  }

  predicate Complete(a: Arena, n: nat) {
    n < |a.nodes| && !IsOpen(a.open, n)
  }

  /** From `a` to `b` no complete row changed, except for its own slot, and no recorded child's slot. */
  ghost predicate Grows(a: Arena, b: Arena) {
    && a.subs <= b.subs && |a.nodes| <= |b.nodes|
    && (forall n: nat | Complete(a, n) :: Complete(b, n) && b.nodes[n] == a.nodes[n].(slot := b.nodes[n].slot))
    && (forall p | 0 <= p < |a.subs| && a.subs[p] < |a.nodes| :: b.nodes[a.subs[p]].slot == a.nodes[a.subs[p]].slot)
  }

  lemma {:induction false} RangeCount(n: nat, k: nat)
    ensures Range(n)[k] == if k < n then 1 else 0
  {
    if n > 0 {
      RangeCount(n - 1, k);
    }
  }

  lemma {:induction false} KidBagHas(open: seq<Frame>, i: nat, k: nat)
    requires i < |open| && k in open[i].kids
    ensures KidBag(open)[k] >= 1
  {
    if i < |open| - 1 {
      KidBagHas(open[..|open| - 1], i, k);
    } else {
      assert k in multiset(open[i].kids);
    }
  }

  /** An open row is registered nowhere among the closed ones. */
  lemma OpenIsUnwritten(a: Arena, k: nat)
    requires Placed(a) && Nested(a.nodes, a.open) && k in a.subs
    ensures k < |a.nodes| && !IsOpen(a.open, k)
    ensures KidBag(a.open)[k] == 0
  {
    hide KidBag, Range;
    RangeCount(|a.nodes|, k);
    assert k in multiset(a.subs);
    if IsOpen(a.open, k) {
      var i :| 0 <= i < |a.open| && a.open[i].idx == k;
      if i > 0 {
        KidBagHas(a.open, i - 1, k);
      }
    }
  }

  /** A complete row's tree survives everything that only grows the arena. */
  lemma {:induction false} TreeFrame(a: Arena, b: Arena, n: nat)
    requires Placed(a) && Nested(a.nodes, a.open) && ParentsFirst(a.nodes, a.subs)
    requires ParentsFirst(b.nodes, b.subs) && Grows(a, b) && Complete(a, n)
    ensures TreeOf(b.nodes, b.subs, n) == TreeOf(a.nodes, a.subs, n)
    decreases |a.nodes| - n
  {
    forall i | 0 <= i < a.nodes[n].len
      ensures var k := Sub(a.nodes, a.subs, n, i);
              && k == Sub(b.nodes, b.subs, n, i) && b.nodes[k].slot == a.nodes[k].slot
              && TreeOf(b.nodes, b.subs, k) == TreeOf(a.nodes, a.subs, k)
    {
      var k := Sub(a.nodes, a.subs, n, i);
      OpenIsUnwritten(a, k);
      TreeFrame(a, b, k);
    }
    assert TreeOf(b.nodes, b.subs, n).kids == TreeOf(a.nodes, a.subs, n).kids;
  }

  // ---- What each operation does ----

  datatype Op =
    | Open(node: nat, ty: nat)
    | Close
    | Leaf(node: nat, ty: nat, shape: Shape)
    | SetShape(shape: Shape)
    | SlotLast(slot: Slot)
    | SortChildren

  /** Registers a row under the innermost open one. */
  function Register(open: seq<Frame>, idx: nat): seq<Frame> {
    if open == [] then [] else
      var f := open[|open| - 1];
      open[|open| - 1 := Frame(f.idx, f.kids + [idx])]
  }

  function SlotsOf(nodes: seq<Row>): Slots {
    (k: nat) => if k < |nodes| then nodes[k].slot else NO_PAT_SLOT
  }

  function Top(open: seq<Frame>): Frame
    requires open != []
  {
    open[|open| - 1]
  }

  function Opened(a: Arena, node: nat, ty: nat): Arena {
    var idx := |a.nodes|;
    a.(nodes := a.nodes + [Row(Undecided, node, ty, 0, 0, NO_PAT_SLOT)],
       open := Register(a.open, idx) + [Frame(idx, [])],
       lastRoot := if a.open == [] then None else a.lastRoot)
  }

  function LeafAdded(a: Arena, node: nat, ty: nat, shape: Shape): Arena {
    var idx := |a.nodes|;
    a.(nodes := a.nodes + [Row(shape, node, ty, 0, 0, NO_PAT_SLOT)],
       open := Register(a.open, idx),
       lastRoot := if a.open == [] then Some(idx) else a.lastRoot,
       roots := if a.open == [] then a.roots + [idx] else a.roots)
  }

  function Closed(a: Arena): Arena
    requires Nested(a.nodes, a.open)
  {
    if a.open == [] then a else
      var top, kids := Top(a.open).idx, Top(a.open).kids;
      var out := a.open[..|a.open| - 1];
      a.(nodes := a.nodes[top := a.nodes[top].(start := |a.subs|, len := |kids|)],
         subs := a.subs + kids,
         open := out,
         lastRoot := if out == [] then Some(top) else a.lastRoot,
         closed := a.closed + [top],
         roots := if out == [] then a.roots + [top] else a.roots)
  }

  function Shaped(a: Arena, shape: Shape): Arena
    requires Nested(a.nodes, a.open)
  {
    if a.open == [] then a else
      var top := Top(a.open).idx;
      a.(nodes := a.nodes[top := a.nodes[top].(shape := shape)])
  }

  function LastSlotted(a: Arena, slot: Slot): Arena
    requires Nested(a.nodes, a.open)
  {
    if a.open == [] || Top(a.open).kids == [] then a else
      var k := Top(a.open).kids[|Top(a.open).kids| - 1];
      a.(nodes := a.nodes[k := a.nodes[k].(slot := slot)])
  }

  function ChildrenSorted(a: Arena): Arena {
    if a.open == [] then a else
      var f := Top(a.open);
      a.(open := a.open[|a.open| - 1 := Frame(f.idx, SortBySlot(f.kids, SlotsOf(a.nodes)))])
  }

  function Apply(a: Arena, op: Op): Arena
    requires Nested(a.nodes, a.open)
  {
    match op
    case Open(node, ty) => Opened(a, node, ty)
    case Close => Closed(a)
    case Leaf(node, ty, shape) => LeafAdded(a, node, ty, shape)
    case SetShape(shape) => Shaped(a, shape)
    case SlotLast(slot) => LastSlotted(a, slot)
    case SortChildren => ChildrenSorted(a)
  }

  // ---- Every operation keeps the forest ----

  lemma {:induction false} TiledFrame(nodes: seq<Row>, nodes': seq<Row>, closed: seq<nat>, end: nat)
    requires Tiled(nodes, closed, end) && |nodes| <= |nodes'|
    requires forall n | n in closed && n < |nodes| :: nodes'[n].start == nodes[n].start && nodes'[n].len == nodes[n].len
    ensures Tiled(nodes', closed, end)
  {
    if closed != [] {
      var rest := closed[..|closed| - 1];
      TiledFrame(nodes, nodes', rest, nodes[closed[|closed| - 1]].start);
    }
  }

  lemma EmptyBag()
    ensures KidBag([]) == multiset{}
  {
  }

  lemma RegisterBag(open: seq<Frame>, idx: nat)
    requires open != []
    ensures KidBag(Register(open, idx)) == KidBag(open) + multiset{idx}
    ensures OpenRoot(Register(open, idx)) == OpenRoot(open)
  {
    var r := Register(open, idx);
    assert r[..|r| - 1] == open[..|open| - 1];
  }

  lemma PushBag(open: seq<Frame>, idx: nat)
    ensures KidBag(open + [Frame(idx, [])]) == KidBag(open)
    ensures open != [] ==> OpenRoot(open + [Frame(idx, [])]) == OpenRoot(open)
  {
    var r := open + [Frame(idx, [])];
    assert r[..|r| - 1] == open;
  }

  /** One more row, placed once. */
  lemma PlacedGrows(a: Arena, b: Arena)
    requires Placed(a) && |b.nodes| == |a.nodes| + 1
    requires Bag(b) == Bag(a) + multiset{|a.nodes|}
    ensures Placed(b)
  {
  }

  lemma OpenedIsPlaced(a: Arena, node: nat, ty: nat)
    requires Placed(a)
    ensures Placed(Opened(a, node, ty))
  {
    hide KidBag, Range, Placed;
    var idx, b := |a.nodes|, Opened(a, node, ty);
    PushBag(Register(a.open, idx), idx);
    EmptyBag();
    if a.open != [] {
      RegisterBag(a.open, idx);
    }
    PlacedGrows(a, b);
  }

  lemma LeafIsPlaced(a: Arena, node: nat, ty: nat, shape: Shape)
    requires Placed(a)
    ensures Placed(LeafAdded(a, node, ty, shape))
  {
    hide KidBag, Range, Placed;
    var idx, b := |a.nodes|, LeafAdded(a, node, ty, shape);
    if a.open != [] {
      RegisterBag(a.open, idx);
    }
    PlacedGrows(a, b);
  }

  /** New rows at the end, registered under the innermost open one, and perhaps opened. */
  lemma RegisteredIsNested(nodes: seq<Row>, open: seq<Frame>, row: Row)
    requires Nested(nodes, open)
    ensures var idx := |nodes|; var r := Register(open, idx);
            Nested(nodes + [row], r) && Nested(nodes + [row], r + [Frame(idx, [])])
    ensures forall n: nat | n < |nodes| ::
              var r := Register(open, |nodes|);
              IsOpen(r, n) == IsOpen(open, n) && IsOpen(r + [Frame(|nodes|, [])], n) == IsOpen(open, n)
  {
    var idx := |nodes|;
    var r := Register(open, idx);
    var s := r + [Frame(idx, [])];
    assert |r| == |open| && forall i | 0 <= i < |open| :: r[i].idx == open[i].idx;
    assert forall i | 0 <= i < |open| - 1 :: r[i] == open[i];
    forall n: nat | n < |nodes| ensures IsOpen(r, n) == IsOpen(open, n) && IsOpen(s, n) == IsOpen(open, n) {
      if IsOpen(open, n) {
        var i :| 0 <= i < |open| && open[i].idx == n;
        assert r[i].idx == n && s[i].idx == n;
      }
    }
  }

  lemma {:induction false} TiledRows(nodes: seq<Row>, closed: seq<nat>, end: nat)
    requires Tiled(nodes, closed, end)
    ensures forall n | n in closed :: n < |nodes|
  {
    if closed != [] {
      var last := closed[|closed| - 1];
      TiledRows(nodes, closed[..|closed| - 1], nodes[last].start);
      assert closed == closed[..|closed| - 1] + [last];
    }
  }

  lemma ClosedStays(a: Arena, b: Arena)
    requires ClosedOnce(a) && b.closed == a.closed
    requires forall n | n in a.closed :: n < |a.nodes| && IsOpen(b.open, n) == IsOpen(a.open, n)
    requires forall n: nat | n < |b.nodes| && n !in b.closed ::
               b.nodes[n].start == b.nodes[n].len == 0 || (n < |a.nodes| && b.nodes[n].start == a.nodes[n].start && b.nodes[n].len == a.nodes[n].len)
    ensures ClosedOnce(b)
  {
    hide IsOpen;
    forall i | 0 <= i < |b.closed| ensures !IsOpen(b.open, b.closed[i]) {
      assert a.closed[i] in a.closed;
    }
  }

  lemma OpenKeeps(a: Arena, node: nat, ty: nat)
    requires Valid(a)
    ensures Valid(Opened(a, node, ty)) && Grows(a, Opened(a, node, ty))
  {
    hide Tiled, Nested, IsOpen, Placed;
    var b := Opened(a, node, ty);
    OpenedIsPlaced(a, node, ty);
    RegisteredIsNested(a.nodes, a.open, b.nodes[|a.nodes|]);
    TiledFrame(a.nodes, b.nodes, a.closed, |a.subs|);
    TiledRows(a.nodes, a.closed, |a.subs|);
    ClosedStays(a, b);
  }

  lemma LeafKeeps(a: Arena, node: nat, ty: nat, shape: Shape)
    requires Valid(a)
    ensures Valid(LeafAdded(a, node, ty, shape)) && Grows(a, LeafAdded(a, node, ty, shape))
  {
    hide Tiled, Nested, IsOpen, Placed;
    var b := LeafAdded(a, node, ty, shape);
    LeafIsPlaced(a, node, ty, shape);
    RegisteredIsNested(a.nodes, a.open, b.nodes[|a.nodes|]);
    TiledFrame(a.nodes, b.nodes, a.closed, |a.subs|);
    TiledRows(a.nodes, a.closed, |a.subs|);
    ClosedStays(a, b);
  }

  /** Shapes and slots are free: the forest is in the spans. */
  lemma SpansDecide(a: Arena, b: Arena)
    requires Valid(a) && |b.nodes| == |a.nodes| && b == a.(nodes := b.nodes)
    requires forall n | 0 <= n < |a.nodes| :: b.nodes[n].start == a.nodes[n].start && b.nodes[n].len == a.nodes[n].len
    ensures Valid(b)
  {
    hide Tiled, Range, KidBag, IsOpen;
    TiledFrame(a.nodes, b.nodes, a.closed, |a.subs|);
    TiledRows(a.nodes, a.closed, |a.subs|);
    ClosedStays(a, b);
  }

  lemma SetShapeKeeps(a: Arena, shape: Shape)
    requires Valid(a)
    ensures Valid(Shaped(a, shape)) && Grows(a, Shaped(a, shape))
  {
    hide Tiled, Placed, ParentsFirst, ClosedOnce;
    SpansDecide(a, Shaped(a, shape));
    if a.open != [] {
      assert IsOpen(a.open, Top(a.open).idx);
    }
  }

  lemma SlotLastKeeps(a: Arena, slot: Slot)
    requires Valid(a)
    ensures Valid(LastSlotted(a, slot)) && Grows(a, LastSlotted(a, slot))
  {
    hide Tiled, ClosedOnce, ParentsFirst, IsOpen, KidBag, Placed;
    SpansDecide(a, LastSlotted(a, slot));
    if a.open != [] && Top(a.open).kids != [] {
      var k := Top(a.open).kids[|Top(a.open).kids| - 1];
      KidBagHas(a.open, |a.open| - 1, k);
      forall p | 0 <= p < |a.subs| ensures a.subs[p] != k {
        OpenIsUnwritten(a, a.subs[p]);
      }
    }
  }

  lemma SortedBag(open: seq<Frame>, kids: seq<nat>)
    requires open != [] && multiset(kids) == multiset(Top(open).kids)
    ensures KidBag(open[|open| - 1 := Frame(Top(open).idx, kids)]) == KidBag(open)
  {
    assert open[|open| - 1 := Frame(Top(open).idx, kids)][..|open| - 1] == open[..|open| - 1];
  }

  lemma SortedIsNested(nodes: seq<Row>, open: seq<Frame>, kids: seq<nat>)
    requires Nested(nodes, open) && open != [] && multiset(kids) == multiset(Top(open).kids)
    ensures var r := open[|open| - 1 := Frame(Top(open).idx, kids)];
            Nested(nodes, r) && forall n: nat :: IsOpen(r, n) == IsOpen(open, n)
  {
    var r := open[|open| - 1 := Frame(Top(open).idx, kids)];
    forall j | 0 <= j < |kids| ensures Top(open).idx < kids[j] < |nodes| {
      assert kids[j] in multiset(kids);
    }
    assert forall i | 0 <= i < |open| :: r[i].idx == open[i].idx;
    assert forall i | 0 <= i < |open| - 1 :: r[i] == open[i];
    assert forall n: nat | IsOpen(open, n) :: IsOpen(r, n);
  }

  lemma SortKeeps(a: Arena)
    requires Valid(a)
    ensures Valid(ChildrenSorted(a)) && Grows(a, ChildrenSorted(a))
  {
    hide Tiled, SortBySlot, Range, Nested, IsOpen, KidBag, ParentsFirst, ClosedOnce, InSlotOrder, WithSlot;
    if a.open != [] {
      SortIsStable(Top(a.open).kids, SlotsOf(a.nodes), 0);
      ReorderKeeps(a, SortBySlot(Top(a.open).kids, SlotsOf(a.nodes)));
    }
  }

  /** The children of the innermost row may stand in any order. */
  lemma ReorderKeeps(a: Arena, kids: seq<nat>)
    requires Valid(a) && a.open != [] && multiset(kids) == multiset(Top(a.open).kids)
    ensures var b := a.(open := a.open[|a.open| - 1 := Frame(Top(a.open).idx, kids)]);
            Valid(b) && Grows(a, b)
  {
    hide Tiled, Range, Nested, IsOpen, KidBag, ParentsFirst, ClosedOnce;
    var b := a.(open := a.open[|a.open| - 1 := Frame(Top(a.open).idx, kids)]);
    SortedBag(a.open, kids);
    assert Bag(b) == Bag(a);
    SortedIsNested(a.nodes, a.open, kids);
    SpansStay(a, b);
  }

  lemma SpansStay(a: Arena, b: Arena)
    requires ClosedOnce(a) && b.nodes == a.nodes && b.closed == a.closed
    requires forall n: nat :: IsOpen(b.open, n) == IsOpen(a.open, n)
    ensures ClosedOnce(b)
  {
    hide IsOpen;
  }

  lemma {:induction false} OpenAscends(nodes: seq<Row>, open: seq<Frame>)
    requires Nested(nodes, open)
    ensures forall i, j | 0 <= i < j < |open| :: open[i].idx < open[j].idx
  {
    if |open| > 1 {
      var rest := open[..|open| - 1];
      assert Nested(nodes, rest);
      OpenAscends(nodes, rest);
      assert LastKid(open[|open| - 2], open[|open| - 1].idx);
    }
  }

  lemma CloseIsPlaced(a: Arena)
    requires Placed(a) && Nested(a.nodes, a.open) && a.open != []
    ensures Placed(Closed(a))
  {
    hide Range;
    var b := Closed(a);
    EmptyBag();
    assert Bag(b) == Bag(a);
  }

  /** Closing makes exactly the innermost row complete. */
  lemma CloseIsNested(a: Arena)
    requires Nested(a.nodes, a.open) && a.open != []
    ensures Nested(Closed(a).nodes, Closed(a).open)
    ensures forall n: nat | n < |a.nodes| && n != Top(a.open).idx :: IsOpen(Closed(a).open, n) == IsOpen(a.open, n)
    ensures IsOpen(a.open, Top(a.open).idx) && !IsOpen(Closed(a).open, Top(a.open).idx)
  {
    OpenAscends(a.nodes, a.open);
  }

  lemma CloseIsTiled(a: Arena)
    requires Valid(a) && a.open != []
    ensures Tiled(Closed(a).nodes, Closed(a).closed, |Closed(a).subs|)
  {
    hide Range, KidBag, Placed, ParentsFirst;
    var b := Closed(a);
    CloseIsNested(a);
    TiledFrame(a.nodes, b.nodes, a.closed, |a.subs|);
    assert b.closed[..|b.closed| - 1] == a.closed;
  }

  lemma CloseIsParentsFirst(a: Arena)
    requires ParentsFirst(a.nodes, a.subs) && Nested(a.nodes, a.open) && a.open != []
    ensures ParentsFirst(Closed(a).nodes, Closed(a).subs)
  {
  }

  lemma CloseIsOnce(a: Arena)
    requires Valid(a) && a.open != []
    ensures ClosedOnce(Closed(a))
  {
    hide Range, KidBag, Placed, ParentsFirst, Tiled, IsOpen;
    CloseIsNested(a);
    TiledRows(a.nodes, a.closed, |a.subs|);
    var b := Closed(a);
    forall n: nat | n < |b.nodes| && n !in b.closed ensures b.nodes[n].start == b.nodes[n].len == 0 {
      assert b.closed == a.closed + [Top(a.open).idx];
      assert Top(a.open).idx in b.closed && (n in a.closed ==> n in b.closed);
      assert b.nodes[n] == a.nodes[n];
    }
    forall i | 0 <= i < |b.closed| ensures !IsOpen(b.open, b.closed[i]) {
      if i < |a.closed| {
        assert b.closed[i] in a.closed;
      }
    }
  }

  lemma CloseGrows(a: Arena)
    requires Nested(a.nodes, a.open)
    ensures Grows(a, Closed(a))
  {
    if a.open != [] {
      var top, b := Top(a.open).idx, Closed(a);
      CloseIsNested(a);
      forall n: nat | Complete(a, n) ensures Complete(b, n) && b.nodes[n] == a.nodes[n].(slot := b.nodes[n].slot) {
        assert n != top;
      }
    }
  }

  lemma CloseKeeps(a: Arena)
    requires Valid(a)
    ensures Valid(Closed(a)) && Grows(a, Closed(a))
  {
    hide Tiled, Range, KidBag, Placed, Nested, ClosedOnce, ParentsFirst, IsOpen;
    CloseGrows(a);
    hide Grows;
    if a.open != [] {
      CloseIsPlaced(a);
      CloseIsNested(a);
      CloseIsTiled(a);
      CloseIsParentsFirst(a);
      CloseIsOnce(a);
    }
  }

  lemma ApplyKeeps(a: Arena, op: Op)
    requires Valid(a)
    ensures Valid(Apply(a, op)) && Grows(a, Apply(a, op))
  {
    match op
    case Open(node, ty) => OpenKeeps(a, node, ty);
    case Close => CloseKeeps(a);
    case Leaf(node, ty, shape) => LeafKeeps(a, node, ty, shape);
    case SetShape(shape) => SetShapeKeeps(a, shape);
    case SlotLast(slot) => SlotLastKeeps(a, slot);
    case SortChildren => SortKeeps(a);
  }

  // ---- Whole runs ----

  const EMPTY: Arena := Arena([], [], [], None, [], [])

  lemma EmptyIsValid()
    ensures Valid(EMPTY)
  {
    assert Tiled([], [], 0);
    assert Bag(EMPTY) == Range(0) by {
      EmptyBag();
    }
  }

  /** Any run of operations, closing on an empty stack included. */
  ghost function Run(a: Arena, ops: seq<Op>): (b: Arena)
    requires Valid(a)
    ensures Valid(b)
    decreases ops
  {
    hide Placed, Tiled, ParentsFirst, Nested, ClosedOnce;
    if ops == [] then a else
      ApplyKeeps(a, ops[0]);
      Run(Apply(a, ops[0]), ops[1..])
  }

  /** Whatever is done next, the tree of a complete row stays what it was when it closed. */
  lemma {:induction false} RunKeepsTrees(a: Arena, ops: seq<Op>, n: nat)
    requires Valid(a) && Complete(a, n)
    ensures var b := Run(a, ops);
            Complete(b, n) && TreeOf(b.nodes, b.subs, n) == TreeOf(a.nodes, a.subs, n)
    decreases ops
  {
    hide Placed, Tiled, ParentsFirst, Nested, ClosedOnce, Apply, TreeOf, Complete;
    if ops != [] {
      ApplyKeeps(a, ops[0]);
      OneStepKeeps(a, ops[0], n);
      RunKeepsTrees(Apply(a, ops[0]), ops[1..], n);
    }
  }

  lemma OneStepKeeps(a: Arena, op: Op, n: nat)
    requires Valid(a) && Complete(a, n)
    ensures var b := Apply(a, op);
            && Valid(b) && Complete(b, n) && TreeOf(b.nodes, b.subs, n) == TreeOf(a.nodes, a.subs, n)
  {
    hide Apply;
    ApplyKeeps(a, op);
    TreeFrame(a, Apply(a, op), n);
  }

  /** Registered children stand above their row and are complete. */
  lemma KidsAreComplete(a: Arena)
    requires Nested(a.nodes, a.open) && a.open != []
    ensures forall k | k in Top(a.open).kids :: Top(a.open).idx < k && Complete(a, k)
  {
    OpenAscends(a.nodes, a.open);
  }

  /** Closing writes the innermost row's children out as its span, in the order they stand. */
  lemma CloseWritesSpan(a: Arena)
    requires Nested(a.nodes, a.open) && a.open != []
    ensures var f, b := Top(a.open), Closed(a);
            && f.idx < |a.nodes| == |b.nodes|
            && b.nodes[f.idx] == a.nodes[f.idx].(start := |a.subs|, len := |f.kids|)
            && b.subs[|a.subs|..] == f.kids
  {
  }

  function TreesOf(nodes: seq<Row>, subs: seq<nat>, kids: seq<nat>): seq<Kid>
    requires ParentsFirst(nodes, subs) && forall i | 0 <= i < |kids| :: kids[i] < |nodes|
  {
    seq(|kids|, i requires 0 <= i < |kids| => Kid(nodes[kids[i]].slot, TreeOf(nodes, subs, kids[i])))
  }

  /** The tree a row closes with: its shape over its children's trees, each under its slot. */
  lemma CloseRecords(a: Arena)
    requires Valid(a) && a.open != []
    ensures ParentsFirst(Closed(a).nodes, Closed(a).subs)
    ensures forall i | 0 <= i < |Top(a.open).kids| :: Top(a.open).kids[i] < |a.nodes|
    ensures var f, b := Top(a.open), Closed(a);
            TreeOf(b.nodes, b.subs, f.idx) ==
            Tree(a.nodes[f.idx].shape, a.nodes[f.idx].node, a.nodes[f.idx].ty, TreesOf(a.nodes, a.subs, f.kids))
  {
    hide Tiled, KidBag, Range, ClosedOnce, IsOpen, ParentsFirst;
    var f, b := Top(a.open), Closed(a);
    CloseIsParentsFirst(a);
    KidsAreComplete(a);
    CloseWritesSpan(a);
    hide Closed, Nested;
    forall i | 0 <= i < |f.kids|
      ensures Sub(b.nodes, b.subs, f.idx, i) == f.kids[i]
      ensures b.nodes[f.kids[i]].slot == a.nodes[f.kids[i]].slot
      ensures TreeOf(b.nodes, b.subs, f.kids[i]) == TreeOf(a.nodes, a.subs, f.kids[i])
    {
      assert f.kids[i] in f.kids;
      assert b.subs[|a.subs| + i] == b.subs[|a.subs|..][i];
      KidStays(a, f.kids[i]);
    }
  }

  lemma KidStays(a: Arena, k: nat)
    requires Valid(a) && a.open != [] && Complete(a, k)
    ensures ParentsFirst(Closed(a).nodes, Closed(a).subs) && Closed(a).nodes[k].slot == a.nodes[k].slot
    ensures TreeOf(Closed(a).nodes, Closed(a).subs, k) == TreeOf(a.nodes, a.subs, k)
  {
    hide Tiled, KidBag, Range, ClosedOnce, IsOpen, Grows;
    CloseGrows(a);
    CloseIsParentsFirst(a);
    KidKeepsSlot(a, k);
    TreeFrame(a, Closed(a), k);
  }

  lemma KidKeepsSlot(a: Arena, k: nat)
    requires Nested(a.nodes, a.open) && a.open != [] && k < |a.nodes|
    ensures Closed(a).nodes[k].slot == a.nodes[k].slot
  {
  }

  // ---- A tree recorded is the tree read back ----

  /** The operations that record a tree: its row opened and shaped, each child recorded and given its
      slot, the row closed. */
  function Record(t: Tree): seq<Op>
    decreases t
  {
    [Op.Open(t.node, t.ty), Op.SetShape(t.shape)] + RecordKids(t.kids) + [Op.Close]
  }

  function RecordKids(kids: seq<Kid>): seq<Op>
    decreases kids
  {
    if kids == [] then [] else RecordKid(kids[0]) + RecordKids(kids[1..])
  }

  function RecordKid(k: Kid): seq<Op>
    decreases k
  {
    Record(k.tree) + [Op.SlotLast(k.slot)]
  }

  lemma {:induction false} RunConcat(a: Arena, x: seq<Op>, y: seq<Op>)
    requires Valid(a)
    ensures Run(a, x + y) == Run(Run(a, x), y)
    decreases x
  {
    hide Placed, Tiled, ParentsFirst, Nested, ClosedOnce, Apply;
    if x == [] {
      assert x + y == y;
    } else {
      ApplyKeeps(a, x[0]);
      assert (x + y)[1..] == x[1..] + y;
      RunConcat(Apply(a, x[0]), x[1..], y);
    }
  }

  lemma RunOne(a: Arena, op: Op)
    requires Valid(a)
    ensures Valid(Apply(a, op)) && Run(a, [op]) == Apply(a, op)
  {
    hide Placed, Tiled, ParentsFirst, Nested, ClosedOnce, Apply;
    ApplyKeeps(a, op);
    assert [op][1..] == [];
    assert Run(Apply(a, op), []) == Apply(a, op);
  }

  /** From `a` to `b` one row is registered: the next one, complete, with the tree `t`. */
  ghost predicate Recorded(a: Arena, b: Arena, t: Tree) {
    && a.nodes <= b.nodes && |a.nodes| < |b.nodes| && b.open == Register(a.open, |a.nodes|)
    && Valid(b) && Complete(b, |a.nodes|) && TreeOf(b.nodes, b.subs, |a.nodes|) == t
  }

  /** The children `ks` registered from `a` to `b` have the trees `kids`. */
  ghost predicate KidsRecorded(a: Arena, b: Arena, ks: seq<nat>, kids: seq<Kid>) {
    && a.nodes <= b.nodes && |a.open| == |b.open| > 0
    && b.open == a.open[..|a.open| - 1] + [Frame(Top(a.open).idx, Top(a.open).kids + ks)]
    && Valid(b) && (forall i | 0 <= i < |ks| :: ks[i] < |b.nodes|) && TreesOf(b.nodes, b.subs, ks) == kids
  }

  /** In every state, recording a tree registers one row, changes no other, and the row's tree is the
      one recorded. */
  lemma {:induction false} RecordsTree(a: Arena, t: Tree)
    requires Valid(a)
    ensures Recorded(a, Run(a, Record(t)), t)
    decreases t, 1
  {
    hide Placed, Tiled, ParentsFirst, ClosedOnce, Run, TreeOf, TreesOf, IsOpen, RecordKids;
    var begun := Apply(a, Op.Open(t.node, t.ty));
    ApplyKeeps(a, Op.Open(t.node, t.ty));
    var shaped := Apply(begun, Op.SetShape(t.shape));
    ApplyKeeps(begun, Op.SetShape(t.shape));
    var ks := RecordsKids(shaped, t.kids);
    RunsRecord(a, t);
    ClosedTree(a, shaped, Run(shaped, RecordKids(t.kids)), ks, t);
  }

  lemma RunsRecord(a: Arena, t: Tree)
    requires Valid(a)
    ensures var begun := Apply(a, Op.Open(t.node, t.ty));
            && Valid(begun) && var shaped := Apply(begun, Op.SetShape(t.shape));
            && Valid(shaped) && Run(a, Record(t)) == Apply(Run(shaped, RecordKids(t.kids)), Op.Close)
  {
    hide Placed, Tiled, ParentsFirst, Nested, ClosedOnce, Apply, Run, RecordKids;
    var x, y, z := Op.Open(t.node, t.ty), Op.SetShape(t.shape), RecordKids(t.kids);
    RunOne(a, x);
    var begun := Apply(a, x);
    RunOne(begun, y);
    var shaped := Apply(begun, y);
    RunOne(Run(shaped, z), Op.Close);
    RunConcat(a, [x], [y]);
    RunConcat(a, [x] + [y], z);
    RunConcat(a, [x] + [y] + z, [Op.Close]);
    assert Record(t) == [x] + [y] + z + [Op.Close];
  }

  lemma ClosedTree(a: Arena, shaped: Arena, filled: Arena, ks: seq<nat>, t: Tree)
    requires Valid(a) && shaped.open == Register(a.open, |a.nodes|) + [Frame(|a.nodes|, [])]
    requires shaped.nodes == a.nodes + [Row(t.shape, t.node, t.ty, 0, 0, NO_PAT_SLOT)]
    requires KidsRecorded(shaped, filled, ks, t.kids)
    ensures Recorded(a, Closed(filled), t)
  {
    hide Placed, Tiled, ParentsFirst, ClosedOnce, TreeOf, TreesOf;
    CloseKeeps(filled);
    CloseRecords(filled);
    assert Top(filled.open) == Frame(|a.nodes|, ks);
    assert filled.nodes[|a.nodes|] == shaped.nodes[|a.nodes|];
    assert Closed(filled).open == Register(a.open, |a.nodes|);
    CloseIsNested(filled);
  }

  lemma {:induction false} RecordsKid(a: Arena, k: Kid)
    requires Valid(a) && a.open != []
    ensures var b := Run(a, RecordKid(k));
            && a.nodes <= b.nodes && |a.nodes| < |b.nodes| && b.open == Register(a.open, |a.nodes|)
            && Valid(b) && Complete(b, |a.nodes|) && TreeOf(b.nodes, b.subs, |a.nodes|) == k.tree
            && b.nodes[|a.nodes|].slot == k.slot
    decreases k, 2
  {
    hide Placed, Tiled, ParentsFirst, ClosedOnce, TreeOf, IsOpen;
    RecordsTree(a, k.tree);
    var one := Run(a, Record(k.tree));
    RunOne(one, Op.SlotLast(k.slot));
    OneStepKeeps(one, Op.SlotLast(k.slot), |a.nodes|);
    RunConcat(a, Record(k.tree), [Op.SlotLast(k.slot)]);
  }

  lemma {:induction false} RecordsKids(a: Arena, kids: seq<Kid>) returns (ks: seq<nat>)
    requires Valid(a) && a.open != []
    ensures KidsRecorded(a, Run(a, RecordKids(kids)), ks, kids)
    decreases kids, 0
  {
    ks := [];
    hide Placed, Tiled, ParentsFirst, ClosedOnce, TreeOf, IsOpen;
    if kids != [] {
      var n := |a.nodes|;
      RecordsKid(a, kids[0]);
      var one := Run(a, RecordKid(kids[0]));
      var rest := RecordsKids(one, kids[1..]);
      RunKeepsTrees(one, RecordKids(kids[1..]), n);
      RunConcat(a, RecordKid(kids[0]), RecordKids(kids[1..]));
      ks := [n] + rest;
      KidAdded(a, one, Run(one, RecordKids(kids[1..])), kids[0].slot, kids[0].tree, rest, kids[1..]);
      assert [Kid(kids[0].slot, kids[0].tree)] + kids[1..] == kids;
    } else {
      assert Top(a.open).kids + ks == Top(a.open).kids;
      assert Frame(Top(a.open).idx, Top(a.open).kids) == a.open[|a.open| - 1];
      NoTrees(a.nodes, a.subs);
    }
  }

  lemma NoTrees(nodes: seq<Row>, subs: seq<nat>)
    requires ParentsFirst(nodes, subs)
    ensures TreesOf(nodes, subs, []) == []
  {
  }

  lemma KidAdded(a: Arena, slotted: Arena, b: Arena, slot: Slot, t: Tree, rest: seq<nat>, kids: seq<Kid>)
    requires a.open != [] && a.nodes <= slotted.nodes && slotted.open == Register(a.open, |a.nodes|)
    requires |a.nodes| < |slotted.nodes| && slotted.nodes[|a.nodes|].slot == slot
    requires KidsRecorded(slotted, b, rest, kids)
    requires TreeOf(b.nodes, b.subs, |a.nodes|) == t
    ensures KidsRecorded(a, b, [|a.nodes|] + rest, [Kid(slot, t)] + kids)
  {
    hide Placed, Tiled, ParentsFirst, Nested, ClosedOnce, TreeOf;
    assert Top(a.open).kids + ([|a.nodes|] + rest) == Top(a.open).kids + [|a.nodes|] + rest;
    assert b.nodes[|a.nodes|] == slotted.nodes[|a.nodes|];
    assert TreesOf(b.nodes, b.subs, [|a.nodes|] + rest) == [Kid(slot, t)] + kids;
  }

  // ---- What the forest means ----

  ghost predicate InSpan(nodes: seq<Row>, n: nat, p: nat) {
    n < |nodes| && nodes[n].start <= p < nodes[n].start + nodes[n].len
  }

  /** `k` is registered under `n`, closed or still open. */
  ghost predicate ChildOf(a: Arena, n: nat, k: nat) {
    || (exists p: nat :: p < |a.subs| && InSpan(a.nodes, n, p) && a.subs[p] == k)
    || (exists i: nat :: i < |a.open| && a.open[i].idx == n && k in a.open[i].kids)
  }

  lemma {:induction false} TilesBelow(nodes: seq<Row>, closed: seq<nat>, end: nat, n: nat)
    requires Tiled(nodes, closed, end) && n in closed
    ensures n < |nodes| && nodes[n].start + nodes[n].len <= end
  {
    var last := closed[|closed| - 1];
    if n != last {
      assert closed == closed[..|closed| - 1] + [last];
      TilesBelow(nodes, closed[..|closed| - 1], nodes[last].start, n);
    }
  }

  /** Every index of `subs` lies in the span of exactly one closed row. */
  lemma {:induction false} SpansTile(nodes: seq<Row>, closed: seq<nat>, end: nat, p: nat) returns (n: nat)
    requires Tiled(nodes, closed, end) && p < end
    ensures n in closed && InSpan(nodes, n, p)
    ensures forall m | m in closed && InSpan(nodes, m, p) :: m == n
  {
    var last := closed[|closed| - 1];
    var rest := closed[..|closed| - 1];
    assert closed == rest + [last];
    if p >= nodes[last].start {
      n := last;
      forall m | m in closed && InSpan(nodes, m, p) ensures m == n {
        if m in rest {
          TilesBelow(nodes, rest, nodes[last].start, m);
        }
      }
    } else {
      n := SpansTile(nodes, rest, nodes[last].start, p);
    }
  }

  lemma {:induction false} KidBagFrom(open: seq<Frame>, k: nat) returns (i: nat)
    requires KidBag(open)[k] >= 1
    ensures i < |open| && k in open[i].kids
  {
    if k in multiset(open[|open| - 1].kids) {
      i := |open| - 1;
    } else {
      i := KidBagFrom(open[..|open| - 1], k);
    }
  }

  lemma {:induction false} KidBagTwo(open: seq<Frame>, i: nat, j: nat, k: nat)
    requires i < j < |open| && k in open[i].kids && k in open[j].kids
    ensures KidBag(open)[k] >= 2
  {
    var rest := open[..|open| - 1];
    if j < |rest| {
      KidBagTwo(rest, i, j, k);
    } else {
      KidBagHas(rest, i, k);
      assert k in multiset(open[j].kids);
    }
  }

  lemma CountTwo(s: seq<nat>, p: nat, q: nat)
    requires p < q < |s| && s[p] == s[q]
    ensures multiset(s)[s[p]] >= 2
  {
    assert s == s[..q] + [s[q]] + s[q + 1..];
    assert s[p] in s[..q];
  }

  ghost predicate IsRoot(a: Arena, k: nat) {
    k in a.roots || (a.open != [] && k == a.open[0].idx)
  }

  /** A child comes after its parent, so the arena has no cycles. */
  lemma ParentIsSmaller(a: Arena, n: nat, k: nat)
    requires Valid(a) && ChildOf(a, n, k)
    ensures n < k < |a.nodes|
  {
    hide Placed, Tiled, ClosedOnce, IsOpen;
  }

  /** Where a child is registered, by what is counted in the bag. */
  lemma ChildIsCounted(a: Arena, n: nat, k: nat)
    requires ChildOf(a, n, k)
    ensures multiset(a.subs)[k] + KidBag(a.open)[k] >= 1
  {
    if i: nat :| i < |a.open| && a.open[i].idx == n && k in a.open[i].kids {
      KidBagHas(a.open, i, k);
    }
  }

  /** No row has two parents. */
  lemma OneParent(a: Arena, n: nat, m: nat, k: nat)
    requires Valid(a) && ChildOf(a, n, k) && ChildOf(a, m, k)
    ensures n == m
  {
    hide Tiled, Range, KidBag, ParentsFirst, Nested, ClosedOnce;
    RangeCount(|a.nodes|, k);
    assert Bag(a)[k] <= 1;
    if p: nat :| p < |a.subs| && InSpan(a.nodes, n, p) && a.subs[p] == k {
      assert k in multiset(a.subs);
      if q: nat :| q < |a.subs| && InSpan(a.nodes, m, q) && a.subs[q] == k {
        if p < q {
          CountTwo(a.subs, p, q);
        } else if q < p {
          CountTwo(a.subs, q, p);
        }
        SpanIsUnique(a, n, m, p);
      } else {
        var i: nat :| i < |a.open| && a.open[i].idx == m && k in a.open[i].kids;
        KidBagHas(a.open, i, k);
      }
    } else {
      var i: nat :| i < |a.open| && a.open[i].idx == n && k in a.open[i].kids;
      KidBagHas(a.open, i, k);
      var j: nat :| j < |a.open| && a.open[j].idx == m && k in a.open[j].kids;
      if i < j {
        KidBagTwo(a.open, i, j, k);
      } else if j < i {
        KidBagTwo(a.open, j, i, k);
      }
    }
  }

  lemma SpanIsUnique(a: Arena, n: nat, m: nat, p: nat)
    requires Valid(a) && InSpan(a.nodes, n, p) && InSpan(a.nodes, m, p)
    ensures n == m
  {
    hide Placed, Nested, IsOpen, Tiled;
    var o := SpansTile(a.nodes, a.closed, |a.subs|, p);
    assert n in a.closed && m in a.closed;
  }

  /** Every row is a root or has a parent, and none is both. */
  lemma RootOrChild(a: Arena, k: nat)
    requires Valid(a) && k < |a.nodes|
    ensures IsRoot(a, k) <==> !exists n: nat :: ChildOf(a, n, k)
  {
    hide Tiled, Range, KidBag, ParentsFirst, Nested, ClosedOnce, ChildOf;
    RangeCount(|a.nodes|, k);
    assert Bag(a)[k] == 1;
    assert IsRoot(a, k) <==> multiset(a.roots)[k] + OpenRoot(a.open)[k] >= 1;
    if IsRoot(a, k) {
      forall n: nat ensures !ChildOf(a, n, k) {
        if ChildOf(a, n, k) {
          ChildIsCounted(a, n, k);
        }
      }
    } else if k in multiset(a.subs) {
      var p :| 0 <= p < |a.subs| && a.subs[p] == k;
      var n := SpansTile(a.nodes, a.closed, |a.subs|, p);
      SpanChild(a, n, p);
    } else {
      var i := KidBagFrom(a.open, k);
      FrameChild(a, i, k);
    }
  }

  lemma SpanChild(a: Arena, n: nat, p: nat)
    requires p < |a.subs| && InSpan(a.nodes, n, p)
    ensures ChildOf(a, n, a.subs[p])
  {
  }

  lemma FrameChild(a: Arena, i: nat, k: nat)
    requires i < |a.open| && k in a.open[i].kids
    ensures ChildOf(a, a.open[i].idx, k)
  {
  }

  /** Slot order and stability leave one possible list, whatever sorting method finds it. */
  lemma {:induction false} StableSortIsUnique(xs: seq<nat>, ys: seq<nat>, slot: Slots)
    requires InSlotOrder(xs, slot) && InSlotOrder(ys, slot)
    requires forall s: Slot :: WithSlot(xs, slot, s) == WithSlot(ys, slot, s)
    ensures xs == ys
  {
    if xs != [] {
      FirstOfSlot(xs, ys, slot);
    }
    if ys != [] {
      FirstOfSlot(ys, xs, slot);
    }
    if xs != [] && ys != [] {
      hide WithSlot;
      var x, y := xs[0], ys[0];
      assert xs == [x] + xs[1..] && ys == [y] + ys[1..];
      forall s: Slot ensures WithSlot(xs[1..], slot, s) == WithSlot(ys[1..], slot, s) && (s == slot(x) ==> x == y) {
        WithSlotCons(x, xs[1..], slot, s);
        WithSlotCons(y, ys[1..], slot, s);
        assert WithSlot(xs, slot, s) == WithSlot(ys, slot, s);
        DropHead(if slot(x) == s then [x] else [], WithSlot(xs[1..], slot, s),
                 if slot(y) == s then [y] else [], WithSlot(ys[1..], slot, s));
      }
      StableSortIsUnique(xs[1..], ys[1..], slot);
    }
  }

  lemma DropHead(a: seq<nat>, b: seq<nat>, c: seq<nat>, d: seq<nat>)
    requires a + b == c + d && |a| == |c|
    ensures a == c && b == d
  {
    assert a == (a + b)[..|a|] && c == (c + d)[..|c|];
    assert b == (a + b)[|a|..] && d == (c + d)[|c|..];
  }

  /** The other list has a child of the first one's slot too, so it starts no later. */
  lemma FirstOfSlot(xs: seq<nat>, ys: seq<nat>, slot: Slots)
    requires xs != [] && InSlotOrder(ys, slot)
    requires WithSlot(xs, slot, slot(xs[0])) == WithSlot(ys, slot, slot(xs[0]))
    ensures ys != [] && slot(ys[0]) <= slot(xs[0])
  {
    var k := SlotHolder(ys, slot, slot(xs[0]));
  }

  lemma {:induction false} SlotHolder(ys: seq<nat>, slot: Slots, s: Slot) returns (k: nat)
    requires WithSlot(ys, slot, s) != []
    ensures k < |ys| && slot(ys[k]) == s
  {
    if slot(ys[0]) == s {
      k := 0;
    } else {
      k := SlotHolder(ys[1..], slot, s);
      k := k + 1;
    }
  }

  lemma LeafIsComplete(a: Arena, node: nat, ty: nat, shape: Shape)
    requires Nested(a.nodes, a.open)
    ensures Complete(LeafAdded(a, node, ty, shape), |a.nodes|)
  {
  }

  // ---- The arena itself ----

  class PatternFacts {
    var nodes: seq<Row>
    var subs: seq<nat>
    var open: seq<Frame>
    var lastRoot: Option<nat>
    ghost var closed: seq<nat>
    ghost var roots: seq<nat>

    ghost function Now(): Arena
      reads this
    {
      Arena(nodes, subs, open, lastRoot, closed, roots)
    }

    constructor ()
      ensures Now() == EMPTY && Valid(Now())
    {
      nodes, subs, open, lastRoot, closed, roots := [], [], [], None, [], [];
      new;
      EmptyIsValid();
    }

    /** The children of a row. */
    method SubsOf(node: nat) returns (kids: seq<nat>)
      requires Valid(Now()) && node < |nodes|
      ensures |kids| == nodes[node].len
      ensures forall i | 0 <= i < |kids| :: kids[i] == Sub(nodes, subs, node, i)
      ensures forall k | k in kids :: ChildOf(Now(), node, k) && node < k < |nodes|
      ensures node !in closed ==> kids == []
    {
      hide Placed, Tiled, Nested, IsOpen;
      var row := nodes[node];
      kids := subs[row.start..row.start + row.len];
    }

    method Open(node: nat, ty: nat) returns (idx: nat)
      requires Valid(Now())
      modifies this
      ensures Now() == Apply(old(Now()), Op.Open(node, ty)) && Valid(Now())
      ensures idx == |old(nodes)| && IsOpen(open, idx)
    {
      hide Placed, Tiled, ParentsFirst, ClosedOnce, Nested;
      ApplyKeeps(Now(), Op.Open(node, ty));
      idx := |nodes|;
      nodes := nodes + [Row(Undecided, node, ty, 0, 0, NO_PAT_SLOT)];
      if open != [] {
        var f := open[|open| - 1];
        open := open[|open| - 1 := Frame(f.idx, f.kids + [idx])];
      } else {
        lastRoot := None;
      }
      open := open + [Frame(idx, [])];
      assert open[|open| - 1].idx == idx;
    }

    method Close()
      requires Valid(Now())
      modifies this
      ensures Now() == Apply(old(Now()), Op.Close) && Valid(Now())
    {
      hide Placed, Tiled, ParentsFirst, ClosedOnce, IsOpen;
      ApplyKeeps(Now(), Op.Close);
      if open == [] {
        return;
      }
      var Frame(idx, kids) := open[|open| - 1];
      open := open[..|open| - 1];
      var start := |subs|;
      subs := subs + kids;
      nodes := nodes[idx := nodes[idx].(start := start, len := |kids|)];
      closed := closed + [idx];
      if open == [] {
        lastRoot := Some(idx);
        roots := roots + [idx];
      }
    }

    method Leaf(node: nat, ty: nat, shape: Shape) returns (idx: nat)
      requires Valid(Now())
      modifies this
      ensures Now() == Apply(old(Now()), Op.Leaf(node, ty, shape)) && Valid(Now())
      ensures idx == |old(nodes)| && Complete(Now(), idx)
    {
      hide Placed, Tiled, ParentsFirst, ClosedOnce, Nested, IsOpen;
      LeafIsComplete(Now(), node, ty, shape);
      ApplyKeeps(Now(), Op.Leaf(node, ty, shape));
      idx := |nodes|;
      nodes := nodes + [Row(shape, node, ty, 0, 0, NO_PAT_SLOT)];
      if open != [] {
        var f := open[|open| - 1];
        open := open[|open| - 1 := Frame(f.idx, f.kids + [idx])];
      } else {
        lastRoot := Some(idx);
        roots := roots + [idx];
      }
    }

    method SetShape(shape: Shape)
      requires Valid(Now())
      modifies this
      ensures Now() == Apply(old(Now()), Op.SetShape(shape)) && Valid(Now())
    {
      hide Placed, Tiled, ParentsFirst, ClosedOnce, IsOpen;
      ApplyKeeps(Now(), Op.SetShape(shape));
      if open != [] {
        var idx := open[|open| - 1].idx;
        nodes := nodes[idx := nodes[idx].(shape := shape)];
      }
    }

    method SlotLast(slot: Slot)
      requires Valid(Now())
      modifies this
      ensures Now() == Apply(old(Now()), Op.SlotLast(slot)) && Valid(Now())
    {
      hide Placed, Tiled, ParentsFirst, ClosedOnce, IsOpen;
      ApplyKeeps(Now(), Op.SlotLast(slot));
      if open != [] && open[|open| - 1].kids != [] {
        var kids := open[|open| - 1].kids;
        var k := kids[|kids| - 1];
        nodes := nodes[k := nodes[k].(slot := slot)];
      }
    }

    method SortChildren()
      requires Valid(Now())
      modifies this
      ensures Now() == Apply(old(Now()), Op.SortChildren) && Valid(Now())
    {
      hide Placed, Tiled, ParentsFirst, ClosedOnce, IsOpen;
      ApplyKeeps(Now(), Op.SortChildren);
      if open == [] {
        return;
      }
      var Frame(idx, kids) := open[|open| - 1];
      kids := SortBySlot(kids, SlotsOf(nodes));
      open := open[|open| - 1 := Frame(idx, kids)];
    }
  }
}
