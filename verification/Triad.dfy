/** The start barrier and the block-partitioned triad of the bandwidth kernel
    (bench/calibrate/bandwidth.c, bench/calibrate/common.h), as interleaved steps. */
module Triad {
  import opened Quotients

  /** Array length, repetitions and thread count, as `main` leaves them: all positive, and no more
      threads than elements. */
  datatype Config = Config(n: nat, reps: nat, threads: nat)

  predicate Sane(cfg: Config) {
    0 < cfg.threads <= cfg.n && 0 < cfg.reps
  }

  /** The arguments after the clamp. */
  function Clamped(n: nat, reps: nat, threads: nat): (cfg: Config)
    requires n > 0 && reps > 0 && threads > 0
    ensures Sane(cfg)
  {
    Config(n, reps, if threads > n then n else threads)
  }

  // ---- Blocks ----

  /** Where the block of thread `t` begins; it ends where the next begins. */
  function Start(cfg: Config, t: nat): (s: nat)
    requires Sane(cfg)
  {
    AtLeast(t * cfg.n, cfg.threads, 0);
    t * cfg.n / cfg.threads
  }

  predicate InBlock(cfg: Config, t: nat, i: nat)
    requires Sane(cfg)
  {
    Start(cfg, t) <= i < Start(cfg, t + 1)
  }

  /** Blocks start at 0, end at `n`, and none is empty. */
  lemma BlocksGrow(cfg: Config, t: nat)
    requires Sane(cfg)
    ensures Start(cfg, 0) == 0 && Start(cfg, cfg.threads) == cfg.n
    ensures Start(cfg, t) < Start(cfg, t + 1)
  {
    var k, n, s := cfg.threads, cfg.n, Start(cfg, t);
    AtLeast(t * n, k, s);
    assert (t + 1) * n == t * n + n && (s + 1) * k == s * k + k;
    AtLeast((t + 1) * n, k, s + 1);
    assert (n + 1) * k == k * n + k;
    AtLeast(k * n, k, n);
    AtLeast(k * n, k, n + 1);
  }

  lemma {:induction false} StartsAscend(cfg: Config, t: nat, u: nat)
    requires Sane(cfg) && t <= u
    ensures Start(cfg, t) <= Start(cfg, u)
    decreases u
  {
    hide Start;
    if t < u {
      StartsAscend(cfg, t, u - 1);
      BlocksGrow(cfg, u - 1);
    }
  }

  lemma BlockInArray(cfg: Config, t: nat)
    requires Sane(cfg) && t < cfg.threads
    ensures Start(cfg, t) < Start(cfg, t + 1) <= cfg.n
  {
    hide Start;
    BlocksGrow(cfg, t);
    StartsAscend(cfg, t + 1, cfg.threads);
  }

  /** No element belongs to two threads. */
  lemma BlocksDisjoint(cfg: Config, t: nat, u: nat, i: nat)
    requires Sane(cfg) && InBlock(cfg, t, i) && InBlock(cfg, u, i)
    ensures t == u
  {
    hide Start;
    if t < u {
      StartsAscend(cfg, t + 1, u);
    } else if u < t {
      StartsAscend(cfg, u + 1, t);
    }
  }

  /** Every element belongs to some thread. */
  lemma {:induction false} BlocksCover(cfg: Config, upTo: nat, i: nat) returns (t: nat)
    requires Sane(cfg) && upTo <= cfg.threads && i < Start(cfg, upTo)
    ensures t < upTo && InBlock(cfg, t, i)
  {
    hide Start;
    BlocksGrow(cfg, 0);
    if Start(cfg, upTo - 1) <= i {
      t := upTo - 1;
    } else {
      t := BlocksCover(cfg, upTo - 1, i);
    }
  }

  /** The blocks share the array evenly: each has the length divided by the number of threads, or one
      element more. */
  lemma BlocksEven(cfg: Config, t: nat)
    requires Sane(cfg)
    ensures cfg.n / cfg.threads <= Start(cfg, t + 1) - Start(cfg, t) <= cfg.n / cfg.threads + 1
  {
    assert (t + 1) * cfg.n == t * cfg.n + cfg.n;
    Shares(t * cfg.n, cfg.n, cfg.threads);
  }

  lemma Quotient(a: nat, k: nat)
    requires k > 0
    ensures (a / k) * k <= a < (a / k) * k + k
  {
    AtLeast(a, k, a / k);
    AtLeast(a, k, a / k + 1);
    assert (a / k + 1) * k == (a / k) * k + k;
  }

  lemma Shares(a: nat, n: nat, k: nat)
    requires k > 0
    ensures n / k <= (a + n) / k - a / k <= n / k + 1
  {
    Quotient(a, k);
    Quotient(n, k);
    SharesOf(a, n, k, a / k, n / k);
  }

  lemma SharesOf(a: nat, n: nat, k: nat, x: nat, y: nat)
    requires k > 0 && x * k <= a < x * k + k && y * k <= n < y * k + k
    ensures x + y <= (a + n) / k < x + y + 2
  {
    assert (x + y) * k == x * k + y * k;
    assert (x + y + 2) * k == (x + y) * k + 2 * k;
    AtLeast(a + n, k, x + y);
    AtLeast(a + n, k, x + y + 2);
  }

  predicate Owns(block: (nat, nat), i: nat) {
    block.0 <= i < block.1
  }

  predicate Covered(blocks: seq<(nat, nat)>, i: nat) {
    exists t :: 0 <= t < |blocks| && Owns(blocks[t], i)
  }

  /** The blocks `main` hands out: for every length and thread count they partition the array. */
  method SplitBlocks(cfg: Config) returns (blocks: seq<(nat, nat)>)
    requires Sane(cfg)
    ensures |blocks| == cfg.threads
    ensures forall t | 0 <= t < |blocks| :: blocks[t] == (Start(cfg, t), Start(cfg, t + 1)) && blocks[t].0 < blocks[t].1
    ensures forall i: nat | i < cfg.n :: Covered(blocks, i)
    ensures forall t, u, i: nat | 0 <= t < |blocks| && 0 <= u < |blocks| && Owns(blocks[t], i) && Owns(blocks[u], i) :: t == u
  {
    hide Start;
    blocks := [];
    for t := 0 to cfg.threads
      invariant |blocks| == t
      invariant forall u | 0 <= u < t :: blocks[u] == (Start(cfg, u), Start(cfg, u + 1)) && blocks[u].0 < blocks[u].1
    {
      BlockInArray(cfg, t);
      blocks := blocks + [(Start(cfg, t), Start(cfg, t + 1))];
    }
    forall i: nat | i < cfg.n ensures Covered(blocks, i) {
      BlocksGrow(cfg, 0);
      var t := BlocksCover(cfg, cfg.threads, i);
      assert Owns(blocks[t], i);
    }
    forall t, u, i: nat | 0 <= t < |blocks| && 0 <= u < |blocks| && Owns(blocks[t], i) && Owns(blocks[u], i)
      ensures t == u
    {
      assert blocks[t] == (Start(cfg, t), Start(cfg, t + 1)) && blocks[u] == (Start(cfg, u), Start(cfg, u + 1));
      BlocksDisjoint(cfg, t, u, i);
    }
  }

  // ---- The threads ----

  /** Where a worker stands. Initialising element `i` takes three writes. */
  datatype Pc =
    | Init(i: nat, part: nat)
    | Arriving
    | Waiting
    | Running(r: nat, i: nat)
    | Finished

  datatype State = State(a: seq<int>, b: seq<int>, c: seq<int>, arrived: nat, pcs: seq<Pc>)

  function B(i: nat): int { i % 7 + 1 }

  function C(i: nat): int { i % 5 + 1 }

  function TriadAt(i: nat): int { B(i) + 3 * C(i) }

  predicate Shaped(cfg: Config, s: State) {
    |s.a| == |s.b| == |s.c| == cfg.n && |s.pcs| == cfg.threads
  }

  /** All threads created, nothing written: memory holds whatever it held. */
  predicate Initial(cfg: Config, s: State)
    requires Sane(cfg)
  {
    Shaped(cfg, s) && s.arrived == 0 && forall t | 0 <= t < cfg.threads :: s.pcs[t] == Init(Start(cfg, t), 0)
  }

  function Goto(s: State, t: nat, pc: Pc): State
    requires t < |s.pcs|
  {
    s.(pcs := s.pcs[t := pc])
  }

  /** One step of thread `t`. */
  function Step(cfg: Config, s: State, t: nat): State
    requires Sane(cfg) && Shaped(cfg, s) && t < cfg.threads
  {
    match s.pcs[t]
    case Init(i, part) =>
      if i >= Start(cfg, t + 1) || i >= cfg.n then Goto(s, t, Arriving)
      else if part == 0 then Goto(s.(b := s.b[i := B(i)]), t, Init(i, 1))
      else if part == 1 then Goto(s.(c := s.c[i := C(i)]), t, Init(i, 2))
      else Goto(s.(a := s.a[i := 0]), t, Init(i + 1, 0))
    case Arriving => Goto(s.(arrived := s.arrived + 1), t, Waiting)
    case Waiting => if s.arrived < cfg.threads then s else Goto(s, t, Running(0, Start(cfg, t)))
    case Running(r, i) =>
      if r >= cfg.reps then Goto(s, t, Finished)
      else if i >= Start(cfg, t + 1) || i >= cfg.n then Goto(s, t, Running(r + 1, Start(cfg, t)))
      else Goto(s.(a := s.a[i := s.b[i] + 3 * s.c[i]]), t, Running(r, i + 1))
    case Finished => s
  }

  // ---- The invariant ----

  predicate HasArrived(pc: Pc) {
    !pc.Init? && !pc.Arriving?
  }

  predicate PastBarrier(pc: Pc) {
    pc.Running? || pc.Finished?
  }

  function Arrivals(pcs: seq<Pc>): nat {
    if pcs == [] then 0 else Arrivals(pcs[..|pcs| - 1]) + if HasArrived(pcs[|pcs| - 1]) then 1 else 0
  }

  /** `b` and `c` hold their values on `[lo, hi)`. */
  predicate Ready(s: State, lo: nat, hi: nat)
    requires hi <= |s.b| && hi <= |s.c|
  {
    forall i | lo <= i < hi :: s.b[i] == B(i) && s.c[i] == C(i)
  }

  predicate Computed(s: State, lo: nat, hi: nat)
    requires hi <= |s.a|
  {
    forall i | lo <= i < hi :: s.a[i] == TriadAt(i)
  }

  /** What thread `t` has done of its block, `[lo, hi)`. */
  predicate BlockOk(s: State, pc: Pc, lo: nat, hi: nat, reps: nat)
    requires lo <= hi <= |s.a| == |s.b| == |s.c|
  {
    match pc
    case Init(i, part) =>
      && lo <= i <= hi && Ready(s, lo, i)
      && part <= 2 && (part > 0 ==> i < hi && s.b[i] == B(i)) && (part > 1 ==> s.c[i] == C(i))
    case Arriving => Ready(s, lo, hi)
    case Waiting => Ready(s, lo, hi)
    case Running(r, i) =>
      && Ready(s, lo, hi) && lo <= i <= hi && r <= reps && (r == reps ==> i == lo)
      && Computed(s, lo, if r > 0 then hi else i)
    case Finished => Ready(s, lo, hi) && Computed(s, lo, hi)
  }

  predicate ThreadOk(cfg: Config, s: State, t: nat)
    requires Sane(cfg) && Shaped(cfg, s) && t < cfg.threads
  {
    BlockInArray(cfg, t);
    BlockOk(s, s.pcs[t], Start(cfg, t), Start(cfg, t + 1), cfg.reps)
  }

  predicate Inv(cfg: Config, s: State)
    requires Sane(cfg)
  {
    && Shaped(cfg, s)
    && s.arrived == Arrivals(s.pcs)
    && (forall t | 0 <= t < cfg.threads && PastBarrier(s.pcs[t]) :: s.arrived == cfg.threads)
    && (forall t | 0 <= t < cfg.threads :: ThreadOk(cfg, s, t))
  }

  // ---- Every step of every thread keeps it ----

  lemma {:induction false} ArrivalsOf(pcs: seq<Pc>)
    ensures Arrivals(pcs) <= |pcs|
    ensures Arrivals(pcs) == |pcs| <==> forall t | 0 <= t < |pcs| :: HasArrived(pcs[t])
  {
    if pcs != [] {
      ArrivalsOf(pcs[..|pcs| - 1]);
    }
  }

  lemma {:induction false} ArrivalsAfter(pcs: seq<Pc>, t: nat, pc: Pc)
    requires t < |pcs|
    ensures Arrivals(pcs[t := pc]) ==
            Arrivals(pcs) + (if HasArrived(pc) then 1 else 0) - (if HasArrived(pcs[t]) then 1 else 0)
  {
    var rest := pcs[..|pcs| - 1];
    if t == |pcs| - 1 {
      assert pcs[t := pc][..|pcs| - 1] == rest;
    } else {
      assert pcs[t := pc][..|pcs| - 1] == rest[t := pc];
      ArrivalsAfter(rest, t, pc);
    }
  }

  /** A thread writes its own block alone. */
  lemma StepWritesOwnBlock(cfg: Config, s: State, t: nat)
    requires Sane(cfg) && Inv(cfg, s) && t < cfg.threads
    ensures Shaped(cfg, Step(cfg, s, t))
    ensures var s' := Step(cfg, s, t);
            && (forall u | 0 <= u < cfg.threads && u != t :: s'.pcs[u] == s.pcs[u])
            && (forall i: nat | i < cfg.n && !InBlock(cfg, t, i) :: s'.a[i] == s.a[i] && s'.b[i] == s.b[i] && s'.c[i] == s.c[i])
  {
    assert ThreadOk(cfg, s, t);
    BlockInArray(cfg, t);
    hide Start;
  }

  /** A thread keeps what it has done of its own block. */
  lemma OwnBlockOk(cfg: Config, s: State, t: nat)
    requires Sane(cfg) && Inv(cfg, s) && t < cfg.threads
    ensures Shaped(cfg, Step(cfg, s, t)) && ThreadOk(cfg, Step(cfg, s, t), t)
  {
    assert ThreadOk(cfg, s, t);
    BlockInArray(cfg, t);
    hide Start;
  }

  /** Another thread's step leaves this thread's block alone. */
  lemma OtherBlockOk(cfg: Config, s: State, t: nat, u: nat)
    requires Sane(cfg) && Inv(cfg, s) && t < cfg.threads && u < cfg.threads && u != t
    ensures Shaped(cfg, Step(cfg, s, t)) && ThreadOk(cfg, Step(cfg, s, t), u)
  {
    assert ThreadOk(cfg, s, u);
    StepWritesOwnBlock(cfg, s, t);
    BlockInArray(cfg, u);
    hide Start, Step;
    forall i: nat | InBlock(cfg, u, i) ensures !InBlock(cfg, t, i) {
      if InBlock(cfg, t, i) {
        BlocksDisjoint(cfg, t, u, i);
      }
    }
    SameBlock(s, Step(cfg, s, t), s.pcs[u], Start(cfg, u), Start(cfg, u + 1), cfg.reps);
  }

  lemma SameBlock(s: State, s': State, pc: Pc, lo: nat, hi: nat, reps: nat)
    requires lo <= hi <= |s.a| == |s.b| == |s.c| == |s'.a| == |s'.b| == |s'.c|
    requires forall i | lo <= i < hi :: s'.a[i] == s.a[i] && s'.b[i] == s.b[i] && s'.c[i] == s.c[i]
    requires BlockOk(s, pc, lo, hi, reps)
    ensures BlockOk(s', pc, lo, hi, reps)
  {
  }

  lemma BarrierCounts(cfg: Config, s: State, t: nat)
    requires Sane(cfg) && Inv(cfg, s) && t < cfg.threads
    ensures var s' := Step(cfg, s, t);
            && Shaped(cfg, s') && s'.arrived == Arrivals(s'.pcs)
            && (forall u | 0 <= u < cfg.threads && PastBarrier(s'.pcs[u]) :: s'.arrived == cfg.threads)
  {
    assert ThreadOk(cfg, s, t);
    BlockInArray(cfg, t);
    hide Start, BlockOk;
    var s' := Step(cfg, s, t);
    ArrivalsAfter(s.pcs, t, s'.pcs[t]);
    assert s'.pcs == s.pcs[t := s'.pcs[t]];
    ArrivalsOf(s.pcs);
    ArrivalsOf(s'.pcs);
  }

  lemma StepKeeps(cfg: Config, s: State, t: nat)
    requires Sane(cfg) && Inv(cfg, s) && t < cfg.threads
    ensures Inv(cfg, Step(cfg, s, t))
  {
    hide Step, ThreadOk, Arrivals;
    BarrierCounts(cfg, s, t);
    forall u | 0 <= u < cfg.threads ensures ThreadOk(cfg, Step(cfg, s, t), u) {
      if u == t {
        OwnBlockOk(cfg, s, t);
      } else {
        OtherBlockOk(cfg, s, t, u);
      }
    }
  }

  lemma InitialInv(cfg: Config, s: State)
    requires Sane(cfg) && Initial(cfg, s)
    ensures Inv(cfg, s)
  {
    hide Start;
    NoneArrived(s.pcs);
    forall t | 0 <= t < cfg.threads ensures ThreadOk(cfg, s, t) {
      BlockInArray(cfg, t);
    }
  }

  lemma {:induction false} NoneArrived(pcs: seq<Pc>)
    requires forall t | 0 <= t < |pcs| :: pcs[t].Init?
    ensures Arrivals(pcs) == 0
  {
    if pcs != [] {
      NoneArrived(pcs[..|pcs| - 1]);
    }
  }

  // ---- Whole runs: any schedule of the threads ----

  predicate Schedule(cfg: Config, sched: seq<nat>) {
    forall k | 0 <= k < |sched| :: sched[k] < cfg.threads
  }

  ghost function Run(cfg: Config, s: State, sched: seq<nat>): (s': State)
    requires Sane(cfg) && Inv(cfg, s) && Schedule(cfg, sched)
    ensures Inv(cfg, s')
    decreases |sched|
  {
    hide Step, ThreadOk;
    if sched == [] then s else
      StepKeeps(cfg, s, sched[0]);
      Run(cfg, Step(cfg, s, sched[0]), sched[1..])
  }

  /** However the threads interleave, once one has passed the barrier all have arrived at it and
      every element is initialised. */
  lemma BarrierHolds(cfg: Config, s0: State, sched: seq<nat>, t: nat)
    requires Sane(cfg) && Initial(cfg, s0) && Schedule(cfg, sched) && t < cfg.threads
    ensures Inv(cfg, s0)
    ensures var s := Run(cfg, s0, sched);
            PastBarrier(s.pcs[t]) ==> (forall u | 0 <= u < cfg.threads :: HasArrived(s.pcs[u])) && Ready(s, 0, cfg.n)
  {
    hide Start;
    InitialInv(cfg, s0);
    var s := Run(cfg, s0, sched);
    if PastBarrier(s.pcs[t]) {
      ArrivalsOf(s.pcs);
      forall i: nat | i < cfg.n ensures s.b[i] == B(i) && s.c[i] == C(i) {
        BlocksGrow(cfg, 0);
        var u := BlocksCover(cfg, cfg.threads, i);
        assert ThreadOk(cfg, s, u);
      }
    }
  }

  predicate Done(s: State) {
    forall t | 0 <= t < |s.pcs| :: s.pcs[t].Finished?
  }

  /** The array a single thread would leave. */
  function Sequential(n: nat): seq<int> {
    seq(n, i requires 0 <= i < n => TriadAt(i))
  }

  /** Every completed run leaves the sequential array, whatever the schedule, the thread count, the
      repetitions and the memory it started from. */
  lemma CompletedIsSequential(cfg: Config, s0: State, sched: seq<nat>)
    requires Sane(cfg) && Initial(cfg, s0) && Schedule(cfg, sched)
    ensures Inv(cfg, s0)
    ensures var s := Run(cfg, s0, sched); Done(s) ==> s.a == Sequential(cfg.n)
  {
    hide Start;
    InitialInv(cfg, s0);
    var s := Run(cfg, s0, sched);
    if Done(s) {
      forall i: nat | i < cfg.n ensures s.a[i] == TriadAt(i) {
        BlocksGrow(cfg, 0);
        var t := BlocksCover(cfg, cfg.threads, i);
        assert ThreadOk(cfg, s, t);
      }
    }
  }

  function Sum(xs: seq<int>): int {
    if xs == [] then 0 else Sum(xs[..|xs| - 1]) + xs[|xs| - 1]
  }

  /** The serial sum `main` prints. */
  method Checksum(a: array<int>) returns (checksum: int)
    ensures checksum == Sum(a[..])
  {
    checksum := 0;
    for i := 0 to a.Length
      invariant checksum == Sum(a[..i])
    {
      assert a[..i + 1][..i] == a[..i];
      checksum := checksum + a[i];
    }
    assert a[..] == a[..a.Length];
  }

  /** The checksum of the first `r` elements of a period. */
  function PeriodSum(r: nat): nat {
    if r == 0 then 0 else PeriodSum(r - 1) + (r - 1) % 7 + 1 + 3 * ((r - 1) % 5 + 1)
  }

  lemma WholePeriod()
    ensures PeriodSum(35) == 455
  {
    assert PeriodSum(7) == 7 * 4 + 3 * 18;
    assert PeriodSum(14) == PeriodSum(7) + 7 * 4 + 3 * 22;
    assert PeriodSum(21) == PeriodSum(14) + 7 * 4 + 3 * 21;
    assert PeriodSum(28) == PeriodSum(21) + 7 * 4 + 3 * 20;
  }

  lemma Periodic(q: nat, r: nat)
    ensures TriadAt(35 * q + r) == r % 7 + 1 + 3 * (r % 5 + 1)
  {
    ModUnique(35 * q + r, 7, 5 * q + r / 7, r % 7);
    ModUnique(35 * q + r, 5, 7 * q + r / 5, r % 5);
  }

  lemma SumGrows(n: nat)
    ensures Sum(Sequential(0)) == 0
    ensures Sum(Sequential(n + 1)) == Sum(Sequential(n)) + TriadAt(n)
  {
    hide TriadAt;
    assert Sequential(n + 1)[..n] == Sequential(n);
  }

  lemma PeriodGrows(r: nat)
    ensures PeriodSum(0) == 0
    ensures PeriodSum(r + 1) == PeriodSum(r) + r % 7 + 1 + 3 * (r % 5 + 1)
  {
  }

  /** The sequential array repeats after 35 elements, whose sum is 455. */
  lemma {:induction false} ChecksumIs(q: nat, r: nat)
    requires r <= 35
    ensures Sum(Sequential(35 * q + r)) == 455 * q + PeriodSum(r)
    decreases q, r
  {
    hide *;
    if r > 0 {
      ChecksumIs(q, r - 1);
      Periodic(q, r - 1);
      SumGrows(35 * q + r - 1);
      PeriodGrows(r - 1);
    } else if q > 0 {
      ChecksumIs(q - 1, 35);
      WholePeriod();
      PeriodGrows(0);
      assert 35 * (q - 1) + 35 == 35 * q;
    } else {
      SumGrows(0);
      PeriodGrows(0);
    }
  }

  /** Runs over arrays of one length print one checksum. */
  lemma ChecksumIsStable(cfg: Config, s0: State, sched: seq<nat>, cfg': Config, s0': State, sched': seq<nat>)
    requires Sane(cfg) && Initial(cfg, s0) && Schedule(cfg, sched)
    requires Sane(cfg') && Initial(cfg', s0') && Schedule(cfg', sched')
    requires cfg.n == cfg'.n
    ensures Inv(cfg, s0) && Inv(cfg', s0')
    ensures var s, s' := Run(cfg, s0, sched), Run(cfg', s0', sched');
            Done(s) && Done(s') ==> s.a == s'.a && Sum(s.a) == Sum(s'.a)
  {
    hide Run, Inv, Initial, Done;
    CompletedIsSequential(cfg, s0, sched);
    CompletedIsSequential(cfg', s0', sched');
  }

  // ---- Progress ----

  /** Steps a thread has still to take, the spinning left out. */
  function WorkOf(pc: Pc, lo: nat, hi: nat, reps: nat): int {
    var rep := hi - lo + 1;
    match pc
    case Init(i, part) => 3 * (hi - i) - part + reps * rep + rep + 2
    case Arriving => reps * rep + rep + 1
    case Waiting => reps * rep + rep
    case Running(r, i) => (reps - r) * rep + (hi - i)
    case Finished => 0
  }

  function ThreadWork(cfg: Config, s: State, t: nat): int
    requires Sane(cfg) && Shaped(cfg, s) && t < cfg.threads
  {
    WorkOf(s.pcs[t], Start(cfg, t), Start(cfg, t + 1), cfg.reps)
  }

  function Work(cfg: Config, s: State, upTo: nat): int
    requires Sane(cfg) && Shaped(cfg, s) && upTo <= cfg.threads
  {
    if upTo == 0 then 0 else Work(cfg, s, upTo - 1) + ThreadWork(cfg, s, upTo - 1)
  }

  lemma NextRepetition(left: int, rep: int)
    ensures (left - 1) * rep == left * rep - rep
  {
  }

  lemma NoNegativeProduct(x: int, y: int)
    requires x >= 0 && y >= 0
    ensures x * y >= 0
  {
  }

  lemma ThreadWorks(cfg: Config, s: State, t: nat)
    requires Sane(cfg) && Inv(cfg, s) && t < cfg.threads
    ensures ThreadWork(cfg, s, t) >= 0
    ensures Shaped(cfg, Step(cfg, s, t))
    ensures Step(cfg, s, t) == s || ThreadWork(cfg, Step(cfg, s, t), t) < ThreadWork(cfg, s, t)
  {
    assert ThreadOk(cfg, s, t);
    BlockInArray(cfg, t);
    hide Start;
    var rep := Start(cfg, t + 1) - Start(cfg, t) + 1;
    NoNegativeProduct(cfg.reps, rep);
    if s.pcs[t].Running? {
      NoNegativeProduct(cfg.reps - s.pcs[t].r, rep);
      NextRepetition(cfg.reps - s.pcs[t].r, rep);
      assert s.pcs[t].r == cfg.reps ==> (cfg.reps - s.pcs[t].r) * rep == 0;
    }
  }

  lemma {:induction false} OthersUnchanged(cfg: Config, s: State, t: nat, upTo: nat)
    requires Sane(cfg) && Inv(cfg, s) && t < cfg.threads && upTo <= cfg.threads
    ensures Shaped(cfg, Step(cfg, s, t))
    ensures Work(cfg, Step(cfg, s, t), upTo) ==
            Work(cfg, s, upTo) + if t < upTo then ThreadWork(cfg, Step(cfg, s, t), t) - ThreadWork(cfg, s, t) else 0
  {
    hide Step, Start, ThreadOk;
    StepWritesOwnBlock(cfg, s, t);
    if upTo > 0 {
      OthersUnchanged(cfg, s, t, upTo - 1);
    }
  }

  /** A step that changes anything leaves less to do: no run takes more than `Work` such steps. */
  lemma StepWorks(cfg: Config, s: State, t: nat)
    requires Sane(cfg) && Inv(cfg, s) && t < cfg.threads
    ensures Inv(cfg, Step(cfg, s, t))
    ensures Step(cfg, s, t) == s || Work(cfg, Step(cfg, s, t), cfg.threads) < Work(cfg, s, cfg.threads)
  {
    hide Step, Work, ThreadWork;
    StepKeeps(cfg, s, t);
    ThreadWorks(cfg, s, t);
    OthersUnchanged(cfg, s, t, cfg.threads);
  }

  lemma {:induction false} WorkIsNatural(cfg: Config, s: State, upTo: nat)
    requires Sane(cfg) && Inv(cfg, s) && upTo <= cfg.threads
    ensures Work(cfg, s, upTo) >= 0
  {
    hide ThreadWork, ThreadOk;
    if upTo > 0 {
      WorkIsNatural(cfg, s, upTo - 1);
      ThreadWorks(cfg, s, upTo - 1);
    }
  }

  /** Nobody is stuck: until all have finished, some thread can step. */
  lemma NoDeadlock(cfg: Config, s: State) returns (t: nat)
    requires Sane(cfg) && Inv(cfg, s) && !Done(s)
    ensures t < cfg.threads && Step(cfg, s, t) != s
  {
    hide Start, ThreadOk;
    t :| 0 <= t < cfg.threads && !s.pcs[t].Finished?;
    if s.pcs[t].Waiting? && s.arrived < cfg.threads {
      ArrivalsOf(s.pcs);
      t :| 0 <= t < cfg.threads && !HasArrived(s.pcs[t]);
    }
    MovesOn(cfg, s, t);
  }

  lemma MovesOn(cfg: Config, s: State, t: nat)
    requires Sane(cfg) && Inv(cfg, s) && t < cfg.threads && !s.pcs[t].Finished?
    requires s.pcs[t].Waiting? ==> s.arrived >= cfg.threads
    ensures Step(cfg, s, t) != s
  {
    hide Start, ThreadOk;
    assert Step(cfg, s, t).pcs[t] != s.pcs[t];
  }

  /** Every run can be completed, from wherever it stands. */
  lemma {:induction false} CanComplete(cfg: Config, s: State) returns (sched: seq<nat>)
    requires Sane(cfg) && Inv(cfg, s)
    ensures Schedule(cfg, sched) && Done(Run(cfg, s, sched))
    decreases Work(cfg, s, cfg.threads)
  {
    hide Work, Step, ThreadOk, Done;
    sched := [];
    if !Done(s) {
      var t := NoDeadlock(cfg, s);
      StepWorks(cfg, s, t);
      WorkIsNatural(cfg, Step(cfg, s, t), cfg.threads);
      WorkIsNatural(cfg, s, cfg.threads);
      var rest := CanComplete(cfg, Step(cfg, s, t));
      sched := [t] + rest;
      assert sched[1..] == rest;
    }
  }

  // ---- Fair schedules ----

  /** An endless schedule in which every thread has its turn again and again. */
  ghost predicate Fair(cfg: Config, f: nat -> nat) {
    && (forall k: nat :: f(k) < cfg.threads)
    && forall from: nat, t: nat | t < cfg.threads :: HasTurn(f, from, t)
  }

  ghost predicate HasTurn(f: nat -> nat, from: nat, t: nat) {
    exists m: nat :: m >= from && f(m) == t
  }

  function Stretch(f: nat -> nat, from: nat, n: nat): (sched: seq<nat>)
    ensures |sched| == n && forall k | 0 <= k < n :: sched[k] == f(from + k)
  {
    seq(n, k requires 0 <= k < n => f(from + k))
  }

  /** Under every fair schedule all threads finish. */
  lemma {:induction false} FairCompletes(cfg: Config, s: State, f: nat -> nat, from: nat) returns (n: nat)
    requires Sane(cfg) && Inv(cfg, s) && Fair(cfg, f)
    ensures Schedule(cfg, Stretch(f, from, n)) && Done(Run(cfg, s, Stretch(f, from, n)))
    decreases Work(cfg, s, cfg.threads), 1, 0
  {
    hide Work, Step, ThreadOk, Done;
    n := 0;
    if !Done(s) {
      var t := NoDeadlock(cfg, s);
      assert HasTurn(f, from, t);
      var m: nat :| m >= from && f(m) == t;
      n := UntilTurn(cfg, s, f, from, t, m);
    }
  }

  /** The same, with thread `t` able to move and to have its turn at `m`. */
  lemma {:induction false} UntilTurn(cfg: Config, s: State, f: nat -> nat, from: nat, t: nat, m: nat) returns (n: nat)
    requires Sane(cfg) && Inv(cfg, s) && Fair(cfg, f) && t < cfg.threads && Step(cfg, s, t) != s
    requires from <= m && f(m) == t
    ensures Schedule(cfg, Stretch(f, from, n)) && Done(Run(cfg, s, Stretch(f, from, n)))
    decreases Work(cfg, s, cfg.threads), 0, m - from
  {
    hide Work, Step, ThreadOk, Done;
    var u := f(from);
    var next := Step(cfg, s, u);
    StepWorks(cfg, s, u);
    WorkIsNatural(cfg, s, cfg.threads);
    WorkIsNatural(cfg, next, cfg.threads);
    if next == s {
      n := UntilTurn(cfg, s, f, from + 1, t, m);
    } else {
      n := FairCompletes(cfg, next, f, from + 1);
    }
    n := n + 1;
    assert Stretch(f, from, n)[1..] == Stretch(f, from + 1, n - 1);
  }

  /** A completed run is over: no step changes anything any more. */
  lemma DoneIsStable(cfg: Config, s: State, t: nat)
    requires Sane(cfg) && Inv(cfg, s) && Done(s) && t < cfg.threads
    ensures Step(cfg, s, t) == s
  {
    assert s.pcs[t].Finished?;
  }
}
