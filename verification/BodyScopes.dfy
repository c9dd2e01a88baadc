/** Where control may leave a body (crates/fors-check/src/body.rs): the loop counter, the defer
    frames and the closure swaps of the checker, against the chain of enclosing scopes. */
module BodyScopes {

  import opened Wrappers

  type Ty = nat

  const NO_TY: Ty := 0xFFFF_FFFF

  /** A body, down to what scoping depends on. `Other` is any other statement or expression; its
      parts are visited in order. A loop's header (a condition, an iterable) lies outside the loop;
      `ParallelFor` is the loop that may also carry a `grain` expression. */
  datatype Node =
    | Exit(id: nat, isBreak: bool)
    | Return(id: nat, operand: Option<Node>)
    | Raise(id: nat, kids: Nodes)
    | Loop(header: Nodes, body: Nodes)
    | ParallelFor(header: Nodes, grain: Nodes, body: Nodes)
    | Defer(errdefer: bool, kids: Nodes)
    | Closure(synth: bool, result: Ty, raises: Ty, kids: Nodes)
    | Other(kids: Nodes)

  datatype Nodes = Done | More(head: Node, tail: Nodes)

  datatype Rule = ExitsDefer | OutsideLoop | SynthClosure | NotRaising

  datatype Refusal = Refusal(id: nat, rule: Rule)

  // ---- The specification: one chain of scopes, innermost first ----

  datatype Scope = InLoop | InDefer(errdefer: bool) | InClosure(synth: bool, result: Ty, raises: Ty)

  /** The chain of a whole declaration ends in its own result and `raises` types. */
  datatype Chain = Root(result: Ty, raises: Ty) | In(scope: Scope, out: Chain)

  /** A deferred body encloses this point inside the innermost closure. */
  predicate Deferred(c: Chain) {
    c.In? && !c.scope.InClosure? && (c.scope.InDefer? || Deferred(c.out))
  }

  /** The innermost loop of the same closure exists and no deferred body lies between. */
  predicate LoopIsNearest(c: Chain) {
    c.In? && c.scope.InLoop?
  }

  function NearestClosure(c: Chain): (r: Option<Scope>)
    ensures r.Some? ==> r.value.InClosure?
  {
    match c
    case Root(_, _) => None
    case In(s, out) => if s.InClosure? then Some(s) else NearestClosure(out)
  }

  function InSynth(c: Chain): bool {
    NearestClosure(c).Some? && NearestClosure(c).value.synth
  }

  function ResultOf(c: Chain): Ty {
    match c
    case Root(r, _) => r
    case In(s, out) => if s.InClosure? then s.result else ResultOf(out)
  }

  function RaisesOf(c: Chain): Ty {
    match c
    case Root(_, e) => e
    case In(s, out) => if s.InClosure? then s.raises else RaisesOf(out)
  }

  function RaiseVerdict(id: nat, c: Chain): seq<Refusal> {
    if RaisesOf(c) == NO_TY && ResultOf(c) != NO_TY then
      [Refusal(id, if InSynth(c) then SynthClosure else NotRaising)]
    else []
  }

  /** Every refusal in the node, in visiting order. A refused `return` or `raise` in a deferred
      body is not looked into. With `inside` a `grain` expression is taken to lie inside its loop,
      as the checker does; without, outside it, where it is evaluated. */
  function Judge(n: Node, c: Chain, inside: bool): seq<Refusal>
    decreases n
  {
    match n
    case Exit(id, _) =>
      if LoopIsNearest(c) then []
      else [Refusal(id, if Deferred(c) then ExitsDefer else OutsideLoop)]
    case Return(id, operand) =>
      if Deferred(c) then [Refusal(id, ExitsDefer)]
      else (if InSynth(c) then [Refusal(id, SynthClosure)] else [])
           + (if operand.Some? then Judge(operand.value, c, inside) else [])
    case Raise(id, kids) =>
      if Deferred(c) then [Refusal(id, ExitsDefer)]
      else RaiseVerdict(id, c) + JudgeAll(kids, c, inside)
    case Loop(header, body) =>
      JudgeAll(header, c, inside) + JudgeAll(body, In(InLoop, c), inside)
    case ParallelFor(header, grain, body) =>
      JudgeAll(header, c, inside)
      + (JudgeAll(grain, if inside then In(InLoop, c) else c, inside) + JudgeAll(body, In(InLoop, c), inside))
    case Defer(errdefer, kids) => JudgeAll(kids, In(InDefer(errdefer), c), inside)
    case Closure(synth, result, raises, kids) => JudgeAll(kids, In(InClosure(synth, result, raises), c), inside)
    case Other(kids) => JudgeAll(kids, c, inside)
  }

  function JudgeAll(ns: Nodes, c: Chain, inside: bool): seq<Refusal>
    decreases ns
  {
    match ns
    case Done => []
    case More(n, rest) => Judge(n, c, inside) + JudgeAll(rest, c, inside)
  }

  // ---- The checker's state, and the state that stands for a chain ----

  datatype DeferFrame = DeferFrame(errdefer: bool, loopsOutside: nat)

  datatype Saved = Saved(loopDepth: nat, defers: seq<DeferFrame>, result: Ty, raises: Ty)

  datatype State = State(loopDepth: nat, defers: seq<DeferFrame>, result: Ty, raises: Ty, closures: nat, synth: seq<bool>)

  function LoopsOf(c: Chain): nat {
    if c.Root? || c.scope.InClosure? then 0
    else LoopsOf(c.out) + if c.scope.InLoop? then 1 else 0
  }

  function DefersOf(c: Chain): seq<DeferFrame> {
    if c.Root? || c.scope.InClosure? then []
    else DefersOf(c.out) + if c.scope.InDefer? then [DeferFrame(c.scope.errdefer, LoopsOf(c.out))] else []
  }

  function SynthsOf(c: Chain): seq<bool> {
    if c.Root? then []
    else SynthsOf(c.out) + if c.scope.InClosure? then [c.scope.synth] else []
  }

  function StateOf(c: Chain): State {
    State(LoopsOf(c), DefersOf(c), ResultOf(c), RaisesOf(c), |SynthsOf(c)|, SynthsOf(c))
  }

  lemma {:induction false} DefersAreDeferred(c: Chain)
    ensures DefersOf(c) != [] <==> Deferred(c)
    ensures DefersOf(c) != [] ==> DefersOf(c)[|DefersOf(c)| - 1].loopsOutside <= LoopsOf(c)
  {
    if c.In? && !c.scope.InClosure? {
      DefersAreDeferred(c.out);
    }
  }

  /** The two counters decide exactly what the chain says. */
  lemma CountersDecide(c: Chain)
    ensures var ds := DefersOf(c);
            LoopIsNearest(c) <==> LoopsOf(c) > 0 && (ds != [] ==> LoopsOf(c) > ds[|ds| - 1].loopsOutside)
  {
    DefersAreDeferred(c);
    if c.In? && !c.scope.InClosure? {
      DefersAreDeferred(c.out);
      if c.scope.InLoop? {
        assert DefersOf(c) == DefersOf(c.out);
      }
    }
  }

  lemma {:induction false} SynthIsLast(c: Chain)
    ensures InSynth(c) <==> SynthsOf(c) != [] && SynthsOf(c)[|SynthsOf(c)| - 1]
    ensures NearestClosure(c).Some? <==> SynthsOf(c) != []
  {
    if c.In? && !c.scope.InClosure? {
      SynthIsLast(c.out);
    }
  }

  class BodyCx {
    var loopDepth: nat
    var defers: seq<DeferFrame>
    var result: Ty
    var raises: Ty
    var closures: nat
    var closureSynth: seq<bool>
    var refusals: seq<Refusal>

    constructor (result: Ty, raises: Ty)
      ensures Now() == StateOf(Root(result, raises)) && refusals == []
    {
      this.result, this.raises := result, raises;
      loopDepth, defers, closures, closureSynth, refusals := 0, [], 0, [], [];
    }

    function Now(): State
      reads this
    {
      State(loopDepth, defers, result, raises, closures, closureSynth)
    }

    method Refuse(id: nat, rule: Rule)
      modifies this`refusals
      ensures refusals == old(refusals) + [Refusal(id, rule)]
    {
      refusals := refusals + [Refusal(id, rule)];
    }

    /** A closure body starts with no loop, no deferred body and its own types. */
    method EnterClosure(synth: bool, result: Ty, raises: Ty) returns (saved: Saved)
      modifies this`loopDepth, this`defers, this`result, this`raises, this`closures, this`closureSynth
      ensures saved == Saved(old(loopDepth), old(defers), old(this.result), old(this.raises))
      ensures Now() == State(0, [], result, raises, old(closures) + 1, old(closureSynth) + [synth])
    {
      saved := Saved(loopDepth, defers, this.result, this.raises);
      defers, loopDepth := [], 0;
      this.result, this.raises := result, raises;
      closures := closures + 1;
      closureSynth := closureSynth + [synth];
    }

    method LeaveClosure(saved: Saved)
      requires closures > 0 && closureSynth != []
      modifies this`loopDepth, this`defers, this`result, this`raises, this`closures, this`closureSynth
      ensures Now() == State(saved.loopDepth, saved.defers, saved.result, saved.raises,
                             old(closures) - 1, old(closureSynth)[..|old(closureSynth)| - 1])
    {
      loopDepth, defers, result, raises := saved.loopDepth, saved.defers, saved.result, saved.raises;
      closures := closures - 1;
      closureSynth := closureSynth[..|closureSynth| - 1];
    }

    predicate InSynthClosure()
      reads this
    {
      closureSynth != [] && closureSynth[|closureSynth| - 1]
    }

    method LoopExit(id: nat, ghost c: Chain)
      requires Now() == StateOf(c)
      modifies this`refusals
      ensures refusals == old(refusals) + if LoopIsNearest(c) then [] else
                            [Refusal(id, if Deferred(c) then ExitsDefer else OutsideLoop)]
    {
      CountersDecide(c);
      DefersAreDeferred(c);
      if defers != [] && loopDepth <= defers[|defers| - 1].loopsOutside {
        Refuse(id, ExitsDefer);
        return;
      }
      if loopDepth == 0 {
        Refuse(id, OutsideLoop);
      }
    }

    method InDefer(id: nat, ghost c: Chain) returns (b: bool)
      requires Now() == StateOf(c)
      modifies this`refusals
      ensures b <==> Deferred(c)
      ensures refusals == old(refusals) + if b then [Refusal(id, ExitsDefer)] else []
    {
      DefersAreDeferred(c);
      b := defers != [];
      if b {
        Refuse(id, ExitsDefer);
      }
    }

    /** Visiting a node adds exactly its refusals and puts every counter and frame back. */
    method Visit(n: Node, ghost c: Chain)
      requires Now() == StateOf(c)
      modifies this
      ensures Now() == old(Now())
      ensures refusals == old(refusals) + Judge(n, c, true)
      decreases n, 1
    {
      match n {
        case Exit(id, _) =>
          LoopExit(id, c);
        case Return(id, operand) =>
          ReturnStmt(n, c);
        case Raise(id, kids) =>
          RaiseStmt(n, c);
        case Loop(header, body) =>
          LoopStmt(n, c);
        case ParallelFor(header, grain, body) =>
          ParallelForStmt(n, c);
        case Defer(errdefer, kids) =>
          DeferStmt(n, c);
        case Closure(synth, result, raises, kids) =>
          ClosureExpr(n, c);
        case Other(kids) =>
          VisitAll(kids, c);
      }
    }

    method LoopStmt(n: Node, ghost c: Chain)
      requires Now() == StateOf(c) && n.Loop?
      modifies this
      ensures Now() == old(Now())
      ensures refusals == old(refusals) + Judge(n, c, true)
      decreases n, 0
    {
      VisitAll(n.header, c);
      loopDepth := loopDepth + 1;
      VisitAll(n.body, In(InLoop, c));
      loopDepth := loopDepth - 1;
    }

    method ParallelForStmt(n: Node, ghost c: Chain)
      requires Now() == StateOf(c) && n.ParallelFor?
      modifies this
      ensures Now() == old(Now())
      ensures refusals == old(refusals) + Judge(n, c, true)
      decreases n, 0
    {
      hide JudgeAll;
      ghost var was := refusals;
      VisitAll(n.header, c);
      ghost var header := refusals;
      loopDepth := loopDepth + 1;
      VisitAll(n.grain, In(InLoop, c));
      VisitAll(n.body, In(InLoop, c));
      loopDepth := loopDepth - 1;
      assert refusals == was + Judge(n, c, true) by {
        assert header == was + JudgeAll(n.header, c, true);
      }
    }

    method DeferStmt(n: Node, ghost c: Chain)
      requires Now() == StateOf(c) && n.Defer?
      modifies this
      ensures Now() == old(Now())
      ensures refusals == old(refusals) + Judge(n, c, true)
      decreases n, 0
    {
      defers := defers + [DeferFrame(n.errdefer, loopDepth)];
      VisitAll(n.kids, In(Scope.InDefer(n.errdefer), c));
      defers := defers[..|defers| - 1];
    }

    method ClosureExpr(n: Node, ghost c: Chain)
      requires Now() == StateOf(c) && n.Closure?
      modifies this
      ensures Now() == old(Now())
      ensures refusals == old(refusals) + Judge(n, c, true)
      decreases n, 0
    {
      var saved := EnterClosure(n.synth, n.result, n.raises);
      VisitAll(n.kids, In(InClosure(n.synth, n.result, n.raises), c));
      LeaveClosure(saved);
    }

    method ReturnStmt(n: Node, ghost c: Chain)
      requires Now() == StateOf(c) && n.Return?
      modifies this
      ensures Now() == old(Now())
      ensures refusals == old(refusals) + Judge(n, c, true)
      decreases n, 0
    {
      var Return(id, operand) := n;
      var deferred := InDefer(id, c);
      if deferred {
        return;
      }
      SynthIsLast(c);
      if closures > 0 && InSynthClosure() {
        Refuse(id, SynthClosure);
      }
      if operand.Some? {
        Visit(operand.value, c);
      }
    }

    method RaiseStmt(n: Node, ghost c: Chain)
      requires Now() == StateOf(c) && n.Raise?
      modifies this
      ensures Now() == old(Now())
      ensures refusals == old(refusals) + Judge(n, c, true)
      decreases n, 0
    {
      var Raise(id, kids) := n;
      var deferred := InDefer(id, c);
      if deferred {
        return;
      }
      SynthIsLast(c);
      if raises == NO_TY && result != NO_TY {
        if closures > 0 && InSynthClosure() {
          Refuse(id, SynthClosure);
        } else {
          Refuse(id, NotRaising);
        }
      }
      VisitAll(kids, c);
    }

    method VisitAll(ns: Nodes, ghost c: Chain)
      requires Now() == StateOf(c)
      modifies this
      ensures Now() == old(Now())
      ensures refusals == old(refusals) + JudgeAll(ns, c, true)
      decreases ns, 2
    {
      match ns {
        case Done =>
        case More(n, rest) =>
          Visit(n, c);
          VisitAll(rest, c);
      }
    }
  }

  // ---- Verdicts by the scopes on the way ----

  /** The scopes of `path`, outermost first, entered from `c`. */
  function Enclosed(path: seq<Scope>, c: Chain): Chain {
    if path == [] then c else Enclosed(path[1..], In(path[0], c))
  }

  lemma {:induction false} EnclosedLast(path: seq<Scope>, c: Chain)
    requires path != []
    ensures Enclosed(path, c) == In(path[|path| - 1], Enclosed(path[..|path| - 1], c))
  {
    if |path| > 1 {
      EnclosedLast(path[1..], In(path[0], c));
      assert path[1..][..|path| - 2] == path[..|path| - 1][1..];
    }
  }

  /** The scopes from the `k`th on are those of the innermost closure of the path, or, with no closure
      in it, of the declaration. */
  predicate OwnFrom(path: seq<Scope>, k: nat) {
    && k <= |path| && (k > 0 ==> path[k - 1].InClosure?)
    && forall j | k <= j < |path| :: !path[j].InClosure?
  }

  predicate DeferredBetween(path: seq<Scope>, k: nat) {
    exists j | k <= j < |path| :: path[j].InDefer?
  }

  /** A loop with no deferred body inside it. */
  predicate LoopWithin(path: seq<Scope>, k: nat) {
    exists j | k <= j < |path| :: path[j].InLoop? && forall l | j < l < |path| :: !path[l].InDefer?
  }

  lemma {:induction false} PathMeans(path: seq<Scope>, k: nat, result: Ty, raises: Ty)
    requires OwnFrom(path, k)
    ensures var c := Enclosed(path, Root(result, raises));
            && (Deferred(c) <==> DeferredBetween(path, k))
            && (LoopIsNearest(c) <==> LoopWithin(path, k))
            && (InSynth(c) <==> k > 0 && path[k - 1].synth)
            && ResultOf(c) == (if k > 0 then path[k - 1].result else result)
            && RaisesOf(c) == if k > 0 then path[k - 1].raises else raises
    decreases |path|
  {
    if path != [] {
      var last := |path| - 1;
      EnclosedLast(path, Root(result, raises));
      if k <= last {
        PathMeans(path[..last], k, result, raises);
        assert DeferredBetween(path, k) <==> path[last].InDefer? || DeferredBetween(path[..last], k);
      }
    }
  }

  /** The verdicts on a jump by the scopes from the declaration to it. A `break` needs a loop of its
      own closure with no deferred body inside; a `return` no deferred body and a closure whose
      result is known; a `raise` no deferred body, and `raises` unless there is no result either. */
  lemma JumpVerdicts(path: seq<Scope>, k: nat, result: Ty, raises: Ty, id: nat, isBreak: bool)
    requires OwnFrom(path, k)
    ensures var c := Enclosed(path, Root(result, raises));
            var synth := k > 0 && path[k - 1].synth;
            var r := if k > 0 then path[k - 1].result else result;
            var e := if k > 0 then path[k - 1].raises else raises;
            && Judge(Exit(id, isBreak), c, true)
               == (if LoopWithin(path, k) then []
                   else [Refusal(id, if DeferredBetween(path, k) then ExitsDefer else OutsideLoop)])
            && Judge(Return(id, None), c, true)
               == (if DeferredBetween(path, k) then [Refusal(id, ExitsDefer)]
                   else if synth then [Refusal(id, SynthClosure)] else [])
            && Judge(Raise(id, Done), c, true)
               == (if DeferredBetween(path, k) then [Refusal(id, ExitsDefer)]
                   else if e != NO_TY || r == NO_TY then []
                   else [Refusal(id, if synth then SynthClosure else NotRaising)])
  {
    PathMeans(path, k, result, raises);
  }

  /** The node `m` stands in `n`, under the scopes of `path`. */
  predicate Stands(n: Node, m: Node, path: seq<Scope>)
    decreases n
  {
    || (n == m && path == [])
    || match n
       case Exit(_, _) => false
       case Return(_, operand) => operand.Some? && Stands(operand.value, m, path)
       case Raise(_, kids) => AnyStands(kids, m, path)
       case Loop(header, body) =>
         AnyStands(header, m, path) || (path != [] && path[0] == InLoop && AnyStands(body, m, path[1..]))
       case ParallelFor(header, grain, body) =>
         || AnyStands(header, m, path)
         || (path != [] && path[0] == InLoop && (AnyStands(grain, m, path[1..]) || AnyStands(body, m, path[1..])))
       case Defer(errdefer, kids) => path != [] && path[0] == InDefer(errdefer) && AnyStands(kids, m, path[1..])
       case Closure(synth, result, raises, kids) =>
         path != [] && path[0] == InClosure(synth, result, raises) && AnyStands(kids, m, path[1..])
       case Other(kids) => AnyStands(kids, m, path)
  }

  predicate AnyStands(ns: Nodes, m: Node, path: seq<Scope>)
    decreases ns
  {
    match ns
    case Done => false
    case More(n, rest) => Stands(n, m, path) || AnyStands(rest, m, path)
  }

  /** The node without its parts. */
  function Bare(m: Node): Node {
    match m
    case Exit(_, _) => m
    case Return(id, _) => Return(id, None)
    case Raise(id, _) => Raise(id, Done)
    case _ => Other(Done)
  }

  lemma {:induction false} AcceptedWithin(n: Node, c: Chain, m: Node, path: seq<Scope>)
    requires Judge(n, c, true) == [] && Stands(n, m, path)
    ensures Judge(Bare(m), Enclosed(path, c), true) == []
    decreases n
  {
    if !(n == m && path == []) {
      match n {
        case Return(_, operand) => AcceptedWithin(operand.value, c, m, path);
        case Raise(_, kids) => AllAcceptedWithin(kids, c, m, path);
        case Loop(header, body) =>
          if AnyStands(header, m, path) {
            AllAcceptedWithin(header, c, m, path);
          } else {
            AllAcceptedWithin(body, In(InLoop, c), m, path[1..]);
          }
        case ParallelFor(header, grain, body) =>
          if AnyStands(header, m, path) {
            AllAcceptedWithin(header, c, m, path);
          } else if AnyStands(grain, m, path[1..]) {
            AllAcceptedWithin(grain, In(InLoop, c), m, path[1..]);
          } else {
            AllAcceptedWithin(body, In(InLoop, c), m, path[1..]);
          }
        case Defer(errdefer, kids) => AllAcceptedWithin(kids, In(InDefer(errdefer), c), m, path[1..]);
        case Closure(synth, result, raises, kids) =>
          AllAcceptedWithin(kids, In(InClosure(synth, result, raises), c), m, path[1..]);
        case Other(kids) => AllAcceptedWithin(kids, c, m, path);
      }
    }
  }

  lemma {:induction false} AllAcceptedWithin(ns: Nodes, c: Chain, m: Node, path: seq<Scope>)
    requires JudgeAll(ns, c, true) == [] && AnyStands(ns, m, path)
    ensures Judge(Bare(m), Enclosed(path, c), true) == []
    decreases ns
  {
    if Stands(ns.head, m, path) {
      AcceptedWithin(ns.head, c, m, path);
    } else {
      AllAcceptedWithin(ns.tail, c, m, path);
    }
  }

  lemma {:induction false} RefusedWithin(n: Node, c: Chain) returns (m: Node, path: seq<Scope>)
    requires Judge(n, c, true) != []
    ensures Stands(n, m, path) && Judge(Bare(m), Enclosed(path, c), true) != []
    decreases n
  {
    m, path := n, [];
    match n {
      case Exit(_, _) =>
      case Return(_, operand) =>
        if Judge(Bare(n), c, true) == [] {
          m, path := RefusedWithin(operand.value, c);
        }
      case Raise(_, kids) =>
        if Judge(Bare(n), c, true) == [] {
          m, path := SomeRefusedWithin(kids, c);
        }
      case Loop(header, body) =>
        if JudgeAll(header, c, true) != [] {
          m, path := SomeRefusedWithin(header, c);
        } else {
          m, path := SomeRefusedUnder(body, InLoop, c);
        }
      case ParallelFor(header, grain, body) =>
        if JudgeAll(header, c, true) != [] {
          m, path := SomeRefusedWithin(header, c);
        } else if JudgeAll(grain, In(InLoop, c), true) != [] {
          m, path := SomeRefusedUnder(grain, InLoop, c);
        } else {
          m, path := SomeRefusedUnder(body, InLoop, c);
        }
      case Defer(errdefer, kids) => m, path := SomeRefusedUnder(kids, InDefer(errdefer), c);
      case Closure(synth, result, raises, kids) =>
        m, path := SomeRefusedUnder(kids, InClosure(synth, result, raises), c);
      case Other(kids) => m, path := SomeRefusedWithin(kids, c);
    }
  }

  lemma {:induction false} SomeRefusedWithin(ns: Nodes, c: Chain) returns (m: Node, path: seq<Scope>)
    requires JudgeAll(ns, c, true) != []
    ensures AnyStands(ns, m, path) && Judge(Bare(m), Enclosed(path, c), true) != []
    decreases ns, 0
  {
    if Judge(ns.head, c, true) != [] {
      m, path := RefusedWithin(ns.head, c);
    } else {
      m, path := SomeRefusedWithin(ns.tail, c);
    }
  }

  lemma {:induction false} SomeRefusedUnder(ns: Nodes, s: Scope, c: Chain) returns (m: Node, path: seq<Scope>)
    requires JudgeAll(ns, In(s, c), true) != []
    ensures path != [] && path[0] == s && AnyStands(ns, m, path[1..])
    ensures Judge(Bare(m), Enclosed(path, c), true) != []
    decreases ns, 1
  {
    var rest: seq<Scope>;
    m, rest := SomeRefusedWithin(ns, In(s, c));
    path := [s] + rest;
    assert path[1..] == rest;
  }

  /** A node is accepted if and only if every jump in it is, by the scopes it stands under. */
  lemma AcceptedIff(n: Node, c: Chain)
    ensures Judge(n, c, true) == [] <==>
            forall m, path | Stands(n, m, path) :: Judge(Bare(m), Enclosed(path, c), true) == []
  {
    hide Judge, Stands, Bare, Enclosed;
    if Judge(n, c, true) == [] {
      forall m, path | Stands(n, m, path) ensures Judge(Bare(m), Enclosed(path, c), true) == [] {
        AcceptedWithin(n, c, m, path);
      }
    } else {
      var m, path := RefusedWithin(n, c);
    }
  }

  // ---- What acceptance means for a run ----

  datatype Way = ByBreak | ByContinue | ByReturn | ByRaise

  /** A run of the node may end by leaving it this way. A closure runs only when called, and then
      its `return` and `raise` leave the closure; a deferred body runs on the way out. */
  predicate MayLeave(n: Node, w: Way)
    decreases n
  {
    match n
    case Exit(_, isBreak) => w == if isBreak then ByBreak else ByContinue
    case Return(_, operand) => w == ByReturn || (operand.Some? && MayLeave(operand.value, w))
    case Raise(_, kids) => w == ByRaise || AnyLeaves(kids, w)
    case Loop(header, body) => AnyLeaves(header, w) || (AnyLeaves(body, w) && (w == ByReturn || w == ByRaise))
    case ParallelFor(header, grain, body) =>
      AnyLeaves(header, w) || AnyLeaves(grain, w) || (AnyLeaves(body, w) && (w == ByReturn || w == ByRaise))
    case Defer(_, kids) => AnyLeaves(kids, w)
    case Closure(_, _, _, _) => false
    case Other(kids) => AnyLeaves(kids, w)
  }

  predicate AnyLeaves(ns: Nodes, w: Way)
    decreases ns
  {
    match ns
    case Done => false
    case More(n, rest) => MayLeave(n, w) || AnyLeaves(rest, w)
  }

  ghost predicate Allowed(c: Chain, w: Way) {
    match w
    case ByBreak => LoopIsNearest(c)
    case ByContinue => LoopIsNearest(c)
    case ByReturn => !Deferred(c) && !InSynth(c)
    case ByRaise => !Deferred(c) && (RaisesOf(c) != NO_TY || ResultOf(c) == NO_TY)
  }

  /** A node without refusals is left only in ways its surroundings allow. */
  lemma {:induction false} AcceptedLeaves(n: Node, c: Chain, w: Way)
    requires Judge(n, c, false) == [] && MayLeave(n, w)
    ensures Allowed(c, w)
    decreases n
  {
    match n {
      case Exit(_, _) =>
      case Return(_, operand) =>
        if w != ByReturn {
          AcceptedLeaves(operand.value, c, w);
        }
      case Raise(_, kids) =>
        if w != ByRaise {
          AcceptedAll(kids, c, w);
        }
      case Loop(header, body) =>
        if AnyLeaves(header, w) {
          AcceptedAll(header, c, w);
        } else {
          AcceptedAll(body, In(InLoop, c), w);
        }
      case ParallelFor(header, grain, body) =>
        if AnyLeaves(header, w) {
          AcceptedAll(header, c, w);
        } else if AnyLeaves(grain, w) {
          AcceptedAll(grain, c, w);
        } else {
          AcceptedAll(body, In(InLoop, c), w);
        }
      case Defer(errdefer, kids) =>
        AcceptedAll(kids, In(InDefer(errdefer), c), w);
      case Closure(_, _, _, _) =>
      case Other(kids) =>
        AcceptedAll(kids, c, w);
    }
  }

  lemma {:induction false} AcceptedAll(ns: Nodes, c: Chain, w: Way)
    requires JudgeAll(ns, c, false) == [] && AnyLeaves(ns, w)
    ensures Allowed(c, w)
    decreases ns
  {
    if MayLeave(ns.head, w) {
      AcceptedLeaves(ns.head, c, w);
    } else {
      AcceptedAll(ns.tail, c, w);
    }
  }

  // ---- The one place where the checker and the meaning part ways: `grain` ----

  /** A `break` or `continue` that would target a loop put directly around the node. */
  predicate Direct(n: Node, deferred: bool)
    decreases n
  {
    match n
    case Exit(_, _) => true
    case Return(_, operand) => !deferred && operand.Some? && Direct(operand.value, deferred)
    case Raise(_, kids) => !deferred && AnyDirect(kids, deferred)
    case Loop(header, _) => AnyDirect(header, deferred)
    case ParallelFor(header, _, _) => AnyDirect(header, deferred)
    case Defer(_, _) => false
    case Closure(_, _, _, _) => false
    case Other(kids) => AnyDirect(kids, deferred)
  }

  predicate AnyDirect(ns: Nodes, deferred: bool)
    decreases ns
  {
    match ns
    case Done => false
    case More(n, rest) => Direct(n, deferred) || AnyDirect(rest, deferred)
  }

  /** Every `grain` the checker looks into holds no direct `break` or `continue`, unless the
      statement itself stands directly in a loop. */
  predicate GrainsFine(n: Node, c: Chain)
    decreases n
  {
    match n
    case Exit(_, _) => true
    case Return(_, operand) => Deferred(c) || operand.None? || GrainsFine(operand.value, c)
    case Raise(_, kids) => Deferred(c) || AllGrainsFine(kids, c)
    case Loop(header, body) => AllGrainsFine(header, c) && AllGrainsFine(body, In(InLoop, c))
    case ParallelFor(header, grain, body) =>
      && AllGrainsFine(header, c) && AllGrainsFine(body, In(InLoop, c))
      && AllGrainsFine(grain, c) && (LoopIsNearest(c) || !AnyDirect(grain, Deferred(c)))
    case Defer(errdefer, kids) => AllGrainsFine(kids, In(InDefer(errdefer), c))
    case Closure(synth, result, raises, kids) => AllGrainsFine(kids, In(InClosure(synth, result, raises), c))
    case Other(kids) => AllGrainsFine(kids, c)
  }

  predicate AllGrainsFine(ns: Nodes, c: Chain)
    decreases ns
  {
    match ns
    case Done => true
    case More(n, rest) => GrainsFine(n, c) && AllGrainsFine(rest, c)
  }

  /** Two chains no verdict can tell apart. */
  predicate Alike(c: Chain, d: Chain) {
    && Deferred(c) == Deferred(d) && LoopIsNearest(c) == LoopIsNearest(d) && InSynth(c) == InSynth(d)
    && ResultOf(c) == ResultOf(d) && RaisesOf(c) == RaisesOf(d)
  }

  lemma {:induction false} AlikeJudge(n: Node, c: Chain, d: Chain, inside: bool)
    requires Alike(c, d)
    ensures Judge(n, c, inside) == Judge(n, d, inside)
    decreases n
  {
    match n {
      case Exit(_, _) =>
      case Return(_, operand) =>
        if operand.Some? {
          AlikeJudge(operand.value, c, d, inside);
        }
      case Raise(_, kids) => AlikeJudgeAll(kids, c, d, inside);
      case Loop(header, body) =>
        AlikeJudgeAll(header, c, d, inside);
        AlikeJudgeAll(body, In(InLoop, c), In(InLoop, d), inside);
      case ParallelFor(header, grain, body) =>
        AlikeJudgeAll(header, c, d, inside);
        AlikeJudgeAll(grain, if inside then In(InLoop, c) else c, if inside then In(InLoop, d) else d, inside);
        AlikeJudgeAll(body, In(InLoop, c), In(InLoop, d), inside);
      case Defer(errdefer, kids) =>
        AlikeJudgeAll(kids, In(InDefer(errdefer), c), In(InDefer(errdefer), d), inside);
      case Closure(synth, result, raises, kids) =>
        var s := InClosure(synth, result, raises);
        assert NearestClosure(In(s, c)) == NearestClosure(In(s, d)) == Some(s);
        AlikeJudgeAll(kids, In(s, c), In(s, d), inside);
      case Other(kids) => AlikeJudgeAll(kids, c, d, inside);
    }
  }

  lemma {:induction false} AlikeJudgeAll(ns: Nodes, c: Chain, d: Chain, inside: bool)
    requires Alike(c, d)
    ensures JudgeAll(ns, c, inside) == JudgeAll(ns, d, inside)
    decreases ns
  {
    if ns.More? {
      AlikeJudge(ns.head, c, d, inside);
      AlikeJudgeAll(ns.tail, c, d, inside);
    }
  }

  /** Putting a loop around a node takes away the refusals of its direct exits, and no other. */
  lemma {:induction false} LoopAround(n: Node, c: Chain)
    requires !LoopIsNearest(c)
    ensures !Direct(n, Deferred(c)) ==> Judge(n, In(InLoop, c), true) == Judge(n, c, true)
    ensures Direct(n, Deferred(c)) ==> |Judge(n, In(InLoop, c), true)| < |Judge(n, c, true)|
    decreases n
  {
    var d := In(InLoop, c);
    assert Deferred(d) == Deferred(c) && NearestClosure(d) == NearestClosure(c);
    assert ResultOf(d) == ResultOf(c) && RaisesOf(d) == RaisesOf(c);
    match n {
      case Exit(_, _) =>
      case Return(_, operand) =>
        if operand.Some? {
          LoopAround(operand.value, c);
        }
      case Raise(id, kids) =>
        LoopAroundAll(kids, c);
      case Loop(header, body) =>
        LoopAroundAll(header, c);
        AlikeJudgeAll(body, In(InLoop, d), d, true);
      case ParallelFor(header, grain, body) =>
        LoopAroundAll(header, c);
        AlikeJudgeAll(grain, In(InLoop, d), d, true);
        AlikeJudgeAll(body, In(InLoop, d), d, true);
      case Defer(errdefer, kids) =>
        var s := InDefer(errdefer);
        assert NearestClosure(In(s, d)) == NearestClosure(In(s, c));
        AlikeJudgeAll(kids, In(s, d), In(s, c), true);
      case Closure(synth, result, raises, kids) =>
        var s := InClosure(synth, result, raises);
        assert NearestClosure(In(s, c)) == NearestClosure(In(s, d)) == Some(s);
        AlikeJudgeAll(kids, In(s, d), In(s, c), true);
      case Other(kids) => LoopAroundAll(kids, c);
    }
  }

  lemma {:induction false} LoopAroundAll(ns: Nodes, c: Chain)
    requires !LoopIsNearest(c)
    ensures !AnyDirect(ns, Deferred(c)) ==> JudgeAll(ns, In(InLoop, c), true) == JudgeAll(ns, c, true)
    ensures AnyDirect(ns, Deferred(c)) ==> |JudgeAll(ns, In(InLoop, c), true)| < |JudgeAll(ns, c, true)|
    decreases ns
  {
    if ns.More? {
      LoopAround(ns.head, c);
      LoopAroundAll(ns.tail, c);
    }
  }

  /** The checker's verdicts are the right ones if and only if every `grain` it looks into is
      free of direct exits (or stands in a loop anyway); otherwise some refusals are missing. */
  lemma {:induction false} VerdictsRightIff(n: Node, c: Chain)
    ensures GrainsFine(n, c) ==> Judge(n, c, true) == Judge(n, c, false)
    ensures !GrainsFine(n, c) ==> |Judge(n, c, true)| < |Judge(n, c, false)|
    decreases n, 1
  {
    match n {
      case Exit(_, _) =>
      case Return(_, operand) =>
        if operand.Some? {
          VerdictsRightIff(operand.value, c);
        }
      case Raise(id, kids) =>
        VerdictsRightAll(kids, c);
      case Loop(header, body) =>
        VerdictsRightAll(header, c);
        VerdictsRightAll(body, In(InLoop, c));
      case ParallelFor(header, grain, body) => GrainRightIff(n, c);
      case Defer(errdefer, kids) => VerdictsRightAll(kids, In(InDefer(errdefer), c));
      case Closure(synth, result, raises, kids) => VerdictsRightAll(kids, In(InClosure(synth, result, raises), c));
      case Other(kids) => VerdictsRightAll(kids, c);
    }
  }

  lemma {:induction false} GrainRightIff(n: Node, c: Chain)
    requires n.ParallelFor?
    ensures GrainsFine(n, c) ==> Judge(n, c, true) == Judge(n, c, false)
    ensures !GrainsFine(n, c) ==> |Judge(n, c, true)| < |Judge(n, c, false)|
    decreases n, 0
  {
    var ParallelFor(header, grain, body) := n;
    var d := In(InLoop, c);
    VerdictsRightAll(header, c);
    VerdictsRightAll(grain, c);
    VerdictsRightAll(body, d);
    if LoopIsNearest(c) {
      assert NearestClosure(d) == NearestClosure(c);
      AlikeJudgeAll(grain, d, c, true);
    } else {
      LoopAroundAll(grain, c);
    }
  }

  lemma {:induction false} VerdictsRightAll(ns: Nodes, c: Chain)
    ensures AllGrainsFine(ns, c) ==> JudgeAll(ns, c, true) == JudgeAll(ns, c, false)
    ensures !AllGrainsFine(ns, c) ==> |JudgeAll(ns, c, true)| < |JudgeAll(ns, c, false)|
    decreases ns
  {
    if ns.More? {
      VerdictsRightIff(ns.head, c);
      VerdictsRightAll(ns.tail, c);
    }
  }

  /** `defer { parallel for .. grain { break } .. }` is accepted, and leaves its deferred body. */
  lemma GrainEscapes(id: nat)
    ensures var grain := More(Exit(id, true), Done);
            var n := Defer(false, More(ParallelFor(Done, grain, Done), Done));
            Judge(n, Root(0, NO_TY), true) == [] && AnyLeaves(n.kids, ByBreak)
  {
    var grain := More(Exit(id, true), Done);
    var loop := ParallelFor(Done, grain, Done);
    var c := In(InDefer(false), Root(0, NO_TY));
    assert JudgeAll(grain, In(InLoop, c), true) == [];
    assert Judge(loop, c, true) == [];
    assert MayLeave(loop, ByBreak);
  }

  // ---- The checker's promise, and exactly where it fails ----

  /** Such a `break` or `continue` stands here outside every deferred body, closure, loop body and
      `grain` of the node. */
  predicate DirectExit(n: Node, w: Way)
    decreases n
  {
    match n
    case Exit(_, isBreak) => w == if isBreak then ByBreak else ByContinue
    case Return(_, operand) => operand.Some? && DirectExit(operand.value, w)
    case Raise(_, kids) => AnyDirectExit(kids, w)
    case Loop(header, _) => AnyDirectExit(header, w)
    case ParallelFor(header, _, _) => AnyDirectExit(header, w)
    case Defer(_, _) => false
    case Closure(_, _, _, _) => false
    case Other(kids) => AnyDirectExit(kids, w)
  }

  predicate AnyDirectExit(ns: Nodes, w: Way)
    decreases ns
  {
    match ns
    case Done => false
    case More(n, rest) => DirectExit(n, w) || AnyDirectExit(rest, w)
  }

  /** Some `grain`, reached without entering a closure or a loop body, holds such an exit. */
  predicate GrainExit(n: Node, w: Way)
    decreases n
  {
    match n
    case Exit(_, _) => false
    case Return(_, operand) => operand.Some? && GrainExit(operand.value, w)
    case Raise(_, kids) => AnyGrainExit(kids, w)
    case Loop(header, _) => AnyGrainExit(header, w)
    case ParallelFor(header, grain, _) =>
      AnyGrainExit(header, w) || AnyGrainExit(grain, w) || AnyDirectExit(grain, w)
    case Defer(_, kids) => AnyGrainExit(kids, w)
    case Closure(_, _, _, _) => false
    case Other(kids) => AnyGrainExit(kids, w)
  }

  predicate AnyGrainExit(ns: Nodes, w: Way)
    decreases ns
  {
    match ns
    case Done => false
    case More(n, rest) => GrainExit(n, w) || AnyGrainExit(rest, w)
  }

  /** An accepted node is left by `break` or `continue` exactly through a direct exit or through a
      `grain`, and outside a loop only through a `grain`. */
  lemma {:induction false} LeavesExactly(n: Node, c: Chain, w: Way)
    requires Judge(n, c, true) == [] && (w == ByBreak || w == ByContinue)
    ensures MayLeave(n, w) <==> DirectExit(n, w) || GrainExit(n, w)
    ensures !LoopIsNearest(c) ==> !DirectExit(n, w)
    decreases n
  {
    match n {
      case Exit(_, _) =>
      case Return(_, operand) =>
        if operand.Some? {
          LeavesExactly(operand.value, c, w);
        }
      case Raise(_, kids) => AllLeaveExactly(kids, c, w);
      case Loop(header, _) => AllLeaveExactly(header, c, w);
      case ParallelFor(header, grain, _) =>
        AllLeaveExactly(header, c, w);
        AllLeaveExactly(grain, In(InLoop, c), w);
      case Defer(errdefer, kids) => AllLeaveExactly(kids, In(InDefer(errdefer), c), w);
      case Closure(_, _, _, _) =>
      case Other(kids) => AllLeaveExactly(kids, c, w);
    }
  }

  lemma {:induction false} AllLeaveExactly(ns: Nodes, c: Chain, w: Way)
    requires JudgeAll(ns, c, true) == [] && (w == ByBreak || w == ByContinue)
    ensures AnyLeaves(ns, w) <==> AnyDirectExit(ns, w) || AnyGrainExit(ns, w)
    ensures !LoopIsNearest(c) ==> !AnyDirectExit(ns, w)
    decreases ns
  {
    if ns.More? {
      LeavesExactly(ns.head, c, w);
      AllLeaveExactly(ns.tail, c, w);
    }
  }

  /** An accepted node returns or raises only where its surroundings allow it: outside deferred
      bodies, a `return` where the result is known, a `raise` where raising is declared. */
  lemma {:induction false} LeavesAllowed(n: Node, c: Chain, w: Way)
    requires Judge(n, c, true) == [] && MayLeave(n, w) && (w == ByReturn || w == ByRaise)
    ensures Allowed(c, w)
    decreases n
  {
    match n {
      case Exit(_, _) =>
      case Return(_, operand) =>
        if w != ByReturn {
          LeavesAllowed(operand.value, c, w);
        }
      case Raise(_, kids) =>
        if w != ByRaise {
          LeavesAllAllowed(kids, c, w);
        }
      case Loop(header, body) =>
        if AnyLeaves(header, w) {
          LeavesAllAllowed(header, c, w);
        } else {
          LeavesAllAllowed(body, In(InLoop, c), w);
        }
      case ParallelFor(header, grain, body) =>
        if AnyLeaves(header, w) {
          LeavesAllAllowed(header, c, w);
        } else if AnyLeaves(grain, w) {
          LeavesAllAllowed(grain, In(InLoop, c), w);
        } else {
          LeavesAllAllowed(body, In(InLoop, c), w);
        }
      case Defer(errdefer, kids) => LeavesAllAllowed(kids, In(InDefer(errdefer), c), w);
      case Closure(_, _, _, _) =>
      case Other(kids) => LeavesAllAllowed(kids, c, w);
    }
  }

  lemma {:induction false} LeavesAllAllowed(ns: Nodes, c: Chain, w: Way)
    requires JudgeAll(ns, c, true) == [] && AnyLeaves(ns, w) && (w == ByReturn || w == ByRaise)
    ensures Allowed(c, w)
    decreases ns
  {
    if MayLeave(ns.head, w) {
      LeavesAllowed(ns.head, c, w);
    } else {
      LeavesAllAllowed(ns.tail, c, w);
    }
  }

  /** A run of an accepted declaration that declares no `raises`, but a result, never raises. */
  lemma AcceptedDeclaration(ns: Nodes, result: Ty, raises: Ty)
    requires JudgeAll(ns, Root(result, raises), true) == []
    ensures raises == NO_TY && result != NO_TY ==> !AnyLeaves(ns, ByRaise)
  {
    if AnyLeaves(ns, ByRaise) {
      LeavesAllAllowed(ns, Root(result, raises), ByRaise);
    }
  }

  /** The same of an accepted closure, wherever it stands; and one whose type is yet to be found never
      returns. */
  lemma AcceptedClosure(synth: bool, result: Ty, raises: Ty, kids: Nodes, c: Chain)
    requires Judge(Closure(synth, result, raises, kids), c, true) == []
    ensures raises == NO_TY && result != NO_TY ==> !AnyLeaves(kids, ByRaise)
    ensures synth ==> !AnyLeaves(kids, ByReturn)
  {
    var d := In(InClosure(synth, result, raises), c);
    if AnyLeaves(kids, ByRaise) {
      LeavesAllAllowed(kids, d, ByRaise);
    }
    if AnyLeaves(kids, ByReturn) {
      LeavesAllAllowed(kids, d, ByReturn);
    }
  }

  /** An accepted deferred body is never left by `return` or `raise`, and by `break` or `continue`
      if and only if some `grain` in it, outside closures and loop bodies, holds one. */
  lemma AcceptedDeferStays(n: Node, c: Chain, w: Way)
    requires n.Defer? && Judge(n, c, true) == []
    ensures AnyLeaves(n.kids, w) <==> (w == ByBreak || w == ByContinue) && AnyGrainExit(n.kids, w)
  {
    var d := In(InDefer(n.errdefer), c);
    if w == ByBreak || w == ByContinue {
      AllLeaveExactly(n.kids, d, w);
    } else if AnyLeaves(n.kids, w) {
      LeavesAllAllowed(n.kids, d, w);
    }
  }

  /** In an accepted declaration or closure body every `break` and `continue` has a loop to act on,
      but for those in a `grain` outside closures and loop bodies. */
  lemma AcceptedBodyTargets(ns: Nodes, c: Chain, w: Way)
    requires (c.Root? || c.scope.InClosure?) && JudgeAll(ns, c, true) == [] && (w == ByBreak || w == ByContinue)
    ensures AnyLeaves(ns, w) <==> AnyGrainExit(ns, w)
  {
    AllLeaveExactly(ns, c, w);
  }

  /** A `grain` inside a closure is one of the refusals the checker misses, yet no deferred body is
      left through it: `VerdictsRightIff` and `AcceptedDeferStays` have different conditions. */
  lemma GrainInClosureStays(id: nat, c: Chain, w: Way)
    ensures var loop := ParallelFor(Done, More(Exit(id, true), Done), Done);
            var n := Defer(false, More(Closure(false, 0, 0, More(loop, Done)), Done));
            Judge(n, c, true) == [] && !GrainsFine(n, c) && !AnyLeaves(n.kids, w)
  {
    var grain := More(Exit(id, true), Done);
    var loop := ParallelFor(Done, grain, Done);
    var closure := Closure(false, 0, 0, More(loop, Done));
    var d := In(InDefer(false), c);
    var e := In(InClosure(false, 0, 0), d);
    assert JudgeAll(grain, In(InLoop, e), true) == [];
    assert Judge(loop, e, true) == [];
    assert Judge(closure, d, true) == [];
    assert AnyDirect(grain, Deferred(e));
    assert !AllGrainsFine(More(loop, Done), e);
    assert !AllGrainsFine(More(closure, Done), d);
    assert !AnyLeaves(More(closure, Done), w);
    assert JudgeAll(More(loop, Done), e, true) == [];
    assert JudgeAll(More(closure, Done), d, true) == [];
  }
}
