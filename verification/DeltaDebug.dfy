/** Delta debugging in the fuzzer (tools/fuzz/run.py): `ddmin`, and `minimize_case`, which runs it
    over tokens and then over bytes within one budget of predicate calls. */
module DeltaDebug {
  import opened Naturals
  import opened Quotients
  import opened Wrappers
  import opened Tokenizer

  type Byte = n: nat | n < 256

  /** The counted predicate over candidate inputs: once the calls exceed the budget it answers
      false without asking. `None` is the predicate itself, without a budget. */
  class Checker {
    const reproduces: seq<Byte> -> bool
    const budget: Option<nat>
    var calls: nat

    constructor (reproduces: seq<Byte> -> bool, budget: Option<nat>)
      ensures this.reproduces == reproduces && this.budget == budget && calls == 0
    {
      this.reproduces, this.budget, this.calls := reproduces, budget, 0;
    }

    predicate Open()
      reads this
    {
      budget.None? || calls <= budget.value
    }

    method Check(x: seq<Byte>) returns (ok: bool)
      modifies this`calls
      ensures calls == old(calls) + 1
      ensures ok <==> Open() && reproduces(x)
    {
      calls := calls + 1;
      ok := Open() && reproduces(x);
    }
  }

  // ---- Chunks ----

  function Chunks<E>(items: seq<E>, size: nat): seq<seq<E>>
    requires size > 0
  {
    if items == [] then []
    else
      var m := Min(size, |items|);
      [items[..m]] + Chunks(items[m..], size)
  }

  /** Where chunk `i` starts: `i * size`. */
  function Start(i: nat, size: nat): nat {
    if i == 0 then 0 else size + Start(i - 1, size)
  }

  function Flatten<E>(chunks: seq<seq<E>>): seq<E> {
    if chunks == [] then [] else chunks[0] + Flatten(chunks[1..])
  }

  /** The items from `i` on, clamped to the list. */
  function Drop<E>(items: seq<E>, i: nat): seq<E> {
    items[Min(i, |items|)..]
  }

  lemma {:induction false} ChunksFlatten<E>(items: seq<E>, size: nat)
    requires size > 0
    ensures Flatten(Chunks(items, size)) == items
  {
    if items != [] {
      ChunksFlatten(items[Min(size, |items|)..], size);
    }
  }

  lemma CutShift<E>(items: seq<E>, m: nat, a: nat, b: nat)
    requires m + a <= |items|
    ensures items[..m] + (items[m..][..a] + Drop(items[m..], b)) == items[..m + a] + Drop(items, m + b)
  {
    assert items[..m] + items[m..][..a] == items[..m + a];
    assert Drop(items[m..], b) == Drop(items, m + b);
  }

  /** Leaving out chunk `i` leaves out the items from `i * size` to `(i + 1) * size`. */
  lemma {:induction false} WithoutChunk<E>(items: seq<E>, size: nat, i: nat)
    requires size > 0 && i < |Chunks(items, size)|
    ensures Start(i, size) < |items|
    ensures Flatten(Chunks(items, size)[..i] + Chunks(items, size)[i + 1..])
            == items[..Start(i, size)] + Drop(items, Start(i, size) + size)
  {
    hide Chunks, Flatten, Drop;
    var m, rest := ChunksCons(items, size);
    var chunks, tail := Chunks(items, size), Chunks(rest, size);
    if i == 0 {
      assert chunks[..0] + chunks[1..] == tail;
      ChunksFlatten(rest, size);
      FirstCut(items, size);
    } else {
      var k := i - 1;
      WithoutChunk(rest, size, k);
      var without := tail[..k] + tail[k + 1..];
      assert chunks[..i] + chunks[i + 1..] == [items[..m]] + without;
      FlattenCons(items[..m], without);
      CutShift(items, m, Start(k, size), Start(k, size) + size);
    }
  }

  lemma ChunksCons<E>(items: seq<E>, size: nat) returns (m: nat, rest: seq<E>)
    requires size > 0 && Chunks(items, size) != []
    ensures 0 < m <= |items| && rest == items[m..] && m == Min(size, |items|)
    ensures Chunks(items, size) == [items[..m]] + Chunks(rest, size)
    ensures Chunks(rest, size) != [] ==> m == size < |items|
  {
    m := Min(size, |items|);
    rest := items[m..];
  }

  lemma FirstCut<E>(items: seq<E>, size: nat)
    requires size > 0
    ensures items[..0] + Drop(items, size) == items[Min(size, |items|)..]
  {
  }

  lemma FlattenCons<E>(x: seq<E>, rest: seq<seq<E>>)
    ensures Flatten([x] + rest) == x + Flatten(rest)
  {
    assert ([x] + rest)[1..] == rest;
  }

  lemma {:induction false} ChunkCount<E>(items: seq<E>, size: nat, i: nat)
    requires size > 0
    ensures i < |Chunks(items, size)| <==> Start(i, size) < |items|
  {
    if items != [] && i > 0 {
      ChunkCount(items[Min(size, |items|)..], size, i - 1);
    }
  }

  lemma {:induction false} StartIs(i: nat, size: nat)
    ensures Start(i, size) == i * size
  {
    if i > 0 {
      StartIs(i - 1, size);
      assert i * size == (i - 1) * size + size;
    }
  }

  /** No more chunks than items. */
  lemma FewChunks<E>(items: seq<E>, size: nat)
    requires size > 0
    ensures |Chunks(items, size)| <= |items|
  {
    StartIs(|items|, size);
    ChunkCount(items, size, |items|);
    assert |items| * size >= |items|;
  }

  /** Cut in `n`, a list has at most `2 * n` chunks. */
  lemma ChunksOfCut<E>(items: seq<E>, n: nat)
    requires 0 < n <= |items|
    ensures |items| / n > 0 && |Chunks(items, |items| / n)| <= 2 * n
  {
    hide Chunks, Start;
    var size := |items| / n;
    CutCovers(|items|, n);
    StartIs(2 * n, size);
    ChunkCount(items, size, 2 * n);
  }

  lemma CutCovers(len: nat, n: nat)
    requires 0 < n <= len
    ensures len / n > 0 && 2 * n * (len / n) >= len
  {
    AtLeast(len, n, 1);
    AtLeast(len, n, len / n + 1);
    TwiceCovers(len, n, len / n);
  }

  lemma TwiceCovers(len: nat, n: nat, size: nat)
    requires size > 0 && (size + 1) * n > len
    ensures 2 * n * size >= len
  {
    assert (size + 1) * n == size * n + n && 2 * n * size == 2 * (size * n) && size * n >= n;
  }

  // ---- Subsequences ----

  predicate Subsequence<E(==)>(a: seq<E>, b: seq<E>) {
    a == [] || (b != [] && (Subsequence(a, b[1..]) || (a[0] == b[0] && Subsequence(a[1..], b[1..]))))
  }

  lemma {:induction false} SubsequenceSkip<E>(a: seq<E>, x: seq<E>, b: seq<E>)
    requires Subsequence(a, b)
    ensures Subsequence(a, x + b)
  {
    if x == [] {
      assert x + b == b;
    } else {
      assert (x + b)[1..] == x[1..] + b;
      SubsequenceSkip(a, x[1..], b);
    }
  }

  lemma {:induction false} SubsequenceKeep<E>(p: seq<E>, a: seq<E>, b: seq<E>)
    requires Subsequence(a, b)
    ensures Subsequence(p + a, p + b)
  {
    if p == [] {
      assert p + a == a && p + b == b;
    } else {
      assert (p + a)[1..] == p[1..] + a && (p + b)[1..] == p[1..] + b;
      SubsequenceKeep(p[1..], a, b);
    }
  }

  lemma {:induction false} SubsequenceRefl<E>(a: seq<E>)
    ensures Subsequence(a, a)
  {
    if a != [] {
      SubsequenceRefl(a[1..]);
    }
  }

  lemma {:induction false} SubsequenceTrans<E>(a: seq<E>, b: seq<E>, c: seq<E>)
    requires Subsequence(a, b) && Subsequence(b, c)
    ensures Subsequence(a, c)
    decreases |c|
  {
    if a != [] {
      if Subsequence(b, c[1..]) {
        SubsequenceTrans(a, b, c[1..]);
      } else if Subsequence(a, b[1..]) {
        SubsequenceTrans(a, b[1..], c[1..]);
      } else {
        SubsequenceTrans(a[1..], b[1..], c[1..]);
      }
    }
  }

  lemma CutIsSubsequence<E>(items: seq<E>, i: nat, j: nat)
    requires i <= |items| && i <= j
    ensures Subsequence(items[..i] + Drop(items, j), items)
  {
    hide Subsequence;
    var m := Min(j, |items|);
    var head, middle, tail := items[..i], items[i..m], items[m..];
    SubsequenceRefl(tail);
    SubsequenceSkip(tail, middle, tail);
    SubsequenceKeep(head, tail, middle + tail);
    assert head + (middle + tail) == items;
  }

  // ---- ddmin ----

  /** Leaving out any one item gives nothing, or an input that does not reproduce. */
  ghost predicate OneMinimal<E>(items: seq<E>, build: seq<E> -> seq<Byte>, reproduces: seq<Byte> -> bool) {
    forall k | 0 <= k < |items| ::
      items[..k] + items[k + 1..] == [] || !reproduces(build(items[..k] + items[k + 1..]))
  }

  /** Leaving out chunk `i` gives nothing, or an input that does not reproduce. */
  ghost predicate ChunkNeeded<E>(items: seq<E>, size: nat, i: nat, build: seq<E> -> seq<Byte>, reproduces: seq<Byte> -> bool)
    requires Start(i, size) < |items|
  {
    var c := items[..Start(i, size)] + Drop(items, Start(i, size) + size);
    c == [] || !reproduces(build(c))
  }

  /** One pass over the chunks: the first candidate that is non-empty and accepted. */
  method TryChunks<E>(items: seq<E>, size: nat, checker: Checker, build: seq<E> -> seq<Byte>) returns (r: Option<seq<E>>)
    requires size > 0
    modifies checker`calls
    ensures r.Some? ==> r.value != [] && checker.reproduces(build(r.value)) && Subsequence(r.value, items)
    ensures r.Some? ==> |items| - size <= |r.value| < |items|
    ensures r.None? && checker.Open() ==>
              forall i: nat | Start(i, size) < |items| :: ChunkNeeded(items, size, i, build, checker.reproduces)
    ensures old(checker.calls) <= checker.calls <= old(checker.calls) + |Chunks(items, size)|
  {
    hide Chunks, Flatten, Subsequence, Start;
    var chunks := Chunks(items, size);
    for i := 0 to |chunks|
      invariant old(checker.calls) <= checker.calls <= old(checker.calls) + i
      invariant checker.Open() ==>
        forall k: nat | k < i && Start(k, size) < |items| :: ChunkNeeded(items, size, k, build, checker.reproduces)
    {
      WithoutChunk(items, size, i);
      var candidate := Flatten(chunks[..i] + chunks[i + 1..]);
      if candidate != [] {
        var ok := checker.Check(build(candidate));
        if ok {
          CutIsSubsequence(items, Start(i, size), Start(i, size) + size);
          return Some(candidate);
        }
      }
    }
    forall i: nat | Start(i, size) < |items| ensures i < |chunks| {
      ChunkCount(items, size, i);
    }
    r := None;
  }

  lemma StartOfUnit(k: nat)
    ensures Start(k, 1) == k
  {
  }

  /** A reduction removes at most one chunk of `|items| / n`, so `n` stays within the length
      except at length one. */
  lemma ReductionKeepsBound(len: nat, n: nat, len': nat)
    requires 2 <= n <= len && len - len / n <= len' && 1 <= len' < len
    ensures (if n - 1 > 2 then n - 1 else 2) <= len' || len' == 1
  {
    var q := len / n;
    assert q * n <= len;
    assert q >= 1;
    assert (n - 1) * q >= n - 1;
    assert len - q >= (n - 1) * q;
  }

  lemma ChunkSizePositive(len: nat, n: nat)
    requires 2 <= n <= len
    ensures 1 <= len / n && (n == len ==> len / n == 1)
  {
  }

  // ---- The number of calls ----

  /** A bound on the calls of a run over `len` items. */
  function Calls(len: nat): nat {
    len * (len + 6)
  }

  /** A bound on the calls still to come with `len` items left, cut in `n`: a failing pass doubles `n`,
      a succeeding one takes one from it and at least one from `len`. */
  function CallsLeft(len: nat, n: nat): nat {
    if n > len then 0 else len * len + 5 * len - 2 * n + if n < len then len else 0
  }

  lemma AtFirst(len: nat)
    ensures CallsLeft(len, 2) <= Calls(len)
  {
  }

  lemma AfterFailure<E>(items: seq<E>, n: nat)
    requires 2 <= n <= |items|
    ensures |items| / n > 0
    ensures var used := |Chunks(items, |items| / n)|;
            if n == |items| then used <= CallsLeft(|items|, n)
            else used + CallsLeft(|items|, Min(2 * n, |items|)) <= CallsLeft(|items|, n)
  {
    hide Chunks;
    ChunksOfCut(items, n);
    FewChunks(items, |items| / n);
  }

  lemma Squares(a: nat, b: nat)
    requires a < b
    ensures a * a + 2 * b <= b * b + 1
  {
    var c := b - 1;
    assert a * a <= c * c;
    assert b * b == c * c + 2 * c + 1;
  }

  lemma LeftDrops(used: nat, len: nat, n: nat, len': nat)
    requires 2 <= n <= len && len' < len && used <= len
    ensures used + CallsLeft(len', if n - 1 > 2 then n - 1 else 2) <= CallsLeft(len, n)
  {
    Squares(len', len);
  }

  lemma AfterSuccess<E>(items: seq<E>, n: nat, len: nat)
    requires 2 <= n <= |items| && len < |items|
    ensures |items| / n > 0
    ensures |Chunks(items, |items| / n)| + CallsLeft(len, if n - 1 > 2 then n - 1 else 2) <= CallsLeft(|items|, n)
  {
    hide Chunks, CallsLeft;
    ChunksOfCut(items, n);
    FewChunks(items, |items| / n);
    LeftDrops(|Chunks(items, |items| / n)|, |items|, n, len);
  }

  /** `ddmin` returns a subsequence that reproduces whenever the input did, and that is 1-minimal
      unless the budget ran out on the way. */
  method DDMin<E>(input: seq<E>, checker: Checker, build: seq<E> -> seq<Byte>) returns (items: seq<E>)
    modifies checker`calls
    ensures Subsequence(items, input)
    ensures items == input || checker.reproduces(build(items))
    ensures input != [] ==> items != []
    ensures checker.Open() ==> OneMinimal(items, build, checker.reproduces)
    ensures old(checker.calls) <= checker.calls <= old(checker.calls) + Calls(|input|)
  {
    hide Chunks, CallsLeft, Calls;
    items := input;
    SubsequenceRefl(input);
    var n := 2;
    AtFirst(|input|);
    while |items| >= 1 && n <= |items|
      invariant n >= 2 && (n <= |items| || |items| <= 1)
      invariant Subsequence(items, input) && (items == input || checker.reproduces(build(items)))
      invariant input != [] ==> items != []
      invariant old(checker.calls) <= checker.calls
      invariant checker.calls + CallsLeft(|items|, n) <= old(checker.calls) + Calls(|input|)
      decreases |items|, |items| - n
    {
      ChunkSizePositive(|items|, n);
      AfterFailure(items, n);
      var size := if |items| / n > 1 then |items| / n else 1;
      var candidate := TryChunks(items, size, checker, build);
      if candidate.Some? {
        ReductionKeepsBound(|items|, n, |candidate.value|);
        AfterSuccess(items, n, |candidate.value|);
        SubsequenceTrans(candidate.value, items, input);
        items := candidate.value;
        n := if n - 1 > 2 then n - 1 else 2;
      } else {
        if n >= |items| {
          assert size == 1;
          if checker.Open() {
            forall k | 0 <= k < |items|
              ensures items[..k] + items[k + 1..] == [] || !checker.reproduces(build(items[..k] + items[k + 1..]))
            {
              StartOfUnit(k);
              assert ChunkNeeded(items, 1, k, build, checker.reproduces);
              assert Drop(items, k + 1) == items[k + 1..];
            }
          }
          return;
        }
        n := Min(n * 2, |items|);
      }
    }
    assert |items| <= 1;
    forall k | 0 <= k < |items| ensures items[..k] + items[k + 1..] == [] {
    }
  }

  // ---- minimize_case ----

  function Join(texts: seq<string>): string {
    if texts == [] then "" else texts[0] + Join(texts[1..])
  }

  function Texts(toks: seq<Token>): seq<string> {
    if toks == [] then [] else [toks[0].text] + Texts(toks[1..])
  }

  lemma {:induction false} JoinTexts(toks: seq<Token>)
    ensures Join(Texts(toks)) == Render(toks)
  {
    if toks != [] {
      JoinTexts(toks[1..]);
    }
  }

  /** UTF-8 as the host language gives it: encoding undoes decoding. */
  datatype Codec = Codec(decode: seq<Byte> -> Option<string>, encode: string -> seq<Byte>)

  ghost predicate Faithful(codec: Codec) {
    forall b :: codec.decode(b).Some? ==> codec.encode(codec.decode(b).value) == b
  }

  /** The code of a text is that of its parts, one after the other. */
  ghost predicate Concatenates(codec: Codec) {
    forall a, b :: codec.encode(a + b) == codec.encode(a) + codec.encode(b)
  }

  lemma {:induction false} FewerBytes(a: seq<string>, b: seq<string>, codec: Codec)
    requires Subsequence(a, b) && Concatenates(codec)
    ensures |codec.encode(Join(a))| <= |codec.encode(Join(b))|
    decreases |b|
  {
    if a == [] {
      assert Join(b) == "" + Join(b);
      assert |codec.encode(Join(b))| == |codec.encode("")| + |codec.encode(Join(b))|;
      assert codec.encode("" + Join(b)) == codec.encode("") + codec.encode(Join(b));
    } else if Subsequence(a, b[1..]) {
      FewerBytes(a, b[1..], codec);
      assert codec.encode(b[0] + Join(b[1..])) == codec.encode(b[0]) + codec.encode(Join(b[1..]));
    } else {
      FewerBytes(a[1..], b[1..], codec);
      assert codec.encode(a[0] + Join(a[1..])) == codec.encode(a[0]) + codec.encode(Join(a[1..]));
      assert codec.encode(b[0] + Join(b[1..])) == codec.encode(b[0]) + codec.encode(Join(b[1..]));
    }
  }

  lemma {:induction false} FewTokens(cl: Classes, toks: seq<Token>, rest: string)
    requires Lexed(cl, toks, rest)
    ensures |Texts(toks)| <= |Render(toks)|
  {
    if toks != [] {
      FewTokens(cl, toks[1..], rest);
    }
  }

  lemma CallsGrow(m: nat, n: nat)
    requires m <= n
    ensures Calls(m) <= Calls(n)
  {
    assert m * (m + 6) <= n * (m + 6) <= n * (n + 6);
  }

  /** A budget that is never spent: one call for the input, a run over the characters of its text and
      a run over its bytes. */
  function Enough(data: seq<Byte>, codec: Codec): nat {
    1 + (if codec.decode(data).Some? then Calls(|codec.decode(data).value|) else 0) + Calls(|data|)
  }

  /** For every budget, the result reproduces the finding whenever the input does; if it does not
      reproduce, the input comes back unchanged; and if the budget was not used up, as a large one
      never is, no single byte of the result can be left out. */
  method MinimizeCase(data: seq<Byte>, reproduces: seq<Byte> -> bool, budget: nat, cl: Classes, codec: Codec)
    returns (result: seq<Byte>, ghost checker: Checker)
    requires Faithful(codec)
    requires codec.decode(data).Some? ==> Receivable(cl, codec.decode(data).value)
    ensures reproduces(data) ==> reproduces(result)
    ensures !reproduces(data) || budget == 0 ==> result == data
    ensures checker.reproduces == reproduces && checker.budget == Some(budget)
    ensures reproduces(data) && checker.Open() ==> OneMinimal(result, b => b, reproduces)
    ensures Concatenates(codec) ==> checker.calls <= Enough(data, codec)
    ensures reproduces(data) && Concatenates(codec) && budget >= Enough(data, codec) ==>
              OneMinimal(result, b => b, reproduces)
  {
    hide Calls, Subsequence, Lexed;
    var counted := new Checker(reproduces, Some(budget));
    checker := counted;
    var ok := counted.Check(data);
    if !ok {
      return data, counted;
    }
    var smaller := data;
    match codec.decode(data) {
      case Some(text) =>
        var toks := Tokenize(cl, text);
        JoinTexts(toks);
        FewTokens(cl, toks, "");
        CallsGrow(|Texts(toks)|, |text|);
        var build := (ts: seq<string>) => codec.encode(Join(ts));
        var texts := DDMin(Texts(toks), counted, build);
        smaller := codec.encode(Join(texts));
        if Concatenates(codec) {
          FewerBytes(texts, Texts(toks), codec);
          CallsGrow(|smaller|, |data|);
        }
      case None =>
    }
    var bytes := DDMin(smaller, counted, b => b);
    result := bytes;
  }
}
