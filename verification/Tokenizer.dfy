/** The trivia-preserving tokenizer of the fuzzer (tools/fuzz/mutate.py). */
module Tokenizer {

  datatype Kind = Ws | LineComment | BlockComment | Underscore | Keyword | Ident | Num | Str | MultiStr | Punct | Other

  datatype Token = Token(kind: Kind, text: string)

  /** How the character classes of the host language extend beyond ASCII. */
  datatype Classes = Classes(letter: char -> bool, digit: char -> bool)

  function Reserved(): set<string> {
    {"module", "use", "pub", "fn", "struct", "enum", "trait", "impl", "const", "extern", "let", "var", "inout",
     "sink", "if", "else", "match", "for", "in", "while", "break", "continue", "return", "raise", "raises", "with",
     "parallel", "simd", "spawn", "comptime", "move", "consume", "discard", "defer", "errdefer", "as", "and", "or",
     "not", "true", "false", "iso", "imm", "secret", "dyn", "asm", "import", "recover", "type", "spmd", "kernel"}
  }

  /** Longest first, so that the first match is the longest. */
  function Punctuation(): seq<string> {
    ["..<", "..=", "<<=", ">>=", "->", "=>", "==", "!=", "<=", ">=", "<<", ">>", "+=", "-=", "*=", "/=", "%=", "&=",
     "|=", "^=", "(", ")", "[", "]", "{", "}", ",", ";", ":", ".", "@", "?", "=", "<", ">", "+", "-", "*", "/", "%",
     "&", "|", "^"]
  }

  const DECIMAL: string := "0123456789"

  predicate IsAscii(c: char) {
    c as int < 128
  }

  predicate IsSpace(c: char) {
    c == ' ' || c == '\t' || c == '\r' || c == '\n'
  }

  predicate AsciiLetter(c: char) {
    'a' <= c <= 'z' || 'A' <= c <= 'Z'
  }

  predicate AsciiDigit(c: char) {
    '0' <= c <= '9'
  }

  predicate IsLetter(cl: Classes, c: char) {
    AsciiLetter(c) || (!IsAscii(c) && cl.letter(c))
  }

  predicate IsDigit(cl: Classes, c: char) {
    AsciiDigit(c) || (!IsAscii(c) && cl.digit(c))
  }

  /** A letter, digit or underscore of ASCII: what words and number suffixes are made of. */
  predicate IsWord(c: char) {
    AsciiLetter(c) || AsciiDigit(c) || c == '_'
  }

  /** No letter or digit outside ASCII: what the tokenizer is documented to receive. */
  ghost predicate Receivable(cl: Classes, src: string) {
    forall c | c in src :: IsAscii(c) || (!cl.letter(c) && !cl.digit(c))
  }

  predicate StartsWith(src: string, i: nat, p: string) {
    i + |p| <= |src| && src[i..i + |p|] == p
  }

  // ---- Scans: each returns the end of the stretch it consumes ----

  /** The longest run of characters in `p` from `i` on. */
  method Run(src: string, i: nat, p: char -> bool) returns (j: nat)
    requires i <= |src|
    ensures i <= j <= |src|
    ensures forall k | i <= k < j :: p(src[k])
    ensures j < |src| ==> !p(src[j])
  {
    j := i;
    while j < |src| && p(src[j])
      invariant i <= j <= |src|
      invariant forall k | i <= k < j :: p(src[k])
    {
      j := j + 1;
    }
  }

  /** How many characters of `t` a block comment still takes at nesting depth `depth`: up to the
      mark that closes the outermost comment, or all of them. */
  function CommentRest(t: string, depth: nat): (n: nat)
    ensures n <= |t|
  {
    if depth == 0 || t == "" then 0
    else if StartsWith(t, 0, "/*") then 2 + CommentRest(t[2..], depth + 1)
    else if StartsWith(t, 0, "*/") then 2 + CommentRest(t[2..], depth - 1)
    else 1 + CommentRest(t[1..], depth)
  }

  lemma CommentNext(src: string, j: nat, depth: nat)
    requires j < |src| && depth > 0
    ensures CommentRest(src[j..], depth)
            == if StartsWith(src, j, "/*") then 2 + CommentRest(src[j + 2..], depth + 1)
               else if StartsWith(src, j, "*/") then 2 + CommentRest(src[j + 2..], depth - 1)
               else 1 + CommentRest(src[j + 1..], depth)
  {
    var t := src[j..];
    assert t[1..] == src[j + 1..];
    if j + 2 <= |src| {
      assert t[2..] == src[j + 2..] && t[0..2] == src[j..j + 2];
    }
  }

  lemma CommentOver(src: string, j: nat, depth: nat)
    requires j <= |src| && (j == |src| || depth == 0)
    ensures CommentRest(src[j..], depth) == 0
  {
  }

  /** A block comment runs to the mark that brings its nesting depth to zero, or to the end. */
  method BlockCommentEnd(src: string, i: nat) returns (j: nat)
    requires StartsWith(src, i, "/*")
    ensures j == i + 2 + CommentRest(src[i + 2..], 1)
  {
    hide CommentRest;
    var depth := 1;
    j := i + 2;
    while j < |src| && depth > 0
      invariant i + 2 <= j <= |src|
      invariant j + CommentRest(src[j..], depth) == i + 2 + CommentRest(src[i + 2..], 1)
      decreases |src| - j
    {
      CommentNext(src, j, depth);
      if StartsWith(src, j, "/*") {
        depth, j := depth + 1, j + 2;
      } else if StartsWith(src, j, "*/") {
        depth, j := depth - 1, j + 2;
      } else {
        j := j + 1;
      }
    }
    CommentOver(src, j, depth);
  }

  /** How many characters of `t` a string literal still takes: up to and with the first quote that
      no backslash escapes, but not past a line end no backslash escapes. */
  function StringRest(t: string): (n: nat)
    ensures n <= |t|
  {
    if t == "" || t[0] == '\n' then 0
    else if t[0] == '\"' then 1
    else if t[0] == '\\' && |t| > 1 then 2 + StringRest(t[2..])
    else 1 + StringRest(t[1..])
  }

  /** A string literal runs to its closing quote, or stops before a line end or at the end. */
  method StringEnd(src: string, i: nat) returns (j: nat)
    requires i < |src| && src[i] == '\"'
    ensures j == i + 1 + StringRest(src[i + 1..])
  {
    j := i + 1;
    while j < |src| && src[j] != '\"' && src[j] != '\n'
      invariant i < j <= |src|
      invariant j + StringRest(src[j..]) == i + 1 + StringRest(src[i + 1..])
    {
      if src[j] == '\\' && j + 1 < |src| {
        assert src[j..][2..] == src[j + 2..];
        j := j + 2;
      } else {
        assert src[j..][1..] == src[j + 1..];
        j := j + 1;
      }
    }
    if j < |src| && src[j] == '\"' {
      j := j + 1;
    }
  }

  /** Digits of `ok`, with single separators between two of them. */
  predicate DigitGroup(s: string, ok: string) {
    forall k | 0 <= k < |s| :: s[k] in ok || (s[k] == '_' && k + 1 < |s| && s[k + 1] in ok)
  }

  method Digits(src: string, i: nat, ok: string) returns (j: nat)
    requires i <= |src|
    ensures i <= j <= |src| && DigitGroup(src[i..j], ok)
    ensures i < |src| && src[i] in ok ==> j > i
    ensures j < |src| ==> src[j] !in ok
    ensures i < |src| && src[i] !in ok && src[i] != '_' ==> j == i
  {
    j := i;
    while j < |src|
      invariant i <= j <= |src| && DigitGroup(src[i..j], ok)
      invariant i < |src| && src[i] !in ok && src[i] != '_' ==> j == i
      decreases |src| - j
    {
      if src[j] in ok {
        assert src[i..j + 1] == src[i..j] + [src[j]];
        j := j + 1;
      } else if src[j] == '_' && j + 1 < |src| && src[j + 1] in ok {
        assert src[i..j + 2] == src[i..j] + [src[j], src[j + 1]];
        j := j + 2;
      } else {
        break;
      }
    }
  }

  function RadixDigits(c: char): string {
    if c == 'x' then "0123456789abcdefABCDEF" else if c == 'o' then "01234567" else "01"
  }

  /** Decimal digits, then perhaps a fraction, then perhaps an exponent. */
  ghost predicate DecimalNumeral(s: string) {
    exists a: nat, b: nat | 0 < a <= b <= |s| :: Whole(s, a) && Fraction(s, a, b) && Exponent(s, b)
  }

  predicate Whole(s: string, a: nat)
    requires a <= |s|
  {
    a > 0 && AsciiDigit(s[0]) && DigitGroup(s[..a], DECIMAL)
  }

  predicate Fraction(s: string, a: nat, b: nat)
    requires a <= b <= |s|
  {
    a == b || (a + 1 < b && s[a] == '.' && AsciiDigit(s[a + 1]) && DigitGroup(s[a + 1..b], DECIMAL))
  }

  predicate Exponent(s: string, b: nat)
    requires b <= |s|
  {
    b == |s|
    || (s[b] in "eE" && b + 1 < |s|
        && var d := if s[b + 1] in "+-" then b + 2 else b + 1;
        d < |s| && AsciiDigit(s[d]) && DigitGroup(s[d..], DECIMAL))
  }

  /** `0x`, `0o` or `0b` and digits of the radix. */
  predicate RadixNumeral(s: string) {
    |s| > 2 && s[0] == '0' && s[1] in "xob" && DigitGroup(s[2..], RadixDigits(s[1]))
  }

  /** A numeral with a glued suffix; a radix prefix without digits counts as suffix of `0`. */
  ghost predicate NumberShape(s: string) {
    exists m: nat | m <= |s| ::
      && (s[..m] == "0" || RadixNumeral(s[..m]) || DecimalNumeral(s[..m]))
      && forall k | m <= k < |s| :: IsWord(s[k])
  }

  /** The end of the number starting at `src[i]`. It lies after `i` for an ASCII digit; for any
      other digit the scan does not move. */
  method NumberEnd(cl: Classes, src: string, i: nat) returns (k: nat)
    requires i < |src| && IsDigit(cl, src[i])
    ensures i <= k <= |src|
    ensures k > i <==> IsAscii(src[i])
    ensures k > i ==> NumberShape(src[i..k])
    ensures k < |src| ==> !IsWord(src[k])
  {
    hide DecimalNumeral, DigitGroup, NumberShape;
    var j := i;
    if src[i] == '0' && i + 1 < |src| && src[i + 1] in "xob" {
      j := Digits(src, i + 2, RadixDigits(src[i + 1]));
      if j == i + 2 {
        j := i + 1;
        assert src[i..j] == ['0'];
      } else {
        assert src[i..j][2..] == src[i + 2..j];
        assert RadixNumeral(src[i..j]);
      }
    } else {
      j := DecimalEnd(src, i);
    }
    k := Run(src, j, IsWord);
    if IsAscii(src[i]) {
      Suffixed(src, i, j, k);
    }
  }

  lemma Suffixed(src: string, i: nat, j: nat, k: nat)
    requires i < j <= k <= |src| && forall m | j <= m < k :: IsWord(src[m])
    requires src[i..j] == "0" || RadixNumeral(src[i..j]) || DecimalNumeral(src[i..j])
    ensures NumberShape(src[i..k])
  {
    hide RadixNumeral, DecimalNumeral;
    var s := src[i..k];
    assert s[..j - i] == src[i..j];
    assert forall m | j - i <= m < |s| :: IsWord(s[m]);
  }

  predicate ExponentPart(src: string, b: nat, j: nat)
    requires b <= j <= |src|
  {
    b + 1 < j && src[b] in "eE"
    && var d := if src[b + 1] in "+-" then b + 2 else b + 1;
    d < j && AsciiDigit(src[d]) && DigitGroup(src[d..j], DECIMAL)
  }

  lemma SubSlice(src: string, i: nat, j: nat, x: nat, y: nat)
    requires i <= x <= y <= j <= |src|
    ensures src[i..j][x - i..y - i] == src[x..y]
  {
    var part, whole := src[i..j][x - i..y - i], src[x..y];
    forall k | 0 <= k < |whole| ensures part[k] == whole[k] {
      assert part[k] == src[i..j][x - i + k] == src[x + k];
    }
  }

  /** The parts of a decimal numeral found one after the other. */
  lemma DecimalParts(src: string, i: nat, a: nat, b: nat, j: nat)
    requires i < a <= b <= j <= |src| && AsciiDigit(src[i]) && DigitGroup(src[i..a], DECIMAL)
    requires a == b || (a + 1 < b && src[a] == '.' && AsciiDigit(src[a + 1]) && DigitGroup(src[a + 1..b], DECIMAL))
    requires b == j || ExponentPart(src, b, j)
    ensures DecimalNumeral(src[i..j])
  {
    hide DigitGroup;
    var s := src[i..j];
    SubSlice(src, i, j, i, a);
    assert Whole(s, a - i);
    if a < b {
      SubSlice(src, i, j, a + 1, b);
    }
    assert Fraction(s, a - i, b - i);
    if b < j {
      var d := if src[b + 1] in "+-" then b + 2 else b + 1;
      SubSlice(src, i, j, d, j);
      assert s[d - i..] == s[d - i..j - i] && s[d - i] == src[d];
      assert s[b - i] == src[b] && s[b - i + 1] == src[b + 1];
    }
    assert Exponent(s, b - i);
  }

  method DecimalEnd(src: string, i: nat) returns (j: nat)
    requires i < |src|
    ensures i <= j <= |src|
    ensures AsciiDigit(src[i]) ==> j > i && DecimalNumeral(src[i..j])
    ensures !IsAscii(src[i]) ==> j == i
  {
    hide DigitGroup, DecimalNumeral;
    j := Digits(src, i, DECIMAL);
    ghost var a := j;
    if j + 1 < |src| && src[j] == '.' && src[j + 1] in DECIMAL {
      j := Digits(src, j + 1, DECIMAL);
    }
    ghost var b := j;
    j := ExponentEnd(src, j);
    if AsciiDigit(src[i]) {
      DecimalParts(src, i, a, b, j);
    }
  }

  method ExponentEnd(src: string, b: nat) returns (j: nat)
    requires b <= |src|
    ensures b <= j <= |src|
    ensures j > b ==> ExponentPart(src, b, j)
    ensures b < |src| && !IsAscii(src[b]) ==> j == b
  {
    hide DigitGroup;
    j := b;
    if j < |src| && src[j] in "eE" && j + 1 < |src|
       && (src[j + 1] in DECIMAL || (src[j + 1] in "+-" && j + 2 < |src| && src[j + 2] in DECIMAL)) {
      j := j + 1;
      if src[j] in "+-" {
        j := j + 1;
      }
      j := Digits(src, j, DECIMAL);
    }
  }

  /** The longest punctuation at `i`. */
  method PunctAt(src: string, i: nat) returns (p: string)
    requires i < |src|
    ensures p != "" ==> p in Punctuation() && StartsWith(src, i, p)
    ensures forall q | q in Punctuation() && StartsWith(src, i, q) :: |q| <= |p|
  {
    PunctSorted();
    for m := 0 to |Punctuation()|
      invariant forall d | 0 <= d < m :: !StartsWith(src, i, Punctuation()[d])
    {
      if StartsWith(src, i, Punctuation()[m]) {
        forall q | q in Punctuation() && StartsWith(src, i, q) ensures |q| <= |Punctuation()[m]| {
          var d :| 0 <= d < |Punctuation()| && Punctuation()[d] == q;
          assert d >= m;
        }
        return Punctuation()[m];
      }
    }
    forall q | q in Punctuation() ensures !StartsWith(src, i, q) {
      var d :| 0 <= d < |Punctuation()| && Punctuation()[d] == q;
    }
    p := "";
  }

  lemma PunctSorted()
    ensures forall d, e | 0 <= d <= e < |Punctuation()| :: |Punctuation()[d]| >= |Punctuation()[e]| > 0
  {
    assert forall d | 0 <= d < 4 :: |Punctuation()[d]| == 3;
    assert forall d | 4 <= d < 20 :: |Punctuation()[d]| == 2;
    assert forall d | 20 <= d < |Punctuation()| :: |Punctuation()[d]| == 1;
  }

  // ---- Tokens ----

  function Render(toks: seq<Token>): string {
    if toks == [] then "" else toks[0].text + Render(toks[1..])
  }

  lemma {:induction false} RenderAppend(a: seq<Token>, b: seq<Token>)
    ensures Render(a + b) == Render(a) + Render(b)
  {
    if a == [] {
      assert a + b == b;
    } else {
      assert (a + b)[1..] == a[1..] + b;
      RenderAppend(a[1..], b);
    }
  }

  predicate NoLineEnd(s: string) {
    '\n' !in s
  }

  /** What a token of each kind looks like, with the text that follows it. */
  ghost predicate Lexeme(cl: Classes, t: Token, rest: string) {
    var s := t.text;
    && s != ""
    && match t.kind
       case Ws => (forall c | c in s :: IsSpace(c)) && (rest != "" ==> !IsSpace(rest[0]))
       case LineComment => StartsWith(s, 0, "//") && NoLineEnd(s) && (rest != "" ==> rest[0] == '\n')
       case BlockComment => StartsWith(s, 0, "/*") && |s| == 2 + CommentRest((s + rest)[2..], 1)
       case Underscore => s == "_" && (rest != "" ==> !IsWord(rest[0]))
       case Keyword => s in Reserved() && (rest != "" ==> !IsWord(rest[0]))
       case Ident => s !in Reserved() && s != "_" && (forall c | c in s :: IsWord(c)) && !AsciiDigit(s[0])
                     && (rest != "" ==> !IsWord(rest[0]))
       case Num => NumberShape(s) && (rest != "" ==> !IsWord(rest[0]))
       case Str => s[0] == '\"' && |s| == 1 + StringRest((s + rest)[1..])
       case MultiStr => StartsWith(s, 0, "\\\\") && NoLineEnd(s) && (rest != "" ==> rest[0] == '\n')
       case Punct => s in Punctuation()
       case Other => |s| == 1 && !IsSpace(s[0]) && !IsLetter(cl, s[0]) && !IsDigit(cl, s[0])
  }

  /** Every token is a lexeme of its kind in front of the tokens after it and `tail`. */
  ghost predicate Lexed(cl: Classes, toks: seq<Token>, tail: string) {
    toks == [] || (Lexeme(cl, toks[0], Render(toks[1..]) + tail) && Lexed(cl, toks[1..], tail))
  }

  lemma {:induction false} LexedAppend(cl: Classes, toks: seq<Token>, t: Token, tail: string)
    requires Lexed(cl, toks, t.text + tail) && Lexeme(cl, t, tail)
    ensures Lexed(cl, toks + [t], tail)
  {
    hide Lexeme;
    if toks == [] {
      assert Render([]) + tail == tail && [t][1..] == [];
    } else {
      var rest := toks[1..];
      assert (toks + [t])[1..] == rest + [t];
      LexedAppend(cl, rest, t, tail);
      RenderAppend(rest, [t]);
      assert Render([t]) == t.text + Render([]);
      assert Render(rest + [t]) + tail == Render(rest) + (t.text + tail);
    }
  }

  /** The token at `i` and its end. The scan advances unless it stands on a letter or digit
      outside ASCII, where it does not move at all. */
  method NextToken(cl: Classes, src: string, i: nat) returns (t: Token, j: nat)
    requires i < |src|
    ensures i <= j <= |src| && t.text == src[i..j]
    ensures j == i <==> !IsAscii(src[i]) && (IsLetter(cl, src[i]) || IsDigit(cl, src[i]))
    ensures j > i ==> Lexeme(cl, t, src[j..])
  {
    hide Lexeme;
    var c := src[i];
    if IsSpace(c) || StartsWith(src, i, "//") || StartsWith(src, i, "/*") {
      t, j := Trivia(cl, src, i);
    } else if IsLetter(cl, c) || c == '_' {
      t, j := Word(cl, src, i);
    } else if IsDigit(cl, c) {
      t, j := Number(cl, src, i);
    } else {
      t, j := Symbol(cl, src, i);
    }
  }

  method Trivia(cl: Classes, src: string, i: nat) returns (t: Token, j: nat)
    requires i < |src|
    requires IsSpace(src[i]) || StartsWith(src, i, "//") || StartsWith(src, i, "/*")
    ensures IsAscii(src[i]) && i < j <= |src| && t.text == src[i..j]
    ensures Lexeme(cl, t, src[j..])
  {
    hide CommentRest, NumberShape, Reserved, Punctuation;
    if IsSpace(src[i]) {
      j := Run(src, i, IsSpace);
      return Token(Ws, src[i..j]), j;
    }
    assert src[i..i + 2][0] == src[i];
    if StartsWith(src, i, "//") {
      t, j := RestOfLine(src, i, LineComment, "//");
    } else {
      t, j := Comment(cl, src, i);
    }
  }

  method Comment(cl: Classes, src: string, i: nat) returns (t: Token, j: nat)
    requires StartsWith(src, i, "/*")
    ensures i < j <= |src| && t.text == src[i..j]
    ensures Lexeme(cl, t, src[j..])
  {
    hide CommentRest, StringRest, NumberShape, Reserved, Punctuation;
    j := BlockCommentEnd(src, i);
    t := Token(BlockComment, src[i..j]);
    SubSlice(src, i, j, i, i + 2);
    assert StartsWith(t.text, 0, "/*");
    assert (src[i..j] + src[j..])[2..] == src[i + 2..];
  }

  method Number(cl: Classes, src: string, i: nat) returns (t: Token, j: nat)
    requires i < |src| && IsDigit(cl, src[i])
    ensures i <= j <= |src| && t.text == src[i..j]
    ensures j == i <==> !IsAscii(src[i])
    ensures j > i ==> Lexeme(cl, t, src[j..])
  {
    hide Reserved, Punctuation;
    j := NumberEnd(cl, src, i);
    t := Token(Num, src[i..j]);
  }

  method Symbol(cl: Classes, src: string, i: nat) returns (t: Token, j: nat)
    requires i < |src| && !IsSpace(src[i]) && !IsLetter(cl, src[i]) && !IsDigit(cl, src[i])
    ensures i < j <= |src| && t.text == src[i..j]
    ensures Lexeme(cl, t, src[j..])
  {
    hide StringRest, CommentRest, NumberShape, Reserved, Punctuation;
    if src[i] == '\"' {
      t, j := Literal(cl, src, i);
      return;
    }
    if StartsWith(src, i, "\\\\") {
      t, j := RestOfLine(src, i, MultiStr, "\\\\");
      return;
    }
    var p := PunctAt(src, i);
    if p != "" {
      t, j := Token(Punct, p), i + |p|;
      assert src[i..j] == p;
    } else {
      t, j := Token(Other, [src[i]]), i + 1;
      assert src[i..j] == [src[i]];
    }
  }

  method Literal(cl: Classes, src: string, i: nat) returns (t: Token, j: nat)
    requires i < |src| && src[i] == '\"'
    ensures i < j <= |src| && t.text == src[i..j]
    ensures Lexeme(cl, t, src[j..])
  {
    hide StringRest, CommentRest, NumberShape, Reserved, Punctuation;
    j := StringEnd(src, i);
    t := Token(Str, src[i..j]);
    assert (src[i..j] + src[j..])[1..] == src[i + 1..];
  }

  method RestOfLine(src: string, i: nat, kind: Kind, mark: string) returns (t: Token, j: nat)
    requires StartsWith(src, i, mark) && |mark| == 2 && mark[0] != '\n' && mark[1] != '\n'
    ensures i + 2 <= j <= |src| && t == Token(kind, src[i..j])
    ensures t.text != "" && StartsWith(t.text, 0, mark) && NoLineEnd(t.text) && (j < |src| ==> src[j] == '\n')
  {
    j := Run(src, i, x => x != '\n');
    assert src[i..i + 2][0] == src[i] && src[i..i + 2][1] == src[i + 1];
    assert src[i..j][..2] == src[i..i + 2];
    t := Token(kind, src[i..j]);
  }

  method Word(cl: Classes, src: string, i: nat) returns (t: Token, j: nat)
    requires i < |src| && (IsLetter(cl, src[i]) || src[i] == '_')
    ensures i <= j <= |src| && t.text == src[i..j]
    ensures j == i <==> !IsAscii(src[i])
    ensures j > i ==> Lexeme(cl, t, src[j..])
  {
    hide Reserved, Punctuation;
    j := Run(src, i, IsWord);
    var word := src[i..j];
    t := Token(if word == "_" then Underscore else if word in Reserved() then Keyword else Ident, word);
  }

  /** Tokenizing is lossless, every token is non-empty and of its kind, and the loop advances at
      every step, on any text without letters or digits outside ASCII. */
  method Tokenize(cl: Classes, src: string) returns (toks: seq<Token>)
    requires Receivable(cl, src)
    ensures Render(toks) == src
    ensures Lexed(cl, toks, "")
  {
    hide Lexeme;
    toks := [];
    var i := 0;
    assert src[0..] == src;
    while i < |src|
      invariant 0 <= i <= |src|
      invariant Render(toks) == src[..i]
      invariant Lexed(cl, toks, src[i..])
      decreases |src| - i
    {
      assert src[i] in src;
      var t, j := NextToken(cl, src, i);
      RenderAppend(toks, [t]);
      assert Render([t]) == t.text + Render([]);
      assert src[..j] == src[..i] + src[i..j];
      assert src[i..] == t.text + src[j..];
      LexedAppend(cl, toks, t, src[j..]);
      toks := toks + [t];
      i := j;
    }
    assert src[..i] == src && src[i..] == "";
  }
}
