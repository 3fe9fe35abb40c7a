/**
 The tokenizer of 9cc (`tokenize`, `startswith`, `new_token`).

 The C tokenizer builds a linked list behind a dummy head; here it returns a
 sequence.  The input is the command-line argument up to (not including) its
 NUL terminator, so `while (*p)` becomes `i < |s|`.

 Besides the tokenizer itself the module defines `Lexed`, an independent,
 declarative description of a correct tokenization (blanks, then maximal-munch
 lexemes separated by blanks, then one end-of-input token), and proves that
 `Tokenize` returns exactly the one sequence `Lexed` admits, and fails exactly
 when there is none.
 */
module Lexer {
  import opened Common

  datatype TokenKind = Reserved | Number | Eof

  /** A token: its kind, its value (numbers only; `calloc` leaves it 0 otherwise),
      its offset in the source text, and its text (`str` for `len` bytes). */
  datatype Token = Token(kind: TokenKind, val: int, pos: nat, text: string)

  /** `isspace` in the C locale. */
  predicate IsSpace(c: char) {
    c == ' ' || c == '\t' || c == '\n' || c == '\U{000B}' || c == '\U{000C}' || c == '\r'
  }

  /** `isdigit`. */
  predicate IsDigit(c: char) {
    '0' <= c <= '9'
  }

  predicate AllDigits(ds: string) {
    forall k :: 0 <= k < |ds| ==> IsDigit(ds[k])
  }

  function DigitValue(c: char): nat
    requires IsDigit(c)
  {
    c as int - '0' as int
  }

  function Pow10(n: nat): nat {
    if n == 0 then 1 else 10 * Pow10(n - 1)
  }

  /** The value `strtol(p, &p, 10)` reads from a run of decimal digits
      (unbounded): it has at most as many digits as the run, and exactly as
      many when the run has no leading zero. */
  function DecimalValue(ds: string): (v: nat)
    requires AllDigits(ds)
    ensures v < Pow10(|ds|)
    ensures |ds| > 0 && ds[0] != '0' ==> Pow10(|ds| - 1) <= v
  {
    if |ds| == 0 then 0
    else
      var front := ds[..|ds| - 1];
      assert |front| > 0 ==> front[0] == ds[0];
      DecimalValue(front) * 10 + DigitValue(ds[|ds| - 1])
  }

  /** The decimal rendering of a natural number, most significant digit first. */
  function ShowNat(v: nat): (ds: string)
    ensures |ds| > 0 && AllDigits(ds)
  {
    if v < 10 then [('0' as int + v) as char]
    else ShowNat(v / 10) + [('0' as int + v % 10) as char]
  }

  /** Reading back a rendered number gives the number. */
  lemma {:induction false} DecimalValueOfShowNat(v: nat)
    ensures DecimalValue(ShowNat(v)) == v
  {
    if v >= 10 {
      var ds := ShowNat(v);
      assert ds[..|ds| - 1] == ShowNat(v / 10);
      DecimalValueOfShowNat(v / 10);
    }
  }

  /** The two-character punctuators; `tokenize` tries them before the single ones. */
  const TwoCharPuncts: seq<string> := ["==", "!=", "<=", ">="]

  /** The single-character punctuators, the `strchr` set. */
  const OneCharPuncts: string := "+-*/()<>"

  /** `startswith(p, q)`: the input at offset `i` begins with `q`. */
  predicate StartsWith(s: string, i: nat, q: string) {
    i + |q| <= |s| && s[i..i + |q|] == q
  }

  /** The characters `a`, `b` spell one of `TwoCharPuncts`. */
  predicate IsTwoCharPunct(a: char, b: char) {
    (a == '=' || a == '!' || a == '<' || a == '>') && b == '='
  }

  /** `c` is one of `OneCharPuncts`. */
  predicate IsOneCharPunct(c: char) {
    c == '+' || c == '-' || c == '*' || c == '/' || c == '(' || c == ')' || c == '<' || c == '>'
  }

  /** The first test of `tokenize`'s loop: a two-character punctuator starts at `i`. */
  predicate StartsWithTwoCharPunct(s: string, i: nat) {
    i + 2 <= |s| && IsTwoCharPunct(s[i], s[i + 1])
  }

  /** `IsTwoCharPunct` is membership in `TwoCharPuncts`. */
  lemma TwoCharPunctsMembers(q: string)
    requires |q| == 2
    ensures q in TwoCharPuncts <==> IsTwoCharPunct(q[0], q[1])
  {
    if IsTwoCharPunct(q[0], q[1]) {
      assert q == [q[0], q[1]];
    }
  }

  /** `IsOneCharPunct` is membership in `OneCharPuncts`. */
  lemma OneCharPunctsMembers(c: char)
    ensures c in OneCharPuncts <==> IsOneCharPunct(c)
  {
  }

  /** `StartsWithTwoCharPunct` is the disjunction of four `startswith` calls. */
  lemma StartsWithTwoCharPunctIsStartsWith(s: string, i: nat)
    ensures StartsWithTwoCharPunct(s, i) <==>
            StartsWith(s, i, "==") || StartsWith(s, i, "!=") || StartsWith(s, i, "<=") || StartsWith(s, i, ">=")
  {
    if i + 2 <= |s| {
      assert s[i..i + 2] == [s[i], s[i + 1]];
    }
  }

  /** Offset `i` holds a character no rule of the tokenizer accepts. */
  predicate Stuck(s: string, i: nat) {
    i < |s| && !IsSpace(s[i]) && !StartsWithTwoCharPunct(s, i) && !IsOneCharPunct(s[i]) && !IsDigit(s[i])
  }

  /** Characters that can occur in a tokenizable input. */
  predicate Allowed(c: char) {
    IsSpace(c) || IsDigit(c) || IsOneCharPunct(c) || c == '=' || c == '!'
  }

  /** Where the run of digits starting at `i` ends (how far `strtol` moves `p`). */
  function DigitRunEnd(s: string, i: nat): (j: nat)
    requires i <= |s|
    ensures i <= j <= |s|
    ensures i < |s| && IsDigit(s[i]) ==> i < j
    decreases |s| - i
  {
    if i < |s| && IsDigit(s[i]) then DigitRunEnd(s, i + 1) else i
  }

  /** The run `DigitRunEnd` finds is all digits and is not followed by one. */
  lemma {:induction false} DigitRunIsMaximal(s: string, i: nat)
    requires i <= |s|
    ensures forall k :: i <= k < DigitRunEnd(s, i) ==> IsDigit(s[k])
    ensures DigitRunEnd(s, i) == |s| || !IsDigit(s[DigitRunEnd(s, i)])
    decreases |s| - i
  {
    if i < |s| && IsDigit(s[i]) {
      DigitRunIsMaximal(s, i + 1);
    }
  }

  /** The text of that run, as `strtol` reads it. */
  lemma DigitRunText(s: string, i: nat)
    requires i <= |s|
    ensures AllDigits(s[i..DigitRunEnd(s, i)])
    ensures DigitRunEnd(s, i) == |s| || !IsDigit(s[DigitRunEnd(s, i)])
  {
    var j := DigitRunEnd(s, i);
    DigitRunIsMaximal(s, i);
    forall k | 0 <= k < j - i
      ensures IsDigit(s[i..j][k])
    {
      assert s[i..j][k] == s[i + k];
    }
  }

  /** The value `strtol` accumulates while reading the digits at offsets
      `i` .. `j - 1` of `s`. */
  function DigitsValue(s: string, i: nat, j: nat): nat
    requires i <= j <= |s|
    requires forall k :: i <= k < j ==> IsDigit(s[k])
    decreases j
  {
    if j == i then 0 else DigitsValue(s, i, j - 1) * 10 + DigitValue(s[j - 1])
  }

  /** Read in place, a run of digits has its decimal value. */
  lemma {:induction false} DigitsValueIsDecimal(s: string, i: nat, j: nat)
    requires i <= j <= |s|
    requires forall k :: i <= k < j ==> IsDigit(s[k])
    ensures AllDigits(s[i..j]) && DigitsValue(s, i, j) == DecimalValue(s[i..j])
    decreases j
  {
    assert forall k :: 0 <= k < j - i ==> s[i..j][k] == s[i + k];
    if j > i {
      DigitsValueIsDecimal(s, i, j - 1);
      assert s[i..j][..j - 1 - i] == s[i..j - 1];
    }
  }

  predicate Blank(s: string, a: nat, b: nat)
    requires a <= b <= |s|
  {
    forall k :: a <= k < b ==> IsSpace(s[k])
  }

  /** `t` is a lexeme of `s` at `t.pos` under the longest-match rule: a
      two-character punctuator, a one-character punctuator not starting a
      two-character one, or a maximal run of digits carrying its decimal value. */
  predicate Lexeme(s: string, t: Token) {
    && t.pos + |t.text| <= |s|
    && s[t.pos..t.pos + |t.text|] == t.text
    && match t.kind
       case Reserved =>
         && t.val == 0
         && (|| (|t.text| == 2 && IsTwoCharPunct(t.text[0], t.text[1]))
             || (|t.text| == 1 && IsOneCharPunct(t.text[0]) && !StartsWithTwoCharPunct(s, t.pos)))
       case Number =>
         && |t.text| > 0
         && AllDigits(t.text)
         && (t.pos + |t.text| == |s| || !IsDigit(s[t.pos + |t.text|]))
         && t.val == DecimalValue(t.text)
       case Eof => false
  }

  /** The end-of-input token `tokenize` appends at offset `|s|`. */
  function EofAt(s: string): Token {
    Token(Eof, 0, |s|, "")
  }

  /** `ts` is a correct tokenization of `s` from offset `i`: blanks, then either
      the end of input with its `Eof` token, or a lexeme followed by a correct
      tokenization of what follows it. */
  predicate Lexed(s: string, i: nat, ts: seq<Token>)
    decreases |ts|
  {
    && i <= |s|
    && |ts| > 0
    && if |ts| == 1 then
         Blank(s, i, |s|) && ts[0] == EofAt(s)
       else
         && i <= ts[0].pos
         && ts[0].pos + |ts[0].text| <= |s|
         && Blank(s, i, ts[0].pos)
         && Lexeme(s, ts[0])
         && Lexed(s, ts[0].pos + |ts[0].text|, ts[1..])
  }

  /** Skipping a blank keeps a tokenization correct. */
  lemma LexedSkip(s: string, i: nat, ts: seq<Token>)
    requires i < |s| && IsSpace(s[i])
    requires Lexed(s, i + 1, ts)
    ensures Lexed(s, i, ts)
  {
  }

  /** A lexeme at `i` followed by a correct tokenization of the rest is a
      correct tokenization from `i`. */
  lemma LexedCons(s: string, t: Token, rest: seq<Token>)
    requires Lexeme(s, t)
    requires Lexed(s, t.pos + |t.text|, rest)
    ensures Lexed(s, t.pos, [t] + rest)
  {
    assert ([t] + rest)[1..] == rest;
  }

  /** The token the body of `tokenize`'s loop builds at the non-blank offset
      `i`: a two-character punctuator if one starts there, else a
      one-character punctuator, else the run of digits `strtol` reads, else
      nothing (the input cannot be tokenized). */
  function NextLexeme(s: string, i: nat): (r: Option<Token>)
    requires i < |s| && !IsSpace(s[i])
    ensures r.Some? ==> r.value.pos == i && |r.value.text| > 0
    ensures r.None? <==> Stuck(s, i)
  {
    if StartsWithTwoCharPunct(s, i) then
      Some(Token(Reserved, 0, i, s[i..i + 2]))
    else if IsOneCharPunct(s[i]) then
      Some(Token(Reserved, 0, i, s[i..i + 1]))
    else if IsDigit(s[i]) then
      var j := DigitRunEnd(s, i);
      DigitRunIsMaximal(s, i);
      Some(Token(Number, DigitsValue(s, i, j), i, s[i..j]))
    else
      None
  }

  /** The token `NextLexeme` builds is a lexeme. */
  lemma NextLexemeIsLexeme(s: string, i: nat)
    requires i < |s| && !IsSpace(s[i]) && NextLexeme(s, i).Some?
    ensures Lexeme(s, NextLexeme(s, i).value)
  {
    if StartsWithTwoCharPunct(s, i) {
      assert s[i..i + 2][0] == s[i] && s[i..i + 2][1] == s[i + 1];
    } else if !IsOneCharPunct(s[i]) {
      DigitRunText(s, i);
      DigitsValueIsDecimal(s, i, DigitRunEnd(s, i));
    }
  }

  /** The scan from offset `i` reaches offset `j`: it skips blanks one at a
      time and reads each lexeme whole (by `LexemeIsNext` the token read at
      an offset is the only lexeme there), landing exactly on `j`. */
  predicate Scanned(s: string, i: nat, j: nat)
    requires i <= j <= |s|
    decreases j - i
  {
    if i == j then true
    else if IsSpace(s[i]) then Scanned(s, i + 1, j)
    else
      match NextLexeme(s, i)
      case None => false
      case Some(t) => i + |t.text| <= j && Scanned(s, i + |t.text|, j)
  }

  /** The scan stops at most once: two offsets it reaches on which no rule
      applies are the same offset, the first one it meets. */
  lemma {:induction false} ScanStopsOnce(s: string, i: nat, j: nat, k: nat)
    requires i <= j <= |s| && i <= k <= |s|
    requires Scanned(s, i, j) && Stuck(s, j)
    requires Scanned(s, i, k) && Stuck(s, k)
    ensures j == k
    decreases j - i
  {
    if i != j && i != k {
      if IsSpace(s[i]) {
        ScanStopsOnce(s, i + 1, j, k);
      } else {
        var t := NextLexeme(s, i).value;
        ScanStopsOnce(s, i + |t.text|, j, k);
      }
    }
  }

  /** The main loop of `tokenize`, from offset `i`. */
  function TokenizeFrom(s: string, i: nat): (r: Result<seq<Token>>)
    requires i <= |s|
    ensures r.Ok? ==> |r.value| > 0 && r.value[|r.value| - 1] == EofAt(s)
    ensures r.Err? ==> r.error.Untokenizable? && i <= r.error.at <= |s| && Stuck(s, r.error.at)
    ensures r.Err? ==> Scanned(s, i, r.error.at)
    decreases |s| - i
  {
    if i == |s| then
      Ok([EofAt(s)])
    else if IsSpace(s[i]) then
      TokenizeFrom(s, i + 1)
    else
      match NextLexeme(s, i)
      case None => Err(Untokenizable(i))
      case Some(t) =>
        var r := TokenizeFrom(s, i + |t.text|);
        if r.Ok? then Ok([t] + r.value) else r
  }

  /** The loop skips a blank. */
  lemma TokenizeFromBlank(s: string, i: nat)
    requires i < |s| && IsSpace(s[i])
    ensures TokenizeFrom(s, i) == TokenizeFrom(s, i + 1)
  {
  }

  /** Where the loop succeeds on a non-blank, it built a token there and
      succeeded after it. */
  lemma TokenizeFromOkStep(s: string, i: nat)
    requires i < |s| && !IsSpace(s[i]) && TokenizeFrom(s, i).Ok?
    ensures NextLexeme(s, i).Some?
    ensures TokenizeFrom(s, i + |NextLexeme(s, i).value.text|).Ok?
    ensures TokenizeFrom(s, i).value == [NextLexeme(s, i).value] + TokenizeFrom(s, i + |NextLexeme(s, i).value.text|).value
  {
  }

  /** Soundness: what the loop returns is a correct tokenization. */
  lemma {:induction false} TokenizeFromSound(s: string, i: nat)
    requires i <= |s| && TokenizeFrom(s, i).Ok?
    ensures Lexed(s, i, TokenizeFrom(s, i).value)
    decreases |s| - i
  {
    if i < |s| {
      if IsSpace(s[i]) {
        TokenizeFromBlank(s, i);
        TokenizeFromSound(s, i + 1);
        LexedSkip(s, i, TokenizeFrom(s, i + 1).value);
      } else {
        TokenizeFromOkStep(s, i);
        var t := NextLexeme(s, i).value;
        NextLexemeIsLexeme(s, i);
        TokenizeFromSound(s, i + |t.text|);
        LexedCons(s, t, TokenizeFrom(s, i + |t.text|).value);
      }
    }
  }

  /** `tokenize()`. */
  function Tokenize(s: string): (r: Result<seq<Token>>)
    ensures r.Ok? ==> Lexed(s, 0, r.value)
    ensures r.Err? ==> r.error.Untokenizable? && r.error.at <= |s| && Stuck(s, r.error.at)
    ensures r.Err? ==> Scanned(s, 0, r.error.at)
  {
    var r := TokenizeFrom(s, 0);
    if r.Ok? then TokenizeFromSound(s, 0); r else r
  }

  /** The offset `tokenize` reports is pinned down: it is the first offset
      the scan reaches on which no rule applies, and no other. */
  lemma TokenizeErrorOffset(s: string, k: nat)
    requires Tokenize(s).Err?
    requires k <= |s| && Scanned(s, 0, k) && Stuck(s, k)
    ensures Tokenize(s).error.at == k
  {
    ScanStopsOnce(s, 0, Tokenize(s).error.at, k);
  }

  /** A lexeme cannot start on a blank. */
  lemma LexemeNotBlank(s: string, t: Token)
    requires Lexeme(s, t)
    ensures |t.text| > 0 && t.pos < |s| && !IsSpace(s[t.pos])
  {
    assert s[t.pos] == t.text[0];
  }

  /** A run of digits standing in the input at `i`, and not followed by a
      digit, is the run `DigitRunEnd` finds there. */
  lemma {:induction false} DigitRunOfText(s: string, i: nat, ds: string)
    requires i + |ds| <= |s| && s[i..i + |ds|] == ds && AllDigits(ds)
    requires i + |ds| == |s| || !IsDigit(s[i + |ds|])
    ensures DigitRunEnd(s, i) == i + |ds|
    ensures |ds| > 0 ==> IsDigit(s[i])
    decreases |ds|
  {
    if |ds| > 0 {
      assert s[i] == ds[0];
      assert s[i + 1..i + |ds|] == ds[1..];
      DigitRunOfText(s, i + 1, ds[1..]);
    }
  }

  /** A number lexeme is the maximal digit run `strtol` reads. */
  lemma NumberLexemeIsDigitRun(s: string, t: Token)
    requires Lexeme(s, t) && t.kind == Number
    ensures t.pos < |s| && IsDigit(s[t.pos])
    ensures DigitRunEnd(s, t.pos) == t.pos + |t.text|
  {
    DigitRunOfText(s, t.pos, t.text);
  }

  /** A punctuator lexeme is the one `tokenize` tries first at its offset. */
  lemma ReservedLexemeIsLongest(s: string, t: Token)
    requires Lexeme(s, t) && t.kind == Reserved
    ensures t.pos < |s|
    ensures StartsWithTwoCharPunct(s, t.pos) ==> t == Token(Reserved, 0, t.pos, s[t.pos..t.pos + 2])
    ensures !StartsWithTwoCharPunct(s, t.pos) ==>
              IsOneCharPunct(s[t.pos]) && t == Token(Reserved, 0, t.pos, s[t.pos..t.pos + 1])
  {
    var i := t.pos;
    if |t.text| == 2 {
      assert s[i] == t.text[0] && s[i + 1] == t.text[1];
    } else {
      assert s[i] == t.text[0];
      assert t.text == s[i..i + 1];
    }
  }

  /** A lexeme is the token `tokenize` builds at its offset: the rules are
      tried in the same order and each admits exactly one lexeme. */
  lemma LexemeIsNext(s: string, t: Token)
    requires Lexeme(s, t)
    ensures t.pos < |s| && !IsSpace(s[t.pos])
    ensures NextLexeme(s, t.pos) == Some(t)
  {
    LexemeNotBlank(s, t);
    if t.kind == Number {
      NumberLexemeIsDigitRun(s, t);
      DigitRunIsMaximal(s, t.pos);
      DigitsValueIsDecimal(s, t.pos, t.pos + |t.text|);
    } else {
      ReservedLexemeIsLongest(s, t);
    }
  }

  /** Before its first token a correct tokenization sees only blanks. */
  lemma LexedBlankStep(s: string, i: nat, ts: seq<Token>)
    requires Lexed(s, i, ts) && i < ts[0].pos
    ensures i < |s| && IsSpace(s[i]) && Lexed(s, i + 1, ts)
  {
  }

  /** One turn of `tokenize`'s loop on a non-blank offset. */
  lemma TokenizeFromLexeme(s: string, i: nat, t: Token, next: nat, rest: seq<Token>)
    requires i < |s| && !IsSpace(s[i]) && NextLexeme(s, i) == Some(t)
    requires next == i + |t.text| && TokenizeFrom(s, next) == Ok(rest)
    ensures TokenizeFrom(s, i) == Ok([t] + rest)
  {
    TokenizeFromStep(s, i);
  }

  /** The loop's turn on a non-blank offset where a token can be built. */
  lemma TokenizeFromStep(s: string, i: nat)
    requires i < |s| && !IsSpace(s[i]) && NextLexeme(s, i).Some?
    ensures var t := NextLexeme(s, i).value;
            var r := TokenizeFrom(s, i + |t.text|);
            TokenizeFrom(s, i) == if r.Ok? then Ok([t] + r.value) else r
  {
  }

  /** A lexeme in front of what the loop returns after it is what the loop
      returns from the lexeme on. */
  lemma LexemeIsTokenized(s: string, t: Token, rest: seq<Token>)
    requires Lexeme(s, t)
    requires TokenizeFrom(s, t.pos + |t.text|) == Ok(rest)
    ensures TokenizeFrom(s, t.pos) == Ok([t] + rest)
  {
    LexemeIsNext(s, t);
    TokenizeFromLexeme(s, t.pos, t, t.pos + |t.text|, rest);
  }

  /** A correct tokenization with more than the end-of-input token starts
      with a lexeme, after which it goes on correctly. */
  lemma LexedHead(s: string, i: nat, ts: seq<Token>)
    requires Lexed(s, i, ts) && |ts| > 1
    ensures Lexeme(s, ts[0]) && Lexed(s, ts[0].pos + |ts[0].text|, ts[1..])
  {
  }

  /** A stream whose head is a lexeme, and whose tail the loop returns after
      it, is what the loop returns from the head on. */
  lemma HeadIsTokenized(s: string, ts: seq<Token>, j: nat)
    requires |ts| > 1 && Lexeme(s, ts[0]) && j == ts[0].pos + |ts[0].text|
    requires TokenizeFrom(s, j) == Ok(ts[1..])
    ensures TokenizeFrom(s, ts[0].pos) == Ok(ts)
  {
    LexemeIsTokenized(s, ts[0], ts[1..]);
    assert [ts[0]] + ts[1..] == ts;
  }

  /** Completeness: every correct tokenization is the one `tokenize` finds. */
  lemma {:induction false} LexedIsTokenized(s: string, i: nat, ts: seq<Token>)
    requires Lexed(s, i, ts)
    ensures TokenizeFrom(s, i) == Ok(ts)
    decreases |s| - i
  {
    if i < ts[0].pos {
      LexedBlankStep(s, i, ts);
      LexedIsTokenized(s, i + 1, ts);
      TokenizeFromBlank(s, i);
    } else if |ts| > 1 {
      var j := ts[0].pos + |ts[0].text|;
      LexedHead(s, i, ts);
      LexedIsTokenized(s, j, ts[1..]);
      HeadIsTokenized(s, ts, j);
    } else {
      assert ts == [EofAt(s)];
    }
  }

  /** `tokenize` succeeds exactly on the inputs that have a correct
      tokenization, and what it returns is that tokenization. */
  lemma TokenizeCharacterized(s: string, ts: seq<Token>)
    ensures Tokenize(s) == Ok(ts) <==> Lexed(s, 0, ts)
  {
    if Lexed(s, 0, ts) {
      LexedIsTokenized(s, 0, ts);
    }
  }

  /** Every character of a lexeme is a digit or a punctuator character. */
  lemma LexemeAllowed(s: string, t: Token)
    requires Lexeme(s, t)
    ensures forall k :: t.pos <= k < t.pos + |t.text| ==> Allowed(s[k])
  {
    forall k | t.pos <= k < t.pos + |t.text|
      ensures Allowed(s[k])
    {
      assert s[k] == t.text[k - t.pos];
    }
  }

  /** Every character a correct tokenization covers from `i` on is allowed. */
  lemma {:induction false} LexedAllowed(s: string, i: nat, ts: seq<Token>)
    requires Lexed(s, i, ts)
    ensures forall k :: i <= k < |s| ==> Allowed(s[k])
    decreases |s| - i
  {
    if i < ts[0].pos {
      LexedBlankStep(s, i, ts);
      LexedAllowed(s, i + 1, ts);
    } else if |ts| > 1 {
      LexemeAllowed(s, ts[0]);
      LexemeNotBlank(s, ts[0]);
      LexedAllowed(s, ts[0].pos + |ts[0].text|, ts[1..]);
    }
  }

  /** Every character of a tokenizable input is a blank, a digit, a
      punctuator character, or the `=` / `!` of a two-character punctuator;
      any other character makes `tokenize` fail. */
  lemma TokenizeOnlyAllowed(s: string)
    requires Tokenize(s).Ok?
    ensures forall k :: 0 <= k < |s| ==> Allowed(s[k])
  {
    LexedAllowed(s, 0, Tokenize(s).value);
  }

  /** The flat view of `Lexed`: the tokens before the last are lexemes in
      increasing, non-overlapping order, and the last, and only the last, is
      the end-of-input token. */
  lemma {:induction false} LexedShape(s: string, i: nat, ts: seq<Token>)
    requires Lexed(s, i, ts)
    ensures ts[|ts| - 1] == EofAt(s)
    ensures forall k :: 0 <= k < |ts| - 1 ==> Lexeme(s, ts[k]) && ts[k].kind != Eof && i <= ts[k].pos
    ensures forall k :: 0 <= k < |ts| - 1 ==> ts[k].pos + |ts[k].text| <= ts[k + 1].pos
    decreases |ts|
  {
    if |ts| > 1 {
      var next := ts[0].pos + |ts[0].text|;
      LexedShape(s, next, ts[1..]);
      forall k | 0 <= k < |ts| - 1
        ensures ts[k].pos + |ts[k].text| <= ts[k + 1].pos
      {
        if k > 0 {
          assert ts[k] == ts[1..][k - 1];
        } else if |ts| > 2 {
          assert ts[1] == ts[1..][0];
        }
      }
    }
  }

  /** Where the input holds `==`, `!=`, `<=` or `>=` at the start of a token,
      that token is the whole two-character punctuator, never `<`, `>` or a
      failure on `=` / `!`. */
  lemma TwoCharPunctuatorIsOneToken(s: string, ts: seq<Token>, k: nat)
    requires Tokenize(s) == Ok(ts) && k < |ts| - 1
    requires StartsWithTwoCharPunct(s, ts[k].pos)
    ensures ts[k].kind == Reserved && ts[k].text == s[ts[k].pos..ts[k].pos + 2]
    ensures ts[k].text in TwoCharPuncts
  {
    LexedShape(s, 0, ts);
    var t := ts[k];
    if t.kind == Number {
      NumberLexemeIsDigitRun(s, t);
    } else {
      ReservedLexemeIsLongest(s, t);
      TwoCharPunctsMembers(t.text);
    }
  }

  /** A token that starts on a digit is a number token spanning the whole run
      of digits there, and its value is the run's decimal value. */
  lemma NumberTokenIsMaximalRun(s: string, ts: seq<Token>, k: nat)
    requires Tokenize(s) == Ok(ts) && k < |ts| - 1
    requires ts[k].pos < |s| && IsDigit(s[ts[k].pos])
    ensures ts[k].kind == Number
    ensures ts[k].text == s[ts[k].pos..DigitRunEnd(s, ts[k].pos)]
    ensures AllDigits(ts[k].text) && ts[k].val == DecimalValue(ts[k].text)
  {
    LexedShape(s, 0, ts);
    LexemeOnDigit(s, ts[k]);
  }

  /** A lexeme starting on a digit is a number spanning the whole digit run. */
  lemma LexemeOnDigit(s: string, t: Token)
    requires Lexeme(s, t) && t.pos < |s| && IsDigit(s[t.pos])
    ensures t.kind == Number
    ensures t.text == s[t.pos..DigitRunEnd(s, t.pos)]
    ensures AllDigits(t.text) && t.val == DecimalValue(t.text)
  {
    if t.kind == Reserved {
      ReservedLexemeIsLongest(s, t);
      assert false;
    }
    NumberLexemeIsDigitRun(s, t);
  }
}
