/**
 Source text for a printed tree, and the tokenizer reading it back.

 `Render` writes the text of each token followed by one blank.  A blank after
 every token keeps a one-character punctuator from merging with a following
 `=` and a number from merging with a following digit, so `tokenize` reads
 the text back as the very tokens rendered, at the offsets `Place` gives
 them.  With the parse round trip this takes the compiler from a source
 string, not only from a token stream, to the value of the tree.
 */
module Rendering {
  import opened Common
  import opened Lexer
  import opened Ast
  import opened Precedence

  /** A token the renderer can write: a decimal number in its own spelling,
      or a one- or two-character punctuator. */
  predicate Printable(t: Token) {
    match t.kind
    case Number => t.val >= 0 && t.text == ShowNat(t.val)
    case Reserved =>
      && t.val == 0
      && (|| (|t.text| == 1 && IsOneCharPunct(t.text[0]))
          || (|t.text| == 2 && IsTwoCharPunct(t.text[0], t.text[1])))
    case Eof => false
  }

  predicate AllPrintable(toks: seq<Token>) {
    forall k :: 0 <= k < |toks| ==> Printable(toks[k])
  }

  /** The text of the tokens, each followed by a blank. */
  function Render(toks: seq<Token>): string
    decreases |toks|
  {
    if |toks| == 0 then "" else toks[0].text + " " + Render(toks[1..])
  }

  /** The tokens as `tokenize` reads them back from `Render(toks)` written at
      offset `i`: the same tokens, at the offsets where they were written. */
  function Place(toks: seq<Token>, i: nat): (ts: seq<Token>)
    ensures |ts| == |toks|
    decreases |toks|
  {
    if |toks| == 0 then []
    else [toks[0].(pos := i)] + Place(toks[1..], i + |toks[0].text| + 1)
  }

  lemma {:induction false} PlaceMatches(toks: seq<Token>, i: nat)
    ensures forall k :: 0 <= k < |toks| ==> SameShape(Place(toks, i)[k], toks[k])
    decreases |toks|
  {
    if |toks| > 0 {
      PlaceMatches(toks[1..], i + |toks[0].text| + 1);
      forall k | 0 <= k < |toks|
        ensures SameShape(Place(toks, i)[k], toks[k])
      {
        if k > 0 {
          assert Place(toks, i)[k] == Place(toks[1..], i + |toks[0].text| + 1)[k - 1];
          assert toks[k] == toks[1..][k - 1];
        }
      }
    }
  }

  /** Where `Render(toks)` is written at offset `i`: the first token's text,
      a blank, then the rest rendered. */
  lemma RenderHead(s: string, i: nat, toks: seq<Token>)
    requires |toks| > 0 && i <= |s| && s[i..] == Render(toks)
    ensures i + |toks[0].text| < |s|
    ensures s[i..i + |toks[0].text|] == toks[0].text
    ensures s[i + |toks[0].text|] == ' '
    ensures s[i + |toks[0].text| + 1..] == Render(toks[1..])
  {
    var w := |toks[0].text|;
    var r := Render(toks);
    assert r == toks[0].text + " " + Render(toks[1..]);
    assert s[i..i + w] == r[..w];
    assert s[i + w] == r[w];
    assert s[i + w + 1..] == r[w + 1..];
  }

  /** A printable token written at `i` and followed by a blank is a lexeme there. */
  lemma PrintableLexeme(s: string, i: nat, t: Token)
    requires Printable(t)
    requires i + |t.text| < |s| && s[i..i + |t.text|] == t.text && s[i + |t.text|] == ' '
    ensures Lexeme(s, t.(pos := i))
  {
    if t.kind == Number {
      DecimalValueOfShowNat(t.val);
    } else {
      assert |t.text| == 1 ==> s[i + 1] == ' ';
    }
  }

  lemma AllPrintableTail(toks: seq<Token>)
    requires |toks| > 0 && AllPrintable(toks)
    ensures Printable(toks[0]) && AllPrintable(toks[1..])
  {
    forall k | 0 <= k < |toks| - 1
      ensures Printable(toks[1..][k])
    {
      assert toks[1..][k] == toks[k + 1];
    }
  }

  /** Placing tokens at `i` puts the first at `i` and the rest after its
      text and a blank. */
  lemma PlaceCons(toks: seq<Token>, i: nat, eof: Token)
    requires |toks| > 0
    ensures Place(toks, i) + [eof]
         == [toks[0].(pos := i)] + (Place(toks[1..], i + |toks[0].text| + 1) + [eof])
  {
  }

  /** The rest of the text after the first token and its blank is the rest
      of the tokens rendered. */
  lemma RenderStep(s: string, i: nat, toks: seq<Token>)
    requires |toks| > 0 && AllPrintable(toks) && i <= |s| && s[i..] == Render(toks)
    ensures i + |toks[0].text| + 1 <= |s|
    ensures AllPrintable(toks[1..]) && s[i + |toks[0].text| + 1..] == Render(toks[1..])
  {
    RenderHead(s, i, toks);
    AllPrintableTail(toks);
  }

  /** The first token, its blank, and a correct tokenization of the rest. */
  lemma RenderJoin(s: string, i: nat, toks: seq<Token>, j: nat)
    requires |toks| > 0 && AllPrintable(toks) && i <= |s| && s[i..] == Render(toks)
    requires j == i + |toks[0].text| + 1
    requires Lexed(s, j, Place(toks[1..], j) + [EofAt(s)])
    ensures Lexed(s, i, Place(toks, i) + [EofAt(s)])
  {
    var t := toks[0];
    RenderHead(s, i, toks);
    AllPrintableTail(toks);
    PrintableLexeme(s, i, t);
    PlaceCons(toks, i, EofAt(s));
    LexedAfterBlank(s, t.(pos := i), Place(toks[1..], j) + [EofAt(s)], i, j, Place(toks, i) + [EofAt(s)]);
  }

  /** A lexeme followed by a blank, then a correct tokenization of the rest. */
  lemma LexedAfterBlank(s: string, t: Token, rest: seq<Token>, i: nat, j: nat, ts: seq<Token>)
    requires Lexeme(s, t) && i == t.pos && j == i + |t.text| + 1 && j <= |s| && IsSpace(s[j - 1])
    requires Lexed(s, j, rest) && ts == [t] + rest
    ensures Lexed(s, i, ts)
  {
    LexedSkip(s, t.pos + |t.text|, rest);
    LexedCons(s, t, rest);
  }

  /** Rendered printable tokens, written at offset `i` to the end of `s`,
      are correctly tokenized as the placed tokens and the final `Eof`. */
  lemma {:induction false} RenderLexed(s: string, i: nat, toks: seq<Token>)
    requires AllPrintable(toks) && i <= |s| && s[i..] == Render(toks)
    ensures Lexed(s, i, Place(toks, i) + [EofAt(s)])
    decreases |toks|
  {
    if |toks| == 0 {
      assert |s[i..]| == 0;
      assert Place(toks, i) + [EofAt(s)] == [EofAt(s)];
    } else {
      var j := i + |toks[0].text| + 1;
      RenderStep(s, i, toks);
      RenderLexed(s, j, toks[1..]);
      RenderJoin(s, i, toks, j);
    }
  }

  /** `tokenize` reads rendered printable tokens back as those tokens and `Eof`. */
  lemma TokenizeRender(toks: seq<Token>)
    requires AllPrintable(toks)
    ensures Tokenize(Render(toks)) == Ok(Place(toks, 0) + [EofAt(Render(toks))])
    ensures Matches(Tokenize(Render(toks)).value, 0, toks)
  {
    var s := Render(toks);
    RenderLexed(s, 0, toks);
    TokenizeCharacterized(s, Place(toks, 0) + [EofAt(s)]);
    PlaceMatches(toks, 0);
    var ts := Place(toks, 0) + [EofAt(s)];
    forall k | 0 <= k < |toks|
      ensures SameShape(ts[k], toks[k])
    {
      assert ts[k] == Place(toks, 0)[k];
    }
  }

  lemma AllPrintableConcat(a: seq<Token>, b: seq<Token>)
    requires AllPrintable(a) && AllPrintable(b)
    ensures AllPrintable(a + b)
  {
    forall k | 0 <= k < |a + b|
      ensures Printable((a + b)[k])
    {
      if k >= |a| {
        assert (a + b)[k] == b[k - |a|];
      }
    }
  }

  /** Every token of a printed tree can be rendered. */
  lemma {:induction false} ShowPrintable(n: Node, rank: nat)
    requires NonNegative(n)
    ensures AllPrintable(Show(n, rank))
  {
    match n
    case Num(v) =>
      assert Show(n, rank)[0] == NumToken(v);
    case Bin(op, l, r) =>
      ShowPrintable(l, Rank(op));
      ShowPrintable(r, Rank(op) - 1);
      var o := Punct(OpText(op));
      assert Printable(o);
      AllPrintableConcat(Show(l, Rank(op)), [o]);
      AllPrintableConcat(Show(l, Rank(op)) + [o], Show(r, Rank(op) - 1));
      var body := Show(l, Rank(op)) + [o] + Show(r, Rank(op) - 1);
      if Rank(op) > rank {
        assert Printable(Punct("(")) && Printable(Punct(")"));
        AllPrintableConcat([Punct("(")], body);
        AllPrintableConcat([Punct("(")] + body, [Punct(")")]);
      }
  }
}
