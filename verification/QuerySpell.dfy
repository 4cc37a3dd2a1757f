/** The texts of an intarray query, as a reader would describe them: words with any number of
    spaces between them, numbers in decimal, or in octal after a leading zero. The tokenizer
    reads exactly these. */
module QuerySpell {
  import opened Int32
  import opened QuerySyntax
  import opened QueryParse
  import opened QueryText

  // ---------------------------------------------------------------- numbers

  function Power(base: nat, k: nat): nat { if k == 0 then 1 else base * Power(base, k - 1) }

  function DigitValue(c: char): int { c as int - '0' as int }

  predicate AllDigits(s: string) { forall i | 0 <= i < |s| :: s[i] in "0123456789" }

  /** Every digit times the power of the base that belongs to its place. */
  function PlaceValue(s: string, base: nat): int
  {
    if s == [] then 0 else DigitValue(s[0]) * Power(base, |s| - 1) + PlaceValue(s[1..], base)
  }

  /** The digits up to the first that is not octal. */
  function OctalPart(s: string): string
  {
    if s == [] || s[0] !in "01234567" then [] else [s[0]] + OctalPart(s[1..])
  }

  /** A digit or a minus sign, and digits. */
  predicate Numeral(w: string)
  {
    w != [] && (w[0] in "0123456789" || w[0] == '-') && AllDigits(w[1..])
  }

  function NumeralValue(w: string): int
    requires Numeral(w)
  {
    var d := if w[0] == '-' then w[1..] else w;
    var m := if d != [] && d[0] == '0' then PlaceValue(OctalPart(d), 8) else PlaceValue(d, 10);
    if w[0] == '-' then -m else m
  }

  lemma {:induction false} DigitIff(c: char)
    ensures IsDigit(c) <==> c in "0123456789"
    ensures IsDigit(c) && DigitValue(c) < 8 <==> c in "01234567"
  {
  }

  lemma {:induction false} Shift(acc: int, base: int, d: int, p: int)
    ensures (acc * base + d) * p == acc * (base * p) + d * p
  {
    assert (acc * base + d) * p == acc * base * p + d * p;
    assert acc * base * p == acc * (base * p);
  }

  /** Reading digits from the left adds up their places. */
  lemma {:induction false} DigitsDecimal(s: string, acc: nat)
    requires AllDigits(s)
    ensures Digits(s, 10, acc) == acc * Power(10, |s|) + PlaceValue(s, 10)
  {
    if s != [] {
      DigitIff(s[0]);
      var d := DigitValue(s[0]);
      DigitsDecimal(s[1..], acc * 10 + d);
      Shift(acc, 10, d, Power(10, |s| - 1));
    }
  }

  lemma {:induction false} DigitsOctal(s: string, acc: nat)
    requires AllDigits(s)
    ensures Digits(s, 8, acc) == acc * Power(8, |OctalPart(s)|) + PlaceValue(OctalPart(s), 8)
  {
    if s != [] {
      DigitIff(s[0]);
      if s[0] in "01234567" {
        var d, o := DigitValue(s[0]), OctalPart(s);
        assert o[1..] == OctalPart(s[1..]);
        DigitsOctal(s[1..], acc * 8 + d);
        Shift(acc, 8, d, Power(8, |o| - 1));
      }
    }
  }

  /** `strtol` gives a numeral its value. */
  lemma {:induction false} StrtolPlaces(w: string)
    requires Numeral(w)
    ensures Strtol(w) == NumeralValue(w)
  {
    var d := if w[0] == '-' then w[1..] else w;
    assert AllDigits(d) by {
      if w[0] != '-' {
        forall i | 0 <= i < |w| ensures w[i] in "0123456789" {
          assert i > 0 ==> w[i] == w[1..][i - 1];
        }
      }
    }
    if d != [] && d[0] == '0' {
      DigitsOctal(d, 0);
    } else {
      DigitsDecimal(d, 0);
    }
  }

  lemma {:induction false} DigitRunStops(s: string, rest: string, i: nat)
    requires 1 <= i <= |s| && AllDigits(s[1..])
    requires rest == [] || !IsDigit(rest[0])
    ensures DigitRun(s + rest, i) == |s|
    decreases |s| - i
  {
    if i < |s| {
      assert (s + rest)[i] == s[1..][i - 1];
      DigitIff(s[i]);
      DigitRunStops(s, rest, i + 1);
    }
  }

  lemma {:induction false} DigitRunDigits(s: string, i: nat)
    requires 1 <= i <= |s| && AllDigits(s[1..i])
    ensures AllDigits(s[1..DigitRun(s, i)])
    decreases |s| - i
  {
    if i < |s| && IsDigit(s[i]) {
      DigitIff(s[i]);
      assert s[1..i + 1] == s[1..i] + [s[i]];
      DigitRunDigits(s, i + 1);
    }
  }

  /** Reading a number, whatever follows it but a digit: its value, unless it has more than 15
      characters, leaves 32 bits, or ends the text within a parenthesis. */
  lemma {:induction false} NumberRead(w: string, rest: string, count: int)
    requires Numeral(w) && (rest == [] || !IsDigit(rest[0]))
    ensures Number(w + rest, count)
      == if |w| <= 15 && Fits32(NumeralValue(w)) && (count == 0 || Peek(rest) != '\0')
         then Lexed(TVal(NumeralValue(w)), rest, WaitOperator, count)
         else Lexed(TErr, w + rest, WaitOperand, count)
  {
    DigitRunStops(w, rest, 1);
    assert (w + rest)[..|w|] == w && (w + rest)[|w|..] == rest;
    StrtolPlaces(w);
  }

  // ---------------------------------------------------------------- texts

  /** A word with the number of spaces before it. */
  datatype Word = Word(gap: nat, text: string)

  function Blanks(n: nat): string { seq(n, _ => ' ') }

  /** Words in a row, with spaces at the end. */
  function Spelled(ws: seq<Word>, tail: nat): string
  {
    if ws == [] then Blanks(tail) else Blanks(ws[0].gap) + (ws[0].text + Spelled(ws[1..], tail))
  }

  predicate WordFor(w: string, tok: Token)
  {
    match tok
    case TVal(v) => Numeral(w) && |w| <= 15 && NumeralValue(w) == v && Fits32(v)
    case TOpr(Not) => w == "!"
    case TOpr(And) => w == "&"
    case TOpr(Or) => w == "|"
    case TOpen => w == "("
    case TClose => w == ")"
    case _ => false
  }

  ghost predicate WordsFor(ws: seq<Word>, toks: seq<Token>)
  {
    |ws| == |toks| && forall i | 0 <= i < |ws| :: WordFor(ws[i].text, toks[i])
  }

  /** The text spells the tokens, with any number of spaces between them, none included. */
  ghost predicate Spells(text: string, toks: seq<Token>)
  {
    exists ws, tail :: WordsFor(ws, toks) && text == Spelled(ws, tail)
  }

  predicate NoNul(s: string) { forall i | 0 <= i < |s| :: s[i] != '\0' }

  // ---------------------------------------------------------------- every spelling is read

  lemma {:induction false} LexSpace(s: string, mode: Mode, count: int)
    requires mode != WaitEndOperand
    ensures Stream(" " + s, mode, count) == Stream(s, mode, count)
  {
    assert (" " + s)[1..] == s;
  }

  lemma {:induction false} LexBlanks(n: nat, s: string, mode: Mode, count: int)
    requires mode != WaitEndOperand
    ensures Stream(Blanks(n) + s, mode, count) == Stream(s, mode, count)
    decreases n
  {
    if n == 0 {
      assert Blanks(n) + s == s;
    } else {
      BlankFirst(n - 1, s);
      LexSpace(Blanks(n - 1) + s, mode, count);
      LexBlanks(n - 1, s, mode, count);
    }
  }

  /** Where a token leads. */
  function NextMode(tok: Token): Mode
  {
    if tok.TVal? || tok.TClose? then WaitOperator else WaitOperand
  }

  function NextCount(tok: Token, count: int): int
  {
    if tok.TOpen? then count + 1 else if tok.TClose? then count - 1 else count
  }

  lemma {:induction false} LexNumeral(w: string, rest: string, count: int)
    requires Numeral(w) && |w| <= 15 && Fits32(NumeralValue(w))
    requires (rest == [] || !IsDigit(rest[0])) && (count == 0 || Peek(rest) != '\0')
    ensures Stream(w + rest, WaitOperand, count) == [TVal(NumeralValue(w))] + Stream(rest, WaitOperator, count)
  {
    NumberRead(w, rest, count);
    DigitIff(w[0]);
    assert Peek(w + rest) == w[0];
  }

  lemma {:induction false} LexSymbol(w: string, tok: Token, rest: string, mode: Mode, count: int)
    requires WordFor(w, tok) && !tok.TVal?
    requires mode == if tok.TOpen? || tok == TOpr(Not) then WaitOperand else WaitOperator
    requires tok.TClose? ==> count > 0
    ensures Stream(w + rest, mode, count) == [tok] + Stream(rest, NextMode(tok), NextCount(tok, count))
  {
    assert (w + rest)[1..] == rest && Peek(w + rest) == w[0];
  }

  /** What follows an operand begins with no digit, and does not end within a parenthesis. */
  lemma {:induction false} OperatorFirst(ws: seq<Word>, tail: nat, toks: seq<Token>, count: nat)
    requires WordsFor(ws, toks) && Shaped(toks + [TEnd], false, count)
    ensures var s := Spelled(ws, tail); (s == [] || !IsDigit(s[0])) && (count == 0 || Peek(s) != '\0')
  {
    var s := Spelled(ws, tail);
    if ws == [] {
      assert toks + [TEnd] == [TEnd];
    } else {
      assert (toks + [TEnd])[0] == toks[0];
      assert WordFor(ws[0].text, toks[0]);
      assert s[0] == if ws[0].gap > 0 then ' ' else ws[0].text[0];
    }
  }

  lemma {:induction false} SpelledStream(ws: seq<Word>, tail: nat, toks: seq<Token>, mode: Mode, count: nat)
    requires WordsFor(ws, toks) && mode != WaitEndOperand && Shaped(toks + [TEnd], mode == WaitOperand, count)
    ensures Stream(Spelled(ws, tail), mode, count) == toks + [TEnd]
    decreases |ws|
  {
    var all := toks + [TEnd];
    if ws == [] {
      assert all == [TEnd] && Blanks(tail) + "" == Blanks(tail);
      LexBlanks(tail, "", mode, count);
    } else {
      var w, tok, rest := ws[0], toks[0], Spelled(ws[1..], tail);
      assert all[0] == tok && all[1..] == toks[1..] + [TEnd] && WordFor(w.text, tok);
      var m, c := NextMode(tok), NextCount(tok, count);
      LexBlanks(w.gap, w.text + rest, mode, count);
      if tok.TVal? {
        OperatorFirst(ws[1..], tail, toks[1..], count);
        LexNumeral(w.text, rest, count);
      } else {
        LexSymbol(w.text, tok, rest, mode, count);
      }
      SpelledStream(ws[1..], tail, toks[1..], m, c);
      assert [tok] + (toks[1..] + [TEnd]) == all;
    }
  }

  // ---------------------------------------------------------------- and nothing else is

  /** The word that was read for a token. */
  lemma {:induction false} WordRead(s: string, mode: Mode, count: int) returns (w: string)
    requires NoNul(s) && mode != WaitEndOperand && Peek(s) != ' '
    requires var l := NextToken(s, mode, count); l.tok != TEnd && l.tok != TErr
    ensures var l := NextToken(s, mode, count); WordFor(w, l.tok) && s == w + l.rest && w != []
  {
    var l := NextToken(s, mode, count);
    if l.tok.TVal? {
      var n := DigitRun(s, 1);
      w := s[..n];
      DigitIff(s[0]);
      DigitRunDigits(s, 1);
      assert w[1..] == s[1..n];
      StrtolPlaces(w);
    } else {
      w := s[..1];
    }
  }

  lemma {:induction false} BlankFirst(n: nat, s: string)
    ensures " " + (Blanks(n) + s) == Blanks(n + 1) + s
  {
    assert " " + Blanks(n) == Blanks(n + 1);
    assert " " + (Blanks(n) + s) == " " + Blanks(n) + s;
  }

  /** One space more in front. */
  lemma {:induction false} SpaceFirst(ws: seq<Word>, tail: nat, toks: seq<Token>) returns (ws': seq<Word>, tail': nat)
    requires WordsFor(ws, toks)
    ensures WordsFor(ws', toks) && Spelled(ws', tail') == " " + Spelled(ws, tail)
  {
    if ws == [] {
      ws', tail' := [], tail + 1;
      BlankFirst(tail, "");
      assert Blanks(tail) + "" == Blanks(tail) && Blanks(tail + 1) + "" == Blanks(tail + 1);
    } else {
      ws', tail' := [Word(ws[0].gap + 1, ws[0].text)] + ws[1..], tail;
      assert ws'[1..] == ws[1..];
      BlankFirst(ws[0].gap, ws[0].text + Spelled(ws[1..], tail));
    }
  }

  /** One word more in front. */
  lemma {:induction false} WordFirst(w: string, tok: Token, ws: seq<Word>, tail: nat, toks: seq<Token>)
    returns (ws': seq<Word>)
    requires WordFor(w, tok) && WordsFor(ws, toks)
    ensures WordsFor(ws', [tok] + toks) && Spelled(ws', tail) == w + Spelled(ws, tail)
  {
    ws' := [Word(0, w)] + ws;
    assert ws'[1..] == ws;
    assert Blanks(0) + (w + Spelled(ws, tail)) == w + Spelled(ws, tail);
  }

  lemma {:induction false} StreamSpelled(s: string, mode: Mode, count: int, toks: seq<Token>)
    returns (ws: seq<Word>, tail: nat)
    requires NoNul(s) && mode != WaitEndOperand && Stream(s, mode, count) == toks + [TEnd]
    ensures WordsFor(ws, toks) && s == Spelled(ws, tail)
    decreases |s|
  {
    if Peek(s) == ' ' {
      assert s == " " + s[1..];
      LexSpace(s[1..], mode, count);
      ws, tail := StreamSpelled(s[1..], mode, count, toks);
      ws, tail := SpaceFirst(ws, tail, toks);
    } else if toks == [] {
      EndOnly(s, mode, count);
      ws, tail := [], 0;
    } else {
      var l := NextToken(s, mode, count);
      TokenFirst(s, mode, count, toks);
      var w := WordRead(s, mode, count);
      ws, tail := StreamSpelled(l.rest, l.mode, l.count, toks[1..]);
      ws := WordFirst(w, l.tok, ws, tail, toks[1..]);
      assert [l.tok] + toks[1..] == toks;
    }
  }

  lemma {:induction false} EndOnly(s: string, mode: Mode, count: int)
    requires NoNul(s) && Peek(s) != ' ' && Stream(s, mode, count) == [] + [TEnd]
    ensures s == []
  {
    assert Stream(s, mode, count)[0] == NextToken(s, mode, count).tok;
  }

  lemma {:induction false} TokenFirst(s: string, mode: Mode, count: int, toks: seq<Token>)
    requires toks != [] && Stream(s, mode, count) == toks + [TEnd]
    ensures var l := NextToken(s, mode, count);
      l.tok == toks[0] && l.tok != TEnd && l.tok != TErr && Stream(l.rest, l.mode, l.count) == toks[1..] + [TEnd]
  {
    var l, all := NextToken(s, mode, count), Stream(s, mode, count);
    assert all[0] == l.tok && all[0] == toks[0] && |all| > 1;
    assert all[1..] == toks[1..] + [TEnd];
    assert all[1..] == Stream(l.rest, l.mode, l.count);
  }

  // ---------------------------------------------------------------- the tokens of an expression

  lemma {:induction false} FactorShaped(f: Factor, rest: seq<Token>, count: nat)
    requires Shaped(rest, false, count)
    ensures Shaped(FactorTokens(f) + rest, true, count)
    decreases f
  {
    match f
    case Num(v) => assert ([TVal(v)] + rest)[1..] == rest;
    case Neg(g) =>
      FactorShaped(g, rest, count);
      assert (FactorTokens(f) + rest)[1..] == FactorTokens(g) + rest;
    case Paren(e) =>
      assert ([TClose] + rest)[1..] == rest;
      ExprShaped(e, [TClose] + rest, count + 1);
      assert (FactorTokens(f) + rest)[1..] == ExprTokens(e) + ([TClose] + rest);
  }

  lemma {:induction false} ConjShaped(c: Conj, rest: seq<Token>, count: nat)
    requires Shaped(rest, false, count)
    ensures Shaped(ConjTokens(c) + rest, true, count)
    decreases c
  {
    match c
    case Fac(f) => FactorShaped(f, rest, count);
    case Both(d, f) =>
      FactorShaped(f, rest, count);
      var more := [TOpr(And)] + (FactorTokens(f) + rest);
      assert more[1..] == FactorTokens(f) + rest;
      ConjShaped(d, more, count);
      assert ConjTokens(c) + rest == ConjTokens(d) + more;
  }

  lemma {:induction false} ExprShaped(e: Expr, rest: seq<Token>, count: nat)
    requires Shaped(rest, false, count)
    ensures Shaped(ExprTokens(e) + rest, true, count)
    decreases e
  {
    match e
    case Term(t) => ConjShaped(t, rest, count);
    case Alt(d, t) =>
      ConjShaped(t, rest, count);
      var more := [TOpr(Or)] + (ConjTokens(t) + rest);
      assert more[1..] == ConjTokens(t) + rest;
      ExprShaped(d, more, count);
      assert ExprTokens(e) + rest == ExprTokens(d) + more;
  }

  /** A text tokenizes to an expression if and only if it spells it. */
  lemma {:induction false} TokensIff(text: string, e: Expr)
    requires NoNul(text)
    ensures Stream(text, WaitOperand, 0) == ExprTokens(e) + [TEnd] <==> Spells(text, ExprTokens(e))
  {
    if Stream(text, WaitOperand, 0) == ExprTokens(e) + [TEnd] {
      var ws, tail := StreamSpelled(text, WaitOperand, 0, ExprTokens(e));
    }
    if ws, tail :| WordsFor(ws, ExprTokens(e)) && text == Spelled(ws, tail) {
      ExprShaped(e, [TEnd], 0);
      SpelledStream(ws, tail, ExprTokens(e), WaitOperand, 0);
    }
  }
}
