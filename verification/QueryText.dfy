/** Reading the text of an intarray query: the tokenizer and the parser as they run, on a
    work state that is advanced in place. */
module QueryText {
  import opened Int32
  import opened QuerySyntax
  import opened QueryParse

  datatype Mode = WaitOperand | WaitEndOperand | WaitOperator

  datatype Lexed = Lexed(tok: Token, rest: string, mode: Mode, count: int)

  /** The character under the cursor; the text ends with a zero byte. */
  function Peek(s: string): char
  {
    if s == [] then '\0' else s[0]
  }

  predicate IsDigit(c: char) { '0' <= c <= '9' }

  /** The first place from `i` on that holds no digit. */
  function DigitRun(s: string, i: nat): (n: nat)
    requires i <= |s|
    ensures i <= n <= |s|
    decreases |s| - i
  {
    if i < |s| && IsDigit(s[i]) then DigitRun(s, i + 1) else i
  }

  /** Value of a string of digits, cut at the first one the base does not have. */
  function Digits(s: string, base: nat, acc: nat): nat
  {
    if s == [] || !IsDigit(s[0]) || s[0] as int - 48 >= base then acc
    else Digits(s[1..], base, acc * base + (s[0] as int - 48))
  }

  /** `strtol(s, NULL, 0)` on a sign and digits: a leading zero announces octal. */
  function Strtol(s: string): int
    requires s != []
  {
    var d := if s[0] == '-' then s[1..] else s;
    var m: int := Digits(d, if d != [] && d[0] == '0' then 8 else 10, 0);
    if s[0] == '-' then -m else m
  }

  const NUMBUF: nat := 16

  function Number(s: string, count: int): (l: Lexed)
    requires s != []
    ensures |l.rest| <= |s| && (l.tok.TVal? ==> |l.rest| < |s|)
    ensures l.tok.TVal? || l.tok == TErr
  {
    var n := DigitRun(s, 1);
    if n >= NUMBUF then Lexed(TErr, s, WaitOperand, count)
    else if !Fits32(Strtol(s[..n])) then Lexed(TErr, s, WaitOperand, count)
    else if count != 0 && Peek(s[n..]) == '\0' then Lexed(TErr, s, WaitOperand, count)
    else Lexed(TVal(Strtol(s[..n])), s[n..], WaitOperator, count)
  }

  function NextToken(s: string, mode: Mode, count: int): (l: Lexed)
    ensures |l.rest| <= |s|
    ensures l.tok != TEnd && l.tok != TErr ==> |l.rest| < |s| && l.mode != WaitEndOperand
    decreases |s|
  {
    var c := Peek(s);
    match mode
    case WaitOperand =>
      if IsDigit(c) || c == '-' then Number(s, count)
      else if c == '!' then Lexed(TOpr(Not), s[1..], WaitOperand, count)
      else if c == '(' then Lexed(TOpen, s[1..], WaitOperand, count + 1)
      else if c == ' ' then NextToken(s[1..], mode, count)
      else Lexed(TErr, s, mode, count)
    case WaitOperator =>
      if c == '&' then Lexed(TOpr(And), s[1..], WaitOperand, count)
      else if c == '|' then Lexed(TOpr(Or), s[1..], WaitOperand, count)
      else if c == ')' then
        Lexed(if count - 1 < 0 then TErr else TClose, s[1..], mode, count - 1)
      else if c == '\0' then Lexed(if count != 0 then TErr else TEnd, s, mode, count)
      else if c == ' ' then NextToken(s[1..], mode, count)
      else Lexed(TErr, s, mode, count)
    case WaitEndOperand => Lexed(TErr, s, mode, count)
  }

  /** All tokens of a text, up to the first end or error. */
  function Stream(s: string, mode: Mode, count: int): seq<Token>
    decreases |s|
  {
    var l := NextToken(s, mode, count);
    if l.tok == TEnd || l.tok == TErr then [l.tok] else [l.tok] + Stream(l.rest, l.mode, l.count)
  }

  lemma {:induction false} NextTokenShaped(s: string, mode: Mode, count: nat)
    requires mode != WaitEndOperand
    ensures var l := NextToken(s, mode, count); var operand := mode == WaitOperand;
      match l.tok
      case TVal(_) => operand && l.mode == WaitOperator && l.count == count
      case TOpr(op) => operand == (op == Not) && l.mode == WaitOperand && l.count == count
      case TOpen => operand && l.mode == WaitOperand && l.count == count + 1
      case TClose => !operand && count > 0 && l.mode == WaitOperator && l.count == count - 1
      case TEnd => !operand && count == 0 && Peek(l.rest) == '\0' && l.mode == mode && l.count == count
      case TErr => true
    decreases |s|
  {
    if Peek(s) == ' ' {
      NextTokenShaped(s[1..], mode, count);
    }
  }

  /** What the parser relies on is true of every text. */
  lemma {:induction false} StreamShaped(s: string, mode: Mode, count: nat)
    requires mode != WaitEndOperand
    ensures Shaped(Stream(s, mode, count), mode == WaitOperand, count)
    decreases |s|
  {
    NextTokenShaped(s, mode, count);
    var l := NextToken(s, mode, count);
    if l.tok != TEnd && l.tok != TErr {
      StreamShaped(l.rest, l.mode, l.count);
      assert Stream(s, mode, count)[1..] == Stream(l.rest, l.mode, l.count);
    }
  }

  datatype Outcome = Done | SyntaxFailure | ComplexFailure

  ghost predicate Agrees(o: Outcome, r: PolResult)
  {
    match r
    case Ok(_, _) => o == Done
    case SyntaxError => o == SyntaxFailure
    case TooComplex => o == ComplexFailure
  }

  class WorkState {
    const text: string
    var buf: nat
    var state: Mode
    var count: int
    var str: seq<Node>
    var num: nat

    ghost predicate Valid()
      reads this
    {
      buf <= |text| && state != WaitEndOperand && count >= 0 && num == |str|
    }

    ghost function Rest(): seq<Token>
      requires buf <= |text|
      reads this
    {
      Stream(text[buf..], state, count)
    }

    constructor (text: string)
      ensures Valid() && this.text == text && buf == 0 && state == WaitOperand && count == 0 && str == []
    {
      this.text, buf, state, count, str, num := text, 0, WaitOperand, 0, [], 0;
    }

    /** Reads a number, whose first character is under the cursor, into the 16-byte
        buffer. */
    method ReadOperand() returns (tok: Token)
      requires buf < |text| && state == WaitEndOperand
      modifies this`buf, this`state
      ensures var l := Number(text[old(buf)..], count);
        && tok == l.tok
        && (tok != TErr ==> old(buf) < buf <= |text| && text[buf..] == l.rest && state == WaitOperator)
    {
      ghost var s, start := text[buf..], buf;
      var nnn := [text[buf]];
      buf := buf + 1;
      while buf < |text| && IsDigit(text[buf])
        invariant start < buf <= |text| && |nnn| == buf - start < NUMBUF
        invariant nnn == s[..buf - start]
        invariant DigitRun(s, buf - start) == DigitRun(s, 1)
      {
        nnn := nnn + [text[buf]];
        buf := buf + 1;
        if |nnn| >= NUMBUF {
          return TErr;
        }
      }
      assert s[buf - start..] == text[buf..];
      var lval := Strtol(nnn);
      if !Fits32(lval) {
        return TErr;
      }
      state := WaitOperator;
      tok := if count != 0 && Peek(text[buf..]) == '\0' then TErr else TVal(lval);
    }

    method GetToken() returns (tok: Token)
      requires Valid()
      modifies this`buf, this`state, this`count
      ensures var l := NextToken(old(text[buf..]), old(state), old(count));
        && tok == l.tok
        && (tok != TErr ==> Valid() && text[buf..] == l.rest && state == l.mode && count == l.count)
    {
      while true
        invariant buf <= |text| && count == old(count) && state == old(state)
        invariant NextToken(text[buf..], state, count) == NextToken(old(text[buf..]), old(state), old(count))
        decreases |text| - buf
      {
        var c := Peek(text[buf..]);
        if state == WaitOperand {
          if IsDigit(c) || c == '-' {
            state := WaitEndOperand;
            tok := ReadOperand();
            return;
          } else if c == '!' {
            buf := buf + 1;
            return TOpr(Not);
          } else if c == '(' {
            count := count + 1;
            buf := buf + 1;
            return TOpen;
          } else if c != ' ' {
            return TErr;
          }
        } else {
          if c == '&' || c == '|' {
            state := WaitOperand;
            buf := buf + 1;
            return TOpr(if c == '&' then And else Or);
          } else if c == ')' {
            buf := buf + 1;
            count := count - 1;
            return if count < 0 then TErr else TClose;
          } else if c == '\0' {
            return if count != 0 then TErr else TEnd;
          } else if c != ' ' {
            return TErr;
          }
        }
        buf := buf + 1;
      }
    }

    /** The next token, as the head of the stream. */
    method Next() returns (tok: Token)
      requires Valid()
      modifies this`buf, this`state, this`count
      ensures tok == TErr ==> old(Rest()) == [TErr]
      ensures tok == TEnd ==> Valid() && buf >= old(buf) && old(Rest()) == Rest() == [TEnd]
      ensures tok != TErr && tok != TEnd ==> Valid() && buf > old(buf) && old(Rest()) == [tok] + Rest()
    {
      NextTokenShaped(text[buf..], state, count);
      tok := GetToken();
    }

    method PushQuery(node: Node)
      requires Valid()
      modifies this`str, this`num
      ensures Valid() && str == old(str) + [node]
    {
      str := str + [node];
      num := num + 1;
    }

    /** Emits the waiting `&` and `!` from the top of the stack. */
    method EmitTight(stack: array<Op>, lenstack: nat) returns (left: nat)
      requires Valid() && lenstack <= stack.Length
      modifies this`str, this`num
      ensures Valid() && left <= lenstack
      ensures stack[..left] == Loosen(stack[..lenstack])
      ensures str == old(str) + Loosened(stack[..lenstack])
    {
      left := lenstack;
      while left > 0 && Tight(stack[left - 1])
        invariant Valid() && left <= lenstack
        invariant Loosen(stack[..left]) == Loosen(stack[..lenstack])
        invariant str + Loosened(stack[..left]) == old(str) + Loosened(stack[..lenstack])
      {
        assert stack[..left][..left - 1] == stack[..left - 1];
        left := left - 1;
        PushQuery(Opr(stack[left]));
      }
    }

    /** Emits the whole stack. */
    method EmitAll(stack: array<Op>, lenstack: nat)
      requires Valid() && lenstack <= stack.Length
      modifies this`str, this`num
      ensures Valid() && str == old(str) + Unwound(stack[..lenstack])
    {
      var left: nat := lenstack;
      while left > 0
        invariant Valid() && left <= lenstack
        invariant str + Unwound(stack[..left]) == old(str) + Unwound(stack[..lenstack])
      {
        assert stack[..left][..left - 1] == stack[..left - 1];
        left := left - 1;
        PushQuery(Opr(stack[left]));
      }
    }

    /** Takes one operator from the stream: `|` is written behind an operator already
        waiting, every other operator waits on the stack, which may be full. */
    method TakeOperator(op: Op, stack: array<Op>, lenstack: nat, ghost rest: seq<Token>)
      returns (ok: bool, len: nat)
      requires Valid() && stack.Length == STACKDEPTH && lenstack <= STACKDEPTH
      modifies this`str, this`num, stack
      ensures Valid() && len <= STACKDEPTH
      ensures var r := Pol([TOpr(op)] + rest, old(stack[..lenstack]), old(str));
        if ok then r == Pol(rest, stack[..len], str) else r == TooComplex
    {
      ok, len := true, lenstack;
      if lenstack > 0 && op == Or {
        PolOr(rest, stack[..lenstack], str);
        PushQuery(Opr(op));
      } else {
        PolPush(op, rest, stack[..lenstack], str);
        if lenstack == STACKDEPTH {
          return false, len;
        }
        stack[lenstack] := op;
        len := lenstack + 1;
        assert stack[..len] == old(stack[..lenstack]) + [op];
      }
    }

    /** Parses one parenthesis level. */
    method MakePol() returns (r: Outcome)
      requires Valid()
      modifies this
      ensures Agrees(r, Pol(old(Rest()), [], old(str)))
      ensures r == Done ==> Valid() && buf >= old(buf)
      ensures r == Done ==> Pol(old(Rest()), [], old(str)) == Ok(str, Rest())
      decreases |text| - buf
    {
      ghost var want := Pol(Rest(), [], str);
      var stack := new Op[STACKDEPTH];
      var lenstack: nat := 0;
      while true
        invariant Valid() && buf >= old(buf) && lenstack <= STACKDEPTH
        invariant Pol(Rest(), stack[..lenstack], str) == want
        decreases |text| - buf
      {
        ghost var s := stack[..lenstack];
        var tok := Next();
        match tok {
          case TVal(v) =>
            PolVal(v, Rest(), s, str);
            PushQuery(Val(v));
            lenstack := EmitTight(stack, lenstack);
          case TOpr(op) =>
            var ok;
            ok, lenstack := TakeOperator(op, stack, lenstack, Rest());
            if !ok {
              return ComplexFailure;
            }
          case TOpen =>
            PolParen(Rest(), s, str);
            r := MakePol();
            if r != Done {
              return;
            }
            lenstack := EmitTight(stack, lenstack);
          case TClose =>
            PolStop(TClose, Rest(), s, str);
            EmitAll(stack, lenstack);
            return Done;
          case TEnd =>
            PolStop(TEnd, [], s, str);
            EmitAll(stack, lenstack);
            return Done;
          case TErr =>
            return SyntaxFailure;
        }
      }
    }
  }
}
