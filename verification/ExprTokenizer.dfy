/** The tokenizer of the expression language. */
module ExprTokenizer {
  import opened Wrappers
  import opened Scanning

  datatype Kind = IdentToken | NumberToken | StringToken | Op | LParen | RParen | Comma | Eof

  datatype Token = Token(kind: Kind, value: string)

  const TWO_CHAR_OPS: set<string> := {"==", "!=", "<=", ">=", "&&", "||"}

  const OP_CHARS: string := "+-*/<>=!&|"

  predicate IsNumberPart(c: char) {
    IsDigit(c) || c == '.'
  }

  predicate IsIdentPart(c: char) {
    IsLetter(c) || IsDigit(c) || c == '.'
  }

  function NotQuote(q: char): char -> bool {
    (c: char) => c != q
  }

  /** The text an operator is read as. */
  function OpAt(src: string, pos: nat): string
    requires pos < |src|
  {
    if pos + 2 <= |src| && src[pos..pos + 2] in TWO_CHAR_OPS then src[pos..pos + 2] else src[pos..pos + 1]
  }

  datatype Scanned = Scanned(token: Token, next: nat)

  /** The token that starts at a character that is no space, and the position after it; `None` for a bad character. */
  function TokenAt(src: string, pos: nat): (r: Option<Scanned>)
    requires pos < |src|
    ensures r.Some? ==> pos < r.value.next <= |src| + 1
  {
    var ch := src[pos];
    if ch == '(' then Some(Scanned(Token(LParen, "("), pos + 1))
    else if ch == ')' then Some(Scanned(Token(RParen, ")"), pos + 1))
    else if ch == ',' then Some(Scanned(Token(Comma, ","), pos + 1))
    else if ch in OP_CHARS then Some(Scanned(Token(Op, OpAt(src, pos)), pos + |OpAt(src, pos)|))
    else if ch == '"' || ch == '\'' then
      // a string that is never closed runs to the end of the input
      var end := ScanEnd(src, pos + 1, NotQuote(ch));
      Some(Scanned(Token(StringToken, src[pos + 1..end]), end + 1))
    else if IsDigit(ch) then
      var end := ScanEnd(src, pos + 1, IsNumberPart);
      Some(Scanned(Token(NumberToken, src[pos..end]), end))
    else if IsLetter(ch) then
      var end := ScanEnd(src, pos + 1, IsIdentPart);
      Some(Scanned(Token(IdentToken, src[pos..end]), end))
    else None
  }

  /** The tokens from a position on. */
  function TokensFrom(src: string, pos: nat): Option<seq<Token>>
    decreases |src| + 1 - pos
  {
    if pos >= |src| then Some([Token(Eof, "")])
    else
      var start := ScanEnd(src, pos, IsSpace);
      if start >= |src| then Some([Token(Eof, "")])
      else
        var first := TokenAt(src, start);
        if first.None? then None
        else
          Prepend([first.value.token], TokensFrom(src, first.value.next))
  }

  // ----- the tokenizer itself

  class Tokenizer {
    const input: string
    var pos: nat

    constructor (input: string)
      ensures this.input == input && pos == 0
    {
      this.input, pos := input, 0;
    }

    method SkipSpace()
      requires pos <= |input|
      modifies this
      ensures pos == ScanEnd(input, old(pos), IsSpace)
    {
      while pos < |input| && IsSpace(input[pos])
        invariant pos <= |input| && ScanEnd(input, pos, IsSpace) == ScanEnd(input, old(pos), IsSpace)
      {
        pos := pos + 1;
      }
    }

    method ReadOp() returns (op: string)
      requires pos < |input|
      modifies this
      ensures op == OpAt(input, old(pos)) && pos == old(pos) + |op|
    {
      if pos + 2 <= |input| {
        var two := input[pos..pos + 2];
        if two in TWO_CHAR_OPS {
          pos := pos + 2;
          return two;
        }
      }
      op := input[pos..pos + 1];
      pos := pos + 1;
    }

    method ReadString() returns (out: string)
      requires pos < |input|
      modifies this
      ensures var end := ScanEnd(input, old(pos) + 1, NotQuote(input[old(pos)]));
              pos == end + 1 && out == input[old(pos) + 1..end]
    {
      var quote := input[pos];
      pos := pos + 1;
      ghost var start := pos;
      out := "";
      while pos < |input| && input[pos] != quote
        invariant start <= pos <= |input| && out == input[start..pos]
        invariant ScanEnd(input, pos, NotQuote(quote)) == ScanEnd(input, start, NotQuote(quote))
      {
        out := out + [input[pos]];
        pos := pos + 1;
      }
      pos := pos + 1;
    }

    /** `readNumber` and `readIdent`: the longest stretch of one class. */
    method ReadWhile(p: char -> bool) returns (text: string)
      requires pos < |input| && p(input[pos])
      modifies this
      ensures pos == ScanEnd(input, old(pos) + 1, p) && text == input[old(pos)..pos]
    {
      var start := pos;
      while pos < |input| && p(input[pos])
        invariant start <= pos <= |input| && ScanEnd(input, pos, p) == ScanEnd(input, start, p)
      {
        pos := pos + 1;
      }
      text := input[start..pos];
    }

    /** The branches of the loop body: read the token that starts here. */
    method ReadToken() returns (r: Option<Token>)
      requires pos < |input|
      modifies this
      ensures var first := TokenAt(input, old(pos));
              if first.None? then r == None else r == Some(first.value.token) && pos == first.value.next
    {
      var ch := input[pos];
      if ch == '(' {
        pos := pos + 1;
        return Some(Token(LParen, "("));
      } else if ch == ')' {
        pos := pos + 1;
        return Some(Token(RParen, ")"));
      } else if ch == ',' {
        pos := pos + 1;
        return Some(Token(Comma, ","));
      } else if ch in OP_CHARS {
        var op := ReadOp();
        return Some(Token(Op, op));
      } else if ch == '"' || ch == '\'' {
        var text := ReadString();
        return Some(Token(StringToken, text));
      } else if IsDigit(ch) {
        var digits := ReadWhile(IsNumberPart);
        return Some(Token(NumberToken, digits));
      } else if IsLetter(ch) {
        var name := ReadWhile(IsIdentPart);
        return Some(Token(IdentToken, name));
      }
      return None;
    }

    method Tokenize() returns (r: Option<seq<Token>>)
      requires pos == 0
      modifies this
      ensures r == TokensFrom(input, 0)
    {
      var tokens: seq<Token> := [];
      PrependNothing(TokensFrom(input, 0));
      while pos < |input|
        invariant pos <= |input| + 1
        invariant TokensFrom(input, 0) == Prepend(tokens, TokensFrom(input, pos))
        decreases |input| + 1 - pos
      {
        SkipSpace();
        if pos >= |input| {
          return Some(tokens + [Token(Eof, "")]);
        }
        var token := ReadToken();
        if token.None? {
          return None;
        }
        PrependOne(tokens, token.value, TokensFrom(input, pos));
        tokens := tokens + [token.value];
      }
      return Some(tokens + [Token(Eof, "")]);
    }
  }

  // ----- spelling tokens out again

  predicate IsNumber(text: string) {
    text != [] && IsDigit(text[0]) && forall c | c in text :: IsNumberPart(c)
  }

  predicate IsIdent(text: string) {
    text != [] && IsLetter(text[0]) && forall c | c in text :: IsIdentPart(c)
  }

  /** The tokens the tokenizer can produce before the end of the input. */
  predicate Spellable(t: Token) {
    match t.kind
    case LParen => t.value == "("
    case RParen => t.value == ")"
    case Comma => t.value == ","
    case Op => t.value in TWO_CHAR_OPS || (|t.value| == 1 && t.value[0] in OP_CHARS)
    case StringToken => '"' !in t.value || '\'' !in t.value
    case NumberToken => IsNumber(t.value)
    case IdentToken => IsIdent(t.value)
    case Eof => false
  }

  predicate AllSpellable(ts: seq<Token>) {
    forall t | t in ts :: Spellable(t)
  }

  function QuoteFor(text: string): char {
    if '"' in text then '\'' else '"'
  }

  function Spell(t: Token): string {
    if t.kind.StringToken? then [QuoteFor(t.value)] + t.value + [QuoteFor(t.value)] else t.value
  }

  predicate Blank(text: string) {
    text == "" || (IsSpace(text[0]) && Blank(text[1..]))
  }

  /** The token ends where this text begins. */
  predicate Ends(t: Token, rest: string) {
    rest == "" ||
    match t.kind
    case IdentToken => !IsIdentPart(rest[0])
    case NumberToken => !IsNumberPart(rest[0])
    case Op => |t.value| == 2 || t.value + rest[..1] !in TWO_CHAR_OPS
    case _ => true
  }

  /** Each token with the gap behind it. */
  function SpellWith(ts: seq<Token>, gaps: seq<string>): string
    requires |gaps| == |ts|
  {
    if ts == [] then "" else Spell(ts[0]) + (gaps[0] + SpellWith(ts[1..], gaps[1..]))
  }

  /** The gaps are white space, and there is one wherever a token would otherwise run on into the next. */
  predicate Spaced(ts: seq<Token>, gaps: seq<string>)
    requires |gaps| == |ts|
  {
    ts == [] ||
    (Blank(gaps[0]) && Ends(ts[0], gaps[0] + SpellWith(ts[1..], gaps[1..])) && Spaced(ts[1..], gaps[1..]))
  }

  /** The tokens in order, each followed by a space. */
  function SpellAll(ts: seq<Token>): string {
    if ts == [] then "" else Spell(ts[0]) + " " + SpellAll(ts[1..])
  }

  lemma {:induction false} StringReadsBack(src: string, pos: nat, value: string, q: char)
    requires q == '"' || q == '\''
    requires q !in value && At(src, pos, [q] + value + [q])
    ensures pos < |src| && TokenAt(src, pos) == Some(Scanned(Token(StringToken, value), pos + |value| + 2))
  {
    var text := [q] + value + [q];
    TextAt(src, pos, text);
    var end := pos + |value| + 1;
    assert src[pos] == text[0] && src[end] == text[|value| + 1];
    forall k | pos + 1 <= k < end ensures src[k] != q {
      assert src[k] == text[k - pos] == value[k - pos - 1];
    }
    ScanEndIs(src, pos + 1, NotQuote(q), end);
    assert src[pos + 1..end] == value;
  }

  lemma OneThenRest(src: string, pos: nat)
    requires pos + 2 <= |src|
    ensures src[pos..pos + 2] == src[pos..pos + 1] + src[pos + 1..][..1]
  {
  }

  lemma {:induction false} OpReadsBack(src: string, pos: nat, value: string, rest: string)
    requires Spellable(Token(Op, value)) && At(src, pos, value) && src[pos + |value|..] == rest
    requires Ends(Token(Op, value), rest)
    ensures pos < |src| && src[pos] in OP_CHARS && OpAt(src, pos) == value
  {
    AtIndex(src, pos, value, 0);
    if |value| == 1 && pos + 2 <= |src| {
      OneThenRest(src, pos);
      assert src[pos..pos + 1] == value;
    }
  }

  lemma OpCharsStandOut(c: char)
    requires c in OP_CHARS
    ensures c !in "(),\"'" && !IsSpace(c)
  {
  }

  lemma {:induction false} PunctuationReadsBack(src: string, pos: nat, t: Token)
    requires Spellable(t) && t.kind in {LParen, RParen, Comma} && At(src, pos, Spell(t))
    ensures pos < |src| && TokenAt(src, pos) == Some(Scanned(t, pos + 1)) && !IsSpace(src[pos])
  {
    TextAt(src, pos, Spell(t));
  }

  lemma {:induction false} QuotedReadsBack(src: string, pos: nat, t: Token)
    requires t.kind == StringToken && Spellable(t) && At(src, pos, Spell(t))
    ensures pos < |src| && TokenAt(src, pos) == Some(Scanned(t, pos + |Spell(t)|)) && !IsSpace(src[pos])
  {
    StringReadsBack(src, pos, t.value, QuoteFor(t.value));
    AtIndex(src, pos, Spell(t), 0);
  }

  lemma {:induction false} NumberReadsBack(src: string, pos: nat, t: Token)
    requires t.kind == NumberToken && Spellable(t) && At(src, pos, t.value)
    requires pos + |t.value| == |src| || !IsNumberPart(src[pos + |t.value|])
    ensures pos < |src| && TokenAt(src, pos) == Some(Scanned(t, pos + |t.value|)) && !IsSpace(src[pos])
  {
    StretchReadsBack(src, pos, t.value, IsNumberPart);
  }

  lemma {:induction false} IdentReadsBack(src: string, pos: nat, t: Token)
    requires t.kind == IdentToken && Spellable(t) && At(src, pos, t.value)
    requires pos + |t.value| == |src| || !IsIdentPart(src[pos + |t.value|])
    ensures pos < |src| && TokenAt(src, pos) == Some(Scanned(t, pos + |t.value|)) && !IsSpace(src[pos])
  {
    StretchReadsBack(src, pos, t.value, IsIdentPart);
  }

  lemma {:induction false} OperatorReadsBack(src: string, pos: nat, t: Token, rest: string)
    requires t.kind == Op && Spellable(t) && At(src, pos, t.value) && src[pos + |t.value|..] == rest && Ends(t, rest)
    ensures pos < |src| && TokenAt(src, pos) == Some(Scanned(t, pos + |t.value|)) && !IsSpace(src[pos])
  {
    OpReadsBack(src, pos, t.value, rest);
    OpCharsStandOut(src[pos]);
    assert forall c | c in ['(', ')', ','] :: c in "(),\"'";
  }

  /** A spelled token is read back whole if what follows does not run on. */
  lemma {:induction false} TokenReadsBack(src: string, pos: nat, t: Token, rest: string)
    requires Spellable(t) && pos <= |src| && src[pos..] == Spell(t) + rest && Ends(t, rest)
    ensures pos < |src| && TokenAt(src, pos) == Some(Scanned(t, pos + |Spell(t)|)) && !IsSpace(src[pos])
    ensures |Spell(t)| > 0 && src[pos + |Spell(t)|..] == rest
  {
    SplitRest(src, pos, Spell(t), rest);
    match t.kind {
      case StringToken => QuotedReadsBack(src, pos, t);
      case NumberToken => NumberReadsBack(src, pos, t);
      case IdentToken => IdentReadsBack(src, pos, t);
      case Op => OperatorReadsBack(src, pos, t, rest);
      case _ => PunctuationReadsBack(src, pos, t);
    }
  }

  /** White space is skipped, wherever it stands. */
  lemma {:induction false} BlankIsSkipped(src: string, pos: nat, gap: string, end: nat)
    requires At(src, pos, gap) && Blank(gap) && end == pos + |gap|
    ensures ScanEnd(src, pos, IsSpace) == ScanEnd(src, end, IsSpace)
    decreases |gap|
  {
    if gap != "" {
      assert gap == gap[..1] + gap[1..];
      AtIndex(src, pos, gap, 0);
      AtConcat(src, pos, gap[..1], gap[1..]);
      BlankIsSkipped(src, pos + 1, gap[1..], end);
    }
  }

  lemma {:induction false} TokensAfterBlank(src: string, pos: nat, gap: string, tail: string, after: nat)
    requires pos <= |src| && src[pos..] == gap + tail && Blank(gap) && after == pos + |gap|
    ensures after <= |src| && src[after..] == tail && TokensFrom(src, pos) == TokensFrom(src, after)
  {
    SplitRest(src, pos, gap, tail);
    BlankIsSkipped(src, pos, gap, after);
  }

  /** A token and the gap behind it. */
  lemma {:induction false} FirstReadsBack(src: string, pos: nat, t: Token, gap: string, tail: string)
    returns (next: nat, after: nat)
    requires Spellable(t) && Blank(gap) && Ends(t, gap + tail)
    requires pos <= |src| && src[pos..] == Spell(t) + (gap + tail)
    ensures pos < next <= after <= |src| && !IsSpace(src[pos]) && TokenAt(src, pos) == Some(Scanned(t, next))
    ensures TokensFrom(src, next) == TokensFrom(src, after) && src[after..] == tail
  {
    next := TokenThenRest(src, pos, t, gap + tail);
    after := next + |gap|;
    TokensAfterBlank(src, next, gap, tail, after);
  }

  lemma {:induction false} TokenThenRest(src: string, pos: nat, t: Token, rest: string) returns (next: nat)
    requires Spellable(t) && Ends(t, rest) && pos <= |src| && src[pos..] == Spell(t) + rest
    ensures pos < next <= |src| && !IsSpace(src[pos]) && TokenAt(src, pos) == Some(Scanned(t, next))
    ensures src[next..] == rest
  {
    TokenReadsBack(src, pos, t, rest);
    next := pos + |Spell(t)|;
  }

  lemma {:induction false} ReadsStep(src: string, pos: nat, ts: seq<Token>, next: nat)
    requires ts != [] && pos < |src| && !IsSpace(src[pos]) && pos < next
    requires TokenAt(src, pos) == Some(Scanned(ts[0], next))
    requires TokensFrom(src, next) == Some(ts[1..] + [Token(Eof, "")])
    ensures TokensFrom(src, pos) == Some(ts + [Token(Eof, "")])
  {
    TokensStep(src, pos, Scanned(ts[0], next));
    assert [ts[0]] + (ts[1..] + [Token(Eof, "")]) == ts + [Token(Eof, "")];
  }

  lemma {:induction false} SpacedTokensReadBack(src: string, pos: nat, ts: seq<Token>, gaps: seq<string>)
    requires AllSpellable(ts) && |gaps| == |ts| && Spaced(ts, gaps)
    requires pos <= |src| && src[pos..] == SpellWith(ts, gaps)
    ensures TokensFrom(src, pos) == Some(ts + [Token(Eof, "")])
    decreases |ts|
  {
    if ts == [] {
      assert |src[pos..]| == 0 && ts + [Token(Eof, "")] == [Token(Eof, "")];
    } else {
      assert ts[0] in ts;
      var next, after := FirstReadsBack(src, pos, ts[0], gaps[0], SpellWith(ts[1..], gaps[1..]));
      SpacedTokensReadBack(src, after, ts[1..], gaps[1..]);
      ReadsStep(src, pos, ts, next);
    }
  }

  lemma {:induction false} TokensStep(src: string, pos: nat, first: Scanned)
    requires pos < |src| && !IsSpace(src[pos]) && TokenAt(src, pos) == Some(first)
    ensures TokensFrom(src, pos) == Prepend([first.token], TokensFrom(src, first.next))
  {
    ScanEndIs(src, pos, IsSpace, pos);
  }

  /** White space does not matter: any tokens, with any white space before, between and behind them that keeps them
      apart, are read as those tokens. */
  lemma {:induction false} LayoutIsIgnored(lead: string, ts: seq<Token>, gaps: seq<string>)
    requires AllSpellable(ts) && |gaps| == |ts| && Blank(lead) && Spaced(ts, gaps)
    ensures TokensFrom(lead + SpellWith(ts, gaps), 0) == Some(ts + [Token(Eof, "")])
  {
    LayoutOf(lead + SpellWith(ts, gaps), lead, SpellWith(ts, gaps));
    SpacedTokensReadBack(lead + SpellWith(ts, gaps), |lead|, ts, gaps);
  }

  lemma LayoutOf(src: string, lead: string, text: string)
    requires src == lead + text && Blank(lead)
    ensures src[|lead|..] == text && TokensFrom(src, 0) == TokensFrom(src, |lead|)
  {
    assert src[0..] == src;
    TokensAfterBlank(src, 0, lead, text, |lead|);
  }

  lemma {:induction false} SpacesAreGaps(ts: seq<Token>, gaps: seq<string>)
    requires gaps == seq(|ts|, _ => " ")
    ensures Spaced(ts, gaps) && SpellWith(ts, gaps) == SpellAll(ts)
  {
    if ts != [] {
      SpacesAreGaps(ts[1..], gaps[1..]);
      SpaceEnds(ts[0], SpellWith(ts[1..], gaps[1..]));
      assert Spell(ts[0]) + (" " + SpellAll(ts[1..])) == Spell(ts[0]) + " " + SpellAll(ts[1..]);
    }
  }

  lemma SpaceEnds(t: Token, tail: string)
    ensures Ends(t, " " + tail) && Blank(" ")
  {
    assert (" " + tail)[0] == ' ' && (" " + tail)[..1] == " ";
    forall op | op in TWO_CHAR_OPS ensures op != t.value + " " {
      assert (t.value + " ")[|t.value|] == ' ' && op[|op| - 1] != ' ';
    }
  }

  /** Spelling any tokens out and tokenizing the text gives the tokens back. */
  lemma TokenizeInvertsSpelling(ts: seq<Token>)
    requires AllSpellable(ts)
    ensures TokensFrom(SpellAll(ts), 0) == Some(ts + [Token(Eof, "")])
  {
    var gaps := seq(|ts|, _ => " ");
    SpacesAreGaps(ts, gaps);
    LayoutIsIgnored("", ts, gaps);
    assert "" + SpellWith(ts, gaps) == SpellAll(ts);
  }

  lemma {:induction false} QuotedIsSpellable(src: string, pos: nat)
    requires pos < |src| && (src[pos] == '"' || src[pos] == '\'') && TokenAt(src, pos).Some?
    ensures Spellable(TokenAt(src, pos).value.token)
  {
    ScanStops(src, pos + 1, NotQuote(src[pos]));
    assert src[pos] !in src[pos + 1..ScanEnd(src, pos + 1, NotQuote(src[pos]))];
  }

  lemma {:induction false} TokenIsSpellable(src: string, pos: nat)
    requires pos < |src| && TokenAt(src, pos).Some?
    ensures Spellable(TokenAt(src, pos).value.token)
  {
    var ch := src[pos];
    if ch == '"' || ch == '\'' {
      QuotedIsSpellable(src, pos);
    } else if IsDigit(ch) {
      StretchIsUniform(src, pos, IsNumberPart);
    } else if IsLetter(ch) {
      StretchIsUniform(src, pos, IsIdentPart);
    }
  }

  /** What the tokenizer produces for any input: spellable tokens and a single end mark, which comes last. */
  ghost predicate EofTerminated(ts: seq<Token>) {
    && ts != [] && ts[|ts| - 1].kind == Eof
    && forall i | 0 <= i < |ts| - 1 :: Spellable(ts[i])
  }

  /** The end mark comes last and nowhere else. */
  ghost predicate Terminated(ts: seq<Token>) {
    ts != [] && forall i | 0 <= i < |ts| :: ts[i].kind == Eof <==> i == |ts| - 1
  }

  lemma EofIsLast(ts: seq<Token>)
    requires EofTerminated(ts)
    ensures Terminated(ts)
  {
    forall i | 0 <= i < |ts| - 1 ensures ts[i].kind != Eof {
      assert Spellable(ts[i]);
    }
  }

  lemma {:induction false} TokensAreTerminated(src: string, pos: nat)
    requires TokensFrom(src, pos).Some?
    ensures EofTerminated(TokensFrom(src, pos).value)
    decreases |src| + 1 - pos
  {
    if pos < |src| {
      var start := ScanEnd(src, pos, IsSpace);
      if start < |src| {
        TokenIsSpellable(src, start);
        var next := TokenAt(src, start).value.next;
        TokensAreTerminated(src, next);
      }
    }
  }

  // ----- short texts, character by character

  lemma {:induction false} StartsAt(src: string, first: Scanned)
    requires src != "" && !IsSpace(src[0]) && TokenAt(src, 0) == Some(first)
    ensures TokensFrom(src, 0) == Prepend([first.token], TokensFrom(src, first.next))
  {
  }

  lemma {:induction false} EndsAfter(src: string, first: Scanned)
    requires src != "" && !IsSpace(src[0]) && TokenAt(src, 0) == Some(first) && first.next >= |src|
    ensures TokensFrom(src, 0) == Some([first.token, Token(Eof, "")])
  {
    StartsAt(src, first);
    assert [first.token] + [Token(Eof, "")] == [first.token, Token(Eof, "")];
  }

  lemma {:induction false} SpaceFirst(src: string)
    requires src != "" && IsSpace(src[0]) && (|src| > 1 ==> !IsSpace(src[1]))
    ensures ScanEnd(src, 0, IsSpace) == 1
  {
    ScanEndIs(src, 0, IsSpace, 1);
  }

  /** What a single character is read as. */
  lemma {:induction false} OneCharacter(c: char)
    ensures TokensFrom([c], 0) ==
            if c in SPACES then Some([Token(Eof, "")])
            else if c == '(' then Some([Token(LParen, "("), Token(Eof, "")])
            else if c == ')' then Some([Token(RParen, ")"), Token(Eof, "")])
            else if c == ',' then Some([Token(Comma, ","), Token(Eof, "")])
            else if c in "+-*/<>=!&|" then Some([Token(Op, [c]), Token(Eof, "")])
            else if c == '"' || c == '\'' then Some([Token(StringToken, ""), Token(Eof, "")])
            else if c in DIGITS then Some([Token(NumberToken, [c]), Token(Eof, "")])
            else if c in LOWER || c in UPPER || c == '_' then Some([Token(IdentToken, [c]), Token(Eof, "")])
            else None
  {
    SpaceIs(c);
    DigitIs(c);
    LetterIs(c);
    assert [c][0..1] == [c] && [c][1..1] == "";
    if IsSpace(c) {
      SpaceFirst([c]);
    } else if TokenAt([c], 0).Some? {
      EndsAfter([c], TokenAt([c], 0).value);
    }
  }

  lemma {:induction false} StretchOfTwo(a: char, b: char, p: char -> bool)
    ensures [a, b][0..ScanEnd([a, b], 1, p)] == [a, b] <==> p(b)
  {
    assert [a, b][0..2] == [a, b] && |[a, b][0..1]| == 1;
  }

  lemma {:induction false} OperatorOfTwo(a: char, b: char)
    requires a in OP_CHARS
    ensures TokenAt([a, b], 0) == Some(Scanned(Token(Op, OpAt([a, b], 0)), |OpAt([a, b], 0)|))
    ensures OpAt([a, b], 0) == [a, b] <==> [a, b] in TWO_CHAR_OPS
  {
    assert [a, b][0..2] == [a, b] && |[a, b][0..1]| == 1;
  }

  /** Which two characters are read as one token: the parts of a word, those of a number, and six operators. */
  lemma {:induction false} TwoCharacters(a: char, b: char)
    ensures TokenAt([a, b], 0).Some? && TokenAt([a, b], 0).value.token.value == [a, b] <==>
            || (IsLetter(a) && (IsLetter(b) || IsDigit(b) || b == '.'))
            || (IsDigit(a) && (IsDigit(b) || b == '.'))
            || [a, b] == "==" || [a, b] == "!=" || [a, b] == "<=" || [a, b] == ">=" || [a, b] == "&&" || [a, b] == "||"
  {
    if IsLetter(a) {
      StretchOfTwo(a, b, IsIdentPart);
    } else if IsDigit(a) {
      StretchOfTwo(a, b, IsNumberPart);
    } else if a in OP_CHARS {
      OperatorOfTwo(a, b);
    } else if TokenAt([a, b], 0).Some? {
      assert |TokenAt([a, b], 0).value.token.value| < 2;
    }
  }
}
