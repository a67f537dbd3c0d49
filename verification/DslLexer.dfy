/** The lexer of the workflow language, with escapes in strings, comments, and line and column tracking. */
module DslLexer {
  import opened Wrappers
  import opened Scanning

  datatype Kind =
    | Keyword | IdentToken | NumberToken | StringToken
    | LBrace | RBrace | LBracket | RBracket | Colon | Comma | Arrow | Eof

  /** What the parser sees of a token. */
  datatype Lexeme = Lexeme(kind: Kind, value: string)

  datatype DslToken = DslToken(lexeme: Lexeme, line: nat, column: nat)

  const KEYWORDS: set<string> := {
    "workflow", "task", "constraint", "depends", "optional", "warn", "block", "timeout", "version", "handler", "expr"
  }

  predicate IsIdentPart(c: char) {
    IsLetter(c) || IsDigit(c) || c == '.' || c == '-'
  }

  predicate IsNoNewline(c: char) {
    c != '\n'
  }

  // ----- positions

  /** One more than the number of line ends before `pos`. */
  function LineAt(src: string, pos: nat): nat {
    if pos == 0 then 1 else LineAt(src, pos - 1) + if pos <= |src| && src[pos - 1] == '\n' then 1 else 0
  }

  /** One more than the number of characters between the last line end before `pos` and `pos`. */
  function ColumnAt(src: string, pos: nat): nat {
    if pos == 0 then 1
    else if pos <= |src| && src[pos - 1] == '\n' then 1
    else ColumnAt(src, pos - 1) + 1
  }

  // ----- what the lexer computes

  /** Where white space and comments end. */
  function SkipEnd(src: string, pos: nat): (end: nat)
    requires pos <= |src|
    ensures pos <= end <= |src|
    decreases |src| - pos
  {
    if pos == |src| then pos
    else if IsSpace(src[pos]) then SkipEnd(src, pos + 1)
    else if src[pos] == '#' then SkipEnd(src, ScanEnd(src, pos + 1, IsNoNewline))
    else pos
  }

  datatype Text = Text(value: string, next: nat)

  /** The rest of a string from `pos` to the closing quote, and the position after it. A backslash stands for the
      character after it; a string that is never closed runs to the end of the input. */
  function StringFrom(src: string, pos: nat, q: char): (r: Text)
    ensures r.next > pos
    decreases |src| - pos
  {
    if pos >= |src| || src[pos] == q then Text("", pos + 1)
    else if src[pos] == '\\' then
      var rest := StringFrom(src, pos + 2, q);
      Text(Escaped(src, pos) + rest.value, rest.next)
    else
      var rest := StringFrom(src, pos + 1, q);
      Text([src[pos]] + rest.value, rest.next)
  }

  datatype Scanned = Scanned(lexeme: Lexeme, next: nat)

  function WordLexeme(word: string): Lexeme {
    Lexeme(if word in KEYWORDS then Keyword else IdentToken, word)
  }

  function Punctuation(ch: char): Option<Kind> {
    match ch
    case '{' => Some(LBrace)
    case '}' => Some(RBrace)
    case '[' => Some(LBracket)
    case ']' => Some(RBracket)
    case ':' => Some(Colon)
    case ',' => Some(Comma)
    case _ => None
  }

  /** The token that starts at a position, and the position after it; `None` for an unexpected character. */
  function LexemeAt(src: string, pos: nat): (r: Option<Scanned>)
    requires pos < |src|
    ensures r.Some? ==> pos < r.value.next
  {
    var ch := src[pos];
    var punctuation := Punctuation(ch);
    if punctuation.Some? then Some(Scanned(Lexeme(punctuation.value, [ch]), pos + 1))
    else if ch == '-' && pos + 1 < |src| && src[pos + 1] == '>' then Some(Scanned(Lexeme(Arrow, "->"), pos + 2))
    else if ch == '"' || ch == '\'' then
      var text := StringFrom(src, pos + 1, ch);
      Some(Scanned(Lexeme(StringToken, text.value), text.next))
    else if IsDigit(ch) then
      var end := ScanEnd(src, pos + 1, IsDigit);
      Some(Scanned(Lexeme(NumberToken, src[pos..end]), end))
    else if IsLetter(ch) then
      var end := ScanEnd(src, pos + 1, IsIdentPart);
      Some(Scanned(WordLexeme(src[pos..end]), end))
    else None
  }

  function EofAt(src: string, pos: nat): DslToken {
    DslToken(Lexeme(Eof, ""), LineAt(src, pos), ColumnAt(src, pos))
  }

  /** The tokens from a position on, each with the line and column it starts at. */
  function TokensFrom(src: string, pos: nat): Option<seq<DslToken>>
    decreases |src| - pos
  {
    if pos >= |src| then Some([EofAt(src, pos)])
    else
      var start := SkipEnd(src, pos);
      if start >= |src| then Some([EofAt(src, start)])
      else
        var first := LexemeAt(src, start);
        if first.None? then None
        else
          var token := DslToken(first.value.lexeme, LineAt(src, start), ColumnAt(src, start));
          Prepend([token], TokensFrom(src, first.value.next))
  }

  function Accumulate(out: string, rest: Text): Text {
    Text(out + rest.value, rest.next)
  }

  /** The character a backslash at `pos` stands for, as a string; nothing at the end of the input. */
  function Escaped(src: string, pos: nat): string {
    if pos + 1 < |src| then [src[pos + 1]] else ""
  }

  lemma StringStep(src: string, pos: nat, q: char, out: string, next: nat, longer: string)
    requires pos < |src| && src[pos] != q && src[pos] != '\\' && next == pos + 1 && longer == out + [src[pos]]
    ensures Accumulate(out, StringFrom(src, pos, q)) == Accumulate(longer, StringFrom(src, next, q))
  {
    var rest := StringFrom(src, pos + 1, q).value;
    assert out + ([src[pos]] + rest) == longer + rest;
  }

  lemma EscapeStep(src: string, pos: nat, q: char, out: string, next: nat, longer: string)
    requires pos < |src| && src[pos] != q && src[pos] == '\\' && next == pos + 2 && longer == out + Escaped(src, pos)
    ensures Accumulate(out, StringFrom(src, pos, q)) == Accumulate(longer, StringFrom(src, next, q))
  {
    var rest := StringFrom(src, pos + 2, q).value;
    assert out + (Escaped(src, pos) + rest) == longer + rest;
  }

  // ----- the lexer itself

  class WorkflowDslLexer {
    const source: string
    var pos: nat
    var line: nat
    var column: nat

    constructor (source: string)
      ensures this.source == source && pos == 0 && Valid()
    {
      this.source, pos, line, column := source, 0, 1, 1;
    }

    /** Line and column always belong to the position. */
    ghost predicate Valid()
      reads this
    {
      line == LineAt(source, pos) && column == ColumnAt(source, pos)
    }

    method Advance()
      requires Valid()
      modifies this
      ensures Valid() && pos == old(pos) + 1
    {
      if pos < |source| && source[pos] == '\n' {
        line := line + 1;
        column := 1;
      } else {
        column := column + 1;
      }
      pos := pos + 1;
    }

    method SkipWhitespaceAndComments()
      requires Valid() && pos <= |source|
      modifies this
      ensures Valid() && pos == SkipEnd(source, old(pos))
    {
      while pos < |source|
        invariant Valid() && pos <= |source| && SkipEnd(source, pos) == SkipEnd(source, old(pos))
        decreases |source| - pos
      {
        if IsSpace(source[pos]) {
          Advance();
        } else if source[pos] == '#' {
          ghost var hash := pos;
          Advance();
          while pos < |source| && source[pos] != '\n'
            invariant Valid() && hash < pos <= |source|
            invariant ScanEnd(source, pos, IsNoNewline) == ScanEnd(source, hash + 1, IsNoNewline)
          {
            Advance();
          }
        } else {
          break;
        }
      }
    }

    method ReadString() returns (out: string)
      requires Valid() && pos < |source|
      modifies this
      ensures Valid() && Text(out, pos) == StringFrom(source, old(pos) + 1, source[old(pos)])
    {
      var q := source[pos];
      Advance();
      out := "";
      ghost var first := pos;
      assert "" + StringFrom(source, pos, q).value == StringFrom(source, pos, q).value;
      while pos < |source| && source[pos] != q
        invariant Valid()
        invariant StringFrom(source, first, q) == Accumulate(out, StringFrom(source, pos, q))
        decreases |source| - pos
      {
        ghost var at, shorter := pos, out;
        if source[pos] == '\\' {
          Advance();
          if pos < |source| {
            out := out + [source[pos]];
          } else {
            assert out + [] == out;
          }
          Advance();
          EscapeStep(source, at, q, shorter, pos, out);
        } else {
          out := out + [source[pos]];
          Advance();
          StringStep(source, at, q, shorter, pos, out);
        }
      }
      assert out + "" == out;
      Advance();
    }

    /** `readNumber` and `readIdent`: the longest stretch of one class. */
    method ReadWhile(p: char -> bool) returns (text: string)
      requires Valid() && pos < |source| && p(source[pos])
      modifies this
      ensures Valid() && pos == ScanEnd(source, old(pos) + 1, p) && text == source[old(pos)..pos]
    {
      var start := pos;
      while pos < |source| && p(source[pos])
        invariant Valid() && start <= pos <= |source|
        invariant ScanEnd(source, pos, p) == ScanEnd(source, start, p)
      {
        Advance();
      }
      text := source[start..pos];
    }

    /** The branches of the loop body: read the token that starts here. */
    method ReadLexeme() returns (r: Option<Lexeme>)
      requires Valid() && pos < |source|
      modifies this
      ensures Valid()
      ensures var first := LexemeAt(source, old(pos));
              if first.None? then r == None else r == Some(first.value.lexeme) && pos == first.value.next
    {
      var ch := source[pos];
      var punctuation := Punctuation(ch);
      if punctuation.Some? {
        Advance();
        return Some(Lexeme(punctuation.value, [ch]));
      } else if ch == '-' && pos + 1 < |source| && source[pos + 1] == '>' {
        Advance();
        Advance();
        return Some(Lexeme(Arrow, "->"));
      } else if ch == '"' || ch == '\'' {
        var text := ReadString();
        return Some(Lexeme(StringToken, text));
      } else if IsDigit(ch) {
        var text := ReadWhile(IsDigit);
        return Some(Lexeme(NumberToken, text));
      } else if IsLetter(ch) {
        var word := ReadWhile(IsIdentPart);
        return Some(WordLexeme(word));
      }
      return None;
    }

    method Tokenize() returns (r: Option<seq<DslToken>>)
      requires Valid() && pos == 0
      modifies this
      ensures r == TokensFrom(source, 0)
    {
      var tokens: seq<DslToken> := [];
      PrependNothing(TokensFrom(source, 0));
      while pos < |source|
        invariant Valid()
        invariant TokensFrom(source, 0) == Prepend(tokens, TokensFrom(source, pos))
        decreases |source| - pos
      {
        SkipWhitespaceAndComments();
        if pos >= |source| {
          break;
        }
        var startLine, startCol := line, column;
        var lexeme := ReadLexeme();
        if lexeme.None? {
          return None;
        }
        var token := DslToken(lexeme.value, startLine, startCol);
        PrependOne(tokens, token, TokensFrom(source, pos));
        tokens := tokens + [token];
      }
      return Some(tokens + [DslToken(Lexeme(Eof, ""), line, column)]);
    }
  }

  // ----- spelling tokens out again

  predicate IsWord(text: string) {
    text != [] && IsLetter(text[0]) && forall c | c in text :: IsIdentPart(c)
  }

  predicate IsName(text: string) {
    IsWord(text) && text !in KEYWORDS
  }

  predicate IsDigits(text: string) {
    text != [] && forall c | c in text :: IsDigit(c)
  }

  /** The tokens the lexer can produce before the end of the input. */
  predicate Spellable(l: Lexeme) {
    match l.kind
    case Keyword => l.value in KEYWORDS
    case IdentToken => IsName(l.value)
    case NumberToken => IsDigits(l.value)
    case StringToken => true
    case Arrow => l.value == "->"
    case Eof => false
    case _ => |l.value| == 1 && Punctuation(l.value[0]) == Some(l.kind)
  }

  predicate AllSpellable(ls: seq<Lexeme>) {
    forall l | l in ls :: Spellable(l)
  }

  /** A backslash before every quote and every backslash. */
  function Escape(text: string, q: char): string {
    if text == [] then ""
    else (if text[0] == q || text[0] == '\\' then ['\\', text[0]] else [text[0]]) + Escape(text[1..], q)
  }

  function Spell(l: Lexeme): string {
    if l.kind.StringToken? then ['"'] + Escape(l.value, '"') + ['"'] else l.value
  }

  /** Nothing but white space and comments; if `open`, the last comment may run to the end of the text. */
  predicate Layout(text: string, open: bool)
    decreases |text|
  {
    text == "" ||
    if IsSpace(text[0]) then Layout(text[1..], open)
    else
      && text[0] == '#'
      && var end := ScanEnd(text, 1, IsNoNewline); if end < |text| then Layout(text[end..], open) else open
  }

  predicate Blank(text: string) {
    Layout(text, false)
  }

  /** The token ends where this text begins. */
  predicate Ends(l: Lexeme, rest: string) {
    rest == "" ||
    match l.kind
    case Keyword => !IsIdentPart(rest[0])
    case IdentToken => !IsIdentPart(rest[0])
    case NumberToken => !IsDigit(rest[0])
    case _ => true
  }

  /** Each token with the gap behind it. */
  function SpellWith(ls: seq<Lexeme>, gaps: seq<string>): string
    requires |gaps| == |ls|
  {
    if ls == [] then "" else Spell(ls[0]) + (gaps[0] + SpellWith(ls[1..], gaps[1..]))
  }

  /** The gaps are blank, and there is one wherever a token would otherwise run on into the next. */
  predicate Spaced(ls: seq<Lexeme>, gaps: seq<string>)
    requires |gaps| == |ls|
  {
    ls == [] ||
    (Blank(gaps[0]) && Ends(ls[0], gaps[0] + SpellWith(ls[1..], gaps[1..])) && Spaced(ls[1..], gaps[1..]))
  }

  function SpellAll(ls: seq<Lexeme>): string {
    if ls == [] then "" else Spell(ls[0]) + " " + SpellAll(ls[1..])
  }

  function Lexemes(tokens: seq<DslToken>): (ls: seq<Lexeme>)
    ensures |ls| == |tokens| && forall i | 0 <= i < |ls| :: ls[i] == tokens[i].lexeme
  {
    seq(|tokens|, i requires 0 <= i < |tokens| => tokens[i].lexeme)
  }

  /** Reading an escaped text up to the closing quote gives the text back. */
  lemma {:induction false} EscapeReadsBack(src: string, pos: nat, text: string, q: char)
    requires q != '\\' && At(src, pos, Escape(text, q) + [q])
    ensures StringFrom(src, pos, q) == Text(text, pos + |Escape(text, q)| + 1)
    decreases |text|
  {
    TextAt(src, pos, Escape(text, q) + [q]);
    if text == [] {
      assert src[pos] == (Escape(text, q) + [q])[0];
    } else {
      var head := if text[0] == q || text[0] == '\\' then ['\\', text[0]] else [text[0]];
      assert Escape(text, q) + [q] == head + (Escape(text[1..], q) + [q]);
      AtConcat(src, pos, head, Escape(text[1..], q) + [q]);
      TextAt(src, pos, head);
      assert src[pos] == head[0] && (|head| == 2 ==> src[pos + 1] == head[1]);
      EscapeReadsBack(src, pos + |head|, text[1..], q);
      assert [text[0]] + text[1..] == text;
    }
  }

  /** Any text at all can be written as a string in either kind of quotes. */
  lemma {:induction false} StringReadsBack(src: string, pos: nat, text: string, q: char)
    requires (q == '"' || q == '\'') && At(src, pos, [q] + Escape(text, q) + [q])
    ensures pos < |src| && LexemeAt(src, pos) == Some(Scanned(Lexeme(StringToken, text), pos + |Escape(text, q)| + 2))
  {
    assert [q] + Escape(text, q) + [q] == [q] + (Escape(text, q) + [q]);
    AtConcat(src, pos, [q], Escape(text, q) + [q]);
    AtIndex(src, pos, [q], 0);
    EscapeReadsBack(src, pos + 1, text, q);
  }

  lemma KeywordsAreWords(text: string)
    requires text in KEYWORDS
    ensures IsWord(text)
  {
  }

  lemma {:induction false} WordReadsBack(src: string, pos: nat, l: Lexeme)
    requires l.kind in {Keyword, IdentToken} && Spellable(l) && At(src, pos, l.value)
    requires pos + |l.value| == |src| || !IsIdentPart(src[pos + |l.value|])
    ensures pos < |src| && LexemeAt(src, pos) == Some(Scanned(l, pos + |l.value|))
    ensures !IsSpace(src[pos]) && src[pos] != '#'
  {
    if l.kind == Keyword {
      KeywordsAreWords(l.value);
    }
    StretchReadsBack(src, pos, l.value, IsIdentPart);
  }

  lemma {:induction false} PunctuationReadsBack(src: string, pos: nat, l: Lexeme)
    requires l.kind !in {Keyword, IdentToken, NumberToken, StringToken, Eof} && Spellable(l) && At(src, pos, l.value)
    ensures pos < |src| && LexemeAt(src, pos) == Some(Scanned(l, pos + |l.value|))
    ensures !IsSpace(src[pos]) && src[pos] != '#'
  {
    TextAt(src, pos, l.value);
    assert src[pos] == l.value[0];
    if l.kind == Arrow {
      assert src[pos + 1] == l.value[1];
    } else {
      assert l.value == [src[pos]];
      assert Punctuation(src[pos]) == Some(l.kind);
    }
  }

  lemma {:induction false} QuotedReadsBack(src: string, pos: nat, l: Lexeme)
    requires l.kind == StringToken && At(src, pos, Spell(l))
    ensures pos < |src| && LexemeAt(src, pos) == Some(Scanned(l, pos + |Spell(l)|))
    ensures !IsSpace(src[pos]) && src[pos] != '#'
  {
    StringReadsBack(src, pos, l.value, '"');
    AtIndex(src, pos, Spell(l), 0);
  }

  lemma {:induction false} NumberReadsBack(src: string, pos: nat, l: Lexeme)
    requires l.kind == NumberToken && Spellable(l) && At(src, pos, l.value)
    requires pos + |l.value| == |src| || !IsDigit(src[pos + |l.value|])
    ensures pos < |src| && LexemeAt(src, pos) == Some(Scanned(l, pos + |l.value|))
    ensures !IsSpace(src[pos]) && src[pos] != '#'
  {
    StretchReadsBack(src, pos, l.value, IsDigit);
    assert l.value[0] in l.value && IsDigit(src[pos]);
  }

  /** A spelled token is read back whole if what follows does not run on. */
  lemma {:induction false} LexemeReadsBack(src: string, pos: nat, l: Lexeme, rest: string)
    requires Spellable(l) && pos <= |src| && src[pos..] == Spell(l) + rest && Ends(l, rest)
    ensures pos < |src| && LexemeAt(src, pos) == Some(Scanned(l, pos + |Spell(l)|))
    ensures !IsSpace(src[pos]) && src[pos] != '#' && src[pos + |Spell(l)|..] == rest
  {
    SplitRest(src, pos, Spell(l), rest);
    match l.kind {
      case StringToken => QuotedReadsBack(src, pos, l);
      case NumberToken => NumberReadsBack(src, pos, l);
      case Keyword => WordReadsBack(src, pos, l);
      case IdentToken => WordReadsBack(src, pos, l);
      case _ => PunctuationReadsBack(src, pos, l);
    }
  }

  /** The lexemes `ls` and then the end mark come out. */
  ghost predicate Reads(r: Option<seq<DslToken>>, ls: seq<Lexeme>) {
    r.Some? && Lexemes(r.value) == ls + [Lexeme(Eof, "")]
  }

  lemma {:induction false} ReadsCons(token: DslToken, rest: Option<seq<DslToken>>, ls: seq<Lexeme>)
    requires ls != [] && token.lexeme == ls[0] && Reads(rest, ls[1..])
    ensures Reads(Prepend([token], rest), ls)
  {
    assert Lexemes([token] + rest.value) == [ls[0]] + Lexemes(rest.value);
    assert [ls[0]] + (ls[1..] + [Lexeme(Eof, "")]) == ls + [Lexeme(Eof, "")];
  }

  lemma {:induction false} ReadsStep(src: string, pos: nat, ls: seq<Lexeme>, next: nat)
    requires pos < |src| && !IsSpace(src[pos]) && src[pos] != '#' && pos < next
    requires ls != [] && LexemeAt(src, pos) == Some(Scanned(ls[0], next)) && Reads(TokensFrom(src, next), ls[1..])
    ensures Reads(TokensFrom(src, pos), ls)
  {
    var token := DslToken(ls[0], LineAt(src, pos), ColumnAt(src, pos));
    assert TokensFrom(src, pos) == Prepend([token], TokensFrom(src, next));
    ReadsCons(token, TokensFrom(src, next), ls);
  }

  lemma CommentIsSkipped(src: string, pos: nat, gap: string)
    requires gap != "" && gap[0] == '#' && At(src, pos, gap) && ScanEnd(gap, 1, IsNoNewline) < |gap|
    ensures var end := ScanEnd(gap, 1, IsNoNewline);
            SkipEnd(src, pos) == SkipEnd(src, pos + end) && At(src, pos + end, gap[end..]) && 0 < end
  {
    var end := ScanEnd(gap, 1, IsNoNewline);
    TextAt(src, pos, gap);
    ScanStops(gap, 1, IsNoNewline);
    assert src[pos + end] == gap[end];
    forall k | pos + 1 <= k < pos + end ensures IsNoNewline(src[k]) {
      assert src[k] == gap[k - pos];
    }
    ScanEndIs(src, pos + 1, IsNoNewline, pos + end);
    assert gap == gap[..end] + gap[end..];
    AtConcat(src, pos, gap[..end], gap[end..]);
  }

  lemma SpaceIsSkipped(src: string, pos: nat, gap: string)
    requires gap != "" && IsSpace(gap[0]) && At(src, pos, gap)
    ensures SkipEnd(src, pos) == SkipEnd(src, pos + 1) && At(src, pos + 1, gap[1..])
  {
    AtIndex(src, pos, gap, 0);
    assert gap == gap[..1] + gap[1..];
    AtConcat(src, pos, gap[..1], gap[1..]);
  }

  /** White space and comments are skipped, wherever they stand. */
  lemma {:induction false} BlankIsSkipped(src: string, pos: nat, gap: string, end: nat)
    requires At(src, pos, gap) && Blank(gap) && end == pos + |gap|
    ensures SkipEnd(src, pos) == SkipEnd(src, end)
    decreases |gap|
  {
    if gap != "" {
      var n := BlankPiece(src, pos, gap);
      BlankIsSkipped(src, pos + n, gap[n..], end);
    }
  }

  /** The first white space or comment of a blank text is skipped. */
  lemma BlankPiece(src: string, pos: nat, gap: string) returns (n: nat)
    requires gap != "" && At(src, pos, gap) && Blank(gap)
    ensures 0 < n <= |gap| && SkipEnd(src, pos) == SkipEnd(src, pos + n)
    ensures At(src, pos + n, gap[n..]) && Blank(gap[n..])
  {
    if IsSpace(gap[0]) {
      n := 1;
      SpaceIsSkipped(src, pos, gap);
    } else {
      n := ScanEnd(gap, 1, IsNoNewline);
      CommentIsSkipped(src, pos, gap);
    }
  }

  lemma {:induction false} TokensAfterBlank(src: string, pos: nat, gap: string, tail: string, after: nat)
    requires pos <= |src| && src[pos..] == gap + tail && Blank(gap) && after == pos + |gap|
    ensures after <= |src| && src[after..] == tail && TokensFrom(src, pos) == TokensFrom(src, after)
  {
    SplitRest(src, pos, gap, tail);
    BlankIsSkipped(src, pos, gap, after);
  }

  lemma LayoutSpace(src: string, pos: nat, end: nat, open: bool)
    requires pos < end <= |src| && IsSpace(src[pos]) && Layout(src[pos + 1..end], open)
    ensures Layout(src[pos..end], open)
  {
    assert src[pos..end][1..] == src[pos + 1..end];
  }

  lemma LayoutComment(src: string, pos: nat, line: nat, end: nat, open: bool)
    requires pos < line <= end <= |src| && src[pos] == '#' && line == ScanEnd(src, pos + 1, IsNoNewline)
    requires if line < |src| then line < end && Layout(src[line..end], open) else open
    ensures Layout(src[pos..end], open)
  {
    var text := src[pos..end];
    ScanStops(src, pos + 1, IsNoNewline);
    forall k | 1 <= k < line - pos ensures IsNoNewline(text[k]) {
      assert text[k] == src[pos + k];
    }
    ScanEndIs(text, 1, IsNoNewline, line - pos);
    assert text[line - pos..] == src[line..end];
  }

  /** Where skipping stops: behind white space and comments, at something else or at the end of the input, where the
      last comment may be open. */
  lemma {:induction false} SkipStops(src: string, pos: nat)
    requires pos <= |src|
    ensures var end := SkipEnd(src, pos);
            && Layout(src[pos..end], end == |src|)
            && (end < |src| ==> !IsSpace(src[end]) && src[end] != '#')
    decreases |src| - pos
  {
    var end := SkipEnd(src, pos);
    if pos < |src| && IsSpace(src[pos]) {
      SkipStops(src, pos + 1);
      LayoutSpace(src, pos, end, end == |src|);
    } else if pos < |src| && src[pos] == '#' {
      var line := ScanEnd(src, pos + 1, IsNoNewline);
      ScanStops(src, pos + 1, IsNoNewline);
      SkipStops(src, line);
      LayoutComment(src, pos, line, end, end == |src|);
    }
  }

  lemma {:induction false} FirstReadsBack(src: string, pos: nat, l: Lexeme, gap: string, tail: string)
    returns (next: nat, after: nat)
    requires Spellable(l) && Blank(gap) && Ends(l, gap + tail)
    requires pos <= |src| && src[pos..] == Spell(l) + (gap + tail)
    ensures pos < next <= after <= |src| && !IsSpace(src[pos]) && src[pos] != '#'
    ensures LexemeAt(src, pos) == Some(Scanned(l, next)) && TokensFrom(src, next) == TokensFrom(src, after)
    ensures src[after..] == tail
  {
    LexemeReadsBack(src, pos, l, gap + tail);
    next := pos + |Spell(l)|;
    after := next + |gap|;
    TokensAfterBlank(src, next, gap, tail, after);
  }

  lemma {:induction false} SpacedLexemesReadBack(src: string, pos: nat, ls: seq<Lexeme>, gaps: seq<string>)
    requires AllSpellable(ls) && |gaps| == |ls| && Spaced(ls, gaps)
    requires pos <= |src| && src[pos..] == SpellWith(ls, gaps)
    ensures Reads(TokensFrom(src, pos), ls)
    decreases |ls|
  {
    if ls == [] {
      assert |src[pos..]| == 0 && ls + [Lexeme(Eof, "")] == [Lexeme(Eof, "")];
    } else {
      assert ls[0] in ls;
      var next, after := FirstReadsBack(src, pos, ls[0], gaps[0], SpellWith(ls[1..], gaps[1..]));
      SpacedLexemesReadBack(src, after, ls[1..], gaps[1..]);
      ReadsStep(src, pos, ls, next);
    }
  }

  /** White space and comments do not matter: any tokens, with any blank text before, between and behind them that keeps
      them apart, are lexed as those tokens. */
  lemma {:induction false} LayoutIsIgnored(lead: string, ls: seq<Lexeme>, gaps: seq<string>)
    requires AllSpellable(ls) && |gaps| == |ls| && Blank(lead) && Spaced(ls, gaps)
    ensures Reads(TokensFrom(lead + SpellWith(ls, gaps), 0), ls)
  {
    LayoutOf(lead + SpellWith(ls, gaps), lead, SpellWith(ls, gaps));
    SpacedLexemesReadBack(lead + SpellWith(ls, gaps), |lead|, ls, gaps);
  }

  lemma LayoutOf(src: string, lead: string, text: string)
    requires src == lead + text && Blank(lead)
    ensures src[|lead|..] == text && TokensFrom(src, 0) == TokensFrom(src, |lead|)
  {
    assert src[0..] == src;
    TokensAfterBlank(src, 0, lead, text, |lead|);
  }

  lemma {:induction false} SpacesAreGaps(ls: seq<Lexeme>, gaps: seq<string>)
    requires gaps == seq(|ls|, _ => " ")
    ensures Spaced(ls, gaps) && SpellWith(ls, gaps) == SpellAll(ls)
  {
    if ls != [] {
      SpacesAreGaps(ls[1..], gaps[1..]);
      assert Blank(" ") && (" " + SpellWith(ls[1..], gaps[1..]))[0] == ' ';
      assert Spell(ls[0]) + (" " + SpellAll(ls[1..])) == Spell(ls[0]) + " " + SpellAll(ls[1..]);
    }
  }

  /** Spelling any lexemes out and lexing the text gives them back. */
  lemma {:induction false} LexInvertsSpelling(ls: seq<Lexeme>)
    requires AllSpellable(ls)
    ensures Reads(TokensFrom(SpellAll(ls), 0), ls)
  {
    var gaps := seq(|ls|, _ => " ");
    SpacesAreGaps(ls, gaps);
    LayoutIsIgnored("", ls, gaps);
    assert "" + SpellWith(ls, gaps) == SpellAll(ls);
  }

  /** What the lexer produces for any input: spellable lexemes and a single end mark, which comes last. */
  ghost predicate EofTerminated(ls: seq<Lexeme>) {
    && ls != [] && ls[|ls| - 1].kind == Eof
    && forall i | 0 <= i < |ls| - 1 :: Spellable(ls[i])
  }

  lemma WordIsSpellable(word: string)
    requires IsWord(word)
    ensures Spellable(WordLexeme(word))
  {
  }

  lemma {:induction false} LexemeIsSpellable(src: string, pos: nat)
    requires pos < |src| && LexemeAt(src, pos).Some?
    ensures Spellable(LexemeAt(src, pos).value.lexeme)
  {
    var ch := src[pos];
    if Punctuation(ch).Some? || ch == '-' || ch == '"' || ch == '\'' {
    } else if IsDigit(ch) {
      StretchIsUniform(src, pos, IsDigit);
    } else {
      StretchIsUniform(src, pos, IsIdentPart);
      WordIsSpellable(src[pos..ScanEnd(src, pos + 1, IsIdentPart)]);
    }
  }

  lemma {:induction false} TokensAreTerminated(src: string, pos: nat)
    requires TokensFrom(src, pos).Some?
    ensures EofTerminated(Lexemes(TokensFrom(src, pos).value))
    decreases |src| - pos
  {
    if pos < |src| {
      var start := SkipEnd(src, pos);
      if start < |src| {
        LexemeIsSpellable(src, start);
        TokensAreTerminated(src, LexemeAt(src, start).value.next);
      }
    }
  }

  // ----- short texts, character by character

  /** What a single character is read as, when it is not skipped. */
  lemma {:induction false} OneCharacter(c: char)
    ensures SkipEnd([c], 0) == 1 <==> IsSpace(c) || c == '#'
    ensures LexemeAt([c], 0) ==
            if c == '{' then Some(Scanned(Lexeme(LBrace, "{"), 1))
            else if c == '}' then Some(Scanned(Lexeme(RBrace, "}"), 1))
            else if c == '[' then Some(Scanned(Lexeme(LBracket, "["), 1))
            else if c == ']' then Some(Scanned(Lexeme(RBracket, "]"), 1))
            else if c == ':' then Some(Scanned(Lexeme(Colon, ":"), 1))
            else if c == ',' then Some(Scanned(Lexeme(Comma, ","), 1))
            else if c == '"' || c == '\'' then Some(Scanned(Lexeme(StringToken, ""), 2))
            else if IsDigit(c) then Some(Scanned(Lexeme(NumberToken, [c]), 1))
            else if IsLetter(c) then Some(Scanned(Lexeme(IdentToken, [c]), 1))
            else None
  {
    assert [c][0..1] == [c];
  }

  lemma {:induction false} StretchOfTwo(a: char, b: char, p: char -> bool)
    ensures [a, b][0..ScanEnd([a, b], 1, p)] == [a, b] <==> p(b)
  {
    assert [a, b][0..2] == [a, b] && |[a, b][0..1]| == 1;
  }

  /** Which two characters are read as one lexeme: the parts of a word, those of a number, and the arrow. */
  lemma {:induction false} TwoCharacters(a: char, b: char)
    ensures LexemeAt([a, b], 0).Some? && LexemeAt([a, b], 0).value.lexeme.value == [a, b] <==>
            || (IsLetter(a) && (IsLetter(b) || IsDigit(b) || b == '.' || b == '-'))
            || (IsDigit(a) && IsDigit(b))
            || [a, b] == "->"
  {
    if IsLetter(a) {
      StretchOfTwo(a, b, IsIdentPart);
    } else if IsDigit(a) {
      StretchOfTwo(a, b, IsDigit);
    } else if LexemeAt([a, b], 0).Some? && a != '-' {
      assert StringFrom([a, b], 2, a) == Text("", 3) && StringFrom([a, b], 3, a) == Text("", 4);
      assert |LexemeAt([a, b], 0).value.lexeme.value| < 2;
    }
  }

  /** The words that are keywords. */
  lemma KeywordIs(word: string)
    ensures WordLexeme(word).value == word
    ensures WordLexeme(word).kind == Keyword <==>
            || word == "workflow" || word == "task" || word == "constraint"
            || word == "version" || word == "handler" || word == "timeout" || word == "depends" || word == "expr"
            || word == "optional" || word == "warn" || word == "block"
    ensures WordLexeme(word).kind == Keyword || WordLexeme(word).kind == IdentToken
  {
  }
}
