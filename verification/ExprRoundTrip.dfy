/** The expression parser inverts a printer that uses as few tokens as possible, and its image is known exactly. */
module ExprRoundTrip {
  import opened Wrappers
  import opened Scanning
  import opened ExprTokenizer
  import opened ExprParser

  // ----- the printer

  const COMPARISONS: set<string> := {"==", "!=", "<", "<=", ">", ">="}

  /** How tightly each operator binds. */
  function Tightness(op: string): Level {
    if op == "||" then 0
    else if op == "&&" then 1
    else if op in COMPARISONS then 2
    else if op == "+" || op == "-" then 3
    else 4
  }

  predicate IsOperator(op: string) {
    op == "||" || op == "&&" || op in COMPARISONS || op == "+" || op == "-" || op == "*" || op == "/"
  }

  function Precedence(e: Expr): Level {
    match e
    case Binary(op, _, _) => Tightness(op)
    case Unary(_, _) => 5
    case _ => 6
  }

  const OPEN := Token(LParen, "(")
  const CLOSE := Token(RParen, ")")

  /** The expression where level `level` is expected: in parentheses only if it binds more loosely. */
  function RenderAt(e: Expr, level: Level): seq<Token>
    decreases e, 1
  {
    if Precedence(e) < level then [OPEN] + Render(e) + [CLOSE] else Render(e)
  }

  function Render(e: Expr): seq<Token>
    decreases e, 0
  {
    match e
    case Lit(Str(text)) => [Token(StringToken, text)]
    case Lit(Num(digits)) => [Token(NumberToken, digits)]
    case Lit(Bool(value)) => [Token(IdentToken, if value then "true" else "false")]
    case Lit(Null) => [Token(IdentToken, "null")]
    case Ident(name) => [Token(IdentToken, name)]
    case Unary(uop, arg) => [Token(Op, if uop == Not then "!" else "-")] + RenderAt(arg, 5)
    case Binary(op, left, right) =>
      var p := Precedence(e);
      // comparisons do not associate; the other operators associate to the left
      RenderAt(left, if p == 2 then 3 else p) + [Token(Op, op)] + RenderAt(right, p + 1)
    case Call(callee, args) =>
      [Token(IdentToken, callee)] + [OPEN]
      + (if args == [] then [] else RenderAt(args[0], 0) + RenderMore(args[1..])) + [CLOSE]
  }

  function RenderMore(args: seq<Expr>): seq<Token>
    decreases args, 0
  {
    if args == [] then [] else [Token(Comma, ",")] + RenderAt(args[0], 0) + RenderMore(args[1..])
  }

  function Print(e: Expr): string {
    SpellAll(RenderAt(e, 0))
  }

  // ----- which trees can be written

  const RESERVED: set<string> := {"true", "false", "null"}

  /** A string literal must avoid one of the quotes, for there are no escapes; and it must not look like a
      prefix operator, for the parser tests the text of a token without its kind. */
  predicate Writable(e: Expr)
    decreases e
  {
    match e
    case Lit(Str(text)) => Spellable(Token(StringToken, text)) && text != "!" && text != "-"
    case Lit(Num(digits)) => IsNumber(digits)
    case Lit(_) => true
    case Ident(name) => IsIdent(name) && name !in RESERVED
    case Unary(_, arg) => Writable(arg)
    case Binary(op, left, right) =>
      IsOperator(op) && Writable(left) && Writable(right)
    case Call(callee, args) => IsIdent(callee) && callee !in RESERVED && forall a | a in args :: Writable(a)
  }

  // ----- parsing what was printed

  /** The token after an expression read at `level` that lets the parser stop there. */
  predicate Stops(level: int, t: Token) {
    t.kind != LParen && forall k | level <= k <= 4 :: t.value !in Ops(k)
  }

  lemma OpStopsAbove(level: Level, t: Token)
    requires t.kind == Op && t.value in Ops(level) && level < 5
    ensures Stops(level + 1, t)
  {
    forall k | level + 1 <= k <= 4 ensures t.value !in Ops(k) {
    }
  }

  // ----- single steps of the parser

  /** Reading at a tighter level is reading at this one when the next token is no operator of this level. */
  lemma {:induction false} LoosenLevel(ts: seq<Token>, e: Expr, level: Level, i: nat, j: nat)
    requires Terminated(ts) && i < j < |ts| && level < 5
    requires Parse(ts, level + 1, i) == Some(Parsed(e, j)) && ts[j].value !in Ops(level)
    ensures Parse(ts, level, i) == Some(Parsed(e, j))
  {
  }

  lemma {:induction false} NoPrefix(ts: seq<Token>, i: nat)
    requires Terminated(ts) && i < |ts| && ts[i].value != "!" && ts[i].value != "-"
    ensures Parse(ts, 5, i) == Parse(ts, 6, i)
  {
  }

  lemma {:induction false} ParseIsTail(ts: seq<Token>, level: Level, i: nat, left: Expr, j: nat)
    requires Terminated(ts) && i < j < |ts| && level in {0, 1, 3, 4}
    requires Parse(ts, level + 1, i) == Some(Parsed(left, j))
    ensures Parse(ts, level, i) == Tail(ts, level, left, j)
  {
  }

  lemma {:induction false} TailStep(ts: seq<Token>, level: Level, e: Expr, i: nat, j: nat)
    requires Terminated(ts) && i + 1 < j < |ts| && level < 5 && e.Binary?
    requires ts[i] == Token(Op, e.op) && e.op in Ops(level) && Parse(ts, level + 1, i + 1) == Some(Parsed(e.right, j))
    ensures Tail(ts, level, e.left, i) == Tail(ts, level, e, j)
  {
  }

  lemma {:induction false} TailStops(ts: seq<Token>, level: Level, left: Expr, i: nat)
    requires Terminated(ts) && i < |ts| && level < 5 && ts[i].value !in Ops(level)
    ensures Tail(ts, level, left, i) == Some(Parsed(left, i))
  {
  }

  lemma {:induction false} ComparisonStep(ts: seq<Token>, i: nat, e: Expr, j: nat, k: nat)
    requires Terminated(ts) && i < j && j + 1 < k < |ts| && e.Binary?
    requires Parse(ts, 3, i) == Some(Parsed(e.left, j)) && ts[j] == Token(Op, e.op) && e.op in Ops(2)
    requires Parse(ts, 3, j + 1) == Some(Parsed(e.right, k))
    ensures Parse(ts, 2, i) == Some(Parsed(e, k))
  {
    assert Comparison(ts, e.left, j) == Some(Parsed(e, k));
  }

  lemma {:induction false} PrefixStep(ts: seq<Token>, i: nat, uop: UnaryOp, arg: Expr, j: nat)
    requires Terminated(ts) && i + 1 < j < |ts|
    requires ts[i] == Token(Op, if uop == Not then "!" else "-") && Parse(ts, 5, i + 1) == Some(Parsed(arg, j))
    ensures Parse(ts, 5, i) == Some(Parsed(Unary(uop, arg), j))
  {
  }

  lemma {:induction false} ParenthesesStep(ts: seq<Token>, i: nat, e: Expr, j: nat, end: nat)
    requires Terminated(ts) && i + 1 < j && j + 1 == end < |ts|
    requires ts[i] == OPEN && Parse(ts, 0, i + 1) == Some(Parsed(e, j)) && ts[j] == CLOSE
    ensures Parse(ts, 6, i) == Some(Parsed(e, end))
  {
    assert ParsePrimary(ts, i) == Some(Parsed(e, end));
  }

  lemma {:induction false} CallStep(ts: seq<Token>, i: nat, callee: string, args: seq<Expr>, j: nat)
    requires Terminated(ts) && i + 2 <= j && j + 1 < |ts| && callee !in RESERVED
    requires ts[i] == Token(IdentToken, callee) && ts[i + 1] == OPEN
    requires ParseArgs(ts, i + 2) == Some(Parsed(args, j)) && ts[j] == CLOSE
    ensures Parse(ts, 6, i) == Some(Parsed(Call(callee, args), j + 1))
  {
    assert ParsePrimary(ts, i) == Some(Parsed(Call(callee, args), j + 1));
  }

  lemma {:induction false} ArgsStep(ts: seq<Token>, i: nat, first: Expr, j: nat)
    requires Terminated(ts) && i < j < |ts| && ts[i].kind != RParen && Parse(ts, 0, i) == Some(Parsed(first, j))
    ensures ParseArgs(ts, i) == MoreArgs(ts, [first], j)
  {
  }

  lemma {:induction false} MoreStep(ts: seq<Token>, done: seq<Expr>, i: nat, next: Expr, j: nat, grown: seq<Expr>)
    requires Terminated(ts) && i + 1 < j < |ts| && ts[i].kind == Comma && Parse(ts, 0, i + 1) == Some(Parsed(next, j))
    requires grown == done + [next]
    ensures MoreArgs(ts, done, i) == MoreArgs(ts, grown, j)
  {
  }

  lemma {:induction false} MoreStops(ts: seq<Token>, done: seq<Expr>, i: nat)
    requires Terminated(ts) && i < |ts| && ts[i].kind != Comma
    ensures MoreArgs(ts, done, i) == Some(Parsed(done, i))
  {
  }

  lemma {:induction false} AtomStep(ts: seq<Token>, e: Expr, i: nat)
    requires Terminated(ts) && i + 1 < |ts| && Writable(e) && (e.Lit? || e.Ident?)
    requires ts[i] == Render(e)[0] && ts[i + 1].kind != LParen
    ensures Parse(ts, 6, i) == Some(Parsed(e, i + 1))
  {
    assert ParsePrimary(ts, i) == Some(Parsed(e, i + 1));
  }

  // ----- pieces of a rendering

  lemma {:induction false} NotEmpty(e: Expr, level: Level)
    ensures |RenderAt(e, level)| >= 1
  {
  }

  /** A primary never starts with a prefix operator. */
  lemma {:induction false} PrimaryStart(e: Expr)
    requires Writable(e)
    ensures |RenderAt(e, 6)| >= 1 && RenderAt(e, 6)[0].value != "!" && RenderAt(e, 6)[0].value != "-"
  {
    NotEmpty(e, 6);
  }

  lemma {:induction false} SameRendering(e: Expr, level: Level)
    requires level < 6 && Precedence(e) != level
    ensures RenderAt(e, level) == RenderAt(e, level + 1)
  {
  }

  lemma {:induction false} MoreRendering(args: seq<Expr>)
    requires args != []
    ensures RenderMore(args) == [] + [Token(Comma, ",")] + (RenderAt(args[0], 0) + RenderMore(args[1..]))
  {
  }

  lemma {:induction false} ParenthesesRendering(e: Expr)
    requires Precedence(e) < 6
    ensures RenderAt(e, 6) == ([] + [OPEN] + RenderAt(e, 0)) + [CLOSE] + []
  {
  }

  lemma {:induction false} BinaryRendering(e: Expr, level: Level)
    requires e.Binary? && Writable(e) && Precedence(e) == level
    ensures level < 5 && e.op in Ops(level)
    ensures RenderAt(e, level) ==
            RenderAt(e.left, if level == 2 then 3 else level) + [Token(Op, e.op)] + RenderAt(e.right, level + 1)
  {
  }

  /** Where the three parts of a binary expression stand; the operator stands at `m`. */
  lemma {:induction false} BinaryPieces(ts: seq<Token>, e: Expr, level: Level, i: nat, j: nat) returns (m: nat)
    requires e.Binary? && Writable(e) && Precedence(e) == level
    requires At(ts, i, RenderAt(e, level)) && j == i + |RenderAt(e, level)|
    ensures level < 5 && e.op in Ops(level)
    ensures At(ts, i, RenderAt(e.left, if level == 2 then 3 else level))
    ensures m == i + |RenderAt(e.left, if level == 2 then 3 else level)| && m < |ts| && ts[m] == Token(Op, e.op)
    ensures At(ts, m + 1, RenderAt(e.right, level + 1)) && j == m + 1 + |RenderAt(e.right, level + 1)|
    ensures Stops(level + 1, ts[m])
  {
    BinaryRendering(e, level);
    var left, right := RenderAt(e.left, if level == 2 then 3 else level), RenderAt(e.right, level + 1);
    AtThree(ts, i, left, Token(Op, e.op), right);
    OpStopsAbove(level, Token(Op, e.op));
    m := i + |left|;
  }

  /** Where the parts of a parenthesized expression stand; the closing parenthesis stands at `m`. */
  lemma {:induction false} ParenthesesPieces(ts: seq<Token>, e: Expr, i: nat, j: nat) returns (m: nat)
    requires Precedence(e) < 6 && At(ts, i, RenderAt(e, 6)) && j == i + |RenderAt(e, 6)|
    ensures j == m + 1 <= |ts| && m == i + 1 + |RenderAt(e, 0)|
    ensures ts[i] == OPEN && At(ts, i + 1, RenderAt(e, 0)) && ts[m] == CLOSE && Stops(0, ts[m])
  {
    var inner := RenderAt(e, 0);
    ParenthesesRendering(e);
    AtThree(ts, i, [] + [OPEN] + inner, CLOSE, []);
    AtThree(ts, i, [], OPEN, inner);
    m := j - 1;
  }

  /** Where an argument after a comma and the rest of the arguments stand; the rest starts at `k`. */
  lemma {:induction false} MorePieces(
      ts: seq<Token>, args: seq<Expr>, i: nat, j: nat, first: seq<Token>, more: seq<Token>)
    returns (k: nat)
    requires args != [] && At(ts, i, RenderMore(args)) && j == i + |RenderMore(args)| < |ts| && ts[j] == CLOSE
    requires first == RenderAt(args[0], 0) && more == RenderMore(args[1..])
    ensures ts[i] == Token(Comma, ",") && At(ts, i + 1, first) && k == i + 1 + |first|
    ensures At(ts, k, more) && j == k + |more| && Stops(0, ts[k])
  {
    MoreRendering(args);
    AtThree(ts, i, [], Token(Comma, ","), first + more);
    AtConcat(ts, i + 1, first, more);
    k := i + 1 + |first|;
    MoreStarts(ts, args[1..], k);
  }

  function Rank(e: Expr, level: Level): int {
    if level > Precedence(e) then 1 else 0
  }

  /** The rendering of a tree at some level, standing anywhere in a token list, is read back as that tree. */
  lemma {:induction false} ReadsBack(ts: seq<Token>, e: Expr, level: Level, i: nat, j: nat)
    requires Terminated(ts) && Writable(e) && At(ts, i, RenderAt(e, level))
    requires j == i + |RenderAt(e, level)| < |ts| && Stops(level, ts[j])
    ensures i < j && Parse(ts, level, i) == Some(Parsed(e, j))
    decreases e, Rank(e, level), 6 - level, 2
  {
    NotEmpty(e, level);
    if Precedence(e) == level {
      if level == 6 {
        PrimaryReadsBack(ts, e, i, j);
      } else if level == 5 {
        UnaryReadsBack(ts, e, i, j);
      } else if level == 2 {
        ComparisonReadsBack(ts, e, i, j);
      } else {
        SpineReadsBack(ts, e, level, i, j);
        TailStops(ts, level, e, j);
      }
    } else if level == 6 {
      ParenthesesReadBack(ts, e, i, j);
    } else {
      SameRendering(e, level);
      ReadsBack(ts, e, level + 1, i, j);
      if level == 5 {
        PrimaryStart(e);
        AtIndex(ts, i, RenderAt(e, 6), 0);
        NoPrefix(ts, i);
      } else {
        LoosenLevel(ts, e, level, i, j);
      }
    }
  }

  /** A left-associative chain is read up to the end of `e`, and then the loop of its level goes on. */
  lemma {:induction false} SpineReadsBack(ts: seq<Token>, e: Expr, level: Level, i: nat, j: nat)
    requires Terminated(ts) && Writable(e) && At(ts, i, RenderAt(e, level)) && level in {0, 1, 3, 4}
    requires j == i + |RenderAt(e, level)| < |ts| && Stops(level + 1, ts[j])
    ensures Parse(ts, level, i) == Tail(ts, level, e, j)
    decreases e, Rank(e, level), 6 - level, 0
  {
    if Precedence(e) == level {
      var m := BinaryPieces(ts, e, level, i, j);
      SpineReadsBack(ts, e.left, level, i, m);
      ReadsBack(ts, e.right, level + 1, m + 1, j);
      TailStep(ts, level, e, m, j);
    } else {
      SameRendering(e, level);
      ReadsBack(ts, e, level + 1, i, j);
      ParseIsTail(ts, level, i, e, j);
    }
  }

  lemma {:induction false} ComparisonReadsBack(ts: seq<Token>, e: Expr, i: nat, j: nat)
    requires Terminated(ts) && Writable(e) && At(ts, i, RenderAt(e, 2)) && Precedence(e) == 2
    requires j == i + |RenderAt(e, 2)| < |ts| && Stops(2, ts[j])
    ensures Parse(ts, 2, i) == Some(Parsed(e, j))
    decreases e, 0, 4, 0
  {
    var m := BinaryPieces(ts, e, 2, i, j);
    ReadsBack(ts, e.left, 3, i, m);
    ReadsBack(ts, e.right, 3, m + 1, j);
    ComparisonStep(ts, i, e, m, j);
  }

  lemma {:induction false} UnaryReadsBack(ts: seq<Token>, e: Expr, i: nat, j: nat)
    requires Terminated(ts) && Writable(e) && At(ts, i, RenderAt(e, 5)) && Precedence(e) == 5
    requires j == i + |RenderAt(e, 5)| < |ts| && Stops(5, ts[j])
    ensures Parse(ts, 5, i) == Some(Parsed(e, j))
    decreases e, 0, 1, 0
  {
    var op, arg := Token(Op, if e.uop == Not then "!" else "-"), RenderAt(e.arg, 5);
    assert RenderAt(e, 5) == [] + [op] + arg;
    AtThree(ts, i, [], op, arg);
    ReadsBack(ts, e.arg, 5, i + 1, j);
    PrefixStep(ts, i, e.uop, e.arg, j);
  }

  lemma {:induction false} ParenthesesReadBack(ts: seq<Token>, e: Expr, i: nat, j: nat)
    requires Terminated(ts) && Writable(e) && At(ts, i, RenderAt(e, 6)) && Precedence(e) < 6
    requires j == i + |RenderAt(e, 6)| < |ts|
    ensures Parse(ts, 6, i) == Some(Parsed(e, j))
    decreases e, 1, 0, 0
  {
    var m := ParenthesesPieces(ts, e, i, j);
    ReadsBack(ts, e, 0, i + 1, m);
    ParenthesesStep(ts, i, e, m, j);
  }

  lemma {:induction false} PrimaryReadsBack(ts: seq<Token>, e: Expr, i: nat, j: nat)
    requires Terminated(ts) && Writable(e) && At(ts, i, RenderAt(e, 6)) && Precedence(e) == 6
    requires j == i + |RenderAt(e, 6)| < |ts| && Stops(6, ts[j])
    ensures Parse(ts, 6, i) == Some(Parsed(e, j))
    decreases e, 0, 0, 1
  {
    if e.Call? {
      CallReadsBack(ts, e, i, j);
    } else {
      AtIndex(ts, i, Render(e), 0);
      AtomStep(ts, e, i);
    }
  }

  function RenderArgs(args: seq<Expr>): seq<Token> {
    if args == [] then [] else RenderAt(args[0], 0) + RenderMore(args[1..])
  }

  lemma {:induction false} CallReadsBack(ts: seq<Token>, e: Expr, i: nat, j: nat)
    requires Terminated(ts) && Writable(e) && At(ts, i, Render(e)) && e.Call?
    requires j == i + |Render(e)| < |ts|
    ensures Parse(ts, 6, i) == Some(Parsed(e, j))
    decreases e, 0, 0, 0
  {
    var callee, args := Token(IdentToken, e.callee), RenderArgs(e.args);
    assert Render(e) == ([callee] + [OPEN] + args) + [CLOSE] + [];
    AtThree(ts, i, [callee] + [OPEN] + args, CLOSE, []);
    AtThree(ts, i, [callee], OPEN, args);
    AtIndex(ts, i, [callee], 0);
    ArgsReadBack(ts, e.args, i + 2, j - 1);
    CallStep(ts, i, e.callee, e.args, j - 1);
  }

  lemma {:induction false} ArgsReadBack(ts: seq<Token>, args: seq<Expr>, i: nat, j: nat)
    requires Terminated(ts) && (forall a | a in args :: Writable(a)) && At(ts, i, RenderArgs(args))
    requires j == i + |RenderArgs(args)| < |ts| && ts[j] == CLOSE
    ensures ParseArgs(ts, i) == Some(Parsed(args, j))
    decreases args, 1, 0, 0
  {
    if args != [] {
      var first, more := RenderAt(args[0], 0), RenderMore(args[1..]);
      AtConcat(ts, i, first, more);
      var k := i + |first|;
      MoreStarts(ts, args[1..], k);
      ReadsBack(ts, args[0], 0, i, k);
      ArgumentStart(ts, args[0], i);
      ArgsStep(ts, i, args[0], k);
      assert [args[0]] + args[1..] == args;
      MoreReadsBack(ts, [args[0]], args[1..], args, k, j);
    }
  }

  /** After an argument stands a comma or the closing parenthesis, and both let the argument's parser stop. */
  lemma {:induction false} MoreStarts(ts: seq<Token>, args: seq<Expr>, i: nat)
    requires At(ts, i, RenderMore(args)) && i + |RenderMore(args)| < |ts| && ts[i + |RenderMore(args)|] == CLOSE
    ensures Stops(0, ts[i])
    ensures args != [] ==> ts[i] == Token(Comma, ",")
  {
    if args != [] {
      AtIndex(ts, i, RenderMore(args), 0);
    }
  }

  /** No expression starts with a closing parenthesis. */
  lemma {:induction false} ArgumentStart(ts: seq<Token>, e: Expr, i: nat)
    requires Writable(e) && At(ts, i, RenderAt(e, 0))
    ensures i < |ts| && ts[i].kind != RParen
  {
    NotEmpty(e, 0);
    AtIndex(ts, i, RenderAt(e, 0), 0);
    FirstToken(e, 0);
  }

  lemma {:induction false} FirstToken(e: Expr, level: Level)
    ensures |RenderAt(e, level)| >= 1 && RenderAt(e, level)[0].kind != RParen
    decreases e
  {
    match e {
      case Binary(_, left, _) => FirstToken(left, if Precedence(e) == 2 then 3 else Precedence(e));
      case _ =>
    }
  }

  lemma MoveOne<T>(done: seq<T>, rest: seq<T>, grown: seq<T>)
    requires rest != [] && grown == done + [rest[0]]
    ensures done + rest == grown + rest[1..]
  {
  }

  lemma {:induction false} MoreReadsBack(
      ts: seq<Token>, done: seq<Expr>, args: seq<Expr>, all: seq<Expr>, i: nat, j: nat)
    requires Terminated(ts) && (forall a | a in args :: Writable(a)) && At(ts, i, RenderMore(args))
    requires j == i + |RenderMore(args)| < |ts| && ts[j] == CLOSE && all == done + args
    ensures MoreArgs(ts, done, i) == Some(Parsed(all, j))
    decreases args, 0, 0, 0
  {
    if args == [] {
      assert all == done;
      MoreStops(ts, done, i);
    } else {
      var k := MorePieces(ts, args, i, j, RenderAt(args[0], 0), RenderMore(args[1..]));
      assert Writable(args[0]);
      ReadsBack(ts, args[0], 0, i + 1, k);
      var grown := done + [args[0]];
      MoreStep(ts, done, i, args[0], k, grown);
      MoveOne(done, args, grown);
      MoreReadsBack(ts, grown, args[1..], all, k, j);
    }
  }

  // ----- every printed token is one the tokenizer can read

  lemma {:induction false} RenderingSpellable(e: Expr, level: Level)
    requires Writable(e)
    ensures AllSpellable(RenderAt(e, level))
    decreases e, 1
  {
    RenderIsSpellable(e);
    assert Spellable(OPEN) && Spellable(CLOSE);
    if Precedence(e) < level {
      assert forall t | t in RenderAt(e, level) :: t in Render(e) || t == OPEN || t == CLOSE;
    }
  }

  lemma {:induction false} RenderIsSpellable(e: Expr)
    requires Writable(e)
    ensures AllSpellable(Render(e))
    decreases e, 0
  {
    match e {
      case Unary(_, arg) =>
        RenderingSpellable(arg, 5);
      case Binary(op, left, right) =>
        var p := Precedence(e);
        BinaryRendering(e, p);
        RenderingSpellable(left, if p == 2 then 3 else p);
        RenderingSpellable(right, p + 1);
        OpIsSpellable(p, op);
      case Call(callee, args) =>
        ArgsSpellable(args);
        var callee', inner := Token(IdentToken, callee), RenderArgs(args);
        assert Render(e) == [callee'] + [OPEN] + inner + [CLOSE];
        assert Spellable(OPEN) && Spellable(CLOSE) && Spellable(callee');
      case _ =>
    }
  }

  lemma OpIsSpellable(level: Level, op: string)
    requires op in Ops(level)
    ensures Spellable(Token(Op, op))
  {
  }

  lemma {:induction false} ArgsSpellable(args: seq<Expr>)
    requires forall a | a in args :: Writable(a)
    ensures AllSpellable(RenderArgs(args))
    decreases args, 1
  {
    if args != [] {
      RenderingSpellable(args[0], 0);
      MoreSpellable(args[1..]);
    }
  }

  lemma {:induction false} MoreSpellable(args: seq<Expr>)
    requires forall a | a in args :: Writable(a)
    ensures AllSpellable(RenderMore(args))
    decreases args, 0
  {
    if args != [] {
      RenderingSpellable(args[0], 0);
      MoreSpellable(args[1..]);
      MoreRendering(args);
      assert Spellable(Token(Comma, ","));
    }
  }

  /** Printing a writable tree and parsing the text gives the tree back. */
  lemma {:induction false} ParseInvertsPrint(e: Expr)
    requires Writable(e)
    ensures ParseExpression(Print(e)) == Some(e)
  {
    var rendered := RenderAt(e, 0);
    RenderingSpellable(e, 0);
    TokenizeInvertsSpelling(rendered);
    ParsesRendering(e, rendered);
  }

  lemma {:induction false} ParsesRendering(e: Expr, rendered: seq<Token>)
    requires Writable(e) && rendered == RenderAt(e, 0) && AllSpellable(rendered)
    ensures Terminated(rendered + [Token(Eof, "")]) && ParseTokens(rendered + [Token(Eof, "")]) == Some(e)
  {
    var ts := rendered + [Token(Eof, "")];
    forall i | 0 <= i < |rendered| ensures ts[i].kind != Eof {
      assert Spellable(rendered[i]);
    }
    assert At(ts, 0, rendered);
    ReadsBack(ts, e, 0, 0, |rendered|);
  }

  // ----- and nothing else is ever parsed

  lemma {:induction false} ParsedIsWritable(ts: seq<Token>, level: Level, i: nat)
    requires EofTerminated(ts) && Terminated(ts) && i < |ts| && Parse(ts, level, i).Some?
    requires level == 6 ==> ts[i].value != "!" && ts[i].value != "-"
    ensures Writable(Parse(ts, level, i).value.node)
    decreases |ts| - i, 6 - level
  {
    if level == 6 {
      PrimaryIsWritable(ts, i);
    } else if level == 5 {
      if ts[i].value == "!" || ts[i].value == "-" {
        ParsedIsWritable(ts, 5, i + 1);
      } else {
        ParsedIsWritable(ts, 6, i);
      }
    } else {
      var left := Parse(ts, level + 1, i).value;
      ParsedIsWritable(ts, level + 1, i);
      if level == 2 {
        if ts[left.next].value in Ops(2) {
          ParsedIsWritable(ts, 3, left.next + 1);
        }
      } else {
        TailIsWritable(ts, level, left.node, left.next);
      }
    }
  }

  lemma {:induction false} TailIsWritable(ts: seq<Token>, level: Level, left: Expr, i: nat)
    requires EofTerminated(ts) && Terminated(ts) && i < |ts| && level < 5
    requires Writable(left) && Tail(ts, level, left, i).Some?
    ensures Writable(Tail(ts, level, left, i).value.node)
    decreases |ts| - i, 6 - level
  {
    if ts[i].value in Ops(level) {
      ParsedIsWritable(ts, level + 1, i + 1);
      var right := Parse(ts, level + 1, i + 1).value;
      TailIsWritable(ts, level, Binary(ts[i].value, left, right.node), right.next);
    }
  }

  lemma {:induction false} PrimaryIsWritable(ts: seq<Token>, i: nat)
    requires EofTerminated(ts) && Terminated(ts) && i < |ts| && ParsePrimary(ts, i).Some?
    requires ts[i].value != "!" && ts[i].value != "-"
    ensures Writable(ParsePrimary(ts, i).value.node)
    decreases |ts| - i, 0, 0
  {
    match ts[i].kind {
      case IdentToken =>
        if ts[i].value !in RESERVED && ts[i + 1].kind == LParen {
          ArgsAreWritable(ts, i + 2);
        }
      case LParen =>
        ParsedIsWritable(ts, 0, i + 1);
      case _ =>
    }
  }

  lemma {:induction false} ArgsAreWritable(ts: seq<Token>, i: nat)
    requires EofTerminated(ts) && Terminated(ts) && i < |ts| && ParseArgs(ts, i).Some?
    ensures forall a | a in ParseArgs(ts, i).value.node :: Writable(a)
    decreases |ts| - i, 7
  {
    if ts[i].kind != RParen {
      var first := Parse(ts, 0, i).value;
      ParsedIsWritable(ts, 0, i);
      MoreAreWritable(ts, [first.node], first.next);
    }
  }

  lemma {:induction false} MoreAreWritable(ts: seq<Token>, done: seq<Expr>, i: nat)
    requires EofTerminated(ts) && Terminated(ts) && i < |ts|
    requires (forall a | a in done :: Writable(a)) && MoreArgs(ts, done, i).Some?
    ensures forall a | a in MoreArgs(ts, done, i).value.node :: Writable(a)
    decreases |ts| - i, 7
  {
    if ts[i].kind == Comma {
      var next := Parse(ts, 0, i + 1).value;
      ParsedIsWritable(ts, 0, i + 1);
      MoreAreWritable(ts, done + [next.node], next.next);
    }
  }

  lemma {:induction false} ParsesOnlyWritable(input: string)
    requires ParseExpression(input).Some?
    ensures Writable(ParseExpression(input).value)
  {
    TokensAreTerminated(input, 0);
    EofIsLast(TokensFrom(input, 0).value);
    ParsedIsWritable(TokensFrom(input, 0).value, 0, 0);
  }

  /** A tree is the result of parsing some text exactly when it is writable, and then it is the result of parsing its
      own printing. In particular no text parses to a tree holding the string literal "-" or "!". */
  lemma {:induction false} ImageOfTheParser(e: Expr)
    ensures (exists input :: ParseExpression(input) == Some(e)) <==> Writable(e)
    ensures ParseExpression(Print(e)) == Some(e) <==> Writable(e)
  {
    if Writable(e) {
      ParseInvertsPrint(e);
    }
    if input :| ParseExpression(input) == Some(e) {
      ParsesOnlyWritable(input);
    }
  }

  // ----- no text for the same tree has fewer tokens

  /** A tighter place never asks for fewer tokens, and parentheses cost two. */
  lemma {:induction false} TighterIsLonger(e: Expr, level: Level)
    ensures level < 6 ==> |RenderAt(e, level)| <= |RenderAt(e, level + 1)|
    ensures |RenderAt(e, level)| <= |RenderAt(e, 0)| + 2
  {
  }

  lemma {:induction false} BinaryLength(e: Expr, level: Level)
    requires e.Binary? && level < 5 && e.op in Ops(level)
    ensures |RenderAt(e, level)| ==
            |RenderAt(e.left, if level == 2 then 3 else level)| + 1 + |RenderAt(e.right, level + 1)|
  {
    assert Precedence(e) == level;
  }

  lemma {:induction false} UnaryLength(uop: UnaryOp, arg: Expr)
    ensures |RenderAt(Unary(uop, arg), 5)| == 1 + |RenderAt(arg, 5)|
  {
  }

  lemma {:induction false} CallLength(callee: string, args: seq<Expr>)
    ensures |RenderAt(Call(callee, args), 6)| == 3 + |RenderArgs(args)|
  {
  }

  lemma {:induction false} MoreLength(first: Expr, rest: seq<Expr>)
    ensures |RenderMore([first] + rest)| == 1 + |RenderAt(first, 0)| + |RenderMore(rest)|
    ensures |RenderArgs([first] + rest)| == |RenderAt(first, 0)| + |RenderMore(rest)|
  {
    assert ([first] + rest)[1..] == rest;
  }

  /** The parser has read at least as many tokens as the rendering of its result has. */
  lemma {:induction false} ReadAtLeast(ts: seq<Token>, level: Level, i: nat)
    requires Terminated(ts) && i < |ts| && Parse(ts, level, i).Some?
    ensures i + |RenderAt(Parse(ts, level, i).value.node, level)| <= Parse(ts, level, i).value.next
    decreases |ts| - i, 6 - level
  {
    if level == 6 {
      PrimaryReadAtLeast(ts, i);
    } else if level == 5 && (ts[i].value == "!" || ts[i].value == "-") {
      ReadAtLeast(ts, 5, i + 1);
      UnaryLength(if ts[i].value == "!" then Not else Neg, Parse(ts, 5, i + 1).value.node);
    } else {
      var left := Parse(ts, level + 1, i).value;
      ReadAtLeast(ts, level + 1, i);
      TighterIsLonger(left.node, level);
      if level == 2 {
        ComparisonReadAtLeast(ts, left.node, i, left.next);
      } else if level < 5 {
        TailReadAtLeast(ts, level, left.node, i, left.next);
      }
    }
  }

  /** The loop of a level, when what it has built so far was read from `i`. */
  lemma {:induction false} TailReadAtLeast(ts: seq<Token>, level: Level, left: Expr, i: nat, j: nat)
    requires Terminated(ts) && i <= j < |ts| && level in {0, 1, 3, 4}
    requires i + |RenderAt(left, level)| <= j && Tail(ts, level, left, j).Some?
    ensures i + |RenderAt(Tail(ts, level, left, j).value.node, level)| <= Tail(ts, level, left, j).value.next
    decreases |ts| - j, 6 - level
  {
    if ts[j].value in Ops(level) {
      ReadAtLeast(ts, level + 1, j + 1);
      var right := Parse(ts, level + 1, j + 1).value;
      BinaryLength(Binary(ts[j].value, left, right.node), level);
      TailReadAtLeast(ts, level, Binary(ts[j].value, left, right.node), i, right.next);
    }
  }

  lemma {:induction false} ComparisonReadAtLeast(ts: seq<Token>, left: Expr, i: nat, j: nat)
    requires Terminated(ts) && i <= j < |ts| && i + |RenderAt(left, 3)| <= j && Comparison(ts, left, j).Some?
    ensures i + |RenderAt(Comparison(ts, left, j).value.node, 2)| <= Comparison(ts, left, j).value.next
    decreases |ts| - j, 6
  {
    if ts[j].value in Ops(2) {
      ReadAtLeast(ts, 3, j + 1);
      BinaryLength(Binary(ts[j].value, left, Parse(ts, 3, j + 1).value.node), 2);
    } else {
      TighterIsLonger(left, 2);
    }
  }

  lemma {:induction false} PrimaryReadAtLeast(ts: seq<Token>, i: nat)
    requires Terminated(ts) && i < |ts| && ParsePrimary(ts, i).Some?
    ensures i + |RenderAt(ParsePrimary(ts, i).value.node, 6)| <= ParsePrimary(ts, i).value.next
    decreases |ts| - i, 0, 0
  {
    match ts[i].kind {
      case IdentToken =>
        if ts[i].value !in RESERVED && ts[i + 1].kind == LParen {
          ArgsReadAtLeast(ts, i + 2);
          CallLength(ts[i].value, ParseArgs(ts, i + 2).value.node);
        }
      case LParen =>
        ReadAtLeast(ts, 0, i + 1);
        TighterIsLonger(Parse(ts, 0, i + 1).value.node, 6);
      case _ =>
    }
  }

  lemma {:induction false} ArgsReadAtLeast(ts: seq<Token>, i: nat)
    requires Terminated(ts) && i < |ts| && ParseArgs(ts, i).Some?
    ensures i + |RenderArgs(ParseArgs(ts, i).value.node)| <= ParseArgs(ts, i).value.next
    decreases |ts| - i, 7
  {
    if ts[i].kind != RParen {
      var first := Parse(ts, 0, i).value;
      ReadAtLeast(ts, 0, i);
      var rest := MoreReadAtLeast(ts, [first.node], first.next);
      MoreLength(first.node, rest);
    }
  }

  /** The arguments read after those in `done`. */
  lemma {:induction false} MoreReadAtLeast(ts: seq<Token>, done: seq<Expr>, i: nat) returns (rest: seq<Expr>)
    requires Terminated(ts) && i < |ts| && MoreArgs(ts, done, i).Some?
    ensures MoreArgs(ts, done, i).value.node == done + rest
    ensures i + |RenderMore(rest)| <= MoreArgs(ts, done, i).value.next
    decreases |ts| - i, 7
  {
    rest := [];
    if ts[i].kind == Comma {
      var next := Parse(ts, 0, i + 1).value;
      ReadAtLeast(ts, 0, i + 1);
      var others := MoreReadAtLeast(ts, done + [next.node], next.next);
      MoreLength(next.node, others);
      rest := [next.node] + others;
      assert done + [next.node] + others == done + rest;
    }
  }

  /** Of all texts that parse to a tree, its printing has the fewest tokens. */
  lemma {:induction false} FewestTokens(input: string, e: Expr)
    requires ParseExpression(input) == Some(e)
    ensures TokensFrom(Print(e), 0).Some?
    ensures |TokensFrom(Print(e), 0).value| == |RenderAt(e, 0)| + 1 <= |TokensFrom(input, 0).value|
  {
    var ts := TokensFrom(input, 0).value;
    TokensAreTerminated(input, 0);
    EofIsLast(ts);
    ReadAtLeast(ts, 0, 0);
    ParsesOnlyWritable(input);
    RenderingSpellable(e, 0);
    TokenizeInvertsSpelling(RenderAt(e, 0));
  }
}
