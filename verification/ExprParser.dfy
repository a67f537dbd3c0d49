/** The precedence-climbing parser of the expression language. */
module ExprParser {
  import opened Wrappers
  import opened ExprTokenizer

  datatype Literal = Str(text: string) | Num(digits: string) | Bool(value: bool) | Null

  datatype UnaryOp = Not | Neg

  datatype Expr =
    | Lit(literal: Literal)
    | Ident(name: string)
    | Unary(uop: UnaryOp, arg: Expr)
    | Binary(op: string, left: Expr, right: Expr)
    | Call(callee: string, args: seq<Expr>)

  // ----- what the parser computes, by precedence level

  /** Precedence levels: 0 `||`, 1 `&&`, 2 comparison, 3 additive, 4 multiplicative, 5 unary, 6 primary. */
  type Level = l: int | 0 <= l <= 6

  function Ops(level: int): set<string> {
    match level
    case 0 => {"||"}
    case 1 => {"&&"}
    case 2 => {"==", "!=", "<", "<=", ">", ">="}
    case 3 => {"+", "-"}
    case 4 => {"*", "/"}
    case _ => {}
  }

  datatype Parsed<+T> = Parsed(node: T, next: nat)

  /** Parses at a precedence level from position `i`; `None` when the parser throws. The end mark is never consumed. */
  function Parse(ts: seq<Token>, level: Level, i: nat): (r: Option<Parsed<Expr>>)
    requires Terminated(ts) && i < |ts|
    ensures r.Some? ==> i < r.value.next < |ts|
    decreases |ts| - i, 6 - level
  {
    if level == 6 then ParsePrimary(ts, i)
    else if level == 5 then
      if ts[i].value == "!" || ts[i].value == "-" then
        if ts[i].kind != Op then None
        else
          var arg := Parse(ts, 5, i + 1);
          if arg.None? then None
          else Some(Parsed(Unary(if ts[i].value == "!" then Not else Neg, arg.value.node), arg.value.next))
      else Parse(ts, 6, i)
    else
      var left := Parse(ts, level + 1, i);
      if left.None? then None
      else if level == 2 then Comparison(ts, left.value.node, left.value.next)
      else Tail(ts, level, left.value.node, left.value.next)
  }

  /** The loop of a left-associative level, with what it has built so far. */
  function Tail(ts: seq<Token>, level: Level, left: Expr, i: nat): (r: Option<Parsed<Expr>>)
    requires Terminated(ts) && i < |ts| && level < 5
    ensures r.Some? ==> i <= r.value.next < |ts|
    decreases |ts| - i, 6 - level
  {
    if ts[i].value !in Ops(level) then Some(Parsed(left, i))
    else if ts[i].kind != Op then None
    else
      var right := Parse(ts, level + 1, i + 1);
      if right.None? then None
      else Tail(ts, level, Binary(ts[i].value, left, right.value.node), right.value.next)
  }

  /** At most one comparison. */
  function Comparison(ts: seq<Token>, left: Expr, i: nat): (r: Option<Parsed<Expr>>)
    requires Terminated(ts) && i < |ts|
    ensures r.Some? ==> i <= r.value.next < |ts|
    decreases |ts| - i, 6
  {
    if ts[i].value !in Ops(2) then Some(Parsed(left, i))
    else if ts[i].kind != Op then None
    else
      var right := Parse(ts, 3, i + 1);
      if right.None? then None
      else Some(Parsed(Binary(ts[i].value, left, right.value.node), right.value.next))
  }

  function ParsePrimary(ts: seq<Token>, i: nat): (r: Option<Parsed<Expr>>)
    requires Terminated(ts) && i < |ts|
    ensures r.Some? ==> i < r.value.next < |ts|
    decreases |ts| - i, 0, 0
  {
    match ts[i].kind
    case NumberToken => Some(Parsed(Lit(Num(ts[i].value)), i + 1))
    case StringToken => Some(Parsed(Lit(Str(ts[i].value)), i + 1))
    case IdentToken =>
      var name := ts[i].value;
      if name == "true" then Some(Parsed(Lit(Bool(true)), i + 1))
      else if name == "false" then Some(Parsed(Lit(Bool(false)), i + 1))
      else if name == "null" then Some(Parsed(Lit(Null), i + 1))
      else if ts[i + 1].kind != LParen then Some(Parsed(Ident(name), i + 1))
      else
        var args := ParseArgs(ts, i + 2);
        if args.None? || ts[args.value.next].kind != RParen then None
        else Some(Parsed(Call(name, args.value.node), args.value.next + 1))
    case LParen =>
      var inner := Parse(ts, 0, i + 1);
      if inner.None? || ts[inner.value.next].kind != RParen then None
      else Some(Parsed(inner.value.node, inner.value.next + 1))
    case _ => None
  }

  /** The arguments of a call, up to the closing parenthesis or whatever stands in its place. */
  function ParseArgs(ts: seq<Token>, i: nat): (r: Option<Parsed<seq<Expr>>>)
    requires Terminated(ts) && i < |ts|
    ensures r.Some? ==> i <= r.value.next < |ts|
    decreases |ts| - i, 7
  {
    if ts[i].kind == RParen then Some(Parsed([], i))
    else
      var first := Parse(ts, 0, i);
      if first.None? then None else MoreArgs(ts, [first.value.node], first.value.next)
  }

  function MoreArgs(ts: seq<Token>, args: seq<Expr>, i: nat): (r: Option<Parsed<seq<Expr>>>)
    requires Terminated(ts) && i < |ts|
    ensures r.Some? ==> i <= r.value.next < |ts|
    decreases |ts| - i, 7
  {
    if ts[i].kind != Comma then Some(Parsed(args, i))
    else
      var next := Parse(ts, 0, i + 1);
      if next.None? then None else MoreArgs(ts, args + [next.value.node], next.value.next)
  }

  /** `parse`: one expression and then the end of the input. */
  function ParseTokens(ts: seq<Token>): Option<Expr>
    requires Terminated(ts)
  {
    var r := Parse(ts, 0, 0);
    if r.None? || ts[r.value.next].kind != Eof then None else Some(r.value.node)
  }

  function ParseExpression(input: string): Option<Expr> {
    var tokens := TokensFrom(input, 0);
    if tokens.None? then None
    else
      TokensAreTerminated(input, 0);
      EofIsLast(tokens.value);
      ParseTokens(tokens.value)
  }

  // ----- the parser itself

  class ExpressionParser {
    var tokens: seq<Token>
    var i: nat

    constructor ()
      ensures tokens == [] && i == 0
    {
      tokens, i := [], 0;
    }

    ghost predicate Valid()
      reads this
    {
      Terminated(tokens) && i < |tokens|
    }

    /** A method returned what the specification says, and left the cursor where it says. */
    ghost predicate Did<T>(spec: Option<Parsed<T>>, r: Option<T>)
      reads this
    {
      if spec.None? then r.None? else r == Some(spec.value.node) && i == spec.value.next
    }

    function Peek(): Token
      reads this
      requires i < |tokens|
    {
      tokens[i]
    }

    /** `consume`; false when it throws. The end mark is never asked for. */
    method Consume(kind: Kind) returns (ok: bool)
      requires Valid() && kind != Eof
      modifies this`i
      ensures Valid() && ok == (tokens[old(i)].kind == kind)
      ensures i == if ok then old(i) + 1 else old(i)
    {
      ok := Peek().kind == kind;
      if ok {
        i := i + 1;
      }
    }

    method ParseInput(input: string) returns (r: Option<Expr>)
      modifies this
      ensures r == ParseExpression(input)
    {
      var tokenizer := new Tokenizer(input);
      var lexed := tokenizer.Tokenize();
      if lexed.None? {
        return None;
      }
      TokensAreTerminated(input, 0);
      tokens, i := lexed.value, 0;
      EofIsLast(tokens);
      var node := ParseOr();
      if node.None? || Peek().kind != Eof {
        return None;
      }
      r := node;
    }

    method ParseOr() returns (r: Option<Expr>)
      requires Valid()
      modifies this`i
      ensures Valid() && Did(Parse(tokens, 0, old(i)), r)
      decreases |tokens| - i, 6
    {
      ghost var spec := Parse(tokens, 0, i);
      r := ParseAnd();
      if r.None? {
        return;
      }
      while Peek().value == "||"
        invariant Valid() && i > old(i) && r.Some?
        invariant spec == Tail(tokens, 0, r.value, i)
        decreases |tokens| - i
      {
        var ok := Consume(Op);
        if !ok {
          return None;
        }
        var right := ParseAnd();
        if right.None? {
          return None;
        }
        r := Some(Binary("||", r.value, right.value));
      }
    }

    method ParseAnd() returns (r: Option<Expr>)
      requires Valid()
      modifies this`i
      ensures Valid() && Did(Parse(tokens, 1, old(i)), r)
      decreases |tokens| - i, 5
    {
      ghost var spec := Parse(tokens, 1, i);
      r := ParseComparison();
      if r.None? {
        return;
      }
      while Peek().value == "&&"
        invariant Valid() && i > old(i) && r.Some?
        invariant spec == Tail(tokens, 1, r.value, i)
        decreases |tokens| - i
      {
        var ok := Consume(Op);
        if !ok {
          return None;
        }
        var right := ParseComparison();
        if right.None? {
          return None;
        }
        r := Some(Binary("&&", r.value, right.value));
      }
    }

    method ParseComparison() returns (r: Option<Expr>)
      requires Valid()
      modifies this`i
      ensures Valid() && Did(Parse(tokens, 2, old(i)), r)
      decreases |tokens| - i, 4
    {
      r := ParseAdd();
      if r.None? {
        return;
      }
      var op := Peek().value;
      if op in Ops(2) {
        var ok := Consume(Op);
        if !ok {
          return None;
        }
        var right := ParseAdd();
        if right.None? {
          return None;
        }
        r := Some(Binary(op, r.value, right.value));
      }
    }

    method ParseAdd() returns (r: Option<Expr>)
      requires Valid()
      modifies this`i
      ensures Valid() && Did(Parse(tokens, 3, old(i)), r)
      decreases |tokens| - i, 3
    {
      ghost var spec := Parse(tokens, 3, i);
      r := ParseMul();
      if r.None? {
        return;
      }
      while Peek().value in Ops(3)
        invariant Valid() && i > old(i) && r.Some?
        invariant spec == Tail(tokens, 3, r.value, i)
        decreases |tokens| - i
      {
        var op := Peek().value;
        var ok := Consume(Op);
        if !ok {
          return None;
        }
        var right := ParseMul();
        if right.None? {
          return None;
        }
        r := Some(Binary(op, r.value, right.value));
      }
    }

    method ParseMul() returns (r: Option<Expr>)
      requires Valid()
      modifies this`i
      ensures Valid() && Did(Parse(tokens, 4, old(i)), r)
      decreases |tokens| - i, 2
    {
      ghost var spec := Parse(tokens, 4, i);
      r := ParseUnary();
      if r.None? {
        return;
      }
      while Peek().value in Ops(4)
        invariant Valid() && i > old(i) && r.Some?
        invariant spec == Tail(tokens, 4, r.value, i)
        decreases |tokens| - i
      {
        var op := Peek().value;
        var ok := Consume(Op);
        if !ok {
          return None;
        }
        var right := ParseUnary();
        if right.None? {
          return None;
        }
        r := Some(Binary(op, r.value, right.value));
      }
    }

    method ParseUnary() returns (r: Option<Expr>)
      requires Valid()
      modifies this`i
      ensures Valid() && Did(Parse(tokens, 5, old(i)), r)
      decreases |tokens| - i, 1
    {
      if Peek().value == "!" || Peek().value == "-" {
        var uop := if Peek().value == "!" then Not else Neg;
        var ok := Consume(Op);
        if !ok {
          return None;
        }
        var arg := ParseUnary();
        if arg.None? {
          return None;
        }
        return Some(Unary(uop, arg.value));
      }
      assert Parse(tokens, 6, i) == ParsePrimary(tokens, i);
      r := ParsePrimaryNode();
    }

    method ParsePrimaryNode() returns (r: Option<Expr>)
      requires Valid()
      modifies this`i
      ensures Valid() && Did(ParsePrimary(tokens, old(i)), r)
      decreases |tokens| - i, 0
    {
      var t := Peek();
      match t.kind {
        case NumberToken =>
          i := i + 1;
          r := Some(Lit(Num(t.value)));
        case StringToken =>
          i := i + 1;
          r := Some(Lit(Str(t.value)));
        case IdentToken =>
          var ok := Consume(IdentToken);
          if t.value == "true" {
            return Some(Lit(Bool(true)));
          }
          if t.value == "false" {
            return Some(Lit(Bool(false)));
          }
          if t.value == "null" {
            return Some(Lit(Null));
          }
          if Peek().kind == LParen {
            ok := Consume(LParen);
            var args := ParseArguments();
            if args.None? {
              return None;
            }
            ok := Consume(RParen);
            return if ok then Some(Call(t.value, args.value)) else None;
          }
          r := Some(Ident(t.value));
        case LParen =>
          var ok := Consume(LParen);
          var inner := ParseOr();
          if inner.None? {
            return None;
          }
          ok := Consume(RParen);
          r := if ok then inner else None;
        case _ =>
          r := None;
      }
    }

    /** The argument loop of a call. */
    method ParseArguments() returns (r: Option<seq<Expr>>)
      requires Valid()
      modifies this`i
      ensures Valid() && Did(ParseArgs(tokens, old(i)), r)
      decreases |tokens| - i, 7
    {
      var args: seq<Expr> := [];
      if Peek().kind != RParen {
        ghost var spec := ParseArgs(tokens, i);
        var first := ParseOr();
        if first.None? {
          return None;
        }
        args := [first.value];
        while Peek().kind == Comma
          invariant Valid() && i > old(i)
          invariant spec == MoreArgs(tokens, args, i)
          decreases |tokens| - i
        {
          var ok := Consume(Comma);
          var next := ParseOr();
          if next.None? {
            return None;
          }
          args := args + [next.value];
        }
      }
      r := Some(args);
    }
  }
}
