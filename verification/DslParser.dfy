/** The parser of the workflow language: a cursor over the lexer's tokens. A thrown exception is the outcome `Throws`.
    The loop over the body of a constraint has no branch for an unexpected token and then never ends: `Diverges`. */
module DslParser {
  import opened Wrappers
  import opened Scanning
  import opened Jobs
  import opened DslAst
  import opened DslLexer

  datatype Outcome<T> = Parsed(node: T, next: nat) | Throws | Diverges

  datatype Body = Body(tasks: seq<TaskDslNode>, constraints: seq<ConstraintDslNode>)

  // ----- decimal numbers

  /** `Number(text)` for a text of digits. */
  function NumberOf(text: string): nat {
    if text == "" then 0
    else
      var c := text[|text| - 1];
      NumberOf(text[..|text| - 1]) * 10 + if IsDigit(c) then (c - '0') as nat else 0
  }

  // ----- the language

  /** The end mark comes last and nowhere else. */
  ghost predicate Terminated(ls: seq<Lexeme>) {
    ls != [] && forall i | 0 <= i < |ls| :: ls[i].kind == Eof <==> i == |ls| - 1
  }

  predicate Is(ls: seq<Lexeme>, i: nat, kind: Kind) {
    i < |ls| && ls[i].kind == kind
  }

  predicate IsKeyword(ls: seq<Lexeme>, i: nat, kw: string) {
    i < |ls| && ls[i] == Lexeme(Keyword, kw)
  }

  /** `kw name : {` */
  predicate Opens(ls: seq<Lexeme>, i: nat, kw: string) {
    IsKeyword(ls, i, kw) && Is(ls, i + 1, IdentToken) && Is(ls, i + 2, Colon) && Is(ls, i + 3, LBrace)
  }

  /** `kw : value` */
  predicate Field(ls: seq<Lexeme>, i: nat, kw: string, kind: Kind) {
    IsKeyword(ls, i, kw) && Is(ls, i + 1, Colon) && Is(ls, i + 2, kind)
  }

  /** The elements of a dependency list up to its closing bracket; commas may be left out. */
  ghost function DependList(ls: seq<Lexeme>, i: nat, deps: seq<string>): (r: Outcome<seq<string>>)
    requires Terminated(ls) && i < |ls|
    ensures r.Parsed? ==> i < r.next < |ls|
    ensures r != Diverges
    decreases |ls| - i
  {
    if ls[i].kind == RBracket then Parsed(deps, i + 1)
    else if ls[i].kind == IdentToken || ls[i].kind == StringToken then
      DependList(ls, if ls[i + 1].kind == Comma then i + 2 else i + 1, deps + [ls[i].value])
    else Throws
  }

  /** One field of a task. Later fields overwrite earlier ones; dependency lists add up. */
  ghost function TaskField(ls: seq<Lexeme>, i: nat, t: TaskDslNode): (r: Outcome<TaskDslNode>)
    requires Terminated(ls) && i < |ls|
    ensures r.Parsed? ==> i < r.next < |ls| && r.node.id == t.id
    ensures r != Diverges
  {
    if Field(ls, i, "handler", StringToken) then Parsed(t.(handler := ls[i + 2].value), i + 3)
    else if Field(ls, i, "timeout", NumberToken) then Parsed(t.(timeoutMs := NumberOf(ls[i + 2].value)), i + 3)
    else if Field(ls, i, "depends", LBracket) then
      match DependList(ls, i + 3, t.dependsOn)
      case Parsed(deps, next) => Parsed(t.(dependsOn := deps), next)
      case _ => Throws
    else if IsKeyword(ls, i, "optional") then Parsed(t.(optional := true), i + 1)
    else Throws
  }

  /** The fields of a task up to its closing brace. */
  ghost function TaskFields(ls: seq<Lexeme>, i: nat, t: TaskDslNode): (r: Outcome<TaskDslNode>)
    requires Terminated(ls) && i < |ls|
    ensures r.Parsed? ==> i < r.next < |ls| && r.node.id == t.id
    ensures r != Diverges
    decreases |ls| - i
  {
    if ls[i].kind == RBrace then Parsed(t, i + 1)
    else
      match TaskField(ls, i, t)
      case Parsed(u, next) => TaskFields(ls, next, u)
      case _ => Throws
  }

  function NewTask(id: string): TaskDslNode {
    TaskDslNode(id, "", 30000, [], false)
  }

  ghost function Task(ls: seq<Lexeme>, i: nat): (r: Outcome<TaskDslNode>)
    requires Terminated(ls) && i < |ls|
    ensures r.Parsed? ==> i < r.next < |ls|
    ensures r != Diverges
  {
    if !Opens(ls, i, "task") then Throws
    else
      var t := TaskFields(ls, i + 4, NewTask(ls[i + 1].value));
      if t.Parsed? && t.node.handler == "" then Throws else t
  }

  /** One item of a constraint; at any other token the parser is stuck. */
  ghost function ConstraintItem(ls: seq<Lexeme>, i: nat, c: ConstraintDslNode): (r: Outcome<ConstraintDslNode>)
    requires Terminated(ls) && i < |ls|
    ensures r.Parsed? ==> i < r.next < |ls| && r.node.id == c.id
  {
    if IsKeyword(ls, i, "expr") then
      if Field(ls, i, "expr", StringToken) then Parsed(c.(expr := ls[i + 2].value), i + 3) else Throws
    else if IsKeyword(ls, i, "warn") then Parsed(c.(severity := Warn), i + 1)
    else if IsKeyword(ls, i, "block") then Parsed(c.(severity := Block), i + 1)
    else Diverges
  }

  /** The items of a constraint up to its closing brace. */
  ghost function ConstraintItems(ls: seq<Lexeme>, i: nat, c: ConstraintDslNode): (r: Outcome<ConstraintDslNode>)
    requires Terminated(ls) && i < |ls|
    ensures r.Parsed? ==> i < r.next < |ls| && r.node.id == c.id
    decreases |ls| - i
  {
    if ls[i].kind == RBrace then Parsed(c, i + 1)
    else
      match ConstraintItem(ls, i, c)
      case Parsed(d, next) => ConstraintItems(ls, next, d)
      case r => r
  }

  ghost function Constraint(ls: seq<Lexeme>, i: nat): (r: Outcome<ConstraintDslNode>)
    requires Terminated(ls) && i < |ls|
    ensures r.Parsed? ==> i < r.next < |ls|
  {
    if Opens(ls, i, "constraint") then ConstraintItems(ls, i + 4, ConstraintDslNode(ls[i + 1].value, "", Block))
    else Throws
  }

  /** One task or constraint of a workflow. */
  ghost function BodyItem(ls: seq<Lexeme>, i: nat, b: Body): (r: Outcome<Body>)
    requires Terminated(ls) && i < |ls|
    ensures r.Parsed? ==> i < r.next < |ls|
  {
    if IsKeyword(ls, i, "task") then
      match Task(ls, i)
      case Parsed(t, next) => Parsed(b.(tasks := b.tasks + [t]), next)
      case _ => Throws
    else if IsKeyword(ls, i, "constraint") then
      match Constraint(ls, i)
      case Parsed(c, next) => Parsed(b.(constraints := b.constraints + [c]), next)
      case Throws => Throws
      case Diverges => Diverges
    else Throws
  }

  /** The tasks and constraints of a workflow up to its closing brace. */
  ghost function BodyFrom(ls: seq<Lexeme>, i: nat, b: Body): (r: Outcome<Body>)
    requires Terminated(ls) && i < |ls|
    ensures r.Parsed? ==> i < r.next < |ls|
    decreases |ls| - i
  {
    if ls[i].kind == RBrace then Parsed(b, i + 1)
    else
      match BodyItem(ls, i, b)
      case Parsed(c, next) => BodyFrom(ls, next, c)
      case r => r
  }

  /** The whole parse. Tokens after the closing brace of the workflow are never looked at. */
  ghost function WorkflowOf(ls: seq<Lexeme>): Outcome<WorkflowDslNode>
    requires Terminated(ls)
  {
    if !(Opens(ls, 0, "workflow") && Field(ls, 4, "version", NumberToken)) then Throws
    else
      match BodyFrom(ls, 7, Body([], []))
      case Parsed(b, next) => Parsed(WorkflowDslNode(ls[1].value, NumberOf(ls[6].value), b.tasks, b.constraints), next)
      case Throws => Throws
      case Diverges => Diverges
  }

  lemma LexerTerminates(ls: seq<Lexeme>)
    requires EofTerminated(ls)
    ensures Terminated(ls)
  {
    forall i | 0 <= i < |ls| - 1 ensures ls[i].kind != Eof {
      assert Spellable(ls[i]);
    }
  }

  // ----- the parser itself

  class WorkflowDslParser {
    var tokens: seq<DslToken>
    var i: nat

    constructor ()
      ensures tokens == [] && i == 0
    {
      tokens, i := [], 0;
    }

    ghost function Ls(): seq<Lexeme>
      reads this
    {
      Lexemes(tokens)
    }

    ghost predicate Valid()
      reads this
    {
      Terminated(Ls()) && i < |tokens|
    }

    function Peek(): Lexeme
      requires Valid()
      reads this
    {
      tokens[i].lexeme
    }

    method Expect(kind: Kind) returns (r: Option<string>)
      requires Valid() && kind != Eof
      modifies this`i
      ensures Valid()
      ensures if Is(Ls(), old(i), kind) then r == Some(Ls()[old(i)].value) && i == old(i) + 1 else r == None
    {
      var t := Peek();
      if t.kind != kind {
        return None;
      }
      i := i + 1;
      return Some(t.value);
    }

    predicate PeekKeyword(kw: string)
      requires Valid()
      reads this
      ensures PeekKeyword(kw) <==> IsKeyword(Ls(), i, kw)
    {
      Peek().kind == Keyword && Peek().value == kw
    }

    method ExpectKeyword(kw: string) returns (ok: bool)
      requires Valid()
      modifies this`i
      ensures Valid() && ok == IsKeyword(Ls(), old(i), kw) && (ok ==> i == old(i) + 1)
    {
      var t := Expect(Keyword);
      return t.Some? && t.value == kw;
    }

    /** The run of four expectations that starts a workflow, a task and a constraint. */
    method ExpectOpening(kw: string) returns (name: Option<string>)
      requires Valid()
      modifies this`i
      ensures Valid()
      ensures if Opens(Ls(), old(i), kw) then name == Some(Ls()[old(i) + 1].value) && i == old(i) + 4 else name == None
    {
      var ok := ExpectKeyword(kw);
      if !ok {
        return None;
      }
      name := Expect(IdentToken);
      if name.None? {
        return None;
      }
      var colon := Expect(Colon);
      if colon.None? {
        return None;
      }
      var brace := Expect(LBrace);
      if brace.None? {
        return None;
      }
    }

    /** The run of three expectations that reads a field. */
    method ExpectField(kw: string, kind: Kind) returns (value: Option<string>)
      requires Valid() && kind != Eof
      modifies this`i
      ensures Valid()
      ensures if Field(Ls(), old(i), kw, kind) then value == Some(Ls()[old(i) + 2].value) && i == old(i) + 3
              else value == None
    {
      var ok := ExpectKeyword(kw);
      if !ok {
        return None;
      }
      var colon := Expect(Colon);
      if colon.None? {
        return None;
      }
      value := Expect(kind);
    }

    method ExpectIdentOrString() returns (r: Option<string>)
      requires Valid()
      modifies this`i
      ensures Valid()
      ensures if Ls()[old(i)].kind == IdentToken || Ls()[old(i)].kind == StringToken
              then r == Some(Ls()[old(i)].value) && i == old(i) + 1 else r == None
    {
      var t := Peek();
      if t.kind == IdentToken || t.kind == StringToken {
        i := i + 1;
        return Some(t.value);
      }
      return None;
    }

    /** The method did what the function says: the same outcome, with the cursor after what was read. */
    ghost predicate Agrees<T>(r: Outcome<T>, spec: Outcome<T>)
      reads this
    {
      r == spec && (r.Parsed? ==> i == r.next)
    }

    method ParseDependList(deps: seq<string>) returns (r: Outcome<seq<string>>)
      requires Valid()
      modifies this`i
      ensures Valid() && Agrees(r, DependList(Ls(), old(i), deps))
    {
      var dependsOn := deps;
      while Peek().kind != RBracket
        invariant Valid() && DependList(Ls(), i, dependsOn) == DependList(Ls(), old(i), deps)
        decreases |tokens| - i
      {
        var dep := ExpectIdentOrString();
        if dep.None? {
          return Throws;
        }
        dependsOn := dependsOn + [dep.value];
        if Peek().kind == Comma {
          var _ := Expect(Comma);
        }
      }
      var _ := Expect(RBracket);
      return Parsed(dependsOn, i);
    }

    method ParseTaskField(t: TaskDslNode) returns (r: Outcome<TaskDslNode>)
      requires Valid()
      modifies this`i
      ensures Valid() && Agrees(r, TaskField(Ls(), old(i), t))
    {
      if PeekKeyword("handler") {
        var value := ExpectField("handler", StringToken);
        return if value.Some? then Parsed(t.(handler := value.value), i) else Throws;
      } else if PeekKeyword("timeout") {
        var value := ExpectField("timeout", NumberToken);
        return if value.Some? then Parsed(t.(timeoutMs := NumberOf(value.value)), i) else Throws;
      } else if PeekKeyword("depends") {
        var bracket := ExpectField("depends", LBracket);
        if bracket.None? {
          return Throws;
        }
        var deps := ParseDependList(t.dependsOn);
        return if deps.Parsed? then Parsed(t.(dependsOn := deps.node), i) else Throws;
      } else if PeekKeyword("optional") {
        var _ := ExpectKeyword("optional");
        return Parsed(t.(optional := true), i);
      }
      return Throws;
    }

    method ParseTaskFields(start: TaskDslNode) returns (r: Outcome<TaskDslNode>)
      requires Valid()
      modifies this`i
      ensures Valid() && Agrees(r, TaskFields(Ls(), old(i), start))
    {
      var t := start;
      while Peek().kind != RBrace
        invariant Valid() && TaskFields(Ls(), i, t) == TaskFields(Ls(), old(i), start)
        decreases |tokens| - i
      {
        var step := ParseTaskField(t);
        if step.Throws? {
          return Throws;
        }
        t := step.node;
      }
      var _ := Expect(RBrace);
      return Parsed(t, i);
    }

    method ParseTask() returns (r: Outcome<TaskDslNode>)
      requires Valid()
      modifies this`i
      ensures Valid() && Agrees(r, Task(Ls(), old(i)))
    {
      var id := ExpectOpening("task");
      if id.None? {
        return Throws;
      }
      r := ParseTaskFields(NewTask(id.value));
      if r.Parsed? && r.node.handler == "" {
        return Throws;
      }
    }

    /** One round of the loop in `parseConstraint`. Where no branch applies it leaves everything as it is. */
    method ParseConstraintItem(c: ConstraintDslNode) returns (r: Outcome<ConstraintDslNode>)
      requires Valid()
      modifies this`i
      ensures Valid() && Agrees(r, ConstraintItem(Ls(), old(i), c)) && (r.Diverges? ==> i == old(i))
    {
      if PeekKeyword("expr") {
        var value := ExpectField("expr", StringToken);
        return if value.Some? then Parsed(c.(expr := value.value), i) else Throws;
      } else if PeekKeyword("warn") {
        var _ := ExpectKeyword("warn");
        return Parsed(c.(severity := Warn), i);
      } else if PeekKeyword("block") {
        var _ := ExpectKeyword("block");
        return Parsed(c.(severity := Block), i);
      }
      return Diverges;
    }

    method ParseConstraintItems(start: ConstraintDslNode) returns (r: Outcome<ConstraintDslNode>)
      requires Valid()
      modifies this`i
      ensures Valid() && Agrees(r, ConstraintItems(Ls(), old(i), start))
    {
      var c := start;
      while Peek().kind != RBrace
        invariant Valid() && ConstraintItems(Ls(), i, c) == ConstraintItems(Ls(), old(i), start)
        decreases |tokens| - i
      {
        var step := ParseConstraintItem(c);
        if !step.Parsed? {
          return step;
        }
        c := step.node;
      }
      var _ := Expect(RBrace);
      return Parsed(c, i);
    }

    method ParseConstraint() returns (r: Outcome<ConstraintDslNode>)
      requires Valid()
      modifies this`i
      ensures Valid() && Agrees(r, Constraint(Ls(), old(i)))
    {
      var id := ExpectOpening("constraint");
      if id.None? {
        return Throws;
      }
      r := ParseConstraintItems(ConstraintDslNode(id.value, "", Block));
    }

    method ParseBodyItem(b: Body) returns (r: Outcome<Body>)
      requires Valid()
      modifies this`i
      ensures Valid() && Agrees(r, BodyItem(Ls(), old(i), b))
    {
      if PeekKeyword("task") {
        var t := ParseTask();
        return if t.Parsed? then Parsed(b.(tasks := b.tasks + [t.node]), i) else Throws;
      } else if PeekKeyword("constraint") {
        var c := ParseConstraint();
        match c {
          case Throws => return Throws;
          case Diverges => return Diverges;
          case Parsed(node, _) => return Parsed(b.(constraints := b.constraints + [node]), i);
        }
      }
      return Throws;
    }

    method ParseBody() returns (r: Outcome<Body>)
      requires Valid()
      modifies this`i
      ensures Valid() && Agrees(r, BodyFrom(Ls(), old(i), Body([], [])))
    {
      var b := Body([], []);
      while Peek().kind != RBrace
        invariant Valid() && BodyFrom(Ls(), i, b) == BodyFrom(Ls(), old(i), Body([], []))
        decreases |tokens| - i
      {
        var step := ParseBodyItem(b);
        if !step.Parsed? {
          return step;
        }
        b := step.node;
      }
      var _ := Expect(RBrace);
      return Parsed(b, i);
    }

    method Parse(source: string) returns (r: Outcome<WorkflowDslNode>)
      modifies this
      ensures r == ParseText(source)
    {
      var lexer := new WorkflowDslLexer(source);
      var lexed := lexer.Tokenize();
      if lexed.None? {
        return Throws;
      }
      tokens, i := lexed.value, 0;
      TokensAreTerminated(source, 0);
      LexerTerminates(Ls());
      var name := ExpectOpening("workflow");
      if name.None? {
        return Throws;
      }
      var version := ExpectField("version", NumberToken);
      if version.None? {
        return Throws;
      }
      var b := ParseBody();
      match b {
        case Throws => return Throws;
        case Diverges => return Diverges;
        case Parsed(body, next) =>
          return Parsed(WorkflowDslNode(name.value, NumberOf(version.value), body.tasks, body.constraints), next);
      }
    }
  }

  /** Lexing and parsing of a text. */
  ghost function ParseText(source: string): Outcome<WorkflowDslNode> {
    var lexed := TokensFrom(source, 0);
    if lexed.None? then Throws
    else
      TokensAreTerminated(source, 0);
      LexerTerminates(Lexemes(lexed.value));
      WorkflowOf(Lexemes(lexed.value))
  }
}
