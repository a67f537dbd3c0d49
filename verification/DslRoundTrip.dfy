/** Printing a workflow and parsing the text gives the workflow back, and the parser returns nothing else. */
module DslRoundTrip {
  import opened Scanning
  import opened Jobs
  import opened DslAst
  import opened DslLexer
  import opened DslParser

  /** Leading zeros do not count. */
  lemma {:induction false} LeadingZero(text: string)
    ensures NumberOf("0" + text) == NumberOf(text)
    decreases |text|
  {
    if text == "" {
      assert ("0" + text)[..0] == "";
    } else {
      var init := text[..|text| - 1];
      assert ("0" + text)[..|text|] == "0" + init;
      LeadingZero(init);
    }
  }

  // ----- the printer

  function DigitOf(d: nat): (c: char)
    requires d < 10
    ensures IsDigit(c) && (c - '0') as nat == d
  {
    '0' + d as char
  }

  function DigitsOf(n: nat): string {
    (if n < 10 then "" else DigitsOf(n / 10)) + [DigitOf(n % 10)]
  }

  lemma NumberPush(text: string, d: nat)
    requires d < 10
    ensures NumberOf(text + [DigitOf(d)]) == NumberOf(text) * 10 + d
  {
    assert (text + [DigitOf(d)])[..|text|] == text;
  }

  lemma {:induction false} NumberInvertsDigits(n: nat)
    ensures IsDigits(DigitsOf(n)) && NumberOf(DigitsOf(n)) == n
  {
    if n < 10 {
      NumberPush("", n);
    } else {
      NumberInvertsDigits(n / 10);
      NumberPush(DigitsOf(n / 10), n % 10);
    }
  }

  const COLON := Lexeme(Colon, ":")
  const COMMA := Lexeme(Comma, ",")
  const OPEN_BRACE := Lexeme(LBrace, "{")
  const CLOSE_BRACE := Lexeme(RBrace, "}")
  const OPEN_BRACKET := Lexeme(LBracket, "[")
  const CLOSE_BRACKET := Lexeme(RBracket, "]")

  function Word(kw: string): Lexeme {
    Lexeme(Keyword, kw)
  }

  function Quoted(text: string): Lexeme {
    Lexeme(StringToken, text)
  }

  function Digits(n: nat): Lexeme {
    Lexeme(NumberToken, DigitsOf(n))
  }

  function RenderOpening(kw: string, name: string): seq<Lexeme> {
    [Word(kw), Lexeme(IdentToken, name), COLON, OPEN_BRACE]
  }

  function RenderDeps(deps: seq<string>): seq<Lexeme> {
    if deps == [] then []
    else (if |deps| == 1 then [Quoted(deps[0])] else [Quoted(deps[0]), COMMA]) + RenderDeps(deps[1..])
  }

  function RenderEnd(t: TaskDslNode): seq<Lexeme> {
    if t.optional then [Word("optional"), CLOSE_BRACE] else [CLOSE_BRACE]
  }

  function RenderDepends(t: TaskDslNode): seq<Lexeme> {
    [Word("depends"), COLON, OPEN_BRACKET] + ((RenderDeps(t.dependsOn) + [CLOSE_BRACKET]) + RenderEnd(t))
  }

  function RenderTimeout(t: TaskDslNode): seq<Lexeme> {
    [Word("timeout"), COLON, Digits(t.timeoutMs)] + RenderDepends(t)
  }

  function RenderFields(t: TaskDslNode): seq<Lexeme> {
    [Word("handler"), COLON, Quoted(t.handler)] + RenderTimeout(t)
  }

  function RenderTask(t: TaskDslNode): seq<Lexeme> {
    RenderOpening("task", t.id) + RenderFields(t)
  }

  function RenderItems(c: ConstraintDslNode): seq<Lexeme> {
    [Word("expr"), COLON, Quoted(c.expr), Word(if c.severity == Warn then "warn" else "block")]
  }

  function RenderConstraint(c: ConstraintDslNode): seq<Lexeme> {
    RenderOpening("constraint", c.id) + RenderItems(c) + [CLOSE_BRACE]
  }

  function RenderTasks(tasks: seq<TaskDslNode>): seq<Lexeme> {
    if tasks == [] then [] else RenderTask(tasks[0]) + RenderTasks(tasks[1..])
  }

  function RenderConstraints(constraints: seq<ConstraintDslNode>): seq<Lexeme> {
    if constraints == [] then [] else RenderConstraint(constraints[0]) + RenderConstraints(constraints[1..])
  }

  function RenderHeader(w: WorkflowDslNode): seq<Lexeme> {
    RenderOpening("workflow", w.name) + [Word("version"), COLON, Digits(w.version)]
  }

  function Render(w: WorkflowDslNode): seq<Lexeme> {
    RenderHeader(w) + (RenderTasks(w.tasks) + (RenderConstraints(w.constraints) + [CLOSE_BRACE]))
  }

  function Print(w: WorkflowDslNode): string {
    SpellAll(Render(w))
  }

  // ----- which workflows can be written

  predicate WritableTask(t: TaskDslNode) {
    IsName(t.id) && t.handler != ""
  }

  /** Names are identifiers that are no keywords, and every task has a handler. Everything else is free. */
  predicate Writable(w: WorkflowDslNode) {
    && IsName(w.name)
    && (forall t | t in w.tasks :: WritableTask(t))
    && (forall c | c in w.constraints :: IsName(c.id))
  }

  // ----- the printer writes tokens the lexer knows

  lemma SpellableConcat(a: seq<Lexeme>, b: seq<Lexeme>)
    requires AllSpellable(a) && AllSpellable(b)
    ensures AllSpellable(a + b)
  {
  }

  lemma {:induction false} DepsAreSpellable(deps: seq<string>)
    ensures AllSpellable(RenderDeps(deps))
  {
    if deps != [] {
      DepsAreSpellable(deps[1..]);
    }
  }

  lemma OpeningIsSpellable(kw: string, name: string)
    requires kw in KEYWORDS && IsName(name)
    ensures AllSpellable(RenderOpening(kw, name))
  {
  }

  lemma NumberFieldIsSpellable(kw: string, n: nat)
    requires kw in KEYWORDS
    ensures AllSpellable([Word(kw), COLON, Digits(n)])
  {
    NumberInvertsDigits(n);
  }

  lemma TaskIsSpellable(t: TaskDslNode)
    requires WritableTask(t)
    ensures AllSpellable(RenderTask(t))
  {
    DepsAreSpellable(t.dependsOn);
    SpellableConcat(RenderDeps(t.dependsOn), [CLOSE_BRACKET]);
    SpellableConcat(RenderDeps(t.dependsOn) + [CLOSE_BRACKET], RenderEnd(t));
    SpellableConcat([Word("depends"), COLON, OPEN_BRACKET], RenderDeps(t.dependsOn) + [CLOSE_BRACKET] + RenderEnd(t));
    NumberFieldIsSpellable("timeout", t.timeoutMs);
    SpellableConcat([Word("timeout"), COLON, Digits(t.timeoutMs)], RenderDepends(t));
    SpellableConcat([Word("handler"), COLON, Quoted(t.handler)], RenderTimeout(t));
    OpeningIsSpellable("task", t.id);
    SpellableConcat(RenderOpening("task", t.id), RenderFields(t));
  }

  lemma ConstraintIsSpellable(c: ConstraintDslNode)
    requires IsName(c.id)
    ensures AllSpellable(RenderConstraint(c))
  {
    OpeningIsSpellable("constraint", c.id);
    assert AllSpellable(RenderItems(c));
    SpellableConcat(RenderOpening("constraint", c.id), RenderItems(c));
  }

  lemma {:induction false} TasksAreSpellable(tasks: seq<TaskDslNode>)
    requires forall t | t in tasks :: WritableTask(t)
    ensures AllSpellable(RenderTasks(tasks))
  {
    if tasks != [] {
      TaskIsSpellable(tasks[0]);
      TasksAreSpellable(tasks[1..]);
    }
  }

  lemma {:induction false} ConstraintsAreSpellable(constraints: seq<ConstraintDslNode>)
    requires forall c | c in constraints :: IsName(c.id)
    ensures AllSpellable(RenderConstraints(constraints))
  {
    if constraints != [] {
      ConstraintIsSpellable(constraints[0]);
      ConstraintsAreSpellable(constraints[1..]);
    }
  }

  lemma RenderingIsSpellable(w: WorkflowDslNode)
    requires Writable(w)
    ensures AllSpellable(Render(w))
  {
    OpeningIsSpellable("workflow", w.name);
    NumberFieldIsSpellable("version", w.version);
    TasksAreSpellable(w.tasks);
    ConstraintsAreSpellable(w.constraints);
    SpellableConcat(RenderConstraints(w.constraints), [CLOSE_BRACE]);
    SpellableConcat(RenderTasks(w.tasks), RenderConstraints(w.constraints) + [CLOSE_BRACE]);
    SpellableConcat(RenderHeader(w), RenderTasks(w.tasks) + (RenderConstraints(w.constraints) + [CLOSE_BRACE]));
  }

  // ----- single steps of the parser

  lemma FieldStep(ls: seq<Lexeme>, i: nat, t: TaskDslNode, u: TaskDslNode, next: nat)
    requires Terminated(ls) && i < |ls| && TaskField(ls, i, t) == Parsed(u, next)
    ensures next < |ls| && TaskFields(ls, i, t) == TaskFields(ls, next, u)
  {
  }

  lemma ItemStep(ls: seq<Lexeme>, i: nat, c: ConstraintDslNode, d: ConstraintDslNode, next: nat)
    requires Terminated(ls) && i < |ls| && ConstraintItem(ls, i, c) == Parsed(d, next)
    ensures next < |ls| && ConstraintItems(ls, i, c) == ConstraintItems(ls, next, d)
  {
  }

  /** Parsing a body from `i` comes to the same as parsing it from `j` with more collected. */
  ghost predicate Leads(ls: seq<Lexeme>, i: nat, b: Body, j: nat, c: Body)
    requires Terminated(ls) && i < |ls|
  {
    j < |ls| && BodyFrom(ls, i, b) == BodyFrom(ls, j, c)
  }

  lemma LeadsOn(ls: seq<Lexeme>, i: nat, b: Body, j: nat, c: Body, k: nat, d: Body)
    requires Terminated(ls) && i < |ls| && Leads(ls, i, b, j, c) && Leads(ls, j, c, k, d)
    ensures Leads(ls, i, b, k, d)
  {
  }

  lemma BodyStep(ls: seq<Lexeme>, i: nat, b: Body, c: Body, next: nat)
    requires Terminated(ls) && i < |ls| && BodyItem(ls, i, b) == Parsed(c, next)
    ensures Leads(ls, i, b, next, c)
  {
  }

  lemma ThreeAt(ls: seq<Lexeme>, i: nat, a: Lexeme, b: Lexeme, c: Lexeme, rest: seq<Lexeme>)
    requires At(ls, i, [a, b, c] + rest)
    ensures i + 2 < |ls| && ls[i] == a && ls[i + 1] == b && ls[i + 2] == c && At(ls, i + 3, rest)
  {
    AtConcat(ls, i, [a, b, c], rest);
    AtIndex(ls, i, [a, b, c], 0);
    AtIndex(ls, i, [a, b, c], 1);
    AtIndex(ls, i, [a, b, c], 2);
  }

  lemma OpeningReadsBack(ls: seq<Lexeme>, i: nat, kw: string, name: string, rest: seq<Lexeme>)
    requires At(ls, i, RenderOpening(kw, name) + rest)
    ensures Opens(ls, i, kw) && ls[i + 1].value == name && At(ls, i + 4, rest)
  {
    assert RenderOpening(kw, name) + rest == [Word(kw), Lexeme(IdentToken, name), COLON] + ([OPEN_BRACE] + rest);
    ThreeAt(ls, i, Word(kw), Lexeme(IdentToken, name), COLON, [OPEN_BRACE] + rest);
    AtConcat(ls, i + 3, [OPEN_BRACE], rest);
    AtIndex(ls, i + 3, [OPEN_BRACE], 0);
  }

  // ----- parsing what was printed

  /** Where the first dependency and the rest of the list stand; the rest starts at `next`. */
  lemma DepsPieces(ls: seq<Lexeme>, i: nat, deps: seq<string>) returns (next: nat)
    requires deps != [] && At(ls, i, RenderDeps(deps) + [CLOSE_BRACKET])
    ensures i + 1 < |ls| && ls[i] == Quoted(deps[0]) && next == (if ls[i + 1].kind == Comma then i + 2 else i + 1)
    ensures At(ls, next, RenderDeps(deps[1..]) + [CLOSE_BRACKET])
    ensures next + |RenderDeps(deps[1..])| == i + |RenderDeps(deps)|
  {
    var head := if |deps| == 1 then [Quoted(deps[0])] else [Quoted(deps[0]), COMMA];
    var rest := RenderDeps(deps[1..]) + [CLOSE_BRACKET];
    assert RenderDeps(deps) + [CLOSE_BRACKET] == head + rest;
    AtConcat(ls, i, head, rest);
    AtIndex(ls, i, head, 0);
    next := i + |head|;
    if |deps| == 1 {
      assert deps[1..] == [];
      AtIndex(ls, next, rest, 0);
    } else {
      AtIndex(ls, i, head, 1);
    }
  }

  lemma DepStep(ls: seq<Lexeme>, i: nat, before: seq<string>, dep: string, next: nat)
    requires Terminated(ls) && i + 1 < |ls| && ls[i] == Quoted(dep)
    requires next == (if ls[i + 1].kind == Comma then i + 2 else i + 1)
    ensures next < |ls| && DependList(ls, i, before) == DependList(ls, next, before + [dep])
  {
  }

  lemma {:induction false} DepsReadBack(
      ls: seq<Lexeme>, i: nat, before: seq<string>, deps: seq<string>, all: seq<string>)
    requires Terminated(ls) && At(ls, i, RenderDeps(deps) + [CLOSE_BRACKET]) && all == before + deps
    ensures i < |ls| && DependList(ls, i, before) == Parsed(all, i + |RenderDeps(deps)| + 1)
    decreases |deps|
  {
    if deps == [] {
      AtIndex(ls, i, RenderDeps(deps) + [CLOSE_BRACKET], 0);
      assert all == before;
    } else {
      var next := DepsPieces(ls, i, deps);
      DepStep(ls, i, before, deps[0], next);
      assert all == before + [deps[0]] + deps[1..];
      DepsReadBack(ls, next, before + [deps[0]], deps[1..], all);
    }
  }

  lemma EndReadsBack(ls: seq<Lexeme>, i: nat, t: TaskDslNode)
    requires Terminated(ls) && At(ls, i, RenderEnd(t))
    ensures TaskFields(ls, i, t.(optional := false)) == Parsed(t, i + |RenderEnd(t)|)
  {
    AtIndex(ls, i, RenderEnd(t), 0);
    if t.optional {
      AtIndex(ls, i, RenderEnd(t), 1);
      FieldStep(ls, i, t.(optional := false), t, i + 1);
    }
  }

  lemma DependsField(ls: seq<Lexeme>, i: nat, t: TaskDslNode, deps: seq<string>, next: nat)
    requires Terminated(ls) && Field(ls, i, "depends", LBracket) && i + 3 < |ls|
    requires DependList(ls, i + 3, t.dependsOn) == Parsed(deps, next)
    ensures TaskField(ls, i, t) == Parsed(t.(dependsOn := deps), next)
  {
  }

  lemma DependsPieces(ls: seq<Lexeme>, i: nat, t: TaskDslNode) returns (next: nat)
    requires At(ls, i, RenderDepends(t))
    ensures Field(ls, i, "depends", LBracket) && At(ls, i + 3, RenderDeps(t.dependsOn) + [CLOSE_BRACKET])
    ensures next == i + 4 + |RenderDeps(t.dependsOn)| && At(ls, next, RenderEnd(t))
    ensures i + |RenderDepends(t)| == next + |RenderEnd(t)|
  {
    var deps := RenderDeps(t.dependsOn) + [CLOSE_BRACKET];
    ThreeAt(ls, i, Word("depends"), COLON, OPEN_BRACKET, deps + RenderEnd(t));
    AtConcat(ls, i + 3, deps, RenderEnd(t));
    next := i + 3 + |deps|;
  }

  lemma DependsReadsBack(ls: seq<Lexeme>, i: nat, t: TaskDslNode, bare: TaskDslNode)
    requires Terminated(ls) && At(ls, i, RenderDepends(t)) && bare == t.(dependsOn := [], optional := false)
    ensures i < |ls| && TaskFields(ls, i, bare) == Parsed(t, i + |RenderDepends(t)|)
  {
    var next := DependsPieces(ls, i, t);
    assert t.dependsOn == [] + t.dependsOn;
    DepsReadBack(ls, i + 3, [], t.dependsOn, t.dependsOn);
    DependsField(ls, i, bare, t.dependsOn, next);
    FieldStep(ls, i, bare, t.(optional := false), next);
    EndReadsBack(ls, next, t);
  }

  lemma FieldsReadBack(ls: seq<Lexeme>, i: nat, t: TaskDslNode)
    requires Terminated(ls) && At(ls, i, RenderFields(t))
    ensures TaskFields(ls, i, NewTask(t.id)) == Parsed(t, i + |RenderFields(t)|)
  {
    var t0 := NewTask(t.id);
    ThreeAt(ls, i, Word("handler"), COLON, Quoted(t.handler), RenderTimeout(t));
    FieldStep(ls, i, t0, t0.(handler := t.handler), i + 3);
    TimeoutReadsBack(ls, i + 3, t, t0.(handler := t.handler));
  }

  lemma TimeoutReadsBack(ls: seq<Lexeme>, i: nat, t: TaskDslNode, t1: TaskDslNode)
    requires Terminated(ls) && At(ls, i, RenderTimeout(t)) && t1 == TaskDslNode(t.id, t.handler, 30000, [], false)
    ensures TaskFields(ls, i, t1) == Parsed(t, i + |RenderTimeout(t)|)
  {
    NumberFieldReadsBack(ls, i, "timeout", t.timeoutMs, RenderDepends(t));
    var t2 := t.(dependsOn := [], optional := false);
    FieldStep(ls, i, t1, t2, i + 3);
    DependsReadsBack(ls, i + 3, t, t2);
  }

  lemma TaskReadsBack(ls: seq<Lexeme>, i: nat, t: TaskDslNode)
    requires Terminated(ls) && At(ls, i, RenderTask(t)) && t.handler != ""
    ensures i < |ls| && Task(ls, i) == Parsed(t, i + |RenderTask(t)|) && IsKeyword(ls, i, "task")
  {
    OpeningReadsBack(ls, i, "task", t.id, RenderFields(t));
    FieldsReadBack(ls, i + 4, t);
  }

  lemma ItemsReadBack(ls: seq<Lexeme>, i: nat, c: ConstraintDslNode)
    requires Terminated(ls) && At(ls, i, RenderItems(c))
    ensures i + 4 < |ls|
    ensures ConstraintItems(ls, i, ConstraintDslNode(c.id, "", Block)) == ConstraintItems(ls, i + 4, c)
  {
    var severity := Word(if c.severity == Warn then "warn" else "block");
    assert RenderItems(c) == [Word("expr"), COLON, Quoted(c.expr)] + [severity];
    ThreeAt(ls, i, Word("expr"), COLON, Quoted(c.expr), [severity]);
    AtIndex(ls, i + 3, [severity], 0);
    var c0 := ConstraintDslNode(c.id, "", Block);
    ItemStep(ls, i, c0, c0.(expr := c.expr), i + 3);
    ItemStep(ls, i + 3, c0.(expr := c.expr), c, i + 4);
  }

  lemma ConstraintReadsBack(ls: seq<Lexeme>, i: nat, c: ConstraintDslNode)
    requires Terminated(ls) && At(ls, i, RenderConstraint(c))
    ensures i < |ls| && Constraint(ls, i) == Parsed(c, i + |RenderConstraint(c)|) && IsKeyword(ls, i, "constraint")
  {
    assert RenderConstraint(c) == RenderOpening("constraint", c.id) + (RenderItems(c) + [CLOSE_BRACE]);
    OpeningReadsBack(ls, i, "constraint", c.id, RenderItems(c) + [CLOSE_BRACE]);
    AtConcat(ls, i + 4, RenderItems(c), [CLOSE_BRACE]);
    AtIndex(ls, i + 8, [CLOSE_BRACE], 0);
    ItemsReadBack(ls, i + 4, c);
  }

  lemma FirstTaskReadsBack(ls: seq<Lexeme>, i: nat, b: Body, t: TaskDslNode, rest: seq<Lexeme>, next: nat, b1: Body)
    requires Terminated(ls) && At(ls, i, RenderTask(t) + rest) && t.handler != ""
    requires next == i + |RenderTask(t)| && b1 == b.(tasks := b.tasks + [t])
    ensures i < |ls| && At(ls, next, rest) && Leads(ls, i, b, next, b1)
  {
    AtConcat(ls, i, RenderTask(t), rest);
    TaskReadsBack(ls, i, t);
    BodyStep(ls, i, b, b1, next);
  }

  lemma AppendTasks(b: Body, tasks: seq<TaskDslNode>, b1: Body)
    requires tasks != [] && b1 == b.(tasks := b.tasks + [tasks[0]])
    ensures b1.(tasks := b1.tasks + tasks[1..]) == b.(tasks := b.tasks + tasks)
  {
    assert b1.tasks + tasks[1..] == b.tasks + tasks;
  }

  lemma {:induction false} TasksReadBack(
      ls: seq<Lexeme>, i: nat, b: Body, tasks: seq<TaskDslNode>, end: nat, after: Body)
    requires Terminated(ls) && At(ls, i, RenderTasks(tasks)) && i < |ls| && forall t | t in tasks :: t.handler != ""
    requires end == i + |RenderTasks(tasks)| && after == b.(tasks := b.tasks + tasks)
    ensures Leads(ls, i, b, end, after)
    decreases |tasks|
  {
    if tasks == [] {
      assert after == b;
    } else {
      var t, rest := tasks[0], tasks[1..];
      var b1, next := b.(tasks := b.tasks + [t]), i + |RenderTask(t)|;
      FirstTaskReadsBack(ls, i, b, t, RenderTasks(rest), next, b1);
      AppendTasks(b, tasks, b1);
      TasksReadBack(ls, next, b1, rest, end, after);
      LeadsOn(ls, i, b, next, b1, end, after);
    }
  }

  lemma FirstConstraintReadsBack(
      ls: seq<Lexeme>, i: nat, b: Body, c: ConstraintDslNode, rest: seq<Lexeme>, next: nat, b1: Body)
    requires Terminated(ls) && At(ls, i, RenderConstraint(c) + rest)
    requires next == i + |RenderConstraint(c)| && b1 == b.(constraints := b.constraints + [c])
    ensures i < |ls| && At(ls, next, rest) && Leads(ls, i, b, next, b1)
  {
    AtConcat(ls, i, RenderConstraint(c), rest);
    ConstraintReadsBack(ls, i, c);
    BodyStep(ls, i, b, b1, next);
  }

  lemma AppendConstraints(b: Body, constraints: seq<ConstraintDslNode>, b1: Body)
    requires constraints != [] && b1 == b.(constraints := b.constraints + [constraints[0]])
    ensures b1.(constraints := b1.constraints + constraints[1..]) == b.(constraints := b.constraints + constraints)
  {
    assert b1.constraints + constraints[1..] == b.constraints + constraints;
  }

  lemma {:induction false} ConstraintsReadBack(
      ls: seq<Lexeme>, i: nat, b: Body, constraints: seq<ConstraintDslNode>, end: nat, after: Body)
    requires Terminated(ls) && At(ls, i, RenderConstraints(constraints)) && i < |ls|
    requires end == i + |RenderConstraints(constraints)| && after == b.(constraints := b.constraints + constraints)
    ensures Leads(ls, i, b, end, after)
    decreases |constraints|
  {
    if constraints == [] {
      assert after == b;
    } else {
      var c, rest := constraints[0], constraints[1..];
      var b1, next := b.(constraints := b.constraints + [c]), i + |RenderConstraint(c)|;
      FirstConstraintReadsBack(ls, i, b, c, RenderConstraints(rest), next, b1);
      AppendConstraints(b, constraints, b1);
      ConstraintsReadBack(ls, next, b1, rest, end, after);
      LeadsOn(ls, i, b, next, b1, end, after);
    }
  }

  lemma NumberFieldReadsBack(ls: seq<Lexeme>, i: nat, kw: string, n: nat, rest: seq<Lexeme>)
    requires At(ls, i, [Word(kw), COLON, Digits(n)] + rest)
    ensures Field(ls, i, kw, NumberToken) && NumberOf(ls[i + 2].value) == n && At(ls, i + 3, rest)
  {
    ThreeAt(ls, i, Word(kw), COLON, Digits(n), rest);
    NumberInvertsDigits(n);
  }

  lemma HeaderPieces(opening: seq<Lexeme>, version: seq<Lexeme>, rest: seq<Lexeme>)
    ensures opening + version + rest == opening + (version + rest)
  {
  }

  /** The header leads the parser to what stands behind it. */
  lemma HeaderReadsBack(ls: seq<Lexeme>, w: WorkflowDslNode, rest: seq<Lexeme>)
    requires At(ls, 0, RenderHeader(w) + rest)
    ensures Opens(ls, 0, "workflow") && Field(ls, 4, "version", NumberToken)
    ensures ls[1].value == w.name && NumberOf(ls[6].value) == w.version && At(ls, 7, rest)
  {
    var version := [Word("version"), COLON, Digits(w.version)];
    HeaderPieces(RenderOpening("workflow", w.name), version, rest);
    OpeningReadsBack(ls, 0, "workflow", w.name, version + rest);
    NumberFieldReadsBack(ls, 4, "version", w.version, rest);
  }

  lemma BodyPieces(ls: seq<Lexeme>, tasks: seq<Lexeme>, constraints: seq<Lexeme>, rest: seq<Lexeme>)
    requires At(ls, 7, tasks + (constraints + rest)) && rest != []
    ensures At(ls, 7, tasks) && At(ls, 7 + |tasks|, constraints) && At(ls, 7 + |tasks| + |constraints|, rest)
    ensures 7 + |tasks| + |constraints| < |ls|
  {
    AtConcat(ls, 7, tasks, constraints + rest);
    AtConcat(ls, 7 + |tasks|, constraints, rest);
  }

  lemma TasksFromNothing(ls: seq<Lexeme>, tasks: seq<TaskDslNode>, end: nat)
    requires Terminated(ls) && At(ls, 7, RenderTasks(tasks)) && 7 < |ls| && forall t | t in tasks :: t.handler != ""
    requires end == 7 + |RenderTasks(tasks)|
    ensures Leads(ls, 7, Body([], []), end, Body(tasks, []))
  {
    assert [] + tasks == tasks;
    TasksReadBack(ls, 7, Body([], []), tasks, end, Body(tasks, []));
  }

  lemma ConstraintsAfterTasks(
      ls: seq<Lexeme>, i: nat, tasks: seq<TaskDslNode>, constraints: seq<ConstraintDslNode>, end: nat)
    requires Terminated(ls) && At(ls, i, RenderConstraints(constraints)) && i < |ls|
    requires end == i + |RenderConstraints(constraints)|
    ensures Leads(ls, i, Body(tasks, []), end, Body(tasks, constraints))
  {
    assert [] + constraints == constraints;
    ConstraintsReadBack(ls, i, Body(tasks, []), constraints, end, Body(tasks, constraints));
  }

  lemma BodyLeads(
      ls: seq<Lexeme>, tasks: seq<TaskDslNode>, constraints: seq<ConstraintDslNode>, i: nat, end: nat)
    requires Terminated(ls) && (forall t | t in tasks :: t.handler != "") && 7 <= i < |ls|
    requires At(ls, 7, RenderTasks(tasks)) && i == 7 + |RenderTasks(tasks)|
    requires At(ls, i, RenderConstraints(constraints)) && end == i + |RenderConstraints(constraints)|
    ensures Leads(ls, 7, Body([], []), end, Body(tasks, constraints))
  {
    TasksFromNothing(ls, tasks, i);
    ConstraintsAfterTasks(ls, i, tasks, constraints, end);
    LeadsOn(ls, 7, Body([], []), i, Body(tasks, []), end, Body(tasks, constraints));
  }

  /** The given tasks and constraints lead the parser to what stands behind them, at `end`. */
  lemma BodyReadsBack(
      ls: seq<Lexeme>, tasks: seq<TaskDslNode>, constraints: seq<ConstraintDslNode>, rest: seq<Lexeme>, end: nat)
    requires Terminated(ls) && (forall t | t in tasks :: t.handler != "") && rest != []
    requires At(ls, 7, RenderTasks(tasks) + (RenderConstraints(constraints) + rest))
    requires end == 7 + |RenderTasks(tasks)| + |RenderConstraints(constraints)|
    ensures 7 < |ls| && At(ls, end, rest) && Leads(ls, 7, Body([], []), end, Body(tasks, constraints))
  {
    BodyPieces(ls, RenderTasks(tasks), RenderConstraints(constraints), rest);
    BodyLeads(ls, tasks, constraints, 7 + |RenderTasks(tasks)|, end);
  }

  lemma TerminatedLexemes(ls: seq<Lexeme>)
    requires AllSpellable(ls)
    ensures Terminated(ls + [Lexeme(Eof, "")])
  {
    forall i | 0 <= i < |ls| ensures (ls + [Lexeme(Eof, "")])[i].kind != Eof {
      assert Spellable(ls[i]);
    }
  }

  /** The text of any spellable lexemes is parsed as those lexemes and an end mark. */
  lemma ParsesSpelling(ls: seq<Lexeme>)
    requires AllSpellable(ls)
    ensures Terminated(ls + [Lexeme(Eof, "")]) && ParseText(SpellAll(ls)) == WorkflowOf(ls + [Lexeme(Eof, "")])
  {
    TerminatedLexemes(ls);
    LexInvertsSpelling(ls);
  }

  lemma BraceReadsBack(
      ls: seq<Lexeme>, tasks: seq<TaskDslNode>, constraints: seq<ConstraintDslNode>, end: nat)
    requires Terminated(ls) && forall t | t in tasks :: t.handler != ""
    requires At(ls, 7, RenderTasks(tasks) + (RenderConstraints(constraints) + [CLOSE_BRACE]))
    requires end == 7 + |RenderTasks(tasks)| + |RenderConstraints(constraints)|
    ensures 7 < |ls| && Is(ls, end, RBrace) && Leads(ls, 7, Body([], []), end, Body(tasks, constraints))
  {
    BodyReadsBack(ls, tasks, constraints, [CLOSE_BRACE], end);
    AtIndex(ls, end, [CLOSE_BRACE], 0);
  }

  lemma RenderingReadsBack(ls: seq<Lexeme>, w: WorkflowDslNode, rest: seq<Lexeme>)
    requires Terminated(ls) && (forall t | t in w.tasks :: t.handler != "") && At(ls, 0, RenderHeader(w) + rest)
    requires rest == RenderTasks(w.tasks) + (RenderConstraints(w.constraints) + [CLOSE_BRACE])
    ensures WorkflowOf(ls) == Parsed(w, 7 + |rest|)
  {
    HeaderReadsBack(ls, w, rest);
    var end := 7 + |RenderTasks(w.tasks)| + |RenderConstraints(w.constraints)|;
    BraceReadsBack(ls, w.tasks, w.constraints, end);
    BodyEnds(ls, w, end);
  }

  lemma PrefixAt(a: seq<Lexeme>, b: seq<Lexeme>, c: seq<Lexeme>)
    ensures At(a + b + c, 0, a)
  {
  }

  lemma RenderingIs(w: WorkflowDslNode, rest: seq<Lexeme>)
    requires rest == RenderTasks(w.tasks) + (RenderConstraints(w.constraints) + [CLOSE_BRACE])
    ensures Render(w) == RenderHeader(w) + rest && |Render(w)| == 7 + |rest|
  {
  }

  lemma ReadsTokens(w: WorkflowDslNode, trailing: seq<Lexeme>, ls: seq<Lexeme>, rest: seq<Lexeme>)
    requires Writable(w) && ls == Render(w) + trailing + [Lexeme(Eof, "")] && Terminated(ls)
    requires rest == RenderTasks(w.tasks) + (RenderConstraints(w.constraints) + [CLOSE_BRACE])
    ensures WorkflowOf(ls) == Parsed(w, 7 + |rest|)
  {
    PrefixAt(Render(w), trailing, [Lexeme(Eof, "")]);
    RenderingIs(w, rest);
    RenderingReadsBack(ls, w, rest);
  }

  lemma ReadsWhole(w: WorkflowDslNode, trailing: seq<Lexeme>, text: string)
    requires Writable(w) && AllSpellable(trailing) && text == SpellAll(Render(w) + trailing)
    ensures ParseText(text) == Parsed(w, |Render(w)|)
  {
    RenderingIsSpellable(w);
    SpellableConcat(Render(w), trailing);
    ParsesSpelling(Render(w) + trailing);
    var rest := RenderTasks(w.tasks) + (RenderConstraints(w.constraints) + [CLOSE_BRACE]);
    RenderingIs(w, rest);
    ReadsTokens(w, trailing, Render(w) + trailing + [Lexeme(Eof, "")], rest);
  }

  /** Parsing a printed workflow gives it back, whatever tokens follow it. */
  lemma ParseInvertsPrint(w: WorkflowDslNode, trailing: seq<Lexeme>)
    requires Writable(w) && AllSpellable(trailing)
    ensures ParseText(SpellAll(Render(w) + trailing)) == Parsed(w, |Render(w)|)
    ensures ParseText(Print(w)) == Parsed(w, |Render(w)|)
  {
    ReadsWhole(w, trailing, SpellAll(Render(w) + trailing));
    assert Render(w) + [] == Render(w);
    ReadsWhole(w, [], Print(w));
  }

  lemma BodyEnds(ls: seq<Lexeme>, w: WorkflowDslNode, end: nat)
    requires Terminated(ls) && Opens(ls, 0, "workflow") && Field(ls, 4, "version", NumberToken) && Is(ls, end, RBrace)
    requires ls[1].value == w.name && NumberOf(ls[6].value) == w.version
    requires Leads(ls, 7, Body([], []), end, Body(w.tasks, w.constraints))
    ensures WorkflowOf(ls) == Parsed(w, end + 1)
  {
  }

  // ----- the converse: whatever is parsed could have been printed

  lemma NameAt(ls: seq<Lexeme>, i: nat)
    requires EofTerminated(ls) && Is(ls, i, IdentToken)
    ensures IsName(ls[i].value)
  {
    assert i < |ls| - 1 && Spellable(ls[i]);
  }

  lemma {:induction false} BodyIsWritable(ls: seq<Lexeme>, i: nat, b: Body)
    requires EofTerminated(ls) && Terminated(ls) && i < |ls| && BodyFrom(ls, i, b).Parsed?
    requires (forall t | t in b.tasks :: WritableTask(t)) && (forall c | c in b.constraints :: IsName(c.id))
    ensures var r := BodyFrom(ls, i, b).node;
            (forall t | t in r.tasks :: WritableTask(t)) && (forall c | c in r.constraints :: IsName(c.id))
    decreases |ls| - i
  {
    if ls[i].kind != RBrace {
      NameAt(ls, i + 1);
      var item := BodyItem(ls, i, b);
      BodyIsWritable(ls, item.next, item.node);
    }
  }

  /** Only writable workflows are ever returned, and printing one keeps it. */
  lemma ParsesOnlyWritable(source: string)
    requires ParseText(source).Parsed?
    ensures var w := ParseText(source).node; Writable(w) && ParseText(Print(w)) == Parsed(w, |Render(w)|)
  {
    TokensAreTerminated(source, 0);
    var ls := Lexemes(TokensFrom(source, 0).value);
    LexerTerminates(ls);
    NameAt(ls, 1);
    BodyIsWritable(ls, 7, Body([], []));
    ParseInvertsPrint(ParseText(source).node, []);
  }

  /** The image of the parser: a workflow can come out exactly if it is writable. */
  lemma ImageOfTheParser(w: WorkflowDslNode)
    ensures Writable(w) <==> exists source, next :: ParseText(source) == Parsed(w, next)
  {
    if Writable(w) {
      ParseInvertsPrint(w, []);
    }
    if exists source, next :: ParseText(source) == Parsed(w, next) {
      var source, next :| ParseText(source) == Parsed(w, next);
      ParsesOnlyWritable(source);
    }
  }
}
