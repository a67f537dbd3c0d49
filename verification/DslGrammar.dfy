/** A grammar of the workflow language, written down apart from its parser, and the proof that the parser accepts
    exactly what the grammar derives: fields in any order and number, names in either spelling, commas or none, and
    the defaults of whatever is left out. */
module DslGrammar {
  import opened Jobs
  import opened DslAst
  import opened DslLexer
  import opened DslParser

  /** A part of a text and where it ends. */
  datatype Piece<T> = Piece(item: T, end: nat)

  function EndOf<T>(i: nat, pieces: seq<Piece<T>>): nat {
    if pieces == [] then i else pieces[|pieces| - 1].end
  }

  /** The closing brace behind the pieces, and the position behind it. */
  ghost predicate ClosesAt<T>(ls: seq<Lexeme>, i: nat, pieces: seq<Piece<T>>, end: nat) {
    EndOf(i, pieces) < |ls| && ls[EndOf(i, pieces)].kind == RBrace && end == EndOf(i, pieces) + 1
  }

  lemma EndOfCons<T>(i: nat, first: Piece<T>, rest: seq<Piece<T>>)
    ensures EndOf(i, [first] + rest) == EndOf(first.end, rest)
  {
  }

  /** `kw name : {` */
  ghost predicate HeadAt(ls: seq<Lexeme>, i: nat, kw: string) {
    && i + 3 < |ls| && ls[i] == Lexeme(Keyword, kw) && ls[i + 1].kind == IdentToken
    && ls[i + 2].kind == Colon && ls[i + 3].kind == LBrace
  }

  /** `kw :` */
  ghost predicate KeyAt(ls: seq<Lexeme>, i: nat, kw: string) {
    i + 2 < |ls| && ls[i] == Lexeme(Keyword, kw) && ls[i + 1].kind == Colon
  }

  // ----- dependency lists

  /** The names, each an identifier or a string and each with or without a comma behind it, and the closing bracket. */
  ghost predicate NamesAt(ls: seq<Lexeme>, i: nat, names: seq<string>, end: nat)
    decreases |names|
  {
    && i < |ls|
    && if names == [] then ls[i].kind == RBracket && end == i + 1
       else
         && (ls[i].kind == IdentToken || ls[i].kind == StringToken) && ls[i].value == names[0]
         && (|| NamesAt(ls, i + 1, names[1..], end)
             || (i + 1 < |ls| && ls[i + 1].kind == Comma && NamesAt(ls, i + 2, names[1..], end)))
  }

  lemma NoCommaFirst(ls: seq<Lexeme>, i: nat, names: seq<string>, end: nat)
    requires NamesAt(ls, i, names, end)
    ensures ls[i].kind != Comma
  {
  }

  lemma {:induction false} NamesAreRead(ls: seq<Lexeme>, i: nat, deps: seq<string>, names: seq<string>, end: nat)
    requires Terminated(ls) && i < |ls| && NamesAt(ls, i, names, end)
    ensures DependList(ls, i, deps) == Parsed(deps + names, end)
    decreases |names|
  {
    if names == [] {
      assert deps + names == deps;
    } else {
      var longer := deps + [names[0]];
      assert longer + names[1..] == deps + names;
      if NamesAt(ls, i + 1, names[1..], end) {
        NoCommaFirst(ls, i + 1, names[1..], end);
        NamesAreRead(ls, i + 1, longer, names[1..], end);
      } else {
        NamesAreRead(ls, i + 2, longer, names[1..], end);
      }
    }
  }

  lemma {:induction false} ReadAreNames(ls: seq<Lexeme>, i: nat, deps: seq<string>) returns (names: seq<string>)
    requires Terminated(ls) && i < |ls| && DependList(ls, i, deps).Parsed?
    ensures DependList(ls, i, deps).node == deps + names && NamesAt(ls, i, names, DependList(ls, i, deps).next)
    decreases |ls| - i
  {
    if ls[i].kind == RBracket {
      names := [];
    } else {
      var next := if ls[i + 1].kind == Comma then i + 2 else i + 1;
      var longer := deps + [ls[i].value];
      var rest := ReadAreNames(ls, next, longer);
      names := [ls[i].value] + rest;
      assert names[1..] == rest && longer + rest == deps + names;
    }
  }

  // ----- tasks

  datatype FieldItem =
    | HandlerIs(text: string)
    | TimeoutIs(digits: string)
    | DependsOn(names: seq<string>)
    | OptionalMark

  ghost predicate FieldAt(ls: seq<Lexeme>, i: nat, item: FieldItem, end: nat) {
    match item
    case HandlerIs(text) => KeyAt(ls, i, "handler") && ls[i + 2] == Lexeme(StringToken, text) && end == i + 3
    case TimeoutIs(digits) => KeyAt(ls, i, "timeout") && ls[i + 2] == Lexeme(NumberToken, digits) && end == i + 3
    case DependsOn(names) => KeyAt(ls, i, "depends") && ls[i + 2].kind == LBracket && NamesAt(ls, i + 3, names, end)
    case OptionalMark => i < |ls| && ls[i] == Lexeme(Keyword, "optional") && end == i + 1
  }

  ghost predicate FieldsAt(ls: seq<Lexeme>, i: nat, pieces: seq<Piece<FieldItem>>)
    decreases |pieces|
  {
    pieces == [] || (FieldAt(ls, i, pieces[0].item, pieces[0].end) && FieldsAt(ls, pieces[0].end, pieces[1..]))
  }

  /** The handler named last. */
  function LastHandler(pieces: seq<Piece<FieldItem>>, otherwise: string): string {
    if pieces == [] then otherwise
    else
      var last := pieces[|pieces| - 1].item;
      if last.HandlerIs? then last.text else LastHandler(pieces[..|pieces| - 1], otherwise)
  }

  /** The timeout given last. */
  function LastTimeout(pieces: seq<Piece<FieldItem>>, otherwise: nat): nat {
    if pieces == [] then otherwise
    else
      var last := pieces[|pieces| - 1].item;
      if last.TimeoutIs? then NumberOf(last.digits) else LastTimeout(pieces[..|pieces| - 1], otherwise)
  }

  /** The names of all dependency lists, one list after another. */
  function AllNames(pieces: seq<Piece<FieldItem>>): seq<string> {
    if pieces == [] then []
    else
      var last := pieces[|pieces| - 1].item;
      AllNames(pieces[..|pieces| - 1]) + if last.DependsOn? then last.names else []
  }

  ghost predicate HasMark(pieces: seq<Piece<FieldItem>>) {
    exists k :: 0 <= k < |pieces| && pieces[k].item.OptionalMark?
  }

  /** What the fields make of a task. */
  ghost function Described(t: TaskDslNode, pieces: seq<Piece<FieldItem>>): TaskDslNode {
    TaskDslNode(
      t.id, LastHandler(pieces, t.handler), LastTimeout(pieces, t.timeoutMs), t.dependsOn + AllNames(pieces),
      t.optional || HasMark(pieces))
  }

  ghost function WithField(t: TaskDslNode, item: FieldItem): TaskDslNode {
    match item
    case HandlerIs(text) => t.(handler := text)
    case TimeoutIs(digits) => t.(timeoutMs := NumberOf(digits))
    case DependsOn(names) => t.(dependsOn := t.dependsOn + names)
    case OptionalMark => t.(optional := true)
  }

  lemma Inits<T>(first: Piece<T>, rest: seq<Piece<T>>)
    requires rest != []
    ensures ([first] + rest)[..|rest|] == [first] + rest[..|rest| - 1]
    ensures ([first] + rest)[|rest|] == rest[|rest| - 1]
  {
  }

  lemma {:induction false} LastHandlerCons(first: Piece<FieldItem>, rest: seq<Piece<FieldItem>>, otherwise: string)
    ensures LastHandler([first] + rest, otherwise) ==
            LastHandler(rest, if first.item.HandlerIs? then first.item.text else otherwise)
  {
    if rest == [] {
      assert ([first] + rest)[..0] == [];
    } else {
      Inits(first, rest);
      LastHandlerCons(first, rest[..|rest| - 1], otherwise);
    }
  }

  lemma {:induction false} LastTimeoutCons(first: Piece<FieldItem>, rest: seq<Piece<FieldItem>>, otherwise: nat)
    ensures LastTimeout([first] + rest, otherwise) ==
            LastTimeout(rest, if first.item.TimeoutIs? then NumberOf(first.item.digits) else otherwise)
  {
    if rest == [] {
      assert ([first] + rest)[..0] == [];
    } else {
      Inits(first, rest);
      LastTimeoutCons(first, rest[..|rest| - 1], otherwise);
    }
  }

  lemma {:induction false} AllNamesCons(first: Piece<FieldItem>, rest: seq<Piece<FieldItem>>)
    ensures AllNames([first] + rest) == (if first.item.DependsOn? then first.item.names else []) + AllNames(rest)
  {
    if rest == [] {
      assert ([first] + rest)[..0] == [];
    } else {
      Inits(first, rest);
      AllNamesCons(first, rest[..|rest| - 1]);
    }
  }

  lemma HasMarkCons(first: Piece<FieldItem>, rest: seq<Piece<FieldItem>>)
    ensures HasMark([first] + rest) <==> first.item.OptionalMark? || HasMark(rest)
  {
    var pieces := [first] + rest;
    if k :| 0 <= k < |rest| && rest[k].item.OptionalMark? {
      assert pieces[k + 1].item.OptionalMark?;
    }
    if first.item.OptionalMark? {
      assert pieces[0].item.OptionalMark?;
    }
  }

  lemma DescribedCons(t: TaskDslNode, first: Piece<FieldItem>, rest: seq<Piece<FieldItem>>)
    ensures Described(t, [first] + rest) == Described(WithField(t, first.item), rest)
  {
    LastHandlerCons(first, rest, t.handler);
    LastTimeoutCons(first, rest, t.timeoutMs);
    AllNamesCons(first, rest);
    HasMarkCons(first, rest);
    if first.item.DependsOn? {
      assert t.dependsOn + (first.item.names + AllNames(rest)) == t.dependsOn + first.item.names + AllNames(rest);
    } else {
      assert [] + AllNames(rest) == AllNames(rest);
    }
  }

  lemma {:induction false} FieldIsRead(ls: seq<Lexeme>, i: nat, t: TaskDslNode, item: FieldItem, end: nat)
    requires Terminated(ls) && i < |ls| && FieldAt(ls, i, item, end)
    ensures TaskField(ls, i, t) == Parsed(WithField(t, item), end) && ls[i].kind != RBrace
  {
    if item.DependsOn? {
      NamesAreRead(ls, i + 3, t.dependsOn, item.names, end);
    }
  }

  lemma {:induction false} ReadIsField(ls: seq<Lexeme>, i: nat, t: TaskDslNode) returns (item: FieldItem)
    requires Terminated(ls) && i < |ls| && TaskField(ls, i, t).Parsed?
    ensures FieldAt(ls, i, item, TaskField(ls, i, t).next) && TaskField(ls, i, t).node == WithField(t, item)
  {
    if Field(ls, i, "handler", StringToken) {
      item := HandlerIs(ls[i + 2].value);
    } else if Field(ls, i, "timeout", NumberToken) {
      item := TimeoutIs(ls[i + 2].value);
    } else if Field(ls, i, "depends", LBracket) {
      var names := ReadAreNames(ls, i + 3, t.dependsOn);
      item := DependsOn(names);
    } else {
      item := OptionalMark;
    }
  }

  lemma {:induction false} FieldsAreRead(
      ls: seq<Lexeme>, i: nat, t: TaskDslNode, pieces: seq<Piece<FieldItem>>, end: nat)
    requires Terminated(ls) && i < |ls| && FieldsAt(ls, i, pieces) && ClosesAt(ls, i, pieces, end)
    ensures TaskFields(ls, i, t) == Parsed(Described(t, pieces), end)
    decreases |pieces|
  {
    if pieces == [] {
      assert t.dependsOn + [] == t.dependsOn;
    } else {
      var first, rest := pieces[0], pieces[1..];
      assert pieces == [first] + rest;
      FieldIsRead(ls, i, t, first.item, first.end);
      EndOfCons(i, first, rest);
      DescribedCons(t, first, rest);
      FieldsAreRead(ls, first.end, WithField(t, first.item), rest, end);
    }
  }

  lemma {:induction false} ReadAreFields(ls: seq<Lexeme>, i: nat, t: TaskDslNode)
    returns (pieces: seq<Piece<FieldItem>>)
    requires Terminated(ls) && i < |ls| && TaskFields(ls, i, t).Parsed?
    ensures FieldsAt(ls, i, pieces) && ClosesAt(ls, i, pieces, TaskFields(ls, i, t).next)
    ensures TaskFields(ls, i, t).node == Described(t, pieces)
    decreases |ls| - i
  {
    if ls[i].kind == RBrace {
      pieces := [];
      assert t.dependsOn + [] == t.dependsOn;
    } else {
      var item := ReadIsField(ls, i, t);
      var r := TaskField(ls, i, t);
      var rest := ReadAreFields(ls, r.next, r.node);
      var first := Piece(item, r.next);
      pieces := [first] + rest;
      assert pieces[1..] == rest;
      EndOfCons(i, first, rest);
      DescribedCons(t, first, rest);
    }
  }

  /** A task with the fields in `pieces`: of handler and timeout the last counts, and the timeout is half a minute when
      there is none; dependency lists add up; one mark makes the task optional. */
  ghost predicate TaskAt(ls: seq<Lexeme>, i: nat, t: TaskDslNode, pieces: seq<Piece<FieldItem>>, end: nat) {
    && HeadAt(ls, i, "task") && FieldsAt(ls, i + 4, pieces) && ClosesAt(ls, i + 4, pieces, end)
    && t == TaskDslNode(
              ls[i + 1].value, LastHandler(pieces, ""), LastTimeout(pieces, 30000), AllNames(pieces), HasMark(pieces))
  }

  lemma {:induction false} HeadIs(ls: seq<Lexeme>, i: nat, kw: string)
    requires Terminated(ls) && i < |ls|
    ensures Opens(ls, i, kw) <==> HeadAt(ls, i, kw)
    ensures HeadAt(ls, i, kw) ==> i + 4 < |ls|
  {
  }

  lemma NewTaskIs(id: string, pieces: seq<Piece<FieldItem>>)
    ensures Described(NewTask(id), pieces) ==
            TaskDslNode(id, LastHandler(pieces, ""), LastTimeout(pieces, 30000), AllNames(pieces), HasMark(pieces))
  {
    assert [] + AllNames(pieces) == AllNames(pieces);
  }

  /** The parser reads a task exactly where the grammar has one with a handler, and reads what it says. */
  lemma {:induction false} TaskIs(ls: seq<Lexeme>, i: nat, t: TaskDslNode, end: nat)
    requires Terminated(ls) && i < |ls|
    ensures Task(ls, i) == Parsed(t, end) <==> t.handler != "" && exists pieces :: TaskAt(ls, i, t, pieces, end)
  {
    HeadIs(ls, i, "task");
    if Task(ls, i) == Parsed(t, end) {
      var pieces := ReadAreFields(ls, i + 4, NewTask(ls[i + 1].value));
      NewTaskIs(ls[i + 1].value, pieces);
      assert TaskAt(ls, i, t, pieces, end);
    }
    if pieces :| t.handler != "" && TaskAt(ls, i, t, pieces, end) {
      FieldsAreRead(ls, i + 4, NewTask(ls[i + 1].value), pieces, end);
      NewTaskIs(ls[i + 1].value, pieces);
    }
  }

  // ----- constraints

  datatype ConstraintPart = ExprIs(text: string) | Marked(severity: Severity)

  ghost predicate PartAt(ls: seq<Lexeme>, i: nat, item: ConstraintPart, end: nat) {
    match item
    case ExprIs(text) => KeyAt(ls, i, "expr") && ls[i + 2] == Lexeme(StringToken, text) && end == i + 3
    case Marked(severity) =>
      i < |ls| && ls[i] == Lexeme(Keyword, if severity == Warn then "warn" else "block") && end == i + 1
  }

  ghost predicate PartsAt(ls: seq<Lexeme>, i: nat, pieces: seq<Piece<ConstraintPart>>)
    decreases |pieces|
  {
    pieces == [] || (PartAt(ls, i, pieces[0].item, pieces[0].end) && PartsAt(ls, pieces[0].end, pieces[1..]))
  }

  function LastExpr(pieces: seq<Piece<ConstraintPart>>, otherwise: string): string {
    if pieces == [] then otherwise
    else
      var last := pieces[|pieces| - 1].item;
      if last.ExprIs? then last.text else LastExpr(pieces[..|pieces| - 1], otherwise)
  }

  function LastSeverity(pieces: seq<Piece<ConstraintPart>>, otherwise: Severity): Severity {
    if pieces == [] then otherwise
    else
      var last := pieces[|pieces| - 1].item;
      if last.Marked? then last.severity else LastSeverity(pieces[..|pieces| - 1], otherwise)
  }

  function Stated(c: ConstraintDslNode, pieces: seq<Piece<ConstraintPart>>): ConstraintDslNode {
    ConstraintDslNode(c.id, LastExpr(pieces, c.expr), LastSeverity(pieces, c.severity))
  }

  function WithPart(c: ConstraintDslNode, item: ConstraintPart): ConstraintDslNode {
    match item
    case ExprIs(text) => c.(expr := text)
    case Marked(severity) => c.(severity := severity)
  }

  lemma {:induction false} StatedCons(
      c: ConstraintDslNode, first: Piece<ConstraintPart>, rest: seq<Piece<ConstraintPart>>)
    ensures Stated(c, [first] + rest) == Stated(WithPart(c, first.item), rest)
    decreases |rest|
  {
    if rest == [] {
      assert ([first] + rest)[..0] == [];
    } else {
      Inits(first, rest);
      StatedCons(c, first, rest[..|rest| - 1]);
    }
  }

  lemma {:induction false} PartIsRead(ls: seq<Lexeme>, i: nat, c: ConstraintDslNode, item: ConstraintPart, end: nat)
    requires Terminated(ls) && i < |ls| && PartAt(ls, i, item, end)
    ensures ConstraintItem(ls, i, c) == Parsed(WithPart(c, item), end) && ls[i].kind != RBrace
  {
  }

  lemma {:induction false} ReadIsPart(ls: seq<Lexeme>, i: nat, c: ConstraintDslNode) returns (item: ConstraintPart)
    requires Terminated(ls) && i < |ls| && ConstraintItem(ls, i, c).Parsed?
    ensures PartAt(ls, i, item, ConstraintItem(ls, i, c).next) && ConstraintItem(ls, i, c).node == WithPart(c, item)
  {
    if IsKeyword(ls, i, "expr") {
      item := ExprIs(ls[i + 2].value);
    } else {
      item := Marked(if IsKeyword(ls, i, "warn") then Warn else Block);
    }
  }

  lemma {:induction false} PartsAreRead(
      ls: seq<Lexeme>, i: nat, c: ConstraintDslNode, pieces: seq<Piece<ConstraintPart>>, end: nat)
    requires Terminated(ls) && i < |ls| && PartsAt(ls, i, pieces) && ClosesAt(ls, i, pieces, end)
    ensures ConstraintItems(ls, i, c) == Parsed(Stated(c, pieces), end)
    decreases |pieces|
  {
    if pieces != [] {
      var first, rest := pieces[0], pieces[1..];
      assert pieces == [first] + rest;
      PartIsRead(ls, i, c, first.item, first.end);
      EndOfCons(i, first, rest);
      StatedCons(c, first, rest);
      PartsAreRead(ls, first.end, WithPart(c, first.item), rest, end);
    }
  }

  lemma {:induction false} ReadAreParts(ls: seq<Lexeme>, i: nat, c: ConstraintDslNode)
    returns (pieces: seq<Piece<ConstraintPart>>)
    requires Terminated(ls) && i < |ls| && ConstraintItems(ls, i, c).Parsed?
    ensures PartsAt(ls, i, pieces) && ClosesAt(ls, i, pieces, ConstraintItems(ls, i, c).next)
    ensures ConstraintItems(ls, i, c).node == Stated(c, pieces)
    decreases |ls| - i
  {
    if ls[i].kind == RBrace {
      pieces := [];
    } else {
      var item := ReadIsPart(ls, i, c);
      var r := ConstraintItem(ls, i, c);
      var rest := ReadAreParts(ls, r.next, r.node);
      var first := Piece(item, r.next);
      pieces := [first] + rest;
      assert pieces[1..] == rest;
      EndOfCons(i, first, rest);
      StatedCons(c, first, rest);
    }
  }

  /** A constraint: the last expression counts, or the empty one; it blocks unless its last mark says that it warns. */
  ghost predicate ConstraintAt(
      ls: seq<Lexeme>, i: nat, c: ConstraintDslNode, pieces: seq<Piece<ConstraintPart>>, end: nat)
  {
    && HeadAt(ls, i, "constraint") && PartsAt(ls, i + 4, pieces) && ClosesAt(ls, i + 4, pieces, end)
    && c == ConstraintDslNode(ls[i + 1].value, LastExpr(pieces, ""), LastSeverity(pieces, Block))
  }

  /** The parser reads a constraint exactly where the grammar has one, and reads what it says. */
  lemma {:induction false} ConstraintIs(ls: seq<Lexeme>, i: nat, c: ConstraintDslNode, end: nat)
    requires Terminated(ls) && i < |ls|
    ensures Constraint(ls, i) == Parsed(c, end) <==> exists pieces :: ConstraintAt(ls, i, c, pieces, end)
  {
    HeadIs(ls, i, "constraint");
    if Constraint(ls, i) == Parsed(c, end) {
      var pieces := ReadAreParts(ls, i + 4, ConstraintDslNode(ls[i + 1].value, "", Block));
      assert ConstraintAt(ls, i, c, pieces, end);
    }
    if pieces :| ConstraintAt(ls, i, c, pieces, end) {
      PartsAreRead(ls, i + 4, ConstraintDslNode(ls[i + 1].value, "", Block), pieces, end);
    }
  }

  // ----- whole workflows

  datatype Declared = TaskOf(task: TaskDslNode) | ConstraintOf(constraint: ConstraintDslNode)

  ghost predicate DeclaredAt(ls: seq<Lexeme>, i: nat, item: Declared, end: nat) {
    match item
    case TaskOf(t) => t.handler != "" && exists pieces :: TaskAt(ls, i, t, pieces, end)
    case ConstraintOf(c) => exists pieces :: ConstraintAt(ls, i, c, pieces, end)
  }

  ghost predicate BodyAt(ls: seq<Lexeme>, i: nat, pieces: seq<Piece<Declared>>)
    decreases |pieces|
  {
    pieces == [] || (DeclaredAt(ls, i, pieces[0].item, pieces[0].end) && BodyAt(ls, pieces[0].end, pieces[1..]))
  }

  /** The tasks declared, in order. */
  function TasksOf(pieces: seq<Piece<Declared>>): seq<TaskDslNode> {
    if pieces == [] then []
    else
      var last := pieces[|pieces| - 1].item;
      TasksOf(pieces[..|pieces| - 1]) + if last.TaskOf? then [last.task] else []
  }

  /** The constraints declared, in order. */
  function ConstraintsOf(pieces: seq<Piece<Declared>>): seq<ConstraintDslNode> {
    if pieces == [] then []
    else
      var last := pieces[|pieces| - 1].item;
      ConstraintsOf(pieces[..|pieces| - 1]) + if last.ConstraintOf? then [last.constraint] else []
  }

  function WithDeclared(b: Body, item: Declared): Body {
    match item
    case TaskOf(t) => b.(tasks := b.tasks + [t])
    case ConstraintOf(c) => b.(constraints := b.constraints + [c])
  }

  function Holding(b: Body, pieces: seq<Piece<Declared>>): Body {
    Body(b.tasks + TasksOf(pieces), b.constraints + ConstraintsOf(pieces))
  }

  lemma HoldingNone(b: Body)
    ensures Holding(b, []) == b
  {
    assert b.tasks + [] == b.tasks && b.constraints + [] == b.constraints;
  }

  lemma {:induction false} DeclaredCons(first: Piece<Declared>, rest: seq<Piece<Declared>>)
    ensures TasksOf([first] + rest) == (if first.item.TaskOf? then [first.item.task] else []) + TasksOf(rest)
    ensures ConstraintsOf([first] + rest) ==
            (if first.item.ConstraintOf? then [first.item.constraint] else []) + ConstraintsOf(rest)
  {
    if rest == [] {
      assert ([first] + rest)[..0] == [];
    } else {
      Inits(first, rest);
      DeclaredCons(first, rest[..|rest| - 1]);
    }
  }

  lemma HoldingCons(b: Body, first: Piece<Declared>, rest: seq<Piece<Declared>>)
    ensures Holding(b, [first] + rest) == Holding(WithDeclared(b, first.item), rest)
  {
    DeclaredCons(first, rest);
    if first.item.TaskOf? {
      assert b.tasks + ([first.item.task] + TasksOf(rest)) == b.tasks + [first.item.task] + TasksOf(rest);
      assert [] + ConstraintsOf(rest) == ConstraintsOf(rest);
    } else {
      assert b.constraints + ([first.item.constraint] + ConstraintsOf(rest))
          == b.constraints + [first.item.constraint] + ConstraintsOf(rest);
      assert [] + TasksOf(rest) == TasksOf(rest);
    }
  }

  lemma {:induction false} DeclaredIsRead(ls: seq<Lexeme>, i: nat, b: Body, item: Declared, end: nat)
    requires Terminated(ls) && i < |ls| && DeclaredAt(ls, i, item, end)
    ensures BodyItem(ls, i, b) == Parsed(WithDeclared(b, item), end) && ls[i].kind != RBrace
  {
    match item {
      case TaskOf(t) => TaskIs(ls, i, t, end);
      case ConstraintOf(c) => ConstraintIs(ls, i, c, end);
    }
  }

  lemma {:induction false} ReadIsDeclared(ls: seq<Lexeme>, i: nat, b: Body) returns (item: Declared)
    requires Terminated(ls) && i < |ls| && BodyItem(ls, i, b).Parsed?
    ensures DeclaredAt(ls, i, item, BodyItem(ls, i, b).next) && BodyItem(ls, i, b).node == WithDeclared(b, item)
  {
    if IsKeyword(ls, i, "task") {
      var r := Task(ls, i);
      TaskIs(ls, i, r.node, r.next);
      item := TaskOf(r.node);
    } else {
      var r := Constraint(ls, i);
      ConstraintIs(ls, i, r.node, r.next);
      item := ConstraintOf(r.node);
    }
  }

  lemma {:induction false} BodyIsRead(ls: seq<Lexeme>, i: nat, b: Body, pieces: seq<Piece<Declared>>, end: nat)
    requires Terminated(ls) && i < |ls| && BodyAt(ls, i, pieces) && ClosesAt(ls, i, pieces, end)
    ensures BodyFrom(ls, i, b) == Parsed(Holding(b, pieces), end)
    decreases |pieces|
  {
    if pieces == [] {
      HoldingNone(b);
    } else {
      var first, rest := pieces[0], pieces[1..];
      assert pieces == [first] + rest;
      DeclaredIsRead(ls, i, b, first.item, first.end);
      EndOfCons(i, first, rest);
      HoldingCons(b, first, rest);
      BodyIsRead(ls, first.end, WithDeclared(b, first.item), rest, end);
    }
  }

  lemma {:induction false} ReadIsBody(ls: seq<Lexeme>, i: nat, b: Body) returns (pieces: seq<Piece<Declared>>)
    requires Terminated(ls) && i < |ls| && BodyFrom(ls, i, b).Parsed?
    ensures BodyAt(ls, i, pieces) && ClosesAt(ls, i, pieces, BodyFrom(ls, i, b).next)
    ensures BodyFrom(ls, i, b).node == Holding(b, pieces)
    decreases |ls| - i
  {
    if ls[i].kind == RBrace {
      pieces := [];
      HoldingNone(b);
    } else {
      var item := ReadIsDeclared(ls, i, b);
      var r := BodyItem(ls, i, b);
      var rest := ReadIsBody(ls, r.next, r.node);
      var first := Piece(item, r.next);
      pieces := [first] + rest;
      assert pieces[1..] == rest;
      EndOfCons(i, first, rest);
      HoldingCons(b, first, rest);
    }
  }

  /** A workflow: head, version, and tasks and constraints in any order up to the closing brace. */
  ghost predicate WorkflowAt(ls: seq<Lexeme>, w: WorkflowDslNode, pieces: seq<Piece<Declared>>, end: nat) {
    && HeadAt(ls, 0, "workflow") && KeyAt(ls, 4, "version") && ls[6].kind == NumberToken
    && BodyAt(ls, 7, pieces) && ClosesAt(ls, 7, pieces, end)
    && w == WorkflowDslNode(ls[1].value, NumberOf(ls[6].value), TasksOf(pieces), ConstraintsOf(pieces))
  }

  lemma HoldingAll(pieces: seq<Piece<Declared>>)
    ensures Holding(Body([], []), pieces) == Body(TasksOf(pieces), ConstraintsOf(pieces))
  {
    assert [] + TasksOf(pieces) == TasksOf(pieces) && [] + ConstraintsOf(pieces) == ConstraintsOf(pieces);
  }

  /** The parser accepts exactly the token lists that begin with a workflow of the grammar, and reads what it says. */
  lemma {:induction false} WorkflowIs(ls: seq<Lexeme>, w: WorkflowDslNode, end: nat)
    requires Terminated(ls)
    ensures WorkflowOf(ls) == Parsed(w, end) <==> exists pieces :: WorkflowAt(ls, w, pieces, end)
  {
    HeadIs(ls, 0, "workflow");
    if WorkflowOf(ls) == Parsed(w, end) {
      var pieces := ReadIsBody(ls, 7, Body([], []));
      HoldingAll(pieces);
      assert WorkflowAt(ls, w, pieces, end);
    }
    if pieces :| WorkflowAt(ls, w, pieces, end) {
      BodyIsRead(ls, 7, Body([], []), pieces, end);
      HoldingAll(pieces);
    }
  }
}
