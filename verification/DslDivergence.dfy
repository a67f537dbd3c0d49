/** When the parser of the workflow language hangs: exactly at a token that no branch of the constraint loop reads. */
module DslDivergence {
  import opened Jobs
  import opened DslAst
  import opened DslLexer
  import opened DslParser
  import opened DslRoundTrip
  import opened Scanning

  // ----- the outcome `Diverges` is a loop that runs for ever

  datatype Loop = Running(at: nat, node: ConstraintDslNode) | Ended(outcome: Outcome<ConstraintDslNode>)

  /** One test of the loop condition and one pass over the loop body. No branch means no change. */
  ghost function Round(ls: seq<Lexeme>, s: Loop): (r: Loop)
    requires Terminated(ls) && (s.Running? ==> s.at < |ls|)
    ensures r.Running? ==> r.at < |ls|
  {
    match s
    case Ended(_) => s
    case Running(at, c) =>
      if ls[at].kind == RBrace then Ended(Parsed(c, at + 1))
      else
        match ConstraintItem(ls, at, c)
        case Parsed(d, next) => Running(next, d)
        case Throws => Ended(Throws)
        case Diverges => s
  }

  ghost function Rounds(ls: seq<Lexeme>, s: Loop, n: nat): (r: Loop)
    requires Terminated(ls) && (s.Running? ==> s.at < |ls|)
    ensures r.Running? ==> r.at < |ls|
    decreases n
  {
    if n == 0 then s else Rounds(ls, Round(ls, s), n - 1)
  }

  lemma {:induction false} StuckForever(ls: seq<Lexeme>, i: nat, c: ConstraintDslNode, n: nat)
    requires Terminated(ls) && i < |ls| && ConstraintItems(ls, i, c) == Diverges
    ensures Rounds(ls, Running(i, c), n).Running?
    decreases n
  {
    if n > 0 {
      var item := ConstraintItem(ls, i, c);
      if item.Parsed? {
        StuckForever(ls, item.next, item.node, n - 1);
      } else {
        StuckForever(ls, i, c, n - 1);
      }
    }
  }

  lemma {:induction false} EndedStays(ls: seq<Lexeme>, outcome: Outcome<ConstraintDslNode>, n: nat)
    requires Terminated(ls)
    ensures Rounds(ls, Ended(outcome), n) == Ended(outcome)
    decreases n
  {
    if n > 0 {
      EndedStays(ls, outcome, n - 1);
    }
  }

  /** A loop that ends does so with the outcome the specification names, within one round per remaining token. */
  lemma {:induction false} EndsInTime(ls: seq<Lexeme>, i: nat, c: ConstraintDslNode, n: nat)
    requires Terminated(ls) && i < |ls| && ConstraintItems(ls, i, c) != Diverges && n >= |ls| - i
    ensures Rounds(ls, Running(i, c), n) == Ended(ConstraintItems(ls, i, c))
    decreases n
  {
    var item := ConstraintItem(ls, i, c);
    if ls[i].kind == RBrace || item.Throws? {
      EndedStays(ls, ConstraintItems(ls, i, c), n - 1);
    } else {
      EndsInTime(ls, item.next, item.node, n - 1);
    }
  }

  /** `Diverges` names exactly the loops that are still running after any number of rounds. */
  lemma {:induction false} DivergesMeansForever(ls: seq<Lexeme>, i: nat, c: ConstraintDslNode)
    requires Terminated(ls) && i < |ls|
    ensures ConstraintItems(ls, i, c) == Diverges <==> forall n: nat :: Rounds(ls, Running(i, c), n).Running?
  {
    if ConstraintItems(ls, i, c) == Diverges {
      forall n: nat ensures Rounds(ls, Running(i, c), n).Running? {
        StuckForever(ls, i, c, n);
      }
    } else {
      EndsInTime(ls, i, c, |ls| - i);
    }
  }

  // ----- the condition on the tokens

  /** The tokens from `i` to `k` are complete items of a constraint. */
  ghost predicate ItemsUpTo(ls: seq<Lexeme>, i: nat, k: nat)
    decreases k - i
  {
    || i == k
    || (i + 3 <= k && Field(ls, i, "expr", StringToken) && ItemsUpTo(ls, i + 3, k))
    || (i < k && (IsKeyword(ls, i, "warn") || IsKeyword(ls, i, "block")) && ItemsUpTo(ls, i + 1, k))
  }

  /** Neither the closing brace nor the first word of an item. */
  predicate Unexpected(l: Lexeme) {
    l.kind != RBrace && l != Lexeme(Keyword, "expr") && l != Lexeme(Keyword, "warn") && l != Lexeme(Keyword, "block")
  }

  ghost predicate StuckAt(ls: seq<Lexeme>, i: nat, k: nat) {
    k < |ls| && ItemsUpTo(ls, i, k) && Unexpected(ls[k])
  }

  lemma {:induction false} StuckDiverges(ls: seq<Lexeme>, i: nat, c: ConstraintDslNode, k: nat)
    requires Terminated(ls) && i <= k && StuckAt(ls, i, k)
    ensures ConstraintItems(ls, i, c) == Diverges
    decreases k - i
  {
    if i < k {
      var item := ConstraintItem(ls, i, c);
      StuckDiverges(ls, item.next, item.node, k);
    }
  }

  lemma {:induction false} DivergesIsStuck(ls: seq<Lexeme>, i: nat, c: ConstraintDslNode) returns (k: nat)
    requires Terminated(ls) && i < |ls| && ConstraintItems(ls, i, c) == Diverges
    ensures i <= k && StuckAt(ls, i, k)
    decreases |ls| - i
  {
    var item := ConstraintItem(ls, i, c);
    if item.Parsed? {
      k := DivergesIsStuck(ls, item.next, item.node);
    } else {
      k := i;
    }
  }

  /** The body of a workflow from `i` up to `p` consists of complete tasks and constraints. */
  ghost predicate BodyUpTo(ls: seq<Lexeme>, i: nat, p: nat)
    requires Terminated(ls)
    decreases |ls| - i
  {
    || i == p
    || (i < p && i < |ls| && ls[i].kind != RBrace
        && (var item := BodyItem(ls, i, Body([], [])); item.Parsed? && BodyUpTo(ls, item.next, p)))
  }

  /** A constraint opens at `p`, and the tokens behind it are complete items up to an unexpected token at `k`. */
  ghost predicate HangsAt(ls: seq<Lexeme>, p: nat, k: nat) {
    Opens(ls, p, "constraint") && p + 4 <= k && StuckAt(ls, p + 4, k)
  }

  /** What has been collected does not influence how the next item is read. */
  lemma ItemIgnoresBody(ls: seq<Lexeme>, i: nat, b: Body, c: Body)
    requires Terminated(ls) && i < |ls|
    ensures var x, y := BodyItem(ls, i, b), BodyItem(ls, i, c);
            (x.Parsed? <==> y.Parsed?) && (x.Diverges? <==> y.Diverges?) && (x.Parsed? ==> x.next == y.next)
  {
  }

  lemma {:induction false} HangingBodyDiverges(ls: seq<Lexeme>, i: nat, b: Body, p: nat, k: nat)
    requires Terminated(ls) && BodyUpTo(ls, i, p) && HangsAt(ls, p, k)
    ensures i < |ls| && BodyFrom(ls, i, b) == Diverges
    decreases |ls| - i
  {
    if i == p {
      StuckDiverges(ls, p + 4, ConstraintDslNode(ls[p + 1].value, "", Block), k);
    } else {
      ItemIgnoresBody(ls, i, b, Body([], []));
      var item := BodyItem(ls, i, b);
      HangingBodyDiverges(ls, item.next, item.node, p, k);
    }
  }

  lemma {:induction false} DivergingBodyHangs(ls: seq<Lexeme>, i: nat, b: Body) returns (p: nat, k: nat)
    requires Terminated(ls) && i < |ls| && BodyFrom(ls, i, b) == Diverges
    ensures BodyUpTo(ls, i, p) && HangsAt(ls, p, k)
    decreases |ls| - i
  {
    ItemIgnoresBody(ls, i, b, Body([], []));
    var item := BodyItem(ls, i, b);
    if item.Parsed? {
      p, k := DivergingBodyHangs(ls, item.next, item.node);
    } else {
      p := i;
      k := DivergesIsStuck(ls, i + 4, ConstraintDslNode(ls[i + 1].value, "", Block));
    }
  }

  /** The parser hangs exactly if, behind a complete header and complete tasks and constraints, a constraint opens whose
      items run into an unexpected token; the end of the input is one. */
  lemma {:induction false} WhenTheParserHangs(ls: seq<Lexeme>)
    requires Terminated(ls)
    ensures WorkflowOf(ls) == Diverges <==>
            (Opens(ls, 0, "workflow") && Field(ls, 4, "version", NumberToken)
             && exists p, k :: BodyUpTo(ls, 7, p) && HangsAt(ls, p, k))
  {
    if Opens(ls, 0, "workflow") && Field(ls, 4, "version", NumberToken) {
      assert 6 < |ls| - 1 by {
        assert ls[|ls| - 1].kind == Eof;
      }
      if BodyFrom(ls, 7, Body([], [])) == Diverges {
        var p, k := DivergingBodyHangs(ls, 7, Body([], []));
      }
      if p, k :| BodyUpTo(ls, 7, p) && HangsAt(ls, p, k) {
        HangingBodyDiverges(ls, 7, Body([], []), p, k);
      }
    }
  }

  /** Without the keyword `constraint` the parser always comes to an end. */
  lemma NoConstraintNoHang(ls: seq<Lexeme>)
    requires Terminated(ls) && Lexeme(Keyword, "constraint") !in ls
    ensures WorkflowOf(ls) != Diverges
  {
    WhenTheParserHangs(ls);
  }

  // ----- a family of texts it hangs on

  /** A workflow text cut off inside its last constraint. */
  function CutOff(w: WorkflowDslNode, c: ConstraintDslNode): seq<Lexeme> {
    RenderHeader(w)
    + (RenderTasks(w.tasks) + (RenderConstraints(w.constraints) + (RenderOpening("constraint", c.id) + RenderItems(c))))
  }

  /** Leaving out the two closing braces at the end of any workflow with a constraint makes the parser hang. */
  lemma CutOffHangs(w: WorkflowDslNode, c: ConstraintDslNode)
    requires Writable(w) && IsName(c.id)
    ensures ParseText(SpellAll(CutOff(w, c))) == Diverges
    ensures ParseText(SpellAll(CutOff(w, c) + [CLOSE_BRACE, CLOSE_BRACE])) ==
            Parsed(w.(constraints := w.constraints + [c]), |CutOff(w, c)| + 2)
  {
    CutOffReads(w, c);
    var full := w.(constraints := w.constraints + [c]);
    CutOffCompleted(w, c, full);
    ParseInvertsPrint(full, []);
  }

  lemma CutOffCompleted(w: WorkflowDslNode, c: ConstraintDslNode, full: WorkflowDslNode)
    requires full == w.(constraints := w.constraints + [c])
    ensures Render(full) == CutOff(w, c) + [CLOSE_BRACE, CLOSE_BRACE]
  {
    ConstraintsPush(w.constraints, c);
    var items := RenderOpening("constraint", c.id) + RenderItems(c);
    SameText(
      RenderHeader(w), RenderTasks(w.tasks), RenderConstraints(w.constraints), items, [CLOSE_BRACE], [CLOSE_BRACE]);
  }

  lemma SameText<T>(a: seq<T>, b: seq<T>, c: seq<T>, d: seq<T>, e: seq<T>, f: seq<T>)
    ensures a + (b + ((c + (d + e)) + f)) == a + (b + (c + d)) + (e + f)
  {
  }

  lemma {:induction false} ConstraintsPush(constraints: seq<ConstraintDslNode>, c: ConstraintDslNode)
    ensures RenderConstraints(constraints + [c]) == RenderConstraints(constraints) + RenderConstraint(c)
  {
    if constraints == [] {
      assert [c][1..] == [];
    } else {
      var rest := constraints[1..];
      ConstraintsPush(rest, c);
      assert (constraints + [c])[1..] == rest + [c];
      Regroup(RenderConstraint(constraints[0]), RenderConstraints(rest), RenderConstraint(c));
    }
  }

  lemma Regroup<T>(a: seq<T>, b: seq<T>, c: seq<T>)
    ensures a + (b + c) == a + b + c
  {
  }

  lemma CutOffIsSpellable(w: WorkflowDslNode, c: ConstraintDslNode)
    requires Writable(w) && IsName(c.id)
    ensures AllSpellable(CutOff(w, c))
  {
    OpeningIsSpellable("workflow", w.name);
    NumberFieldIsSpellable("version", w.version);
    TasksAreSpellable(w.tasks);
    ConstraintsAreSpellable(w.constraints);
    OpeningIsSpellable("constraint", c.id);
    var rest := RenderOpening("constraint", c.id) + RenderItems(c);
    SpellableConcat(RenderOpening("constraint", c.id), RenderItems(c));
    SpellableConcat(RenderConstraints(w.constraints), rest);
    SpellableConcat(RenderTasks(w.tasks), RenderConstraints(w.constraints) + rest);
    SpellableConcat(RenderHeader(w), RenderTasks(w.tasks) + (RenderConstraints(w.constraints) + rest));
  }

  lemma OpenConstraintDiverges(ls: seq<Lexeme>, i: nat, b: Body, c: ConstraintDslNode)
    requires Terminated(ls) && At(ls, i, RenderOpening("constraint", c.id) + RenderItems(c)) && |ls| == i + 9
    ensures i < |ls| && BodyFrom(ls, i, b) == Diverges
  {
    OpeningReadsBack(ls, i, "constraint", c.id, RenderItems(c));
    ItemsReadBack(ls, i + 4, c);
    assert ls[i + 8].kind == Eof;
  }

  lemma CutOffReads(w: WorkflowDslNode, c: ConstraintDslNode)
    requires Writable(w) && IsName(c.id)
    ensures ParseText(SpellAll(CutOff(w, c))) == Diverges
  {
    CutOffIsSpellable(w, c);
    ParsesSpelling(CutOff(w, c));
    CutOffDiverges(CutOff(w, c) + [Lexeme(Eof, "")], w, c);
  }

  lemma CutOffDiverges(ls: seq<Lexeme>, w: WorkflowDslNode, c: ConstraintDslNode)
    requires Writable(w) && Terminated(ls) && ls == CutOff(w, c) + [Lexeme(Eof, "")]
    ensures WorkflowOf(ls) == Diverges
  {
    var open := RenderOpening("constraint", c.id) + RenderItems(c);
    var rest := RenderTasks(w.tasks) + (RenderConstraints(w.constraints) + open);
    assert At(ls, 0, RenderHeader(w) + rest);
    HeaderReadsBack(ls, w, rest);
    var end := 7 + |RenderTasks(w.tasks)| + |RenderConstraints(w.constraints)|;
    BodyReadsBack(ls, w.tasks, w.constraints, open, end);
    assert |ls| == end + 9;
    OpenConstraintDiverges(ls, end, Body(w.tasks, w.constraints), c);
    BodyDiverges(ls, end, Body(w.tasks, w.constraints));
  }

  lemma BodyDiverges(ls: seq<Lexeme>, end: nat, b: Body)
    requires Terminated(ls) && Opens(ls, 0, "workflow") && Field(ls, 4, "version", NumberToken) && 7 < |ls|
    requires Leads(ls, 7, Body([], []), end, b) && BodyFrom(ls, end, b) == Diverges
    ensures WorkflowOf(ls) == Diverges
  {
  }
}
