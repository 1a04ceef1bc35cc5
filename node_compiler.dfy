/** The backend-independent compile pipeline of `NodeCompiler<ConcreteCompiler>::compile`: a
    header stage, one definition stage per used node type in ascending name order, the program
    start, one stage per statement, and the program end. Every stage appends lines and returns an
    error message; the first non-empty message aborts the compile with that message, otherwise
    the lines joined with newlines are the generated code. */
module NodeCompiler {
  import opened Text
  import opened NodeGraph

  /** AbstractNodeCompiler::Language. */
  datatype Language = Python | GLSL

  /** AbstractNodeCompiler::Statement: either the assignment along one connection (from an output
      port to an input port) or the evaluation of one node. */
  datatype Statement = Connection(source: PortId, target: PortId) | Evaluate(node: NodeId)

  /** One call that compile() makes into its backend, in the order compile() makes them. */
  datatype Stage = Header | DefineNode(nodeType: string) | StartProgram | Emit(statement: Statement) | EndProgram

  /** The lines a stage appends and the message it returns ("" for success). */
  datatype StageResult = StageResult(lines: seq<string>, error: string)

  /** The two signals compile() ends with: compilation_succeeded(code) or compilation_error(reason). */
  datatype Outcome = Succeeded(code: string) | Failed(reason: string)

  /** The lines collected so far, or the error that stopped the pipeline. */
  datatype Run = Done(lines: seq<string>) | Aborted(error: string)

  /** The stages of one compile, in the order compile() runs them. */
  function Stages(usedTypes: set<string>, statements: seq<Statement>): (r: seq<Stage>)
    ensures |r| == |usedTypes| + |statements| + 3
  {
    var types := SortedStrings(usedTypes);
    seq(|types| + |statements| + 3, k requires 0 <= k => StageAt(types, statements, k))
  }

  /** The header comes first and only once, the program end last and only once. */
  lemma StagesFrame(usedTypes: set<string>, statements: seq<Statement>)
    ensures var r := Stages(usedTypes, statements);
      && r[0] == Header && r[|usedTypes| + 1] == StartProgram && r[|r| - 1] == EndProgram
      && (forall k :: 1 <= k < |r| ==> r[k] != Header)
      && (forall k :: 0 <= k < |r| - 1 ==> r[k] != EndProgram)
  {
  }

  /** Each used node type is defined exactly once, in ascending order, before the program starts. */
  lemma StagesDefine(usedTypes: set<string>, statements: seq<Statement>)
    ensures var r := Stages(usedTypes, statements);
      && (forall t :: t in usedTypes <==> DefineNode(t) in r)
      && (forall k :: 0 <= k < |r| && r[k].DefineNode? ==> 1 <= k <= |usedTypes| && r[k].nodeType in usedTypes)
      && (forall i, j :: 0 <= i < j < |r| && r[i].DefineNode? && r[j].DefineNode? ==>
           StrLess(r[i].nodeType, r[j].nodeType))
  {
    var r := Stages(usedTypes, statements);
    var types := SortedStrings(usedTypes);
    forall t | t in usedTypes ensures DefineNode(t) in r {
      var i :| 0 <= i < |types| && types[i] == t;
      assert r[i + 1] == DefineNode(t);
    }
    forall k | 0 <= k < |r| && r[k].DefineNode?
      ensures 1 <= k <= |types| && r[k] == DefineNode(types[k - 1])
    {
      assert r[k] == StageAt(types, statements, k);
    }
    forall i, j | 0 <= i < j < |r| && r[i].DefineNode? && r[j].DefineNode?
      ensures StrLess(r[i].nodeType, r[j].nodeType)
    {
      assert r[i] == DefineNode(types[i - 1]) && r[j] == DefineNode(types[j - 1]);
    }
  }

  /** The statements are emitted in their order, after the program start, and nothing else is. */
  lemma StagesEmit(usedTypes: set<string>, statements: seq<Statement>)
    ensures var r := Stages(usedTypes, statements);
      && (forall k :: 0 <= k < |statements| ==> r[|usedTypes| + 2 + k] == Emit(statements[k]))
      && (forall k :: 0 <= k < |r| && r[k].Emit? ==> r[k].statement in statements)
  {
  }

  /** The stage at position `k` of a compile over `types` (already in iteration order). */
  function StageAt(types: seq<string>, statements: seq<Statement>, k: nat): Stage
  {
    if k == 0 then Header
    else if k <= |types| then DefineNode(types[k - 1])
    else if k == |types| + 1 then StartProgram
    else if k - |types| - 2 < |statements| then Emit(statements[k - |types| - 2])
    else EndProgram
  }

  predicate NoErrors(rs: seq<StageResult>)
  {
    forall k :: 0 <= k < |rs| ==> rs[k].error == ""
  }

  /** Every stage's lines, in stage order. */
  function AllLines(rs: seq<StageResult>): seq<string>
  {
    if rs == [] then [] else rs[0].lines + AllLines(rs[1..])
  }

  /** The pipeline: lines are collected stage by stage until a stage reports an error. */
  function Collect(rs: seq<StageResult>): Run
  {
    if rs == [] then Done([])
    else if rs[0].error != "" then Aborted(rs[0].error)
    else match Collect(rs[1..])
      case Done(ls) => Done(rs[0].lines + ls)
      case Aborted(e) => Aborted(e)
  }

  /** What compile() returns and signals: the lines joined with newlines, or the error. */
  function Finish(run: Run): (o: Outcome)
    ensures run.Done? <==> o.Succeeded?
  {
    match run
    case Done(ls) => Succeeded(Join(ls, "\n"))
    case Aborted(e) => Failed(e)
  }

  /** The position of the first stage that reports an error. */
  function FirstError(rs: seq<StageResult>): (k: nat)
    requires !NoErrors(rs)
    ensures k < |rs| && rs[k].error != "" && NoErrors(rs[..k])
  {
    if rs[0].error != "" then 0
    else
      var k := 1 + FirstError(rs[1..]);
      assert forall j :: 1 <= j < k ==> rs[..k][j] == rs[1..][..k - 1][j - 1];
      k
  }

  /** Without errors the pipeline yields every stage's lines; otherwise it stops with the message
      of the first stage that reported one. */
  lemma {:induction false} CollectOutcome(rs: seq<StageResult>)
    ensures NoErrors(rs) ==> Collect(rs) == Done(AllLines(rs))
    ensures !NoErrors(rs) ==> Collect(rs) == Aborted(rs[FirstError(rs)].error)
  {
    if rs != [] && rs[0].error == "" {
      CollectOutcome(rs[1..]);
      assert NoErrors(rs) ==> NoErrors(rs[1..]);
      if !NoErrors(rs) {
        assert !NoErrors(rs[1..]);
        assert FirstError(rs) == 1 + FirstError(rs[1..]);
      }
    }
  }

  /** Once a stage reports an error, the stages after it do not affect the outcome. */
  lemma {:induction false} LaterStagesIgnored(rs: seq<StageResult>, rs': seq<StageResult>, k: nat)
    requires k < |rs| && k < |rs'| && rs[..k + 1] == rs'[..k + 1] && rs[k].error != ""
    ensures Collect(rs) == Collect(rs')
  {
    assert rs[0] == rs[..k + 1][0] && rs'[0] == rs'[..k + 1][0];
    if k > 0 && rs[0].error == "" {
      assert rs[1..][..k] == rs[..k + 1][1..];
      assert rs'[1..][..k] == rs'[..k + 1][1..];
      LaterStagesIgnored(rs[1..], rs'[1..], k - 1);
    }
  }

  lemma {:induction false} AllLinesSnoc(rs: seq<StageResult>, p: nat)
    requires p < |rs|
    ensures AllLines(rs[..p + 1]) == AllLines(rs[..p]) + rs[p].lines
  {
    if p > 0 {
      assert rs[..p + 1][1..] == rs[1..][..p];
      assert rs[..p][1..] == rs[1..][..p - 1];
      AllLinesSnoc(rs[1..], p - 1);
    } else {
      assert rs[..1] == [rs[0]];
    }
  }

  /** The first stage's lines open the collected lines. */
  lemma AllLinesStart(rs: seq<StageResult>)
    requires |rs| > 0
    ensures |rs[0].lines| <= |AllLines(rs)| && AllLines(rs)[..|rs[0].lines|] == rs[0].lines
  {
  }

  /** The collected lines are those of every stage but the last, then the last stage's. */
  lemma AllLinesSplitLast(rs: seq<StageResult>)
    requires |rs| > 0
    ensures AllLines(rs) == AllLines(rs[..|rs| - 1]) + rs[|rs| - 1].lines
  {
    AllLinesSnoc(rs, |rs| - 1);
    assert rs[..|rs|] == rs;
  }

  lemma NoErrorsSnoc(rs: seq<StageResult>, p: nat)
    requires p < |rs| && NoErrors(rs[..p]) && rs[p].error == ""
    ensures NoErrors(rs[..p + 1])
  {
    assert forall k :: 0 <= k < p ==> rs[..p + 1][k] == rs[..p][k];
  }

  /** The stage at `p` reports an error after error-free stages: the pipeline ends with it. */
  lemma {:induction false} AbortsAt(rs: seq<StageResult>, p: nat)
    requires p < |rs| && NoErrors(rs[..p]) && rs[p].error != ""
    ensures Collect(rs) == Aborted(rs[p].error)
  {
    if p > 0 {
      assert rs[..p][0] == rs[0];
      assert rs[1..][..p - 1] == rs[..p][1..];
      AbortsAt(rs[1..], p - 1);
    }
  }

  /** When every stage but the last succeeds, the last one alone decides whether the pipeline
      fails, and with which message. */
  lemma LastStageDecides(rs: seq<StageResult>)
    requires |rs| > 0 && NoErrors(rs[..|rs| - 1])
    ensures Collect(rs).Aborted? <==> rs[|rs| - 1].error != ""
    ensures Collect(rs).Aborted? ==> Collect(rs).error == rs[|rs| - 1].error
  {
    var last := |rs| - 1;
    if rs[last].error == "" {
      NoErrorsSnoc(rs, last);
      assert rs[..last + 1] == rs;
      CollectOutcome(rs);
    } else {
      AbortsAt(rs, last);
    }
  }
}
