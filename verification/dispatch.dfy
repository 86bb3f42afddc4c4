/** Starting conversions (src/orchestration/dispatch.py): one open run per document. */
module Dispatch {
  import Naming

  datatype Document = Document(bucket: string, key: string)

  /** The open runs by workflow id, with the document each was started for. */
  type OpenRuns = map<string, Document>

  datatype Action = Start(doc: Document) | Close(id: string)

  function IdOf(doc: Document): string {
    Naming.WorkflowId(doc.bucket, doc.key)
  }

  /** Temporal rejects a start under the id of an open run. */
  predicate Refused(open: OpenRuns, doc: Document) {
    IdOf(doc) in open
  }

  function Act(open: OpenRuns, a: Action): OpenRuns {
    match a
    case Start(doc) => if Refused(open, doc) then open else open[IdOf(doc) := doc]
    case Close(id) => open - {id}
  }

  function Exec(open: OpenRuns, acts: seq<Action>): OpenRuns
    decreases |acts|
  {
    if acts == [] then open else Exec(Act(open, acts[0]), acts[1..])
  }

  ghost predicate SlashFree(acts: seq<Action>) {
    forall a | a in acts :: a.Start? ==> '/' !in a.doc.bucket
  }

  ghost predicate Inv(open: OpenRuns) {
    forall id | id in open :: IdOf(open[id]) == id && '/' !in open[id].bucket
  }

  lemma {:induction false} ExecInv(open: OpenRuns, acts: seq<Action>)
    requires Inv(open) && SlashFree(acts)
    ensures Inv(Exec(open, acts))
    decreases |acts|
  {
    if acts != [] {
      ExecInv(Act(open, acts[0]), acts[1..]);
    }
  }

  /** Over all starts and closes, in any order: open runs are of pairwise different
      documents, and a start is refused exactly when its document is in flight. */
  lemma OneOpenRunPerDocument(acts: seq<Action>, doc: Document)
    requires SlashFree(acts) && '/' !in doc.bucket
    ensures var open := Exec(map[], acts);
            && (forall i, j | i in open && j in open && i != j :: open[i] != open[j])
            && (Refused(open, doc) <==> exists id | id in open :: open[id] == doc)
  {
    ExecInv(map[], acts);
    var open := Exec(map[], acts);
    if Refused(open, doc) {
      var d := open[IdOf(doc)];
      Naming.WorkflowIdInjective(d.bucket, d.key, doc.bucket, doc.key);
    }
  }

  lemma {:induction false} ExecConcat(open: OpenRuns, a: seq<Action>, b: seq<Action>)
    ensures Exec(open, a + b) == Exec(Exec(open, a), b)
    decreases |a|
  {
    if a == [] {
      assert a + b == b;
    } else {
      assert (a + b)[1..] == a[1..] + b;
      ExecConcat(Act(open, a[0]), a[1..], b);
    }
  }

  /** An open run stays open over everything but its own close. */
  lemma {:induction false} StaysOpenUntilClosed(open: OpenRuns, doc: Document, acts: seq<Action>)
    requires IdOf(doc) in open
    requires forall a | a in acts :: a != Close(IdOf(doc))
    ensures IdOf(doc) in Exec(open, acts) && Exec(open, acts)[IdOf(doc)] == open[IdOf(doc)]
    decreases |acts|
  {
    if acts != [] {
      assert acts[0] in acts && forall a | a in acts[1..] :: a in acts;
      StaysOpenUntilClosed(Act(open, acts[0]), doc, acts[1..]);
    }
  }

  /** Over whole sequences: once a start of a document was accepted, its run is open, and a
      further start refused, exactly until it is closed. */
  lemma StartedUntilClosed(before: seq<Action>, doc: Document, after: seq<Action>)
    requires !Refused(Exec(map[], before), doc) && forall a | a in after :: a != Close(IdOf(doc))
    ensures var open := Exec(map[], before + [Start(doc)] + after);
            && IdOf(doc) in open && open[IdOf(doc)] == doc && Refused(open, doc)
            && !Refused(Exec(map[], before + [Start(doc)] + after + [Close(IdOf(doc))]), doc)
  {
    ExecConcat(map[], before, [Start(doc)]);
    ExecConcat(map[], before + [Start(doc)], after);
    ExecConcat(map[], before + [Start(doc)] + after, [Close(IdOf(doc))]);
    ExecOne(Exec(map[], before), Start(doc));
    ExecOne(Exec(map[], before + [Start(doc)] + after), Close(IdOf(doc)));
    StaysOpenUntilClosed(Exec(map[], before + [Start(doc)]), doc, after);
  }

  lemma ExecOne(open: OpenRuns, a: Action)
    ensures Exec(open, [a]) == Act(open, a)
  {
    assert [a][1..] == [];
  }
}
