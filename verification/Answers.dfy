/** What a search answers. */
module Answers {
  import opened BoolOps
  import opened Evaluator
  import opened Options
  import opened QueryWalk
  import opened Relevance

  /**
   * A whole search: the tree is evaluated with pruning, and every document of the root is walked, which has
   * no lenient ones. The answers are exactly the relevant documents, in ascending order.
   */
  method Search(q: Query) returns (answers: seq<int>)
    requires Strict(q) && Indexed(q)
    ensures IsFinite(answers)
    ensures forall d :: d in answers <==> Relevant(q, d)
  {
    hide Strict, Indexed, Relevant, Matches, Eval, EvalTree;
    var docs := new Documents();
    docs.MergeAndOr(q, None);
    TreeDocs(q, None);
    EvalExact(q, None, true);
    NoLenient(q, None, true);
    assert docs.lDocuments == [];
    var ids, node := docs.sDocuments, docs.AsNode();
    answers := [];
    for i := 0 to |ids|
      invariant IsFinite(answers)
      invariant forall d :: d in answers <==> d in ids[..i] && Relevant(q, d)
    {
      var doc := WalkAndOr(q, node, ids[i], None);
      Larger(ids, i, answers);
      assert ids[..i + 1] == ids[..i] + [ids[i]];
      if doc.Some? {
        KeepLast(answers, ids[i]);
        answers := answers + [ids[i]];
      }
    }
    assert ids[..|ids|] == ids;
    forall d | Relevant(q, d) ensures d in ids {
      RelevantMatches(q, d);
    }
  }

  lemma Larger(ids: seq<int>, i: nat, answers: seq<int>)
    requires IsFinite(ids) && i < |ids| && forall d :: d in answers ==> d in ids[..i]
    ensures ids[i] >= 0 && forall d :: d in answers ==> d < ids[i]
  {
    assert ids[i] in ids;
  }
}
