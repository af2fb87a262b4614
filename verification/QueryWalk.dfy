/** The walk over an evaluated query tree in one document. */
module QueryWalk {
  import opened Evaluator
  import opened Heads
  import opened Options
  import opened Proximity
  import opened Relevance
  import opened Union

  /** The distance of a node that was given none. */
  const PROXIMATE_LENGTH := 100

  ghost function KidAsked(q: Query, retrieved: Option<seq<int>>, i: nat): Option<seq<int>>
    requires !q.Term? && i <= |q.rest|
  {
    if i == 0 then retrieved else AskedOf(q, retrieved, i - 1)
  }

  /** What a node makes of a document: nothing if it is no answer, or the positions of the node in it. */
  ghost predicate Told(q: Query, d: int, doc: Option<PosList>) {
    && (doc.Some? <==> Relevant(q, d))
    && (doc.Some? ==> Legal(doc.value) && Positions(doc.value) == Spots(q, d))
  }

  lemma {:induction false} KidsAt(q: Query, retrieved: Option<seq<int>>, n: nat, i: nat)
    requires !q.Term? && i <= n <= |q.rest|
    ensures Kids(q, retrieved, n)[i] == EvalTree(Kid(q, i), KidAsked(q, retrieved, i))
    decreases n
  {
    hide EvalTree, AskedOf;
    if i < n {
      KidsAt(q, retrieved, n - 1, i);
    }
  }

  lemma TreeKids(q: Query, retrieved: Option<seq<int>>)
    requires !q.Term?
    ensures EvalTree(q, retrieved) == Node(Eval(q, retrieved, true), Kids(q, retrieved, |q.rest|))
  {
  }

  /**
   * A document that a conjunct retrieved is one that the next conjunct is asked for; what is no condition
   * hands on the ids it was given.
   */
  lemma NextAsked(q: Query, retrieved: Option<seq<int>>, i: nat, d: int)
    requires q.Conj? && Indexed(q) && i < |q.rest|
    requires Asked(retrieved, d) && Asked(KidAsked(q, retrieved, i), d)
    requires !Idle(q, i) ==> d in Eval(Kid(q, i), KidAsked(q, retrieved, i), true).s
    ensures Asked(KidAsked(q, retrieved, i + 1), d)
  {
    hide Eval;
    assert Indexed(Kid(q, i));
    EvalExact(Kid(q, i), KidAsked(q, retrieved, i), true);
  }

  // The program. A document that a node drops is taken out of its index, which shows as None.

  /** walk_and_or: the children first, then the node itself. */
  method WalkAndOr(q: Query, node: Node, d: int, ghost retrieved: Option<seq<int>>) returns (doc: Option<PosList>)
    requires Strict(q) && Indexed(q) && node == EvalTree(q, retrieved)
    ensures doc.Some? ==> Legal(doc.value) && d in node.docs.s
    ensures Asked(retrieved, d) ==> Told(q, d, doc)
    decreases q, 1
  {
    match q {
      case Term(kind, features, entry) => doc := WalkTerm(q, node, d, retrieved);
      case Conj(op, first, rest) => doc := WalkConj(q, node, d, retrieved);
      case Disj(max, first, rest) => doc := WalkDisj(q, node, d, retrieved);
    }
  }

  /** The places that a term was loaded with, which is where get_pos reads them. */
  method PositionBuffer(entry: seq<Posting>, d: int) returns (occurrences: seq<Occurrence>)
    ensures occurrences == OccurrencesIn(entry, d)
  {
    for i := 0 to |entry|
      invariant OccurrencesIn(entry[i..], d) == OccurrencesIn(entry, d)
    {
      if entry[i].did == d {
        return entry[i].occurrences;
      }
      assert entry[i..][1..] == entry[i + 1..];
    }
    return [];
  }

  /** get_pos: only the positions that pass the feature test, and a -1 behind them. */
  method GetPos(occurrences: seq<Occurrence>, featureBit: bv32) returns (list: PosList)
    ensures list == ListOf(Picked(occurrences, featureBit)) && list.pos[|list.pos| - 1] == -1
  {
    hide Passes, Picked, ListOf;
    var posList: seq<int>, infoList: seq<Info> := [], [];
    NothingPicked(featureBit);
    for i := 0 to |occurrences|
      invariant ListOf(Picked(occurrences[..i], featureBit)) == PosList(posList + [END], infoList)
    {
      PickNext(occurrences, featureBit, i, posList, infoList);
      var x := occurrences[i];
      if Passes(featureBit, x.feature) {
        posList, infoList := posList + [x.pos], infoList + [x.info];
      }
    }
    assert occurrences[..|occurrences|] == occurrences;
    list := PosList(posList + [END], infoList);
  }

  lemma NothingPicked(features: bv32)
    ensures ListOf(Picked([], features)) == PosList([END], [])
  {
  }

  /** One occurrence more. */
  lemma PickNext(occurrences: seq<Occurrence>, features: bv32, i: nat, pos: seq<int>, info: seq<Info>)
    requires i < |occurrences| && ListOf(Picked(occurrences[..i], features)) == PosList(pos + [END], info)
    ensures ListOf(Picked(occurrences[..i + 1], features))
         == if Passes(features, occurrences[i].feature)
            then PosList(pos + [occurrences[i].pos] + [END], info + [occurrences[i].info])
            else PosList(pos + [END], info)
  {
    hide ListOf, Passes;
    assert occurrences[..i + 1][..i] == occurrences[..i];
    var picked := Picked(occurrences[..i], features);
    if Passes(features, occurrences[i].feature) {
      ListMore(picked, occurrences[i], pos, info);
    } else {
      assert picked + [] == picked;
    }
  }

  lemma ListMore(picked: seq<Occurrence>, x: Occurrence, pos: seq<int>, info: seq<Info>)
    requires ListOf(picked) == PosList(pos + [END], info)
    ensures ListOf(picked + [x]) == PosList(pos + [x.pos] + [END], info + [x.info])
  {
    assert pos == ListOf(picked).pos[..|picked|] && |pos| == |info| == |picked|;
    assert forall i :: 0 <= i < |picked| ==> (picked + [x])[i] == picked[i];
  }

  method WalkTerm(q: Query, node: Node, d: int, ghost retrieved: Option<seq<int>>) returns (doc: Option<PosList>)
    requires q.Term? && Strict(q) && Indexed(q) && node == EvalTree(q, retrieved)
    ensures doc.Some? ==> Legal(doc.value) && d in node.docs.s
    ensures Asked(retrieved, d) ==> Told(q, d, doc)
  {
    TermTold(q, retrieved, d);
    hide Legal, Told;
    doc := None;
    if d in node.docs.s {
      var occurrences := PositionBuffer(q.entry.value, d);
      var list := GetPos(occurrences, q.features);
      doc := Some(list);
    }
  }

  lemma TermTold(q: Query, retrieved: Option<seq<int>>, d: int)
    requires q.Term? && Strict(q) && Indexed(q)
    ensures d in EvalTree(q, retrieved).docs.s ==>
              q.entry.Some? && Legal(TermList(q.features, q.entry.value, d))
              && (Asked(retrieved, d) ==> Told(q, d, Some(TermList(q.features, q.entry.value, d))))
    ensures d !in EvalTree(q, retrieved).docs.s && Asked(retrieved, d) ==> Told(q, d, None)
  {
    EvalExact(q, retrieved, true);
    if q.entry.Some? {
      TermLegal(q.features, q.entry.value, d);
      assert Positions(TermList(q.features, q.entry.value, d)) == Spots(q, d);
    }
  }

  /** The children before `i` that are conditions all keep the document, with these lists. */
  ghost predicate KeptSoFar(q: Query, d: int, i: nat, lists: seq<PosList>)
    requires q.Conj? && i <= |q.rest| + 1
  {
    && (forall k :: 0 <= k < i && !Idle(q, k) ==> Relevant(Kid(q, k), d))
    && |lists| == |KidSpots(q, d, i)|
    && forall t :: 0 <= t < |lists| ==> Legal(lists[t]) && Positions(lists[t]) == KidSpots(q, d, i)[t]
  }

  method WalkConj(q: Query, node: Node, d: int, ghost retrieved: Option<seq<int>>) returns (doc: Option<PosList>)
    requires q.Conj? && Strict(q) && Indexed(q) && node == EvalTree(q, retrieved)
    ensures doc.Some? ==> Legal(doc.value) && d in node.docs.s
    ensures Asked(retrieved, d) ==> Told(q, d, doc)
    decreases q, 0
  {
    hide Told, Relevant, Eval, EvalTree, Kids, Strict, Indexed, Legal, Asked, KidAsked, KeptSoFar, Idle, Mute, Sounds;
    TreeKids(q, retrieved);
    var lists: seq<PosList>, all := [], true;
    ghost var asked := Asked(retrieved, d) && (Mute(q, 0) ==> d in Eval(q.first, retrieved, true).s);
    if Asked(retrieved, d) && !asked {
      MuteLost(q, retrieved, d);
    }
    NothingKept(q, retrieved, d);
    for i := 0 to |q.rest| + 1
      invariant forall t :: 0 <= t < |lists| ==> Legal(lists[t])
      invariant all && lists == [] ==> forall k :: 0 <= k < i ==> !Sounds(q, k)
      invariant asked && all ==> KeptSoFar(q, d, i, lists) && (i <= |q.rest| ==> Asked(KidAsked(q, retrieved, i), d))
      invariant asked && !all ==> !Relevant(q, d)
    {
      KidOf(q, i);
      KidsAt(q, retrieved, |q.rest|, i);
      var child := if i == 0 then q.first else q.rest[i - 1];
      SoundsIs(q, i, child);
      if (child.Term? && child.kind != STRICT) || (i > 0 && q.op == ROOT && child.Disj?) {
        // kept whether the document has it or not
        if asked && all {
          PassOver(q, retrieved, d, i, lists);
        }
      } else {
        var r := WalkAndOr(child, node.children[i], d, KidAsked(q, retrieved, i));
        TreeDocs(Kid(q, i), KidAsked(q, retrieved, i));
        if asked && all {
          KeepOn(q, retrieved, d, i, lists, r);
        }
        if r.Some? {
          lists := lists + [r.value];
        } else {
          all := false;
        }
      }
    }
    SomeSound(q);
    if !all || d !in node.docs.s {
      if asked {
        NotAnswered(q, retrieved, d, all, lists);
      }
      return None;
    }
    doc := Check(q, lists, d, asked);
  }

  lemma SoundsIs(q: Query, i: nat, child: Query)
    requires q.Conj? && i <= |q.rest| && Strict(q) && child == if i == 0 then q.first else q.rest[i - 1]
    ensures child == Kid(q, i)
    ensures !Sounds(q, i) <==> (child.Term? && child.kind != STRICT) || (i > 0 && q.op == ROOT && child.Disj?)
    ensures Sounds(q, i) ==> !Idle(q, i)
    ensures Mute(q, i) ==> i == 0
  {
  }

  lemma SomeSound(q: Query)
    requires q.Conj? && Strict(q)
    ensures exists k :: 0 <= k < |q.rest| + 1 && Sounds(q, k)
  {
  }

  /** A document without the optional term in front is not retrieved. */
  lemma MuteLost(q: Query, retrieved: Option<seq<int>>, d: int)
    requires q.Conj? && Indexed(q) && Asked(retrieved, d) && Mute(q, 0)
    requires d !in Eval(q.first, retrieved, true).s
    ensures Told(q, d, None) && d !in EvalTree(q, retrieved).docs.s
  {
    EvalExact(q.first, retrieved, true);
    EvalExact(q, retrieved, true);
    TreeDocs(q, retrieved);
    hide Eval, EvalTree;
    assert !Matches(q.first, d) && !Idle(q, 0) && !Relevant(Kid(q, 0), d);
  }

  lemma NothingKept(q: Query, retrieved: Option<seq<int>>, d: int)
    requires q.Conj?
    ensures KeptSoFar(q, d, 0, []) && KidAsked(q, retrieved, 0) == retrieved
  {
  }

  /** A child that is a condition. */
  lemma KeepOn(q: Query, retrieved: Option<seq<int>>, d: int, i: nat, lists: seq<PosList>, r: Option<PosList>)
    requires q.Conj? && Indexed(q) && i <= |q.rest| && Sounds(q, i) && KeptSoFar(q, d, i, lists)
    requires Asked(retrieved, d) && Asked(KidAsked(q, retrieved, i), d) && Told(Kid(q, i), d, r)
    requires r.Some? ==> d in Eval(Kid(q, i), KidAsked(q, retrieved, i), true).s
    ensures r.None? ==> !Relevant(q, d)
    ensures r.Some? ==> KeptSoFar(q, d, i + 1, lists + [r.value])
    ensures r.Some? && i < |q.rest| ==> Asked(KidAsked(q, retrieved, i + 1), d)
  {
    hide Indexed, Eval, Asked, KidAsked, Idle, Legal;
    if r.Some? && i < |q.rest| {
      NextAsked(q, retrieved, i, d);
    }
  }

  /** A child whose positions do not count. */
  lemma PassOver(q: Query, retrieved: Option<seq<int>>, d: int, i: nat, lists: seq<PosList>)
    requires q.Conj? && Indexed(q) && i <= |q.rest| && !Sounds(q, i) && KeptSoFar(q, d, i, lists)
    requires Asked(retrieved, d) && Asked(KidAsked(q, retrieved, i), d)
    requires Mute(q, i) ==> d in Eval(q.first, retrieved, true).s
    ensures KeptSoFar(q, d, i + 1, lists)
    ensures i < |q.rest| ==> Asked(KidAsked(q, retrieved, i + 1), d)
  {
    if Mute(q, i) {
      EvalExact(q.first, retrieved, true);
      assert Relevant(Kid(q, i), d);
    }
    hide Indexed, Eval, Asked, Idle, Legal;
    assert KidSpots(q, d, i) + [] == KidSpots(q, d, i);
    if i < |q.rest| {
      NextAsked(q, retrieved, i, d);
    }
  }

  /** What is missing from the documents of a conjunction is no answer. */
  lemma NotAnswered(q: Query, retrieved: Option<seq<int>>, d: int, all: bool, lists: seq<PosList>)
    requires q.Conj? && Strict(q) && Indexed(q) && Asked(retrieved, d)
    requires all ==> d !in EvalTree(q, retrieved).docs.s
    requires !all ==> !Relevant(q, d)
    ensures Told(q, d, None)
  {
    hide Relevant, Eval, EvalTree, Strict, Indexed;
    if Relevant(q, d) {
      RelevantMatches(q, d);
      EvalExact(q, retrieved, true);
      TreeDocs(q, retrieved);
    }
  }

  /** walk_and proper, once every condition keeps the document. */
  method Check(q: Query, lists: seq<PosList>, d: int, ghost asked: bool) returns (doc: Option<PosList>)
    requires q.Conj? && Strict(q) && AllLegal(lists)
    requires asked ==> KeptSoFar(q, d, |q.rest| + 1, lists)
    ensures doc.Some? ==> Legal(doc.value)
    ensures asked ==> Told(q, d, doc)
  {
    if q.op == ROOT {
      doc := Some(lists[0]);
      if asked {
        RootTold(q, d, lists);
      }
      return;
    }
    hide KeptSoFar, Legal, IsWalk, Told, AllLegal;
    var dist := if q.op.PROX? then q.op.dist else PROXIMATE_LENGTH;
    var w := WalkAnd(lists, q.op.PROX?, dist);
    WalkLegal(lists, q.op.PROX?, Dist(q), w);
    doc := if w.kept then Some(w.list) else None;
    if asked {
      ConjTold(q, d, lists, w);
    }
  }

  lemma RootTold(q: Query, d: int, lists: seq<PosList>)
    requires q.Conj? && q.op == ROOT && Sounds(q, 0) && AllLegal(lists) && KeptSoFar(q, d, |q.rest| + 1, lists)
    ensures Told(q, d, Some(lists[0]))
  {
    FirstSpots(q, d, |q.rest| + 1);
  }

  lemma {:induction false} FirstSpots(q: Query, d: int, n: nat)
    requires q.Conj? && Sounds(q, 0) && 0 < n <= |q.rest| + 1
    ensures |KidSpots(q, d, n)| > 0 && KidSpots(q, d, n)[0] == Spots(q.first, d)
  {
    if n > 1 {
      FirstSpots(q, d, n - 1);
    }
  }

  lemma WalkLegal(lists: seq<PosList>, prox: bool, dist: int, w: Walk)
    requires AllLegal(lists) && IsWalk(lists, prox, dist, w)
    ensures Legal(w.list)
  {
  }

  /** A PROX node keeps a document if there are windows, and the last of them does not look like none. */
  lemma LastWindow(lists: seq<PosList>, dist: int, w: Walk)
    requires AllLegal(lists) && IsWalk(lists, true, dist, w)
    ensures var windows := AllWindows(Poses(lists), dist);
      && (w.kept <==> windows != []
                      && windows[|windows| - 1].end - windows[|windows| - 1].begin != MAX_LENGTH_OF_DOCUMENT)
      && (dist < MAX_LENGTH_OF_DOCUMENT ==> (w.kept <==> windows != []))
  {
    hide AllWindows, Poses, AllLegal, Legal, Positions, Middles, Origin, Real, Complete;
  }

  lemma KeptIfClose(lists: seq<PosList>, dist: int, w: Walk)
    requires AllLegal(lists) && IsWalk(lists, true, dist, w)
    ensures w.kept <==> ComeClose(Poses(lists), dist)
  {
    hide AllWindows, Poses, AllLegal, CloseBy, Near, IsWalk;
    FoundIfNear(lists, true, dist, w);
    NearIsCloseBy(lists, dist);
    LastWindow(lists, dist, w);
  }

  lemma SamePoses(q: Query, d: int, lists: seq<PosList>)
    requires q.Conj? && AllLegal(lists) && KeptSoFar(q, d, |q.rest| + 1, lists)
    ensures Poses(lists) == KidSpots(q, d, |q.rest| + 1)
    ensures !q.op.PROX? ==> Relevant(q, d)
    ensures q.op.PROX? ==> (Relevant(q, d) <==> ComeClose(KidSpots(q, d, |q.rest| + 1), q.op.dist))
  {
    hide Legal, ComeClose;
    assert Poses(lists) == KidSpots(q, d, |q.rest| + 1);
  }

  /** An AND node keeps the document, and a PROX node if its children come close. */
  lemma ConjTold(q: Query, d: int, lists: seq<PosList>, w: Walk)
    requires q.Conj? && q.op != ROOT && Strict(q) && AllLegal(lists) && KeptSoFar(q, d, |q.rest| + 1, lists)
    requires IsWalk(lists, q.op.PROX?, Dist(q), w)
    ensures Told(q, d, if w.kept then Some(w.list) else None)
  {
    SamePoses(q, d, lists);
    if q.op.PROX? {
      KeptIfClose(lists, Dist(q), w);
    }
    hide Relevant, ComeClose, Complete, Real, AllWindows, Origin, Poses, KidSpots, KeptSoFar, AllLegal, Legal,
         Positions, Middles;
  }

  /** Close choices of indices and close choices of positions are the same. */
  lemma NearIsCloseBy(lists: seq<PosList>, dist: int)
    requires AllLegal(lists)
    ensures Near(lists, dist) <==> exists c :: CloseBy(Poses(lists), dist, c)
  {
    hide Poses, CloseBy, Close;
    if Near(lists, dist) {
      var k :| Choice(lists, Ends(lists), k) && Close(lists, k, dist);
      ClosePositions(lists, dist, k);
    }
    if c :| CloseBy(Poses(lists), dist, c) {
      CloseIndices(lists, dist, c);
    }
  }

  lemma ClosePositions(lists: seq<PosList>, dist: int, k: seq<nat>)
    requires AllLegal(lists) && Choice(lists, Ends(lists), k) && Close(lists, k, dist)
    ensures exists c :: CloseBy(Poses(lists), dist, c)
  {
    var c := seq(|lists|, t requires 0 <= t < |lists| => At(lists, k, t));
    forall i | 0 <= i < |c| ensures c[i] in Poses(lists)[i] {
      assert Legal(lists[i]);
      assert Positions(lists[i])[k[i]] == c[i];
    }
    assert CloseBy(Poses(lists), dist, c);
  }

  lemma CloseIndices(lists: seq<PosList>, dist: int, c: seq<int>)
    requires AllLegal(lists) && CloseBy(Poses(lists), dist, c)
    ensures Near(lists, dist)
  {
    var ps := Poses(lists);
    var k := seq(|lists|, i requires 0 <= i < |lists| => PlaceOf(ps[i], c[i]));
    forall t | 0 <= t < |lists| ensures k[t] < |lists[t].info| && lists[t].pos[k[t]] == c[t] {
      assert Legal(lists[t]);
    }
    assert InLists(lists, k) && Choice(lists, Ends(lists), k) && Close(lists, k, dist);
  }

  ghost function PlaceOf(ps: seq<int>, p: int): (k: nat)
    requires p in ps
    ensures k < |ps| && ps[k] == p
  {
    var k :| 0 <= k < |ps| && ps[k] == p;
    k
  }

  ghost predicate InSome(lists: seq<PosList>, p: int)
    requires forall t :: 0 <= t < |lists| ==> Legal(lists[t])
  {
    exists t :: 0 <= t < |lists| && p in Positions(lists[t])
  }

  /** The lists of the alternatives before `i` that keep the document. */
  ghost predicate Gathered(q: Query, d: int, i: nat, lists: seq<PosList>)
    requires q.Disj? && i <= |q.rest| + 1
  {
    && (forall t :: 0 <= t < |lists| ==> Legal(lists[t]))
    && (lists != [] <==> exists k :: 0 <= k < i && Relevant(Kid(q, k), d))
    && (forall p :: p in United(q, d, i) <==> InSome(lists, p))
    && BoolOps.Ascending(United(q, d, i))
  }

  method WalkDisj(q: Query, node: Node, d: int, ghost retrieved: Option<seq<int>>) returns (doc: Option<PosList>)
    requires q.Disj? && Strict(q) && Indexed(q) && node == EvalTree(q, retrieved)
    ensures doc.Some? ==> Legal(doc.value) && d in node.docs.s
    ensures Asked(retrieved, d) ==> Told(q, d, doc)
    decreases q, 0
  {
    hide Told, Relevant, Eval, EvalTree, Kids, Strict, Indexed, Legal, Asked, KidAsked, Gathered, IsUnion;
    TreeKids(q, retrieved);
    var lists: seq<PosList> := [];
    ghost var asked := Asked(retrieved, d);
    NothingGathered(q, d);
    for i := 0 to |q.rest| + 1
      invariant forall t :: 0 <= t < |lists| ==> Legal(lists[t])
      invariant asked ==> Gathered(q, d, i, lists)
    {
      KidOf(q, i);
      KidsAt(q, retrieved, |q.rest|, i);
      SameAsked(q, retrieved, i);
      // an optional term never drops the document, but adds a list only if the document has it
      var child := if i == 0 then q.first else q.rest[i - 1];
      assert child == Kid(q, i);
      var r := WalkAndOr(child, node.children[i], d, KidAsked(q, retrieved, i));
      if asked {
        GatherOne(q, d, i, lists, r);
      }
      if r.Some? {
        lists := lists + [r.value];
      }
    }
    if lists == [] || d !in node.docs.s {
      if asked {
        NoneTold(q, retrieved, d, lists);
      }
      return None;
    }
    var list, _, _ := WalkOr(lists);
    UnionLegal(lists, list);
    doc := Some(list);
    if asked {
      UnionRelevant(q, retrieved, d, lists);
      UnionTold(q, d, lists, list);
    }
  }

  lemma NothingGathered(q: Query, d: int)
    requires q.Disj?
    ensures Gathered(q, d, 0, [])
  {
  }

  lemma SameAsked(q: Query, retrieved: Option<seq<int>>, i: nat)
    requires q.Disj? && i <= |q.rest|
    ensures KidAsked(q, retrieved, i) == retrieved
  {
  }

  lemma GatherOne(q: Query, d: int, i: nat, lists: seq<PosList>, r: Option<PosList>)
    requires q.Disj? && i <= |q.rest| && Gathered(q, d, i, lists) && Told(Kid(q, i), d, r)
    ensures Gathered(q, d, i + 1, if r.Some? then lists + [r.value] else lists)
  {
    hide Legal, Spots, Relevant, Positions, BoolOps.Ascending;
    var more := if r.Some? then Spots(Kid(q, i), d) else [];
    PutAllIs(United(q, d, i), more);
    assert United(q, d, i + 1) == PutAll(United(q, d, i), more);
    if r.Some? {
      var after := lists + [r.value];
      assert after[|lists|] == r.value;
      forall p ensures p in United(q, d, i + 1) <==> InSome(after, p) {
        if t :| 0 <= t < |lists| && p in Positions(lists[t]) {
          assert after[t] == lists[t];
        }
      }
    }
  }

  /** What no alternative keeps, or the disjunction never retrieved, is no answer. */
  lemma NoneTold(q: Query, retrieved: Option<seq<int>>, d: int, lists: seq<PosList>)
    requires q.Disj? && Strict(q) && Indexed(q) && Asked(retrieved, d) && Gathered(q, d, |q.rest| + 1, lists)
    requires lists == [] || d !in EvalTree(q, retrieved).docs.s
    ensures Told(q, d, None)
  {
    hide Eval, EvalTree, Strict, Indexed;
    if Relevant(q, d) {
      RelevantMatches(q, d);
      EvalExact(q, retrieved, true);
      TreeDocs(q, retrieved);
    }
  }

  lemma UnionLegal(lists: seq<PosList>, list: PosList)
    requires AllLegal(lists) && IsUnion(lists, list)
    ensures Legal(list)
  {
  }

  /** The merged list is the union of the positions. */
  lemma UnionTold(q: Query, d: int, lists: seq<PosList>, list: PosList)
    requires q.Disj? && AllLegal(lists) && Gathered(q, d, |q.rest| + 1, lists) && IsUnion(lists, list)
    requires Relevant(q, d)
    ensures Told(q, d, Some(list))
  {
    hide Relevant, United;
    assert forall t :: 0 <= t < |lists| ==> Legal(lists[t]);
    UnionPositions(lists, list);
    SameMembers(Positions(list), United(q, d, |q.rest| + 1));
  }

  /** What was retrieved and stands somewhere is relevant, whether or not there are optional terms. */
  lemma UnionRelevant(q: Query, retrieved: Option<seq<int>>, d: int, lists: seq<PosList>)
    requires q.Disj? && Strict(q) && Indexed(q) && Asked(retrieved, d) && Gathered(q, d, |q.rest| + 1, lists)
    requires lists != [] && d in EvalTree(q, retrieved).docs.s
    ensures Relevant(q, d)
  {
    hide Eval, EvalTree, Indexed, United, Legal;
    if Boolean(q) {
      EvalExact(q, retrieved, true);
      TreeDocs(q, retrieved);
      BooleanRelevant(q, d);
    } else {
      var k :| 0 <= k < |q.rest| + 1 && Relevant(Kid(q, k), d);
      assert !Extra(q, k);
    }
  }

  lemma UnionPositions(lists: seq<PosList>, list: PosList)
    requires AllLegal(lists) && IsUnion(lists, list)
    ensures Legal(list) && BoolOps.Ascending(Positions(list)) && forall t :: 0 <= t < |lists| ==> Legal(lists[t])
    ensures forall p :: p in Positions(list) <==> InSome(lists, p)
  {
    assert forall t :: 0 <= t < |lists| ==> Legal(lists[t]);
    forall p ensures p in Positions(list) <==> InSome(lists, p) {
      if p in Positions(list) {
        var e :| 0 <= e < |list.info| && list.pos[e] == p;
        var t, k :| 0 <= t < |lists| && 0 <= k < |lists[t].info|
                    && lists[t].pos[k] == list.pos[e] && lists[t].info[k] == list.info[e];
        assert Positions(lists[t])[k] == p;
      }
      if t :| 0 <= t < |lists| && p in Positions(lists[t]) {
        var k :| 0 <= k < |lists[t].info| && lists[t].pos[k] == p;
        assert Stored(list.pos[..|list.info|], list.info, lists[t].pos[k], lists[t].info[k]);
      }
    }
  }
}
