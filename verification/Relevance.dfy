/** What a query asks of a document, told from the query and the index alone. */
module Relevance {
  import opened BoolOps
  import opened Evaluator
  import opened Heads
  import opened Options
  import opened Proximity

  ghost function Kid(q: Query, i: nat): (k: Query)
    requires !q.Term? && i <= |q.rest|
    ensures k < q
  {
    if i == 0 then q.first else q.rest[i - 1]
  }

  /**
   * Children that are no condition: optional terms behind the first child, and at a root node alternatives
   * and lenient terms behind the first child.
   */
  ghost predicate Idle(q: Query, i: nat)
    requires q.Conj? && i <= |q.rest|
  {
    i > 0 && (match Kid(q, i)
                 case Term(kind, _, _) => kind == OPTIONAL || (q.op == ROOT && kind == LENIENT)
                 case Disj(_, _, _) => q.op == ROOT
                 case Conj(_, _, _) => false)
  }

  /** An optional term in front is asked for like any other first child, but its positions do not count. */
  ghost predicate Mute(q: Query, i: nat)
    requires q.Conj? && i <= |q.rest|
  {
    i == 0 && IsOptional(q.first)
  }

  /** A child whose positions count. */
  ghost predicate Sounds(q: Query, i: nat)
    requires q.Conj? && i <= |q.rest|
  {
    !Idle(q, i) && !Mute(q, i)
  }

  /** An optional term behind the first child of an OR node is not asked for, but its positions count. */
  ghost predicate Extra(q: Query, i: nat)
    requires q.Disj? && i <= |q.rest|
  {
    i > 0 && IsOptional(Kid(q, i))
  }

  /** A query that asks nothing of positions. */
  ghost predicate Boolean(q: Query) {
    match q
    case Term(_, _, _) => true
    case Conj(op, first, rest) => op == AND && forall i :: 0 <= i <= |rest| && !Idle(q, i) ==> Boolean(Kid(q, i))
    case Disj(max, first, rest) => forall i :: 0 <= i <= |rest| ==> Boolean(Kid(q, i))
  }

  /** The positions of a term in a document are in order. */
  ghost predicate Placed(occurrences: seq<Occurrence>) {
    && (forall i :: 0 <= i < |occurrences| ==> occurrences[i].pos >= 0)
    && (forall i, j :: 0 <= i < j < |occurrences| ==> occurrences[i].pos <= occurrences[j].pos)
  }

  /**
   * Strict and optional terms under ROOT, AND, PROX and OR nodes; what is no condition may be any query. Every
   * query that the repository builds is headed by ROOT, and none has lenient terms. A conjunction needs a child
   * whose positions count, and with an optional term under it an OR node asks nothing of positions: without any
   * list the walk reads behind empty arrays.
   */
  ghost predicate Strict(q: Query) {
    match q
    case Term(kind, features, entry) =>
      kind != LENIENT
      && (entry.Some? ==> forall i :: 0 <= i < |entry.value| ==> Placed(entry.value[i].occurrences))
    case Conj(op, first, rest) =>
      && (op == ROOT || op == AND || op.PROX?)
      && (forall i :: 0 <= i <= |rest| && !Idle(q, i) ==> Strict(Kid(q, i)))
      && (if op == ROOT then Sounds(q, 0) else exists i :: 0 <= i <= |rest| && Sounds(q, i))
    case Disj(max, first, rest) =>
      && (forall i :: 0 <= i <= |rest| ==> Strict(Kid(q, i)))
      && (Boolean(q) || forall i :: 0 <= i <= |rest| ==> !IsOptional(Kid(q, i)))
  }

  // Where a term stands.

  /** The places that pass the feature test of the query. */
  ghost function Picked(occurrences: seq<Occurrence>, features: bv32): seq<Occurrence> {
    if occurrences == [] then []
    else
      var last := occurrences[|occurrences| - 1];
      Picked(occurrences[..|occurrences| - 1], features) + if Passes(features, last.feature) then [last] else []
  }

  ghost function ListOf(occurrences: seq<Occurrence>): PosList {
    PosList(seq(|occurrences|, i requires 0 <= i < |occurrences| => occurrences[i].pos) + [END],
            seq(|occurrences|, i requires 0 <= i < |occurrences| => occurrences[i].info))
  }

  /** The places of a term in a document. */
  ghost function OccurrencesIn(entry: seq<Posting>, d: int): seq<Occurrence> {
    if entry == [] then []
    else if entry[0].did == d then entry[0].occurrences
    else OccurrencesIn(entry[1..], d)
  }

  lemma {:induction false} PlacedIn(entry: seq<Posting>, d: int)
    requires forall i :: 0 <= i < |entry| ==> Placed(entry[i].occurrences)
    ensures Placed(OccurrencesIn(entry, d))
  {
    if entry != [] {
      PlacedIn(entry[1..], d);
    }
  }

  /** A place is picked as often as it stands there, if it passes, and else not at all. */
  lemma {:induction false} PickedCount(occurrences: seq<Occurrence>, features: bv32, x: Occurrence)
    ensures multiset(Picked(occurrences, features))[x]
         == if Admits(features, x.feature) then multiset(occurrences)[x] else 0
  {
    hide Passes, Admits;
    if occurrences != [] {
      var most, last := occurrences[..|occurrences| - 1], occurrences[|occurrences| - 1];
      assert occurrences == most + [last];
      PickedCount(most, features, x);
      var kept := Picked(most, features);
      assert kept + [] == kept;
    }
  }

  /** Picking keeps exactly the places that pass, and leaves them in order. */
  lemma {:induction false} PickedIs(occurrences: seq<Occurrence>, features: bv32)
    requires Placed(occurrences)
    ensures Placed(Picked(occurrences, features))
    ensures forall x :: x in Picked(occurrences, features) <==> x in occurrences && Admits(features, x.feature)
  {
    hide Passes, Admits;
    if occurrences != [] {
      var most, last := occurrences[..|occurrences| - 1], occurrences[|occurrences| - 1];
      assert occurrences == most + [last];
      PickedIs(most, features);
      var kept := Picked(most, features);
      forall i | 0 <= i < |kept| ensures kept[i].pos <= last.pos {
        assert kept[i] in most;
      }
    }
  }

  lemma ListLegal(occurrences: seq<Occurrence>)
    requires Placed(occurrences)
    ensures Legal(ListOf(occurrences))
    ensures forall p :: p in Positions(ListOf(occurrences)) <==> exists x :: x in occurrences && x.pos == p
  {
    var list := ListOf(occurrences);
    forall p | p in Positions(list) ensures exists x :: x in occurrences && x.pos == p {
      var i :| 0 <= i < |occurrences| && Positions(list)[i] == p;
      assert occurrences[i] in occurrences;
    }
    forall x | x in occurrences ensures x.pos in Positions(list) {
      var i :| 0 <= i < |occurrences| && occurrences[i] == x;
      assert Positions(list)[i] == x.pos;
    }
  }

  /** The positions of a term node in a document. */
  ghost function TermList(features: bv32, entry: seq<Posting>, d: int): PosList {
    ListOf(Picked(OccurrencesIn(entry, d), features))
  }

  lemma TermLegal(features: bv32, entry: seq<Posting>, d: int)
    requires forall i :: 0 <= i < |entry| ==> Placed(entry[i].occurrences)
    ensures Legal(TermList(features, entry, d))
  {
    PlacedIn(entry, d);
    PickedIs(OccurrencesIn(entry, d), features);
    ListLegal(Picked(OccurrencesIn(entry, d), features));
  }

  // Where a node stands, and when a document is an answer.

  /** An ascending list with one more member. */
  ghost function Put(a: seq<int>, x: int): seq<int> {
    if a == [] || x < a[0] then [x] + a
    else if x == a[0] then a
    else [a[0]] + Put(a[1..], x)
  }

  ghost function PutAll(a: seq<int>, xs: seq<int>): seq<int> {
    if xs == [] then a else Put(PutAll(a, xs[..|xs| - 1]), xs[|xs| - 1])
  }

  lemma {:induction false} PutIs(a: seq<int>, x: int)
    requires Ascending(a)
    ensures Ascending(Put(a, x)) && forall d :: d in Put(a, x) <==> d in a || d == x
  {
    if a != [] {
      MembersOf(a);
      if x > a[0] {
        PutIs(a[1..], x);
        Prepend(a[0], Put(a[1..], x));
      } else if x < a[0] {
        Prepend(x, a);
      }
    }
  }

  lemma {:induction false} PutAllIs(a: seq<int>, xs: seq<int>)
    requires Ascending(a)
    ensures Ascending(PutAll(a, xs)) && forall d :: d in PutAll(a, xs) <==> d in a || d in xs
  {
    if xs != [] {
      var most := xs[..|xs| - 1];
      assert xs == most + [xs[|xs| - 1]];
      PutAllIs(a, most);
      PutIs(PutAll(a, most), xs[|xs| - 1]);
    }
  }

  /** The distance of a PROX node; that of an AND node only decides where its positions are. */
  ghost function Dist(q: Query): int
    requires q.Conj?
  {
    if q.op.PROX? then q.op.dist else 100
  }

  /**
   * The positions of a node in a document: those of a term that pass the feature test, the positions of the
   * relevant alternatives and of optional terms united, the middles of the windows of a conjunction, and at a
   * root those of its first child.
   */
  ghost function Spots(q: Query, d: int): seq<int>
    decreases q, 1, 0
  {
    match q
    case Term(kind, features, entry) =>
      if entry.None? then []
      else
        var picked := Picked(OccurrencesIn(entry.value, d), features);
        seq(|picked|, i requires 0 <= i < |picked| => picked[i].pos)
    case Conj(op, first, rest) =>
      if op == ROOT then Spots(first, d) else Middles(AllWindows(KidSpots(q, d, |rest| + 1), Dist(q)))
    case Disj(max, first, rest) => United(q, d, |rest| + 1)
  }

  /** The positions of the children before `n`, where they count. */
  ghost function KidSpots(q: Query, d: int, n: nat): seq<seq<int>>
    requires q.Conj? && n <= |q.rest| + 1
    decreases q, 0, n
  {
    if n == 0 then []
    else KidSpots(q, d, n - 1) + if Sounds(q, n - 1) then [Spots(Kid(q, n - 1), d)] else []
  }

  ghost function United(q: Query, d: int, n: nat): seq<int>
    requires q.Disj? && n <= |q.rest| + 1
    decreases q, 0, n
  {
    if n == 0 then []
    else PutAll(United(q, d, n - 1), if Relevant(Kid(q, n - 1), d) then Spots(Kid(q, n - 1), d) else [])
  }

  /** One position out of each list, at most `dist` apart. */
  ghost predicate CloseBy(ps: seq<seq<int>>, dist: int, c: seq<int>) {
    && |c| == |ps|
    && (forall i :: 0 <= i < |c| ==> c[i] in ps[i])
    && (forall i, j :: 0 <= i < |c| && 0 <= j < |c| ==> c[i] - c[j] <= dist)
  }

  /**
   * The children of a PROX node come close. From 10000 on the last window decides: one of exactly 10000 looks
   * like no window at all.
   */
  ghost predicate ComeClose(ps: seq<seq<int>>, dist: int) {
    if dist < 10_000 then exists c :: CloseBy(ps, dist, c)
    else
      var windows := AllWindows(ps, dist);
      windows != []
      && windows[|windows| - 1].end - windows[|windows| - 1].begin != 10_000
  }

  /** The document is an answer. */
  ghost predicate Relevant(q: Query, d: int)
    decreases q, 1, 0
  {
    match q
    case Term(kind, features, entry) => Matches(q, d)
    case Conj(op, first, rest) =>
      (forall i :: 0 <= i <= |rest| && !Idle(q, i) ==> Relevant(Kid(q, i), d))
      && (op.PROX? ==> ComeClose(KidSpots(q, d, |rest| + 1), op.dist))
    case Disj(max, first, rest) => exists i :: 0 <= i <= |rest| && !Extra(q, i) && Relevant(Kid(q, i), d)
  }

  lemma KidOf(q: Query, i: nat)
    requires !q.Term? && i <= |q.rest| && Strict(q) && Indexed(q)
    ensures Indexed(Kid(q, i))
    ensures !(q.Conj? && Idle(q, i)) ==> Strict(Kid(q, i))
  {
  }

  /** A term, alone or under a root, asks for an entry that meets one of its conditions, if it states any. */
  lemma TermRelevant(kind: TermKind, features: bv32, entry: seq<Posting>, d: int)
    ensures var q := Term(kind, features, Some(entry));
      && (Relevant(q, d) <==> exists i :: 0 <= i < |entry| && entry[i].did == d && Admits(features, entry[i].features))
      && (Relevant(Conj(ROOT, q, []), d) <==> Relevant(q, d))
  {
    hide Admits;
    var q := Term(kind, features, Some(entry));
    assert Kid(Conj(ROOT, q, []), 0) == q;
  }

  /** Relevance is more than the Boolean query. */
  lemma {:induction false} RelevantMatches(q: Query, d: int)
    requires Strict(q) && Indexed(q) && Relevant(q, d)
    ensures Matches(q, d)
  {
    match q {
      case Term(kind, features, entry) =>
      case Conj(op, first, rest) =>
        forall i | 0 <= i <= |rest| && !Idle(q, i) ensures Matches(Kid(q, i), d) {
          KidOf(q, i);
          RelevantMatches(Kid(q, i), d);
        }
        assert Matches(Kid(q, 0), d);
        assert forall i :: 0 <= i < |rest| ==> Kid(q, i + 1) == rest[i];
      case Disj(max, first, rest) =>
        var i :| 0 <= i <= |rest| && !Extra(q, i) && Relevant(Kid(q, i), d);
        KidOf(q, i);
        RelevantMatches(Kid(q, i), d);
        assert i > 0 ==> Kid(q, i) == rest[i - 1];
    }
  }

  /** Where positions do not matter, the Boolean query decides. */
  lemma {:induction false} BooleanRelevant(q: Query, d: int)
    requires Boolean(q) && Matches(q, d)
    ensures Relevant(q, d)
  {
    match q {
      case Term(kind, features, entry) =>
      case Conj(op, first, rest) =>
        forall i | 0 <= i <= |rest| && !Idle(q, i) ensures Relevant(Kid(q, i), d) {
          assert i > 0 ==> !IsOptional(rest[i - 1]);
          BooleanRelevant(Kid(q, i), d);
        }
      case Disj(max, first, rest) =>
        var k := if Matches(first, d) then 0 else
          var j :| 0 <= j < |rest| && !IsOptional(rest[j]) && Matches(rest[j], d);
          j + 1;
        assert !Extra(q, k);
        BooleanRelevant(Kid(q, k), d);
    }
  }

  /** A strict query has no lenient answers, whatever its optional parts are. */
  lemma {:induction false} NoLenient(q: Query, retrieved: Option<seq<int>>, prune: bool)
    requires Strict(q)
    ensures Eval(q, retrieved, prune).l == []
    decreases q, 1, 0
  {
    match q {
      case Term(kind, features, entry) =>
      case Conj(op, first, rest) =>
        assert Strict(Kid(q, 0));
        NoLenient(first, retrieved, prune);
        var c := Eval(first, retrieved, prune);
        NoLenientConj(q, 0, Pair(c.s, c.l), if prune && retrieved.None? then Some(c.ids) else retrieved, prune);
      case Disj(max, first, rest) =>
        assert Strict(Kid(q, 0));
        NoLenient(first, retrieved, prune);
        var c := Eval(first, retrieved, prune);
        NoLenientDisj(q, 0, Pair(c.s, c.l), retrieved, prune);
    }
  }

  lemma {:induction false} NoLenientConj(q: Query, i: nat, acc: Pair, retrieved: Option<seq<int>>, prune: bool)
    requires q.Conj? && Strict(q) && i <= |q.rest| && acc.l == []
    ensures EvalConj(q, i, acc, retrieved, prune).l == []
    decreases q, 0, |q.rest| - i
  {
    if i < |q.rest| {
      assert Kid(q, i + 1) == q.rest[i];
      var n := Eval(q.rest[i], retrieved, prune);
      if IsOptional(q.rest[i]) || q.op == ROOT {
        NoLenientConj(q, i + 1, acc, retrieved, prune);
      } else {
        NoLenient(q.rest[i], retrieved, prune);
        NoLenientConj(q, i + 1, AndStep(acc, Pair(n.s, n.l)), if prune then Some(n.ids) else retrieved, prune);
      }
    }
  }

  lemma {:induction false} NoLenientDisj(q: Query, i: nat, acc: Pair, retrieved: Option<seq<int>>, prune: bool)
    requires q.Disj? && Strict(q) && i <= |q.rest| && acc.l == []
    ensures EvalDisj(q, i, acc, retrieved, prune).l == []
    decreases q, 0, |q.rest| - i
  {
    if i < |q.rest| {
      assert Kid(q, i + 1) == q.rest[i] && Strict(Kid(q, i + 1));
      var n := Eval(q.rest[i], retrieved, prune);
      if IsOptional(q.rest[i]) {
        NoLenientDisj(q, i + 1, acc, retrieved, prune);
      } else {
        NoLenient(q.rest[i], retrieved, prune);
        NoLenientDisj(q, i + 1, OrStep(acc, Pair(n.s, n.l)), retrieved, prune);
      }
    }
  }
}
