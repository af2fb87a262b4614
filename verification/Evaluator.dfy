/** The evaluation of a query tree, which loads later conjuncts only at ids that were retrieved before. */
module Evaluator {
  import opened BoolOps
  import opened Options
  import Heads

  const CONDITION_FEATURE_MASK: bv32 := 511

  /** Larger nodes look ids up in an array of this size. */
  const MAX_DOCUMENTS := 1_000_000

  /** A place where a term stands, with the features of that place and what scoring makes of it. */
  datatype Occurrence = Occurrence(pos: int, feature: bv32, info: Heads.Info)

  /** An index entry: a document, the features of the term in it, and the places where it stands there. */
  datatype Posting = Posting(did: int, features: bv32, occurrences: seq<Occurrence>)

  datatype TermKind = STRICT | LENIENT | OPTIONAL

  /** PHRASE nodes are not part of this model. */
  datatype Op = ROOT | AND | PROX(dist: int) | ORDERED_PROX(dist: int)

  datatype Query =
    | Term(kind: TermKind, features: bv32, entry: Option<seq<Posting>>)
    | Conj(op: Op, first: Query, rest: seq<Query>)
    | Disj(max: bool, first: Query, rest: seq<Query>)

  /** The documents of a node, and the ids it hands to the next conjunct. */
  datatype Docs = Docs(s: seq<int>, l: seq<int>, ids: seq<int>)

  predicate IsOptional(q: Query) {
    q.Term? && q.kind == OPTIONAL
  }

  /** The nine bits of a feature word that state a condition. */
  predicate IsCondition(bit: bv32) {
    bit == 1 || bit == 2 || bit == 4 || bit == 8 || bit == 16 || bit == 32 || bit == 64 || bit == 128 || bit == 256
  }

  predicate HasBit(word: bv32, bit: bv32) {
    word & bit != 0
  }

  /** The query states no condition, or one that the word meets. */
  ghost predicate Admits(query: bv32, word: bv32) {
    || (forall bit :: IsCondition(bit) ==> !HasBit(query, bit))
    || (exists bit :: IsCondition(bit) && HasBit(query, bit) && HasBit(word, bit))
  }

  /** The feature test, which read_dids_with_feature applies to documents and get_pos to positions. */
  predicate Passes(query: bv32, doc: bv32)
    ensures Passes(query, doc) == Admits(query, doc)
  {
    AdmitsIs(query, doc);
    query & CONDITION_FEATURE_MASK == 0 || doc & query & CONDITION_FEATURE_MASK != 0
  }

  lemma NineBits(word: bv32)
    ensures word & 511 == 0
       <==> word & 1 == 0 && word & 2 == 0 && word & 4 == 0 && word & 8 == 0 && word & 16 == 0 && word & 32 == 0
            && word & 64 == 0 && word & 128 == 0 && word & 256 == 0
  {
  }

  lemma SomeBit(word: bv32)
    ensures word & 511 == 0 <==> forall bit :: IsCondition(bit) ==> !HasBit(word, bit)
  {
    NineBits(word);
    assert IsCondition(1) && IsCondition(2) && IsCondition(4) && IsCondition(8) && IsCondition(16);
    assert IsCondition(32) && IsCondition(64) && IsCondition(128) && IsCondition(256);
  }

  lemma CommonBit(a: bv32, b: bv32, bit: bv32)
    requires IsCondition(bit)
    ensures HasBit(a & b, bit) <==> HasBit(a, bit) && HasBit(b, bit)
  {
  }

  lemma MaskedBits(query: bv32, word: bv32)
    ensures query & 511 == 0 <==> forall bit :: IsCondition(bit) ==> !HasBit(query, bit)
    ensures word & query & 511 != 0 <==> exists bit :: IsCondition(bit) && HasBit(query, bit) && HasBit(word, bit)
  {
    hide IsCondition, HasBit;
    SomeBit(query);
    SomeBit(word & query);
    forall bit | IsCondition(bit) ensures HasBit(word & query, bit) <==> HasBit(word, bit) && HasBit(query, bit) {
      CommonBit(word, query, bit);
    }
  }

  lemma AdmitsIs(query: bv32, word: bv32)
    ensures Admits(query, word) == (query & CONDITION_FEATURE_MASK == 0 || word & query & CONDITION_FEATURE_MASK != 0)
  {
    hide IsCondition, HasBit;
    MaskedBits(query, word);
  }

  predicate Asked(retrieved: Option<seq<int>>, d: int) {
    retrieved.None? || d in retrieved.value
  }

  /** The entries that pass the feature test, among those asked for. */
  function Keep(entry: seq<Posting>, features: bv32, retrieved: Option<seq<int>>): seq<int> {
    if entry == [] then []
    else
      var last := entry[|entry| - 1];
      Keep(entry[..|entry| - 1], features, retrieved)
      + if Passes(features, last.features) && Asked(retrieved, last.did) then [last.did] else []
  }

  function LoadTerm(kind: TermKind, features: bv32, entry: Option<seq<Posting>>, retrieved: Option<seq<int>>): Docs {
    var s := if entry.None? then [] else Keep(entry.value, features, if kind == STRICT then retrieved else None);
    Docs(s, if kind == LENIENT then [INFINITE] else [], s)
  }

  /** merge_and_or; with `prune` off, nothing is said about ids retrieved before. */
  function Eval(q: Query, retrieved: Option<seq<int>>, prune: bool): Docs
    decreases q, 1, 0
  {
    match q
    case Term(kind, features, entry) => LoadTerm(kind, features, entry, retrieved)
    case Conj(op, first, rest) =>
      var c := Eval(first, retrieved, prune);
      var next := if prune && retrieved.None? then Some(c.ids) else retrieved;
      var r := EvalConj(q, 0, Pair(c.s, c.l), next, prune);
      var l := DupCheck(r.l, r.s, []);
      Docs(r.s, l, r.s + l)
    case Disj(max, first, rest) =>
      var c := Eval(first, retrieved, prune);
      var r := EvalDisj(q, 0, Pair(c.s, c.l), retrieved, prune);
      var l := DupCheck(r.l, r.s, r.l);  // the destination is not cleared
      Docs(r.s, l, r.s + l)
  }

  function EvalConj(q: Query, i: nat, acc: Pair, retrieved: Option<seq<int>>, prune: bool): Pair
    requires q.Conj? && i <= |q.rest|
    decreases q, 0, |q.rest| - i
  {
    if i == |q.rest| then acc
    else
      var n := Eval(q.rest[i], retrieved, prune);
      if IsOptional(q.rest[i]) || q.op == ROOT then EvalConj(q, i + 1, acc, retrieved, prune)
      else EvalConj(q, i + 1, AndStep(acc, Pair(n.s, n.l)), if prune then Some(n.ids) else retrieved, prune)
  }

  function OrStep(acc: Pair, next: Pair): Pair {
    Pair(Or(acc.s, next.s, []), Or(acc.l, next.l, acc.l))  // the lenient list is not cleared
  }

  function EvalDisj(q: Query, i: nat, acc: Pair, retrieved: Option<seq<int>>, prune: bool): Pair
    requires q.Disj? && i <= |q.rest|
    decreases q, 0, |q.rest| - i
  {
    if i == |q.rest| then acc
    else
      var n := Eval(q.rest[i], retrieved, prune);
      if IsOptional(q.rest[i]) then EvalDisj(q, i + 1, acc, retrieved, prune)
      else EvalDisj(q, i + 1, OrStep(acc, Pair(n.s, n.l)), retrieved, prune)
  }

  /** The ids handed to conjunct `i` behind the first: those of the conjunct before it. */
  function Handed(q: Query, retrieved: Option<seq<int>>, i: nat): Option<seq<int>>
    requires q.Conj? && i <= |q.rest|
    decreases q, 0, i
  {
    if i == 0 then if retrieved.None? then Some(Eval(q.first, retrieved, true).ids) else retrieved
    else
      var before := Handed(q, retrieved, i - 1);
      if IsOptional(q.rest[i - 1]) || q.op == ROOT then before
      else Some(Eval(q.rest[i - 1], before, true).ids)
  }

  /** A node with the nodes of its children, as evaluation leaves them. */
  datatype Node = Node(docs: Docs, children: seq<Node>)

  function EvalTree(q: Query, retrieved: Option<seq<int>>): Node
    decreases q, 3
  {
    match q
    case Term(kind, features, entry) => Node(LoadTerm(kind, features, entry, retrieved), [])
    case Conj(op, first, rest) => Node(Eval(q, retrieved, true), Kids(q, retrieved, |rest|))
    case Disj(max, first, rest) => Node(Eval(q, retrieved, true), Kids(q, retrieved, |rest|))
  }

  /** The ids that child `i` behind the first is asked for. */
  function AskedOf(q: Query, retrieved: Option<seq<int>>, i: nat): Option<seq<int>>
    requires !q.Term? && i <= |q.rest|
    decreases q, 1
  {
    if q.Conj? then Handed(q, retrieved, i) else retrieved
  }

  /** The first child and `n` of the others. */
  function Kids(q: Query, retrieved: Option<seq<int>>, n: nat): (kids: seq<Node>)
    requires !q.Term? && n <= |q.rest|
    ensures |kids| == n + 1
    decreases q, 2, n
  {
    if n == 0 then [EvalTree(q.first, retrieved)]
    else Kids(q, retrieved, n - 1) + [EvalTree(q.rest[n - 1], AskedOf(q, retrieved, n - 1))]
  }

  // What a query asks for.

  /** Document `d` is a strict answer. */
  ghost predicate Matches(q: Query, d: int) {
    match q
    case Term(kind, features, entry) =>
      entry.Some? && exists i :: 0 <= i < |entry.value| && entry.value[i].did == d
                                 && Admits(features, entry.value[i].features)
    case Conj(op, first, rest) =>
      Matches(first, d)
      && (op == ROOT || forall i :: 0 <= i < |rest| && (rest[i].Term? ==> rest[i].kind != OPTIONAL) ==>
            Matches(rest[i], d))
    case Disj(max, first, rest) =>
      || Matches(first, d)
      || (exists i :: 0 <= i < |rest| && (rest[i].Term? ==> rest[i].kind != OPTIONAL) && Matches(rest[i], d))
  }

  ghost predicate IsEntry(entry: seq<Posting>) {
    && (forall i, j :: 0 <= i < j < |entry| ==> entry[i].did < entry[j].did)
    && (forall i :: 0 <= i < |entry| ==> 0 <= entry[i].did < MAX_DOCUMENTS)
  }

  /** The ids of every index entry are strictly ascending, and small enough for the array of a node. */
  ghost predicate Indexed(q: Query) {
    match q
    case Term(kind, features, entry) => entry.Some? ==> IsEntry(entry.value)
    case Conj(op, first, rest) => Indexed(first) && forall i :: 0 <= i < |rest| ==> Indexed(rest[i])
    case Disj(max, first, rest) => Indexed(first) && forall i :: 0 <= i < |rest| ==> Indexed(rest[i])
  }

  ghost predicate Kept(entry: seq<Posting>, features: bv32, retrieved: Option<seq<int>>, d: int) {
    && Asked(retrieved, d)
    && exists i :: 0 <= i < |entry| && entry[i].did == d && Admits(features, entry[i].features)
  }

  lemma {:induction false} KeepIs(entry: seq<Posting>, features: bv32, retrieved: Option<seq<int>>)
    requires IsEntry(entry)
    ensures IsFinite(Keep(entry, features, retrieved))
    ensures forall d :: d in Keep(entry, features, retrieved) <==> Kept(entry, features, retrieved, d)
  {
    hide Passes, Admits, Asked;
    if entry != [] {
      var most, last := entry[..|entry| - 1], entry[|entry| - 1];
      KeepIs(most, features, retrieved);
      KeptLast(entry, features, retrieved);
      KeepLast(Keep(most, features, retrieved), last.did);
      var kept := Keep(most, features, retrieved);
      assert kept + [] == kept;
    }
  }

  lemma KeptLast(entry: seq<Posting>, features: bv32, retrieved: Option<seq<int>>)
    requires IsEntry(entry) && entry != []
    ensures var most, last := entry[..|entry| - 1], entry[|entry| - 1];
      && (forall d :: Kept(entry, features, retrieved, d) <==>
            Kept(most, features, retrieved, d)
            || (d == last.did && Admits(features, last.features) && Asked(retrieved, d)))
      && (forall d :: Kept(most, features, retrieved, d) ==> d < last.did)
  {
    hide Passes, Admits, Asked;
    var most := entry[..|entry| - 1];
    assert entry == most + [entry[|entry| - 1]];
  }

  lemma KeepLast(a: seq<int>, x: int)
    requires IsFinite(a) && x >= 0 && forall d :: d in a ==> d < x
    ensures IsFinite(a + [x])
  {
    assert forall j :: 0 <= j < |a| ==> a[j] in a;
  }

  /** What evaluation at an id depends on: `d` was asked for at this node. */
  ghost predicate Exact(r: Docs, q: Query, retrieved: Option<seq<int>>) {
    && IsFinite(r.s)
    && (forall d :: d in r.s ==> d in r.ids && Matches(q, d))
    && (forall d :: Asked(retrieved, d) && Matches(q, d) ==> d in r.s)
  }

  lemma {:induction false} EvalExact(q: Query, retrieved: Option<seq<int>>, prune: bool)
    requires Indexed(q)
    ensures Exact(Eval(q, retrieved, prune), q, retrieved)
    decreases q, 1, 0
  {
    match q {
      case Term(kind, features, entry) =>
        if entry.Some? {
          KeepIs(entry.value, features, if kind == STRICT then retrieved else None);
        }
      case Conj(op, first, rest) =>
        EvalExact(first, retrieved, prune);
        ConjAt(q, retrieved, prune);
      case Disj(max, first, rest) =>
        EvalExact(first, retrieved, prune);
        DisjAt(q, retrieved, prune);
    }
  }

  ghost predicate AllFrom(q: Query, i: nat, d: int)
    requires q.Conj? && i <= |q.rest|
  {
    q.op == ROOT || forall j :: i <= j < |q.rest| && !IsOptional(q.rest[j]) ==> Matches(q.rest[j], d)
  }

  ghost predicate SomeFrom(q: Query, i: nat, d: int)
    requires q.Disj? && i <= |q.rest|
  {
    exists j :: i <= j < |q.rest| && !IsOptional(q.rest[j]) && Matches(q.rest[j], d)
  }

  lemma ConjAt(q: Query, retrieved: Option<seq<int>>, prune: bool)
    requires q.Conj? && Indexed(q) && Exact(Eval(q.first, retrieved, prune), q.first, retrieved)
    ensures Exact(Eval(q, retrieved, prune), q, retrieved)
    decreases q, 0, |q.rest| + 1
  {
    hide DupCheck, IsFinite, EvalConj;
    var c := Eval(q.first, retrieved, prune);
    var next := if prune && retrieved.None? then Some(c.ids) else retrieved;
    var r := EvalConj(q, 0, Pair(c.s, c.l), next, prune);
    ConjFinite(q, 0, Pair(c.s, c.l), next, prune);
    forall d ensures d in r.s ==> Matches(q, d)
      ensures Asked(retrieved, d) && Matches(q, d) ==> d in r.s
    {
      EvalConjExact(q, 0, Pair(c.s, c.l), next, prune, d);
    }
  }

  lemma {:induction false} ConjFinite(q: Query, i: nat, acc: Pair, retrieved: Option<seq<int>>, prune: bool)
    requires q.Conj? && i <= |q.rest| && Indexed(q) && IsFinite(acc.s)
    ensures IsFinite(EvalConj(q, i, acc, retrieved, prune).s)
    decreases q, 0, |q.rest| - i
  {
    hide And, Or, IsFinite, Has;
    if i < |q.rest| {
      var n := Eval(q.rest[i], retrieved, prune);
      EvalExact(q.rest[i], retrieved, prune);
      if IsOptional(q.rest[i]) || q.op == ROOT {
        ConjFinite(q, i + 1, acc, retrieved, prune);
      } else {
        FiniteAnd(acc.s, n.s);
        ConjFinite(q, i + 1, AndStep(acc, Pair(n.s, n.l)), if prune then Some(n.ids) else retrieved, prune);
      }
    }
  }

  lemma FiniteHas(a: seq<int>)
    requires IsFinite(a)
    ensures forall d :: d in a <==> d >= 0 && Has(a, d)
  {
    HeadIn(a);
  }

  lemma FiniteAnd(a: seq<int>, b: seq<int>)
    requires IsFinite(a) && IsFinite(b)
    ensures IsFinite(And(a, b, []))
    ensures forall d :: d in And(a, b, []) <==> d in a && d in b
  {
    hide And, Has, IsFinite;
    AndIs(a, b);
    FiniteHas(a);
    FiniteHas(b);
    FiniteHas(And(a, b, []));
  }

  lemma FiniteOr(a: seq<int>, b: seq<int>)
    requires IsFinite(a) && IsFinite(b)
    ensures IsFinite(Or(a, b, []))
    ensures forall d :: d in Or(a, b, []) <==> d in a || d in b
  {
    hide Or, Has, IsFinite;
    OrIs(a, b);
    FiniteHas(a);
    FiniteHas(b);
    FiniteHas(Or(a, b, []));
  }

  /** One document on its way through the conjuncts. */
  lemma {:induction false} EvalConjExact(q: Query, i: nat, acc: Pair, retrieved: Option<seq<int>>, prune: bool, d: int)
    requires q.Conj? && i <= |q.rest| && Indexed(q) && IsFinite(acc.s)
    ensures d in EvalConj(q, i, acc, retrieved, prune).s ==> d in acc.s && AllFrom(q, i, d)
    ensures d in acc.s && AllFrom(q, i, d) && Asked(retrieved, d) ==> d in EvalConj(q, i, acc, retrieved, prune).s
    decreases q, 0, |q.rest| - i
  {
    hide And, Or, IsFinite, Has, Matches;
    if i < |q.rest| {
      var n := Eval(q.rest[i], retrieved, prune);
      EvalExact(q.rest[i], retrieved, prune);
      if IsOptional(q.rest[i]) || q.op == ROOT {
        EvalConjExact(q, i + 1, acc, retrieved, prune, d);
      } else {
        FiniteAnd(acc.s, n.s);
        EvalConjExact(q, i + 1, AndStep(acc, Pair(n.s, n.l)), if prune then Some(n.ids) else retrieved, prune, d);
      }
    }
  }

  lemma DisjAt(q: Query, retrieved: Option<seq<int>>, prune: bool)
    requires q.Disj? && Indexed(q) && Exact(Eval(q.first, retrieved, prune), q.first, retrieved)
    ensures Exact(Eval(q, retrieved, prune), q, retrieved)
    decreases q, 0, |q.rest| + 1
  {
    hide DupCheck, EvalDisj, IsFinite;
    var c := Eval(q.first, retrieved, prune);
    var r := EvalDisj(q, 0, Pair(c.s, c.l), retrieved, prune);
    EvalDisjExact(q, 0, Pair(c.s, c.l), retrieved, prune, 0);
    forall d ensures d in r.s ==> Matches(q, d)
      ensures Asked(retrieved, d) && Matches(q, d) ==> d in r.s
    {
      EvalDisjExact(q, 0, Pair(c.s, c.l), retrieved, prune, d);
      assert SomeFrom(q, 0, d) ==> Matches(q, d);
      assert Matches(q, d) ==> Matches(q.first, d) || SomeFrom(q, 0, d);
    }
  }

  lemma {:induction false} EvalDisjExact(q: Query, i: nat, acc: Pair, retrieved: Option<seq<int>>, prune: bool, d: int)
    requires q.Disj? && i <= |q.rest| && Indexed(q) && IsFinite(acc.s)
    ensures IsFinite(EvalDisj(q, i, acc, retrieved, prune).s)
    ensures d in EvalDisj(q, i, acc, retrieved, prune).s ==> d in acc.s || SomeFrom(q, i, d)
    ensures d in acc.s || (SomeFrom(q, i, d) && Asked(retrieved, d)) ==> d in EvalDisj(q, i, acc, retrieved, prune).s
    decreases q, 0, |q.rest| - i
  {
    hide And, Or, IsFinite, Has, Matches;
    if i < |q.rest| {
      var n := Eval(q.rest[i], retrieved, prune);
      EvalExact(q.rest[i], retrieved, prune);
      if IsOptional(q.rest[i]) {
        EvalDisjExact(q, i + 1, acc, retrieved, prune, d);
      } else {
        FiniteOr(acc.s, n.s);
        EvalDisjExact(q, i + 1, OrStep(acc, Pair(n.s, n.l)), retrieved, prune, d);
      }
    }
  }

  lemma {:induction false} SameMembers(a: seq<int>, b: seq<int>)
    requires Ascending(a) && Ascending(b) && forall d :: d in a <==> d in b
    ensures a == b
  {
    if a != [] && b != [] {
      MembersOf(a);
      MembersOf(b);
      HeadIn(a);
      HeadIn(b);
      SameMembers(a[1..], b[1..]);
    } else {
      HeadIn(a);
      HeadIn(b);
    }
  }

  /** Pruning by retrieved ids changes no strict answer: it is what evaluation without it gives. */
  lemma PruningExact(q: Query)
    requires Indexed(q)
    ensures Eval(q, None, true).s == Eval(q, None, false).s
    ensures forall d :: d in Eval(q, None, true).s <==> Matches(q, d)
  {
    hide Eval, Matches;
    EvalExact(q, None, true);
    EvalExact(q, None, false);
    SameMembers(Eval(q, None, true).s, Eval(q, None, false).s);
  }

  // The program.

  function InsertId(a: seq<int>, x: int): seq<int> {
    if a == [] || x <= a[0] then [x] + a else [a[0]] + InsertId(a[1..], x)
  }

  /** What std::sort makes of a list of ids. */
  function Sort(a: seq<int>): seq<int> {
    if a == [] then [] else InsertId(Sort(a[1..]), a[0])
  }

  ghost predicate Sorted(a: seq<int>) {
    forall i, j :: 0 <= i < j < |a| ==> a[i] <= a[j]
  }

  lemma {:induction false} InsertIs(a: seq<int>, x: int)
    requires Sorted(a)
    ensures Sorted(InsertId(a, x))
    ensures forall d :: d in InsertId(a, x) <==> d == x || d in a
  {
    if a != [] && x > a[0] {
      InsertIs(a[1..], x);
      assert a == [a[0]] + a[1..];
      var r := InsertId(a[1..], x);
      assert forall j :: 0 <= j < |r| ==> r[j] in r;
    }
  }

  lemma {:induction false} SortIs(a: seq<int>)
    ensures Sorted(Sort(a))
    ensures forall d :: d in Sort(a) <==> d in a
  {
    if a != [] {
      SortIs(a[1..]);
      InsertIs(Sort(a[1..]), a[0]);
      assert a == [a[0]] + a[1..];
    }
  }

  /** Entries that nobody asked for add nothing. */
  lemma {:induction false} KeepSkip(entry: seq<Posting>, features: bv32, retrieved: Option<seq<int>>, h: nat, h': nat)
    requires h <= h' <= |entry| && forall i :: h <= i < h' ==> !Asked(retrieved, entry[i].did)
    ensures Keep(entry[..h'], features, retrieved) == Keep(entry[..h], features, retrieved)
    decreases h'
  {
    if h < h' {
      KeepSkip(entry, features, retrieved, h, h' - 1);
      KeepNext(entry, features, retrieved, h' - 1);
    }
  }

  lemma KeepNext(entry: seq<Posting>, features: bv32, retrieved: Option<seq<int>>, i: nat)
    requires i < |entry|
    ensures Keep(entry[..i + 1], features, retrieved)
         == if Passes(features, entry[i].features) && Asked(retrieved, entry[i].did)
            then Keep(entry[..i], features, retrieved) + [entry[i].did]
            else Keep(entry[..i], features, retrieved)
  {
    assert entry[..i + 1][..i] == entry[..i];
    var kept := Keep(entry[..i], features, retrieved);
    assert kept + [] == kept;
  }

  /** `head` is behind all entries up to `x`, and in front of all later ones. */
  ghost predicate HeadAt(entry: seq<Posting>, head: nat, x: int) {
    && head <= |entry|
    && (forall i :: 0 <= i < head ==> entry[i].did <= x)
    && (forall i :: head <= i < |entry| ==> entry[i].did > x)
  }

  /**
   * The search for one id, from the head the last search left: the head moves behind the id, and an
   * entry is returned exactly if there is one.
   */
  method SearchId(docids: seq<int>, head0: nat, x: int) returns (found: bool, at: nat, head: nat)
    requires head0 <= |docids| && forall i, j :: 0 <= i < j < |docids| ==> docids[i] < docids[j]
    requires forall i :: 0 <= i < head0 ==> docids[i] <= x
    ensures head0 <= head <= |docids|
    ensures forall i :: 0 <= i < head ==> docids[i] <= x
    ensures forall i :: head <= i < |docids| ==> docids[i] > x
    ensures found <==> exists i :: head0 <= i < |docids| && docids[i] == x
    ensures found ==> head == at + 1 && head0 <= at && docids[at] == x
  {
    head, found, at := head0, false, 0;
    var tail: int := |docids| - 1;
    while head <= tail
      invariant head0 <= head <= tail + 1 <= |docids|
      invariant forall i :: head0 <= i < head ==> docids[i] < x
      invariant forall i :: tail < i < |docids| ==> docids[i] > x
      decreases tail - head
    {
      var mid := (head + tail) / 2;
      if docids[mid] > x {
        tail := mid - 1;
      } else if docids[mid] < x {
        head := mid + 1;
      } else {
        return true, mid, mid + 1;
      }
    }
  }

  class Documents {
    var sDocuments: seq<int>
    var lDocuments: seq<int>
    var documentIds: seq<int>
    var children: seq<Node>

    constructor ()
      ensures Empty()
    {
      sDocuments, lDocuments, documentIds, children := [], [], [], [];
    }

    ghost predicate Empty()
      reads this
    {
      sDocuments == [] && lDocuments == [] && documentIds == [] && children == []
    }

    function AsNode(): Node
      reads this
    {
      Node(Docs(sDocuments, lDocuments, documentIds), children)
    }

    ghost function Result(): Docs
      reads this
    {
      Docs(sDocuments, lDocuments, documentIds)
    }

    /** read_dids_with_feature, with the binary search whose lower bound carries over between targets. */
    method ReadDidsWithFeature(entry: seq<Posting>, features: bv32, kind: TermKind, retrieved: Option<seq<int>>)
      requires IsEntry(entry) && sDocuments == [] && documentIds == []
      modifies this
      ensures sDocuments == documentIds == Keep(entry, features, if kind == STRICT then retrieved else None)
      ensures lDocuments == old(lDocuments) && children == old(children)
    {
      hide Keep, Passes;
      if retrieved.Some? && kind == STRICT {
        ReadRetrieved(entry, features, retrieved.value);
      } else {
        KeepNone(entry, features, None);
        for i := 0 to |entry|
          invariant sDocuments == documentIds == Keep(entry[..i], features, None)
          invariant lDocuments == old(lDocuments) && children == old(children)
        {
          KeepNext(entry, features, None, i);
          if Passes(features, entry[i].features) {
            sDocuments, documentIds := sDocuments + [entry[i].did], documentIds + [entry[i].did];
          }
        }
        assert entry[..|entry|] == entry;
      }
    }

    method ReadRetrieved(entry: seq<Posting>, features: bv32, retrieved: seq<int>)
      requires IsEntry(entry) && sDocuments == [] && documentIds == []
      modifies this
      ensures sDocuments == documentIds == Keep(entry, features, Some(retrieved))
      ensures lDocuments == old(lDocuments) && children == old(children)
    {
      hide Keep, Passes, Sort, HeadAt, Sorted;
      var docids := seq(|entry|, i requires 0 <= i < |entry| => entry[i].did);
      var didList := Sort(retrieved);
      SortIs(retrieved);
      var head := 0;
      ghost var last := -1;
      KeepNone(entry, features, Some(retrieved));
      for t := 0 to |didList|
        invariant head <= |entry| && (if t == 0 then head == 0 else HeadAt(entry, head, last))
        invariant t > 0 ==> last == didList[t - 1]
        invariant sDocuments == documentIds == Keep(entry[..head], features, Some(retrieved))
        invariant lDocuments == old(lDocuments) && children == old(children)
      {
        NextTarget(entry, docids, didList, t, head, last);
        var found, at, head' := SearchId(docids, head, didList[t]);
        Moved(entry, docids, head', didList[t]);
        BetweenTargets(entry, didList, t, head, if found then at else head', last, retrieved);
        KeepSkip(entry, features, Some(retrieved), head, if found then at else head');
        if found {
          KeepNext(entry, features, Some(retrieved), at);
          if Passes(features, entry[at].features) {
            sDocuments, documentIds := sDocuments + [didList[t]], documentIds + [didList[t]];
          }
        }
        head, last := head', didList[t];
      }
      AfterTargets(entry, didList, head, last, retrieved);
      KeepSkip(entry, features, Some(retrieved), head, |entry|);
      assert entry[..|entry|] == entry;
    }

    /** lookup_index and read_index: the entry of a term, if there is one. */
    method LookupIndex(kind: TermKind, features: bv32, entry: Option<seq<Posting>>, retrieved: Option<seq<int>>)
      requires Empty() && (entry.Some? ==> IsEntry(entry.value))
      modifies this
      ensures Result() == LoadTerm(kind, features, entry, retrieved) && children == []
    {
      if entry.Some? {
        ReadDidsWithFeature(entry.value, features, kind, retrieved);
      }
      if kind == LENIENT {
        lDocuments := lDocuments + [INFINITE];
      }
    }

    method MergeAnd(q: Query, retrieved: Option<seq<int>>)
      requires q.Conj? && Indexed(q) && Empty()
      modifies this
      ensures Result() == Eval(q, retrieved, true) && AsNode() == EvalTree(q, retrieved)
      decreases q, 0
    {
      hide AndStep, And, Or, DupCheck, Eval, EvalTree, EvalConj, Handed, Kids;
      var current := new Documents();
      current.MergeAndOr(q.first, retrieved);
      TreeDocs(q.first, retrieved);
      var already := if retrieved.None? then Some(current.documentIds) else retrieved;
      children := children + [current.AsNode()];
      sDocuments, lDocuments := current.sDocuments, current.lDocuments;
      ConjStart(q, retrieved);
      for i := 0 to |q.rest|
        invariant EvalConj(q, i, Pair(sDocuments, lDocuments), already, true) == ConjResult(q, retrieved)
        invariant already == Handed(q, retrieved, i) && documentIds == [] && children == Kids(q, retrieved, i)
      {
        var backup := Pair(sDocuments, lDocuments);
        var next := new Documents();
        next.MergeAndOr(q.rest[i], already);
        children := children + [next.AsNode()];
        ConjRound(q, retrieved, i, backup);
        if !(IsOptional(q.rest[i]) || q.op == ROOT) {
          already := Some(next.documentIds);
          AndLists(backup, next);
        }
      }
      ConjEnd(q, retrieved, Pair(sDocuments, lDocuments));
      var _, l := DupCheckOperation(lDocuments, sDocuments, []);
      lDocuments := l;
      documentIds := sDocuments + lDocuments;
    }

    /** The strict and lenient lists of a conjunction, one more conjunct taken in. */
    method AndLists(backup: Pair, next: Documents)
      requires next != this
      modifies this`sDocuments, this`lDocuments
      ensures Pair(sDocuments, lDocuments) == AndStep(backup, Pair(next.sDocuments, next.lDocuments))
    {
      hide And, Or;
      var ok;
      ok, sDocuments := AndOperation(backup.s, next.sDocuments, []);
      ok, lDocuments := AndOperation(backup.s, next.lDocuments, []);
      var temp;
      ok, temp := AndOperation(backup.l, next.sDocuments, []);
      ok, lDocuments := OrOperation(lDocuments, temp, []);
      ok, temp := AndOperation(backup.l, next.lDocuments, []);
      ok, lDocuments := OrOperation(lDocuments, temp, []);
    }

    method MergeOr(q: Query, retrieved: Option<seq<int>>)
      requires q.Disj? && Indexed(q) && Empty()
      modifies this
      ensures Result() == Eval(q, retrieved, true) && AsNode() == EvalTree(q, retrieved)
      decreases q, 0
    {
      hide Or, DupCheck, Eval, EvalTree, EvalDisj, Kids;
      var current := new Documents();
      current.MergeAndOr(q.first, retrieved);
      children := children + [current.AsNode()];
      sDocuments, lDocuments := current.sDocuments, current.lDocuments;
      DisjStart(q, retrieved);
      for i := 0 to |q.rest|
        invariant EvalDisj(q, i, Pair(sDocuments, lDocuments), retrieved, true) == DisjResult(q, retrieved)
        invariant documentIds == [] && children == Kids(q, retrieved, i)
      {
        var backup := Pair(sDocuments, lDocuments);
        var next := new Documents();
        next.MergeAndOr(q.rest[i], retrieved);
        children := children + [next.AsNode()];
        DisjRound(q, retrieved, i, backup);
        if !IsOptional(q.rest[i]) {
          var ok;
          ok, sDocuments := OrOperation(backup.s, next.sDocuments, []);
          ok, lDocuments := OrOperation(backup.l, next.lDocuments, lDocuments);
        }
      }
      DisjEnd(q, retrieved, Pair(sDocuments, lDocuments));
      var _, l := DupCheckOperation(lDocuments, sDocuments, lDocuments);
      lDocuments := l;
      documentIds := sDocuments + lDocuments;
    }

    method MergeAndOr(q: Query, retrieved: Option<seq<int>>)
      requires Indexed(q) && Empty()
      modifies this
      ensures Result() == Eval(q, retrieved, true) && AsNode() == EvalTree(q, retrieved)
      decreases q, 1
    {
      match q {
        case Term(kind, features, entry) => LookupIndex(kind, features, entry, retrieved);
        case Conj(op, first, rest) => MergeAnd(q, retrieved);
        case Disj(max, first, rest) => MergeOr(q, retrieved);
      }
    }
  }

  lemma NextTarget(entry: seq<Posting>, docids: seq<int>, didList: seq<int>, t: nat, head: nat, last: int)
    requires IsEntry(entry) && |docids| == |entry| && forall i :: 0 <= i < |entry| ==> docids[i] == entry[i].did
    requires t < |didList| && Sorted(didList) && (t > 0 ==> last == didList[t - 1])
    requires head <= |entry| && (if t == 0 then head == 0 else HeadAt(entry, head, last))
    ensures forall i :: 0 <= i < head ==> docids[i] <= didList[t]
  {
    assert t > 0 ==> didList[t - 1] <= didList[t];
    assert forall i :: 0 <= i < head ==> docids[i] == entry[i].did;
  }

  lemma Moved(entry: seq<Posting>, docids: seq<int>, head: nat, x: int)
    requires |docids| == |entry| && forall i :: 0 <= i < |entry| ==> docids[i] == entry[i].did
    requires head <= |entry| && forall i :: 0 <= i < head ==> docids[i] <= x
    requires forall i :: head <= i < |docids| ==> docids[i] > x
    ensures HeadAt(entry, head, x)
  {
  }

  // The steps of the two merges.

  ghost function ConjResult(q: Query, retrieved: Option<seq<int>>): Pair
    requires q.Conj?
  {
    var c := Eval(q.first, retrieved, true);
    EvalConj(q, 0, Pair(c.s, c.l), Handed(q, retrieved, 0), true)
  }

  ghost function DisjResult(q: Query, retrieved: Option<seq<int>>): Pair
    requires q.Disj?
  {
    var c := Eval(q.first, retrieved, true);
    EvalDisj(q, 0, Pair(c.s, c.l), retrieved, true)
  }

  lemma TreeDocs(q: Query, retrieved: Option<seq<int>>)
    ensures EvalTree(q, retrieved).docs == Eval(q, retrieved, true)
  {
  }

  lemma ConjStart(q: Query, retrieved: Option<seq<int>>)
    requires q.Conj?
    ensures var c := Eval(q.first, retrieved, true);
      && Handed(q, retrieved, 0) == (if retrieved.None? then Some(c.ids) else retrieved)
      && EvalConj(q, 0, Pair(c.s, c.l), Handed(q, retrieved, 0), true) == ConjResult(q, retrieved)
      && Kids(q, retrieved, 0) == [EvalTree(q.first, retrieved)]
  {
  }

  lemma ConjRound(q: Query, retrieved: Option<seq<int>>, i: nat, acc: Pair)
    requires q.Conj? && i < |q.rest|
    ensures var before := Handed(q, retrieved, i);
      var n := Eval(q.rest[i], before, true);
      var skip := IsOptional(q.rest[i]) || q.op == ROOT;
      && Handed(q, retrieved, i + 1) == (if skip then before else Some(n.ids))
      && EvalConj(q, i, acc, before, true)
      == EvalConj(q, i + 1, if skip then acc else AndStep(acc, Pair(n.s, n.l)), Handed(q, retrieved, i + 1), true)
      && Kids(q, retrieved, i + 1) == Kids(q, retrieved, i) + [EvalTree(q.rest[i], before)]
  {
    hide AndStep, Eval, EvalTree;
  }

  lemma ConjEnd(q: Query, retrieved: Option<seq<int>>, r: Pair)
    requires q.Conj? && EvalConj(q, |q.rest|, r, Handed(q, retrieved, |q.rest|), true) == ConjResult(q, retrieved)
    ensures var l := DupCheck(r.l, r.s, []);
      && Eval(q, retrieved, true) == Docs(r.s, l, r.s + l)
      && EvalTree(q, retrieved) == Node(Eval(q, retrieved, true), Kids(q, retrieved, |q.rest|))
  {
    hide DupCheck, Kids;
  }

  lemma DisjStart(q: Query, retrieved: Option<seq<int>>)
    requires q.Disj?
    ensures var c := Eval(q.first, retrieved, true);
      && EvalDisj(q, 0, Pair(c.s, c.l), retrieved, true) == DisjResult(q, retrieved)
      && Kids(q, retrieved, 0) == [EvalTree(q.first, retrieved)]
  {
  }

  lemma DisjRound(q: Query, retrieved: Option<seq<int>>, i: nat, acc: Pair)
    requires q.Disj? && i < |q.rest|
    ensures var n := Eval(q.rest[i], retrieved, true);
      && EvalDisj(q, i, acc, retrieved, true)
      == EvalDisj(q, i + 1, if IsOptional(q.rest[i]) then acc else OrStep(acc, Pair(n.s, n.l)), retrieved, true)
      && Kids(q, retrieved, i + 1) == Kids(q, retrieved, i) + [EvalTree(q.rest[i], retrieved)]
  {
    hide OrStep, Eval, EvalTree;
  }

  lemma DisjEnd(q: Query, retrieved: Option<seq<int>>, r: Pair)
    requires q.Disj? && EvalDisj(q, |q.rest|, r, retrieved, true) == DisjResult(q, retrieved)
    ensures var l := DupCheck(r.l, r.s, r.l);
      && Eval(q, retrieved, true) == Docs(r.s, l, r.s + l)
      && EvalTree(q, retrieved) == Node(Eval(q, retrieved, true), Kids(q, retrieved, |q.rest|))
  {
    hide DupCheck, Kids;
  }

  lemma KeepNone(entry: seq<Posting>, features: bv32, retrieved: Option<seq<int>>)
    ensures Keep(entry[..0], features, retrieved) == []
  {
  }

  /** No target lies strictly between two neighbours in the sorted list. */
  lemma BetweenTargets(entry: seq<Posting>, didList: seq<int>, t: nat, head: nat, head': nat, last: int,
                       retrieved: seq<int>)
    requires t < |didList| && Sorted(didList) && forall d :: d in didList <==> d in retrieved
    requires head <= head' <= |entry| && forall i :: head <= i < head' ==> entry[i].did < didList[t]
    requires if t == 0 then head == 0 else HeadAt(entry, head, last)
    requires t > 0 ==> last == didList[t - 1]
    ensures forall i :: head <= i < head' ==> !Asked(Some(retrieved), entry[i].did)
    ensures didList[t] in retrieved
  {
    assert didList[t] in didList;
    forall i | head <= i < head' ensures entry[i].did !in didList {
      forall u | 0 <= u < |didList| ensures didList[u] != entry[i].did {
        assert u < t ==> didList[u] <= didList[t - 1];
      }
    }
  }

  lemma AfterTargets(entry: seq<Posting>, didList: seq<int>, head: nat, last: int, retrieved: seq<int>)
    requires Sorted(didList) && forall d :: d in didList <==> d in retrieved
    requires if |didList| == 0 then head == 0 else HeadAt(entry, head, last)
    requires |didList| > 0 ==> last == didList[|didList| - 1]
    ensures head <= |entry|
    ensures forall i :: head <= i < |entry| ==> !Asked(Some(retrieved), entry[i].did)
  {
    forall i | head <= i < |entry| ensures entry[i].did !in didList {
      assert forall u :: 0 <= u < |didList| ==> didList[u] <= last;
    }
  }
}
