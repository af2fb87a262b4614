/** Set operations on ascending lists of document ids, where the list [-1] stands for every document. */
module BoolOps {

  /** The id of the document that stands for all of them. */
  const INFINITE := -1

  // What the loops compute, on any two lists.

  function Meet(a: seq<int>, b: seq<int>): seq<int>
    decreases |a| + |b|
  {
    if a == [] || b == [] then []
    else if a[0] > b[0] then Meet(a, b[1..])
    else if a[0] < b[0] then Meet(a[1..], b)
    else [a[0]] + Meet(a[1..], b[1..])
  }

  function Merge(a: seq<int>, b: seq<int>): seq<int>
    decreases |a| + |b|
  {
    if a == [] then b
    else if b == [] then a
    else if b[0] < a[0] then [b[0]] + Merge(a, b[1..])
    else if a[0] < b[0] then [a[0]] + Merge(a[1..], b)
    else [a[0]] + Merge(a[1..], b[1..])
  }

  function Minus(a: seq<int>, b: seq<int>): seq<int>
    decreases |a| + |b|
  {
    if a == [] then []
    else if b == [] then a
    else if b[0] < a[0] then Minus(a, b[1..])
    else if a[0] < b[0] then [a[0]] + Minus(a[1..], b)
    else Minus(a[1..], b[1..])
  }

  /** The destination of and_operation: left alone when a list is empty, overwritten when one is infinite. */
  function And(a: seq<int>, b: seq<int>, dest: seq<int>): seq<int> {
    if a == [] || b == [] then dest
    else if a[0] == INFINITE then b
    else if b[0] == INFINITE then a
    else dest + Meet(a, b)
  }

  function Or(a: seq<int>, b: seq<int>, dest: seq<int>): seq<int> {
    if a == [] && b == [] then dest
    else if a == [] then b
    else if b == [] then a
    else if a[0] == INFINITE || b[0] == INFINITE then [INFINITE]
    else dest + Merge(a, b)
  }

  function DupCheck(a: seq<int>, b: seq<int>, dest: seq<int>): seq<int> {
    if a == [] then dest
    else if b == [] then a
    else dest + Minus(a, b)
  }

  lemma Tail(a: seq<int>, i: nat)
    requires i < |a|
    ensures a[i..][0] == a[i] && a[i..][1..] == a[i + 1..]
  {
  }

  method AndOperation(docs1: seq<int>, docs2: seq<int>, dest0: seq<int>) returns (ok: bool, dest: seq<int>)
    ensures dest == And(docs1, docs2, dest0)
    ensures ok <==> docs1 != [] && docs2 != []
  {
    hide And, Or, DupCheck;
    dest := dest0;
    AndCases(docs1, docs2, dest0);
    if |docs1| == 0 || |docs2| == 0 {
      return false, dest;
    } else if docs1[0] == INFINITE {
      return true, docs2;
    } else if docs2[0] == INFINITE {
      return true, docs1;
    }
    var it1, it2 := 0, 0;
    assert docs1[0..] == docs1 && docs2[0..] == docs2;
    while true
      invariant it1 < |docs1| && it2 < |docs2|
      invariant dest + Meet(docs1[it1..], docs2[it2..]) == dest0 + Meet(docs1, docs2)
      decreases |docs1| + |docs2| - it1 - it2
    {
      Tail(docs1, it1);
      Tail(docs2, it2);
      if docs1[it1] > docs2[it2] {
        it2 := it2 + 1;
        if it2 == |docs2| {
          break;
        }
      } else if docs1[it1] < docs2[it2] {
        it1 := it1 + 1;
        if it1 == |docs1| {
          break;
        }
      } else {
        PushFront(dest, docs1[it1], Meet(docs1[it1 + 1..], docs2[it2 + 1..]));
        dest := dest + [docs1[it1]];
        it1 := it1 + 1;
        if it1 == |docs1| {
          break;
        }
        it2 := it2 + 1;
        if it2 == |docs2| {
          break;
        }
      }
    }
    assert dest + [] == dest;
    return true, dest;
  }

  lemma PushFront(dest: seq<int>, x: int, rest: seq<int>)
    ensures dest + ([x] + rest) == dest + [x] + rest
    ensures rest == [] ==> dest + [x] + rest == dest + [x]
  {
  }

  lemma AndCases(a: seq<int>, b: seq<int>, dest: seq<int>)
    ensures And(a, b, dest)
         == if a == [] || b == [] then dest
            else if a[0] == INFINITE then b
            else if b[0] == INFINITE then a
            else dest + Meet(a, b)
  {
  }

  /** Copies what is left of a list. */
  method Copy(docs: seq<int>, it: nat, dest0: seq<int>) returns (dest: seq<int>)
    requires it <= |docs|
    ensures dest == dest0 + docs[it..]
  {
    dest := dest0;
    for i := it to |docs|
      invariant dest == dest0 + docs[it..i]
    {
      dest := dest + [docs[i]];
    }
  }

  method OrOperation(docs1: seq<int>, docs2: seq<int>, dest0: seq<int>) returns (ok: bool, dest: seq<int>)
    ensures dest == Or(docs1, docs2, dest0)
    ensures ok <==> docs1 != [] && docs2 != []
  {
    dest := dest0;
    if |docs1| == 0 && |docs2| == 0 {
      return false, dest;
    } else if |docs1| == 0 {
      return false, docs2;
    } else if |docs2| == 0 {
      return false, docs1;
    } else if docs1[0] == INFINITE || docs2[0] == INFINITE {
      return true, [INFINITE];
    }
    var it1, it2 := 0, 0;
    assert docs1[0..] == docs1 && docs2[0..] == docs2;
    while true
      invariant it1 < |docs1| && it2 < |docs2|
      invariant dest + Merge(docs1[it1..], docs2[it2..]) == dest0 + Merge(docs1, docs2)
      decreases |docs1| + |docs2| - it1 - it2
    {
      Tail(docs1, it1);
      Tail(docs2, it2);
      if docs2[it2] < docs1[it1] {
        PushFront(dest, docs2[it2], Merge(docs1[it1..], docs2[it2 + 1..]));
        dest := dest + [docs2[it2]];
        it2 := it2 + 1;
        if it2 == |docs2| {
          dest := Copy(docs1, it1, dest);
          break;
        }
      } else if docs1[it1] < docs2[it2] {
        PushFront(dest, docs1[it1], Merge(docs1[it1 + 1..], docs2[it2..]));
        dest := dest + [docs1[it1]];
        it1 := it1 + 1;
        if it1 == |docs1| {
          dest := Copy(docs2, it2, dest);
          break;
        }
      } else {
        PushFront(dest, docs1[it1], Merge(docs1[it1 + 1..], docs2[it2 + 1..]));
        dest := dest + [docs1[it1]];
        if it1 + 1 == |docs1| {
          dest := Copy(docs2, it2 + 1, dest);
          break;
        }
        if it2 + 1 == |docs2| {
          dest := Copy(docs1, it1 + 1, dest);
          break;
        }
        it1 := it1 + 1;
        it2 := it2 + 1;
      }
    }
    return true, dest;
  }

  method DupCheckOperation(docs1: seq<int>, docs2: seq<int>, dest0: seq<int>) returns (ok: bool, dest: seq<int>)
    ensures dest == DupCheck(docs1, docs2, dest0)
    ensures ok <==> docs1 != []
  {
    dest := dest0;
    if |docs1| == 0 {
      return false, dest;
    } else if |docs2| == 0 {
      return true, docs1;
    }
    var it1, it2 := 0, 0;
    assert docs1[0..] == docs1 && docs2[0..] == docs2;
    while true
      invariant it1 < |docs1| && it2 < |docs2|
      invariant dest + Minus(docs1[it1..], docs2[it2..]) == dest0 + Minus(docs1, docs2)
      decreases |docs1| + |docs2| - it1 - it2
    {
      Tail(docs1, it1);
      Tail(docs2, it2);
      if docs2[it2] < docs1[it1] {
        it2 := it2 + 1;
        if it2 == |docs2| {
          dest := Copy(docs1, it1, dest);
          break;
        }
      } else if docs1[it1] < docs2[it2] {
        PushFront(dest, docs1[it1], Minus(docs1[it1 + 1..], docs2[it2..]));
        dest := dest + [docs1[it1]];
        it1 := it1 + 1;
        if it1 == |docs1| {
          break;
        }
      } else {
        if it1 + 1 == |docs1| {
          assert dest + [] == dest;
          break;
        }
        if it2 + 1 == |docs2| {
          dest := Copy(docs1, it1 + 1, dest);
          break;
        }
        it1 := it1 + 1;
        it2 := it2 + 1;
      }
    }
    return true, dest;
  }

  // What that means for sets of documents.

  ghost predicate Ascending(a: seq<int>) {
    forall i, j :: 0 <= i < j < |a| ==> a[i] < a[j]
  }

  /** A finite list of document ids. */
  ghost predicate IsFinite(a: seq<int>) {
    Ascending(a) && forall d :: d in a ==> d >= 0
  }

  ghost predicate IsIdList(a: seq<int>) {
    a == [-1] || IsFinite(a)
  }

  /** Document `d` is in the set a list stands for. */
  ghost predicate Has(a: seq<int>, d: int) {
    (a != [] && a[0] == -1) || d in a
  }

  lemma {:induction false} MeetIs(a: seq<int>, b: seq<int>)
    requires Ascending(a) && Ascending(b)
    ensures Ascending(Meet(a, b))
    ensures forall d :: d in Meet(a, b) <==> d in a && d in b
    decreases |a| + |b|
  {
    if a != [] && b != [] {
      MembersOf(a);
      MembersOf(b);
      if a[0] > b[0] {
        MeetIs(a, b[1..]);
      } else if a[0] < b[0] {
        MeetIs(a[1..], b);
      } else {
        MeetIs(a[1..], b[1..]);
        Prepend(a[0], Meet(a[1..], b[1..]));
      }
    }
  }

  /** An ascending list is its head and larger ids. */
  lemma MembersOf(a: seq<int>)
    requires a != [] && Ascending(a)
    ensures Ascending(a[1..])
    ensures forall d :: d in a <==> d == a[0] || d in a[1..]
    ensures forall d :: d in a[1..] ==> d > a[0]
  {
    assert a == [a[0]] + a[1..];
  }

  lemma Prepend(x: int, a: seq<int>)
    requires Ascending(a) && forall d :: d in a ==> x < d
    ensures Ascending([x] + a)
    ensures forall d :: d in [x] + a <==> d == x || d in a
  {
    assert forall j :: 0 <= j < |a| ==> a[j] in a;
  }

  lemma {:induction false} MergeIs(a: seq<int>, b: seq<int>)
    requires Ascending(a) && Ascending(b)
    ensures Ascending(Merge(a, b))
    ensures forall d :: d in Merge(a, b) <==> d in a || d in b
    decreases |a| + |b|
  {
    if a != [] && b != [] {
      MembersOf(a);
      MembersOf(b);
      if b[0] < a[0] {
        MergeIs(a, b[1..]);
        Prepend(b[0], Merge(a, b[1..]));
      } else if a[0] < b[0] {
        MergeIs(a[1..], b);
        Prepend(a[0], Merge(a[1..], b));
      } else {
        MergeIs(a[1..], b[1..]);
        Prepend(a[0], Merge(a[1..], b[1..]));
      }
    }
  }

  lemma {:induction false} MinusIs(a: seq<int>, b: seq<int>)
    requires Ascending(a) && Ascending(b)
    ensures Ascending(Minus(a, b))
    ensures forall d :: d in Minus(a, b) <==> d in a && d !in b
    decreases |a| + |b|
  {
    if a != [] && b != [] {
      MembersOf(a);
      MembersOf(b);
      if b[0] < a[0] {
        MinusIs(a, b[1..]);
      } else if a[0] < b[0] {
        MinusIs(a[1..], b);
        Prepend(a[0], Minus(a[1..], b));
      } else {
        MinusIs(a[1..], b[1..]);
      }
    }
  }

  lemma HeadIn(a: seq<int>)
    ensures a != [] ==> a[0] in a
  {
  }

  /** and_operation intersects, the infinite list included. */
  lemma AndIs(a: seq<int>, b: seq<int>)
    requires IsIdList(a) && IsIdList(b)
    ensures IsIdList(And(a, b, []))
    ensures IsFinite(a) || IsFinite(b) ==> IsFinite(And(a, b, []))
    ensures forall d :: d >= 0 ==> (Has(And(a, b, []), d) <==> Has(a, d) && Has(b, d))
  {
    HeadIn(a);
    HeadIn(b);
    HeadIn(And(a, b, []));
    if a != [] && b != [] && a[0] != INFINITE && b[0] != INFINITE {
      MeetIs(a, b);
      assert [] + Meet(a, b) == Meet(a, b);
    }
  }

  lemma OrIs(a: seq<int>, b: seq<int>)
    requires IsIdList(a) && IsIdList(b)
    ensures IsIdList(Or(a, b, []))
    ensures IsFinite(a) && IsFinite(b) ==> IsFinite(Or(a, b, []))
    ensures forall d :: d >= 0 ==> (Has(Or(a, b, []), d) <==> Has(a, d) || Has(b, d))
  {
    HeadIn(a);
    HeadIn(b);
    HeadIn(Or(a, b, []));
    if a != [] && b != [] && a[0] != INFINITE && b[0] != INFINITE {
      MergeIs(a, b);
      assert [] + Merge(a, b) == Merge(a, b);
    }
  }

  /** dup_check_operation removes the second set, unless the first is infinite. */
  lemma DupCheckIs(a: seq<int>, b: seq<int>)
    requires IsIdList(a) && IsFinite(b)
    ensures IsIdList(DupCheck(a, b, []))
    ensures a == [-1] ==> DupCheck(a, b, []) == [-1]
    ensures IsFinite(a) ==> IsFinite(DupCheck(a, b, []))
    ensures IsFinite(a) ==> forall d :: d in DupCheck(a, b, []) <==> d in a && d !in b
  {
    HeadIn(a);
    HeadIn(b);
    if a != [] && b != [] {
      MinusIs(a, b);
      assert [] + Minus(a, b) == Minus(a, b);
      if a == [INFINITE] {
        assert Minus(a, b) == [a[0]] + Minus([], b) == a;
      }
    }
  }

  // The fold of merge_and over the children of a node that is not the root.

  /** The strict and the lenient documents of a node. */
  datatype Pair = Pair(s: seq<int>, l: seq<int>)

  function AndStep(acc: Pair, next: Pair): Pair {
    var sl := And(acc.s, next.l, []);
    var ls := And(acc.l, next.s, []);
    var ll := And(acc.l, next.l, []);
    Pair(And(acc.s, next.s, []), Or(Or(sl, ls, []), ll, []))
  }

  function AndFold(acc: Pair, rest: seq<Pair>): Pair
    decreases |rest|
  {
    if rest == [] then acc else AndFold(AndStep(acc, rest[0]), rest[1..])
  }

  function AndAll(first: Pair, rest: seq<Pair>): Pair {
    var r := AndFold(first, rest);
    r.(l := DupCheck(r.l, r.s, []))
  }

  ghost predicate IsPair(p: Pair) {
    IsFinite(p.s) && IsIdList(p.l)
  }

  ghost predicate InSome(p: Pair, d: int) {
    Has(p.s, d) || Has(p.l, d)
  }

  lemma AndStepIs(acc: Pair, next: Pair)
    requires IsPair(acc) && IsPair(next)
    ensures IsPair(AndStep(acc, next))
    ensures forall d :: d >= 0 ==> (Has(AndStep(acc, next).s, d) <==> Has(acc.s, d) && Has(next.s, d))
    ensures forall d :: d >= 0 ==> (InSome(AndStep(acc, next), d) <==> InSome(acc, d) && InSome(next, d))
  {
    hide And, Or, Has, IsFinite;
    AndIs(acc.s, next.s);
    AndIs(acc.s, next.l);
    AndIs(acc.l, next.s);
    AndIs(acc.l, next.l);
    var sl, ls, ll := And(acc.s, next.l, []), And(acc.l, next.s, []), And(acc.l, next.l, []);
    OrIs(sl, ls);
    OrIs(Or(sl, ls, []), ll);
  }

  lemma {:induction false} AndFoldIs(acc: Pair, rest: seq<Pair>)
    requires IsPair(acc) && forall i :: 0 <= i < |rest| ==> IsPair(rest[i])
    ensures IsPair(AndFold(acc, rest))
    ensures forall d :: d >= 0 ==>
              (Has(AndFold(acc, rest).s, d) <==> Has(acc.s, d) && forall i :: 0 <= i < |rest| ==> Has(rest[i].s, d))
    ensures forall d :: d >= 0 ==>
              (InSome(AndFold(acc, rest), d) <==> InSome(acc, d) && forall i :: 0 <= i < |rest| ==> InSome(rest[i], d))
    decreases |rest|
  {
    hide IsPair, AndStep, Has, InSome;
    if rest != [] {
      AndStepIs(acc, rest[0]);
      AndFoldIs(AndStep(acc, rest[0]), rest[1..]);
      assert rest == [rest[0]] + rest[1..];
    }
  }

  /**
   * The strict documents are the intersection of all strict sets; with the lenient ones they are the
   * intersection of the unions. The two lists are ascending and share no document.
   */
  lemma AndAllIs(first: Pair, rest: seq<Pair>)
    requires IsPair(first) && forall i :: 0 <= i < |rest| ==> IsPair(rest[i])
    ensures IsPair(AndAll(first, rest))
    ensures forall d :: d >= 0 ==>
              (Has(AndAll(first, rest).s, d) <==> Has(first.s, d) && forall i :: 0 <= i < |rest| ==> Has(rest[i].s, d))
    ensures forall d :: d >= 0 ==>
              (InSome(AndAll(first, rest), d) <==>
                 InSome(first, d) && forall i :: 0 <= i < |rest| ==> InSome(rest[i], d))
    ensures forall d :: d in AndAll(first, rest).l ==> d !in AndAll(first, rest).s
  {
    hide AndFold, DupCheck, IsPair, Has, InSome;
    AndFoldIs(first, rest);
    Checked(AndFold(first, rest));
  }

  /** Dropping the strict documents from the lenient list leaves both together as they were. */
  lemma Checked(r: Pair)
    requires IsPair(r)
    ensures var r' := r.(l := DupCheck(r.l, r.s, []));
      && IsPair(r') && (forall d :: d >= 0 ==> (InSome(r', d) <==> InSome(r, d)))
      && (forall d :: d in r'.l ==> d !in r'.s)
  {
    hide DupCheck;
    DupCheckIs(r.l, r.s);
    HeadIn(r.l);
    HeadIn(r.s);
    HeadIn(DupCheck(r.l, r.s, []));
  }
}
