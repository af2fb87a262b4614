/** Several position lists read in step: which list has the smallest position at its head. */
module Heads {
  import opened Turns

  /** What goes with a position; scores are real numbers. */
  datatype Info = Info(score: real, phrases: nat, gdf: real, term: string)

  /** The positions of a child in a document, with -1 behind the last one, and the lists that go with them. */
  datatype PosList = PosList(pos: seq<int>, info: seq<Info>)

  const END := -1

  ghost predicate Legal(list: PosList) {
    && |list.pos| == |list.info| + 1 && list.pos[|list.info|] == END
    && (forall i :: 0 <= i < |list.info| ==> list.pos[i] >= 0)
    && (forall i, j :: 0 <= i < j < |list.info| ==> list.pos[i] <= list.pos[j])
  }

  ghost predicate AllLegal(lists: seq<PosList>) {
    |lists| > 0 && forall t :: 0 <= t < |lists| ==> Legal(lists[t])
  }

  /** How far each list was read. */
  ghost predicate Read(lists: seq<PosList>, idx: seq<nat>) {
    |idx| == |lists| && forall t :: 0 <= t < |lists| ==> idx[t] < |lists[t].pos|
  }

  ghost function Head(lists: seq<PosList>, idx: seq<nat>, t: nat): int
    requires Read(lists, idx) && t < |lists|
  {
    lists[t].pos[idx[t]]
  }

  /** The condition under which two neighbours are swapped. */
  predicate Swaps(a: int, b: int) {
    a == END || (b != END && a > b)
  }

  /** The order of heads: an exhausted list comes last. */
  predicate Before(a: int, b: int) {
    b == END || (a != END && a <= b)
  }

  ghost predicate Perm(s: seq<nat>, n: nat) {
    && |s| == n
    && (forall i :: 0 <= i < n ==> s[i] < n)
    && (forall t :: 0 <= t < n ==> t in s)
    && (forall i, j :: 0 <= i < j < n ==> s[i] != s[j])
  }

  lemma SwapPerm(s: seq<nat>, n: nat, i: nat, j: nat)
    requires Perm(s, n) && i < n && j < n
    ensures Perm(s[i := s[j]][j := s[i]], n)
  {
    var s' := s[i := s[j]][j := s[i]];
    forall t | 0 <= t < n ensures t in s' {
      assert t in s;
      var p :| 0 <= p < |s| && s[p] == t;
      assert s'[if p == i then j else if p == j then i else p] == t;
    }
  }

  /** The heads from place `from` on are in order. */
  ghost predicate InOrder(lists: seq<PosList>, idx: seq<nat>, s: seq<nat>, from: nat)
    requires Read(lists, idx) && Perm(s, |lists|)
  {
    forall i, j :: from <= i < j < |s| ==> Before(Head(lists, idx, s[i]), Head(lists, idx, s[j]))
  }

  /** In order but for the entry at place `i`, which is behind all those before it. */
  ghost predicate Sinking(lists: seq<PosList>, idx: seq<nat>, s: seq<nat>, i: nat)
    requires Read(lists, idx) && Perm(s, |lists|) && i < |s|
  {
    && (forall a, b :: 0 <= a < b < |s| && a != i && b != i ==> Before(Head(lists, idx, s[a]), Head(lists, idx, s[b])))
    && (forall a :: 0 <= a < i ==> Before(Head(lists, idx, s[a]), Head(lists, idx, s[i])))
  }

  lemma SinkOne(lists: seq<PosList>, idx: seq<nat>, s: seq<nat>, i: nat)
    requires Read(lists, idx) && Perm(s, |lists|) && i + 1 < |s| && Sinking(lists, idx, s, i)
    ensures Swaps(Head(lists, idx, s[i]), Head(lists, idx, s[i + 1])) ==>
              Perm(s[i := s[i + 1]][i + 1 := s[i]], |lists|)
              && Sinking(lists, idx, s[i := s[i + 1]][i + 1 := s[i]], i + 1)
    ensures !Swaps(Head(lists, idx, s[i]), Head(lists, idx, s[i + 1])) ==> Sinking(lists, idx, s, i + 1)
  {
    SwapPerm(s, |lists|, i, i + 1);
  }

  /** The positions of a list, without the end. */
  ghost function Positions(list: PosList): (p: seq<int>)
    requires Legal(list)
    ensures |p| == |list.info|
  {
    list.pos[..|list.info|]
  }

  ghost function Poses(lists: seq<PosList>): (ps: seq<seq<int>>)
    requires AllLegal(lists)
    ensures |ps| == |lists| && forall t :: 0 <= t < |lists| ==> ps[t] == Positions(lists[t])
  {
    seq(|lists|, t requires 0 <= t < |lists| => Positions(lists[t]))
  }

  /** What is still to be read of a list. */
  ghost function ReaderOf(lists: seq<PosList>, idx: seq<nat>, t: nat): Reader
    requires AllLegal(lists) && Read(lists, idx) && t < |lists|
  {
    assert Legal(lists[t]);
    Reader(t, lists[t].pos[idx[t]..|lists[t].info|])
  }

  ghost predicate Within(s: seq<nat>, n: nat) {
    forall i :: 0 <= i < |s| ==> s[i] < n
  }

  /** The lists in the order of `s` that are not read to the end. */
  ghost function Readers(lists: seq<PosList>, idx: seq<nat>, s: seq<nat>): seq<Reader>
    requires AllLegal(lists) && Read(lists, idx) && Within(s, |lists|)
  {
    if s == [] then []
    else
      var r := ReaderOf(lists, idx, s[0]);
      Ahead(r, Readers(lists, idx, s[1..]))
  }

  lemma ReaderIs(lists: seq<PosList>, idx: seq<nat>, t: nat)
    requires AllLegal(lists) && Read(lists, idx) && t < |lists|
    ensures var r := ReaderOf(lists, idx, t);
      && r.list == t && (r.rest == [] <==> Head(lists, idx, t) == END)
      && (r.rest != [] ==> r.rest[0] == Head(lists, idx, t) && Head(lists, idx, t) >= 0)
  {
    assert Legal(lists[t]);
  }

  lemma {:induction false} ReadersSplit(lists: seq<PosList>, idx: seq<nat>, a: seq<nat>, b: seq<nat>)
    requires AllLegal(lists) && Read(lists, idx) && Within(a, |lists|) && Within(b, |lists|)
    ensures Within(a + b, |lists|) && Readers(lists, idx, a + b) == Readers(lists, idx, a) + Readers(lists, idx, b)
  {
    hide ReaderOf, AllLegal;
    if a == [] {
      assert a + b == b;
    } else {
      assert (a + b)[1..] == a[1..] + b;
      ReadersSplit(lists, idx, a[1..], b);
    }
  }

  /** When the head of every list is at least `x`, a reader at `x` enters in front of them. */
  lemma {:induction false} EnterFront(lists: seq<PosList>, idx: seq<nat>, s: seq<nat>, r: Reader)
    requires AllLegal(lists) && Read(lists, idx) && Within(s, |lists|)
    requires r.rest != [] ==> forall i :: 0 <= i < |s| ==> Before(r.rest[0], Head(lists, idx, s[i]))
    requires r.rest == [] || r.rest[0] != END
    ensures Enter(r, Readers(lists, idx, s))
         == Ahead(r, Readers(lists, idx, s))
  {
    hide ReaderOf, AllLegal;
    if s != [] {
      ReaderIs(lists, idx, s[0]);
      EnterFront(lists, idx, s[1..], r);
    }
  }

  /** While an entry sinks to its place, the queue that is to come of it stays the same. */
  ghost predicate Sought(lists: seq<PosList>, idx: seq<nat>, s: seq<nat>, i: nat, queue: seq<Reader>)
    requires AllLegal(lists) && Read(lists, idx) && Within(s, |lists|) && i < |s|
  {
    queue == Readers(lists, idx, s[..i]) + Enter(ReaderOf(lists, idx, s[i]), Readers(lists, idx, s[i + 1..]))
  }

  lemma OneBehind(lists: seq<PosList>, idx: seq<nat>, front: seq<nat>, a: nat)
    requires AllLegal(lists) && Read(lists, idx) && a < |lists| && Within(front, |lists|)
    ensures Within(front + [a], |lists|)
    ensures Readers(lists, idx, front + [a]) == Behind(Readers(lists, idx, front), ReaderOf(lists, idx, a))
  {
    hide ReaderOf;
    ReadersSplit(lists, idx, front, [a]);
    assert [a][1..] == [];
  }

  lemma OneAhead(lists: seq<PosList>, idx: seq<nat>, a: nat, back: seq<nat>)
    requires AllLegal(lists) && Read(lists, idx) && a < |lists| && Within(back, |lists|)
    ensures Within([a] + back, |lists|)
    ensures Readers(lists, idx, [a] + back) == Ahead(ReaderOf(lists, idx, a), Readers(lists, idx, back))
  {
    assert ([a] + back)[1..] == back;
  }

  lemma SoughtStep(lists: seq<PosList>, idx: seq<nat>, front: seq<nat>, a: nat, b: nat, back: seq<nat>)
    requires AllLegal(lists) && Read(lists, idx) && Within(front, |lists|) && Within(back, |lists|)
    requires a < |lists| && b < |lists|
    requires !Swaps(Head(lists, idx, a), Head(lists, idx, b)) ==>
               forall j :: 0 <= j < |back| ==> Before(Head(lists, idx, b), Head(lists, idx, back[j]))
    ensures Readers(lists, idx, front) + Enter(ReaderOf(lists, idx, a), Readers(lists, idx, [b] + back))
         == if Swaps(Head(lists, idx, a), Head(lists, idx, b))
            then Readers(lists, idx, front + [b]) + Enter(ReaderOf(lists, idx, a), Readers(lists, idx, back))
            else Readers(lists, idx, front + [a]) + Enter(ReaderOf(lists, idx, b), Readers(lists, idx, back))
  {
    ReaderIs(lists, idx, a);
    ReaderIs(lists, idx, b);
    hide ReaderOf, AllLegal, Head, Readers, Read, Behind;
    var f, ra, rb, q := Readers(lists, idx, front), ReaderOf(lists, idx, a), ReaderOf(lists, idx, b),
                        Readers(lists, idx, back);
    OneAhead(lists, idx, b, back);
    if Swaps(Head(lists, idx, a), Head(lists, idx, b)) {
      OneBehind(lists, idx, front, b);
      GoesPast(f, ra, rb, q);
    } else {
      OneBehind(lists, idx, front, a);
      EnterFront(lists, idx, back, rb);
      EnterFront(lists, idx, [b] + back, ra);
      Stays(f, ra, rb, q);
    }
  }

  lemma SwapParts(s: seq<nat>, i: nat)
    requires i + 1 < |s|
    ensures s[i + 1..] == [s[i + 1]] + s[i + 2..] && s[..i + 1] == s[..i] + [s[i]]
    ensures var s' := s[i := s[i + 1]][i + 1 := s[i]];
      s'[i + 1] == s[i] && s'[..i + 1] == s[..i] + [s[i + 1]] && s'[i + 2..] == s[i + 2..]
  {
  }

  lemma SoughtOne(lists: seq<PosList>, idx: seq<nat>, s: seq<nat>, i: nat, queue: seq<Reader>)
    requires AllLegal(lists) && Read(lists, idx) && Perm(s, |lists|) && Within(s, |lists|)
    requires i + 1 < |s| && Sinking(lists, idx, s, i) && Sought(lists, idx, s, i, queue)
    ensures Swaps(Head(lists, idx, s[i]), Head(lists, idx, s[i + 1])) ==>
              var s' := s[i := s[i + 1]][i + 1 := s[i]];
              Within(s', |lists|) && Sought(lists, idx, s', i + 1, queue)
    ensures !Swaps(Head(lists, idx, s[i]), Head(lists, idx, s[i + 1])) ==> Sought(lists, idx, s, i + 1, queue)
  {
    hide AllLegal, Perm, Sinking, Head, Readers, ReaderOf, Swaps, Before, Within, Read;
    TwoNeighbours(lists, idx, s, i);
    SwapParts(s, i);
    SoughtStep(lists, idx, s[..i], s[i], s[i + 1], s[i + 2..]);
  }

  /** What the two neighbours are, and that the heads behind the second are not smaller. */
  lemma TwoNeighbours(lists: seq<PosList>, idx: seq<nat>, s: seq<nat>, i: nat)
    requires Read(lists, idx) && Perm(s, |lists|) && Within(s, |lists|) && i + 1 < |s| && Sinking(lists, idx, s, i)
    ensures s[i] < |lists| && s[i + 1] < |lists| && Within(s[..i], |lists|) && Within(s[i + 2..], |lists|)
    ensures Within(s[i := s[i + 1]][i + 1 := s[i]], |lists|)
    ensures var b, back := s[i + 1], s[i + 2..];
      forall j :: 0 <= j < |back| ==> Before(Head(lists, idx, b), Head(lists, idx, back[j]))
  {
    hide Before, Swaps;
    var back := s[i + 2..];
    forall j | 0 <= j < |back| ensures Before(Head(lists, idx, s[i + 1]), Head(lists, idx, back[j])) {
      assert back[j] == s[i + 2 + j];
    }
  }

  /**
   * update_sorted_int, without the skipping of ordered proximity: after the first list moved on, one
   * pass restores the order, and the list enters the queue of the others.
   */
  method UpdateSortedInt(sortedInt: array<nat>, tid2idx: array<nat>, lists: seq<PosList>)
    requires AllLegal(lists) && Read(lists, tid2idx[..]) && sortedInt != tid2idx
    requires Perm(sortedInt[..], |lists|) && InOrder(lists, tid2idx[..], sortedInt[..], 1)
    modifies sortedInt
    ensures Perm(sortedInt[..], |lists|) && InOrder(lists, tid2idx[..], sortedInt[..], 0)
    ensures Within(sortedInt[..], |lists|) && Within(old(sortedInt[..])[1..], |lists|)
    ensures Readers(lists, tid2idx[..], sortedInt[..])
         == Enter(ReaderOf(lists, tid2idx[..], old(sortedInt[0])), Readers(lists, tid2idx[..], old(sortedInt[..])[1..]))
  {
    assert |lists| > 0;
    hide Perm, Sinking, InOrder, Sought, AllLegal, Enter, ReaderOf, Readers;
    ghost var idx := tid2idx[..];
    PermSize(sortedInt[..], |lists|);
    PermWithin(sortedInt[..], |lists|);
    SinkStart(lists, idx, sortedInt[..]);
    ghost var queue := Enter(ReaderOf(lists, idx, sortedInt[0]), Readers(lists, idx, sortedInt[..][1..]));
    SoughtStart(lists, idx, sortedInt[..]);
    for i := 0 to |lists| - 1
      invariant Perm(sortedInt[..], |lists|) && Within(sortedInt[..], |lists|) && tid2idx[..] == idx
      invariant Sinking(lists, idx, sortedInt[..], i) && Sought(lists, idx, sortedInt[..], i, queue)
    {
      PermAt(sortedInt[..], |lists|, i);
      PermAt(sortedInt[..], |lists|, i + 1);
      SinkOne(lists, idx, sortedInt[..], i);
      SoughtOne(lists, idx, sortedInt[..], i, queue);
      if Swaps(lists[sortedInt[i]].pos[tid2idx[sortedInt[i]]], lists[sortedInt[i + 1]].pos[tid2idx[sortedInt[i + 1]]]) {
        ghost var s := sortedInt[..];
        sortedInt[i], sortedInt[i + 1] := sortedInt[i + 1], sortedInt[i];
        assert sortedInt[..] == s[i := s[i + 1]][i + 1 := s[i]];
      }
    }
    SinkEnd(lists, idx, sortedInt[..]);
    SoughtEnd(lists, idx, sortedInt[..], queue);
  }

  lemma PermWithin(s: seq<nat>, n: nat)
    requires Perm(s, n)
    ensures Within(s, n) && (n > 0 ==> Within(s[1..], n))
  {
  }

  lemma SoughtStart(lists: seq<PosList>, idx: seq<nat>, s: seq<nat>)
    requires AllLegal(lists) && Read(lists, idx) && |s| > 0 && Within(s, |lists|) && Within(s[1..], |lists|)
    ensures Sought(lists, idx, s, 0, Enter(ReaderOf(lists, idx, s[0]), Readers(lists, idx, s[1..])))
  {
  }

  lemma SoughtEnd(lists: seq<PosList>, idx: seq<nat>, s: seq<nat>, queue: seq<Reader>)
    requires AllLegal(lists) && Read(lists, idx) && |s| > 0 && Within(s, |lists|)
    requires Sought(lists, idx, s, |s| - 1, queue)
    ensures Readers(lists, idx, s) == queue
  {
    var n := |s| - 1;
    assert s == s[..n] + [s[n]] && s[n + 1..] == [];
    OneBehind(lists, idx, s[..n], s[n]);
  }

  lemma PermSize(s: seq<nat>, n: nat)
    requires Perm(s, n)
    ensures |s| == n
  {
  }

  lemma PermAt(s: seq<nat>, n: nat, i: nat)
    requires Perm(s, n) && i < n
    ensures i < |s| && s[i] < n
  {
  }

  lemma SinkStart(lists: seq<PosList>, idx: seq<nat>, s: seq<nat>)
    requires Read(lists, idx) && Perm(s, |lists|) && |s| > 0 && InOrder(lists, idx, s, 1)
    ensures Sinking(lists, idx, s, 0)
  {
  }

  lemma SinkEnd(lists: seq<PosList>, idx: seq<nat>, s: seq<nat>)
    requires Read(lists, idx) && Perm(s, |lists|) && |s| > 0 && Sinking(lists, idx, s, |s| - 1)
    ensures InOrder(lists, idx, s, 0)
  {
  }

  /** The last `i` places hold the largest heads, in order. */
  ghost predicate Settled(lists: seq<PosList>, idx: seq<nat>, s: seq<nat>, i: nat)
    requires Read(lists, idx) && Perm(s, |lists|) && i <= |s|
  {
    forall a, b :: 0 <= a < b < |s| && |s| - i <= b ==> Before(Head(lists, idx, s[a]), Head(lists, idx, s[b]))
  }

  /** Place `j` holds the largest head so far. */
  ghost predicate Rising(lists: seq<PosList>, idx: seq<nat>, s: seq<nat>, j: nat)
    requires Read(lists, idx) && Perm(s, |lists|) && j < |s|
  {
    forall a :: 0 <= a < j ==> Before(Head(lists, idx, s[a]), Head(lists, idx, s[j]))
  }

  lemma RiseOne(lists: seq<PosList>, idx: seq<nat>, s: seq<nat>, i: nat, j: nat)
    requires Read(lists, idx) && Perm(s, |lists|) && i <= |s| && j + 1 < |s| - i
    requires Settled(lists, idx, s, i) && Rising(lists, idx, s, j)
    ensures Swaps(Head(lists, idx, s[j]), Head(lists, idx, s[j + 1])) ==>
              Perm(s[j := s[j + 1]][j + 1 := s[j]], |lists|)
              && Settled(lists, idx, s[j := s[j + 1]][j + 1 := s[j]], i)
              && Rising(lists, idx, s[j := s[j + 1]][j + 1 := s[j]], j + 1)
    ensures !Swaps(Head(lists, idx, s[j]), Head(lists, idx, s[j + 1])) ==> Rising(lists, idx, s, j + 1)
  {
    SwapPerm(s, |lists|, j, j + 1);
  }

  lemma SettleOne(lists: seq<PosList>, idx: seq<nat>, s: seq<nat>, i: nat)
    requires Read(lists, idx) && Perm(s, |lists|) && i < |s|
    requires Settled(lists, idx, s, i) && Rising(lists, idx, s, |s| - 1 - i)
    ensures Settled(lists, idx, s, i + 1)
  {
  }

  /** Lists with the same first position stay in the order of their numbers. */
  ghost predicate Stable(lists: seq<PosList>, idx: seq<nat>, s: seq<nat>)
    requires Read(lists, idx) && Perm(s, |lists|)
  {
    forall i, j :: 0 <= i < j < |s| && Head(lists, idx, s[i]) == Head(lists, idx, s[j]) != END ==> s[i] < s[j]
  }

  lemma StableOne(lists: seq<PosList>, idx: seq<nat>, s: seq<nat>, j: nat)
    requires Read(lists, idx) && Perm(s, |lists|) && j + 1 < |s| && Stable(lists, idx, s)
    requires Swaps(Head(lists, idx, s[j]), Head(lists, idx, s[j + 1]))
    ensures Perm(s[j := s[j + 1]][j + 1 := s[j]], |lists|) && Stable(lists, idx, s[j := s[j + 1]][j + 1 := s[j]])
  {
    SwapPerm(s, |lists|, j, j + 1);
  }

  /** The bubble sort in front of both walks. */
  method SortHeads(sortedInt: array<nat>, lists: seq<PosList>)
    requires AllLegal(lists) && sortedInt.Length == |lists|
    modifies sortedInt
    ensures Perm(sortedInt[..], |lists|) && Within(sortedInt[..], |lists|)
    ensures Read(lists, Starts(lists)) && InOrder(lists, Starts(lists), sortedInt[..], 0)
    ensures Readers(lists, Starts(lists), sortedInt[..]) == Line(Poses(lists), 0)
  {
    hide Perm, Settled, Rising, InOrder, Stable, Readers, Line;
    var n := |lists|;
    for i := 0 to n
      invariant forall k :: 0 <= k < i ==> sortedInt[k] == k
    {
      sortedInt[i] := i;
    }
    ghost var idx := Starts(lists);
    Identity(lists, idx, sortedInt[..], n);
    NoneSettled(lists, idx, sortedInt[..]);
    for i := 0 to n - 1
      invariant Perm(sortedInt[..], n) && Settled(lists, idx, sortedInt[..], i)
      invariant Stable(lists, idx, sortedInt[..])
    {
      RiseStart(lists, idx, sortedInt[..]);
      for j := 0 to n - i - 1
        invariant Perm(sortedInt[..], n) && Settled(lists, idx, sortedInt[..], i)
        invariant Rising(lists, idx, sortedInt[..], j) && Stable(lists, idx, sortedInt[..])
      {
        PermAt(sortedInt[..], n, j);
        PermAt(sortedInt[..], n, j + 1);
        RiseOne(lists, idx, sortedInt[..], i, j);
        if Swaps(lists[sortedInt[j]].pos[0], lists[sortedInt[j + 1]].pos[0]) {
          StableOne(lists, idx, sortedInt[..], j);
          ghost var s := sortedInt[..];
          sortedInt[j], sortedInt[j + 1] := sortedInt[j + 1], sortedInt[j];
          assert sortedInt[..] == s[j := s[j + 1]][j + 1 := s[j]];
        }
      }
      SettleOne(lists, idx, sortedInt[..], i);
    }
    AllSettled(lists, idx, sortedInt[..]);
    SortedLine(lists, sortedInt[..]);
  }

  /** In order, with ties by number: that is the line in which reading begins. */
  lemma SortedLine(lists: seq<PosList>, s: seq<nat>)
    requires AllLegal(lists) && Perm(s, |lists|) && Read(lists, Starts(lists))
    requires InOrder(lists, Starts(lists), s, 0) && Stable(lists, Starts(lists), s)
    ensures Within(s, |lists|) && Readers(lists, Starts(lists), s) == Line(Poses(lists), 0)
  {
    hide AllLegal, Line;
    var idx := Starts(lists);
    PermWithin(s, |lists|);
    ReadersLined(lists, idx, s);
    LineIs(Poses(lists), 0);
    forall x ensures x in Readers(lists, idx, s) <==> x in Line(Poses(lists), 0) {
      ReadersHas(lists, idx, s, x);
      if x.list < |lists| {
        StartReader(lists, x.list);
      }
    }
    SameLine(Readers(lists, idx, s), Line(Poses(lists), 0));
  }

  lemma StartReader(lists: seq<PosList>, t: nat)
    requires AllLegal(lists) && t < |lists| && Read(lists, Starts(lists))
    ensures ReaderOf(lists, Starts(lists), t) == Reader(t, Poses(lists)[t])
  {
    assert Legal(lists[t]);
  }

  lemma {:induction false} ReadersHas(lists: seq<PosList>, idx: seq<nat>, s: seq<nat>, x: Reader)
    requires AllLegal(lists) && Read(lists, idx) && Within(s, |lists|)
    ensures x in Readers(lists, idx, s)
       <==> x.rest != [] && x.list in s && x.list < |lists| && x == ReaderOf(lists, idx, x.list)
  {
    hide AllLegal, ReaderOf;
    if s != [] {
      ReaderIs(lists, idx, s[0]);
      ReadersHas(lists, idx, s[1..], x);
      assert s == [s[0]] + s[1..];
    }
  }

  lemma {:induction false} ReadersLined(lists: seq<PosList>, idx: seq<nat>, s: seq<nat>)
    requires AllLegal(lists) && Read(lists, idx) && Within(s, |lists|)
    requires forall i, j :: 0 <= i < j < |s| ==> Before(Head(lists, idx, s[i]), Head(lists, idx, s[j]))
    requires forall i, j :: 0 <= i < j < |s| && Head(lists, idx, s[i]) == Head(lists, idx, s[j]) != END ==> s[i] < s[j]
    ensures Lined(Readers(lists, idx, s))
  {
    if s != [] {
      hide AllLegal, ReaderOf, Lined;
      ReaderIs(lists, idx, s[0]);
      ReadersLined(lists, idx, s[1..]);
      var r, q := ReaderOf(lists, idx, s[0]), Readers(lists, idx, s[1..]);
      if r.rest != [] {
        forall y | y in q ensures Precedes(r, y) {
          ReadersHas(lists, idx, s[1..], y);
          ReaderIs(lists, idx, y.list);
          var j :| 1 <= j < |s| && s[j] == y.list;
        }
        LinedCons(r, q);
      }
    }
  }

  lemma Identity(lists: seq<PosList>, idx: seq<nat>, s: seq<nat>, n: nat)
    requires |s| == n == |lists| && Read(lists, idx) && forall k :: 0 <= k < n ==> s[k] == k
    ensures Perm(s, n) && Stable(lists, idx, s)
  {
    forall t | 0 <= t < n ensures t in s {
      assert s[t] == t;
    }
  }

  lemma NoneSettled(lists: seq<PosList>, idx: seq<nat>, s: seq<nat>)
    requires Read(lists, idx) && Perm(s, |lists|)
    ensures Settled(lists, idx, s, 0)
  {
  }

  lemma RiseStart(lists: seq<PosList>, idx: seq<nat>, s: seq<nat>)
    requires Read(lists, idx) && Perm(s, |lists|) && |lists| > 0
    ensures |s| == |lists| && Rising(lists, idx, s, 0)
  {
  }

  lemma AllSettled(lists: seq<PosList>, idx: seq<nat>, s: seq<nat>)
    requires Read(lists, idx) && Perm(s, |lists|) && |s| > 0 && Settled(lists, idx, s, |s| - 1)
    ensures InOrder(lists, idx, s, 0)
  {
  }

  ghost function Starts(lists: seq<PosList>): seq<nat> {
    seq(|lists|, t => 0)
  }

  /** Everything read lies at or before `cur`, everything else at or behind it. */
  ghost predicate Frontier(lists: seq<PosList>, idx: seq<nat>, cur: int)
    requires AllLegal(lists) && Read(lists, idx)
  {
    && (forall t, k :: 0 <= t < |lists| && 0 <= k < idx[t] ==> lists[t].pos[k] <= cur)
    && (forall t, k :: 0 <= t < |lists| && idx[t] <= k < |lists[t].info| ==> cur <= lists[t].pos[k])
  }

  ghost function Next(idx: seq<nat>, t: nat): seq<nat>
    requires t < |idx|
  {
    idx[t := idx[t] + 1]
  }

  /** The first head in order is the smallest of all. */
  lemma LeastHead(lists: seq<PosList>, idx: seq<nat>, s: seq<nat>, t: nat)
    requires Read(lists, idx) && Perm(s, |lists|) && t < |lists| && InOrder(lists, idx, s, 0)
    ensures Before(Head(lists, idx, s[0]), Head(lists, idx, t))
  {
    assert t in s;
    var p :| 0 <= p < |s| && s[p] == t;
  }

  /** Reading the least head moves the frontier to it. */
  lemma Advance(lists: seq<PosList>, idx: seq<nat>, s: seq<nat>, cur: int)
    requires AllLegal(lists) && Read(lists, idx) && Perm(s, |lists|) && InOrder(lists, idx, s, 0)
    requires Frontier(lists, idx, cur) && Head(lists, idx, s[0]) != END
    ensures var t, c := s[0], Head(lists, idx, s[0]);
      && cur <= c && Read(lists, Next(idx, t)) && Frontier(lists, Next(idx, t), c)
      && InOrder(lists, Next(idx, t), s, 1)
  {
    var t0, c, idx' := s[0], Head(lists, idx, s[0]), Next(idx, s[0]);
    assert Legal(lists[t0]);
    forall t, k | 0 <= t < |lists| && idx'[t] <= k < |lists[t].info| ensures c <= lists[t].pos[k] {
      assert Legal(lists[t]);
      LeastHead(lists, idx, s, t);
      assert lists[t].pos[idx[t]] <= lists[t].pos[k];
    }
  }

  /** When the least head is an end, every list was read to its end. */
  lemma AllRead(lists: seq<PosList>, idx: seq<nat>, s: seq<nat>, t: nat)
    requires AllLegal(lists) && Read(lists, idx) && Perm(s, |lists|) && InOrder(lists, idx, s, 0)
    requires Head(lists, idx, s[0]) == END && t < |lists|
    ensures idx[t] == |lists[t].info|
  {
    LeastHead(lists, idx, s, t);
    assert Legal(lists[t]);
  }

  /** The positions that are still to be read. */
  ghost function Left(lists: seq<PosList>, idx: seq<nat>, n: nat): nat
    requires Read(lists, idx) && n <= |lists|
  {
    if n == 0 then 0 else Left(lists, idx, n - 1) + (|lists[n - 1].pos| - idx[n - 1])
  }

  lemma {:induction false} LeftNext(lists: seq<PosList>, idx: seq<nat>, t: nat, n: nat)
    requires Read(lists, idx) && n <= |lists| && t < |lists| && Read(lists, Next(idx, t))
    ensures Left(lists, Next(idx, t), n) == Left(lists, idx, n) - if t < n then 1 else 0
    decreases n
  {
    if n > 0 {
      LeftNext(lists, idx, t, n - 1);
    }
  }

  lemma InfoAt(lists: seq<PosList>, idx: seq<nat>, t: nat)
    requires AllLegal(lists) && Read(lists, idx) && t < |lists| && Head(lists, idx, t) != END
    ensures idx[t] < |lists[t].info|
  {
    assert Legal(lists[t]);
  }

  /** Reading the first list moves on only that one. */
  lemma {:induction false} ReadersNext(lists: seq<PosList>, idx: seq<nat>, t0: nat, s: seq<nat>)
    requires AllLegal(lists) && Read(lists, idx) && t0 < |lists| && Read(lists, Next(idx, t0))
    requires Within(s, |lists|) && forall i :: 0 <= i < |s| ==> s[i] != t0
    ensures Readers(lists, Next(idx, t0), s) == Readers(lists, idx, s)
  {
    if s != [] {
      ReadersNext(lists, idx, t0, s[1..]);
    }
  }

  lemma FirstReader(lists: seq<PosList>, idx: seq<nat>, t0: nat)
    requires AllLegal(lists) && Read(lists, idx) && t0 < |lists| && Read(lists, Next(idx, t0))
    requires Head(lists, idx, t0) != END
    ensures var r := ReaderOf(lists, idx, t0);
      && r.list == t0 && r.rest != [] && r.rest[0] == Head(lists, idx, t0)
      && ReaderOf(lists, Next(idx, t0), t0) == Reader(t0, r.rest[1..])
  {
    assert Legal(lists[t0]);
  }

  lemma {:induction false} AllEnded(lists: seq<PosList>, idx: seq<nat>, s: seq<nat>)
    requires AllLegal(lists) && Read(lists, idx) && Within(s, |lists|)
    requires forall i :: 0 <= i < |s| ==> Head(lists, idx, s[i]) == END
    ensures Readers(lists, idx, s) == []
  {
    hide AllLegal, ReaderOf;
    if s != [] {
      ReaderIs(lists, idx, s[0]);
      AllEnded(lists, idx, s[1..]);
    }
  }

  /** The first list in order, and that it has an entry at its head unless it is read to the end. */
  lemma FirstHead(lists: seq<PosList>, idx: seq<nat>, s: seq<nat>)
    requires AllLegal(lists) && Read(lists, idx) && Perm(s, |lists|)
    ensures |s| == |idx| == |lists| > 0 && s[0] < |lists| && idx[s[0]] < |lists[s[0]].pos|
    ensures lists[s[0]].pos[idx[s[0]]] != END ==> idx[s[0]] < |lists[s[0]].info|
  {
    if Head(lists, idx, s[0]) != END {
      InfoAt(lists, idx, s[0]);
    }
  }

  lemma NextIs(idx: seq<nat>, t: nat)
    requires t < |idx|
    ensures Next(idx, t) == idx[t := idx[t] + 1]
  {
  }

  /** An entry that was read from one of the lists. */
  ghost predicate Origin(lists: seq<PosList>, idx: seq<nat>, p: int, info: Info)
    requires AllLegal(lists) && Read(lists, idx)
  {
    exists t, k :: 0 <= t < |lists| && 0 <= k < idx[t] && k < |lists[t].info|
                   && lists[t].pos[k] == p && lists[t].info[k] == info
  }

  lemma OriginNow(lists: seq<PosList>, idx: seq<nat>, t0: nat)
    requires AllLegal(lists) && Read(lists, idx) && t0 < |lists| && Read(lists, Next(idx, t0))
    requires idx[t0] < |lists[t0].info|
    ensures Origin(lists, Next(idx, t0), lists[t0].pos[idx[t0]], lists[t0].info[idx[t0]])
  {
    assert idx[t0] < Next(idx, t0)[t0];
  }

  lemma OriginMore(lists: seq<PosList>, idx: seq<nat>, t0: nat, p: int, info: Info)
    requires AllLegal(lists) && Read(lists, idx) && t0 < |lists| && Read(lists, Next(idx, t0))
    requires Origin(lists, idx, p, info)
    ensures Origin(lists, Next(idx, t0), p, info)
  {
    var t, k :| 0 <= t < |lists| && 0 <= k < idx[t] && k < |lists[t].info|
                && lists[t].pos[k] == p && lists[t].info[k] == info;
    assert k < Next(idx, t0)[t];
  }
}
