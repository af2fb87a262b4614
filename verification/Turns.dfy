/** The order in which several lists are read in step: by their next positions, with a rule for ties. */
module Turns {
  import Seqs

  /** A list by its number, and what is still to be read of it. */
  datatype Reader = Reader(list: nat, rest: seq<int>)

  /** A reader takes its place in front of all that are not smaller, and leaves when nothing is left. */
  function Enter(r: Reader, queue: seq<Reader>): seq<Reader> {
    if r.rest == [] then queue
    else if queue == [] || queue[0].rest == [] || r.rest[0] <= queue[0].rest[0] then [r] + queue
    else [queue[0]] + Enter(r, queue[1..])
  }

  /** The queue before anything is read: among equal positions the list with the smaller number comes first. */
  function Line(ps: seq<seq<int>>, from: nat): seq<Reader>
    requires from <= |ps|
    decreases |ps| - from
  {
    if from == |ps| then [] else Enter(Reader(from, ps[from]), Line(ps, from + 1))
  }

  /** A queue with one more reader behind it, or in front of it. */
  function Behind(queue: seq<Reader>, r: Reader): seq<Reader> {
    if r.rest == [] then queue else queue + [r]
  }

  function Ahead(r: Reader, queue: seq<Reader>): seq<Reader> {
    if r.rest == [] then queue else [r] + queue
  }

  /** The first of two neighbours goes past the other one. */
  lemma GoesPast(front: seq<Reader>, a: Reader, b: Reader, back: seq<Reader>)
    requires a.rest == [] || (b.rest != [] && b.rest[0] < a.rest[0])
    ensures front + Enter(a, Ahead(b, back)) == Behind(front, b) + Enter(a, back)
  {
    Seqs.Assoc(front, [b], Enter(a, back));
  }

  /** The first of two neighbours has found its place. */
  lemma Stays(front: seq<Reader>, a: Reader, b: Reader, back: seq<Reader>)
    requires Enter(a, Ahead(b, back)) == Ahead(a, Ahead(b, back)) && Enter(b, back) == Ahead(b, back)
    ensures front + Enter(a, Ahead(b, back)) == Behind(front, a) + Enter(b, back)
  {
    Seqs.Assoc(front, [a], Enter(b, back));
  }

  /** All positions that are still to be read. */
  function Size(queue: seq<Reader>): nat {
    if queue == [] then 0 else |queue[0].rest| + Size(queue[1..])
  }

  lemma {:induction false} SizeEnter(r: Reader, queue: seq<Reader>)
    ensures Size(Enter(r, queue)) == |r.rest| + Size(queue)
  {
    if r.rest != [] && queue != [] && queue[0].rest != [] && r.rest[0] > queue[0].rest[0] {
      SizeEnter(r, queue[1..]);
    }
  }

  /** Strictly before, with the number of the list deciding ties. */
  ghost predicate Precedes(a: Reader, b: Reader) {
    a.rest != [] && b.rest != [] && (a.rest[0] < b.rest[0] || (a.rest[0] == b.rest[0] && a.list < b.list))
  }

  ghost predicate Lined(queue: seq<Reader>) {
    && (forall i :: 0 <= i < |queue| ==> queue[i].rest != [])
    && forall i, j :: 0 <= i < j < |queue| ==> Precedes(queue[i], queue[j])
  }

  lemma LinedTail(queue: seq<Reader>)
    requires Lined(queue) && queue != []
    ensures Lined(queue[1..]) && queue[0].rest != []
    ensures forall x :: x in queue <==> x == queue[0] || x in queue[1..]
    ensures forall x :: x in queue[1..] ==> Precedes(queue[0], x)
  {
    assert queue == [queue[0]] + queue[1..];
  }

  lemma LinedCons(x: Reader, queue: seq<Reader>)
    requires Lined(queue) && x.rest != [] && forall y :: y in queue ==> Precedes(x, y)
    ensures Lined([x] + queue)
    ensures forall y :: y in [x] + queue <==> y == x || y in queue
  {
  }

  /** A queue in order is known by its members. */
  lemma {:induction false} SameLine(a: seq<Reader>, b: seq<Reader>)
    requires Lined(a) && Lined(b) && forall x :: x in a <==> x in b
    ensures a == b
  {
    hide Lined;
    assert (a != [] ==> a[0] in a) && (b != [] ==> b[0] in b);
    if a != [] && b != [] {
      LinedTail(a);
      LinedTail(b);
      SameLine(a[1..], b[1..]);
    }
  }

  lemma {:induction false} EnterLined(r: Reader, queue: seq<Reader>)
    requires Lined(queue) && forall x :: x in queue ==> r.list < x.list
    ensures Lined(Enter(r, queue))
    ensures forall x :: x in Enter(r, queue) <==> x in queue || (x == r && r.rest != [])
  {
    hide Lined;
    if r.rest != [] && queue != [] {
      LinedTail(queue);
      assert queue[0] in queue;
      EnterLined(r, queue[1..]);
      if queue[0].rest == [] || r.rest[0] <= queue[0].rest[0] {
        LinedCons(r, queue);
      } else {
        LinedCons(queue[0], Enter(r, queue[1..]));
      }
    } else if r.rest != [] {
      LinedCons(r, queue);
    }
  }

  lemma {:induction false} LineIs(ps: seq<seq<int>>, from: nat)
    requires from <= |ps|
    ensures Lined(Line(ps, from))
    ensures forall x :: x in Line(ps, from) <==> from <= x.list < |ps| && x.rest == ps[x.list] && x.rest != []
    decreases |ps| - from
  {
    if from < |ps| {
      hide Lined;
      LineIs(ps, from + 1);
      EnterLined(Reader(from, ps[from]), Line(ps, from + 1));
    }
  }
}
