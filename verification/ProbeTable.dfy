/**
 * Open-addressing hash tables, as serialised by cdb and by CDB++: a key of hash `h` is looked
 * for from slot `Home(h, n)` on, cyclically, up to the first empty slot.
 */
module ProbeTable {
  import opened Bytes
  import opened Seqs

  /** A hash value with the position of its record; position 0 marks an empty slot. */
  datatype Slot = Slot(hval: u32, rpos: nat)

  const EMPTY := Slot(0, 0)

  function Home(h: u32, n: nat): (home: nat)
    requires 0 < n
    ensures home < n
  {
    h / 256 % n
  }

  /** The table as seen by a probe that starts at slot `a`. */
  function Rot(tab: seq<Slot>, a: nat): (view: seq<Slot>)
    requires a <= |tab|
    ensures |view| == |tab|
    decreases a
  {
    if a == 0 then tab else Rot(tab[1..] + [tab[0]], a - 1)
  }

  lemma {:induction false} RotSlices(tab: seq<Slot>, a: nat)
    requires a <= |tab|
    ensures Rot(tab, a) == tab[a..] + tab[..a]
    decreases a
  {
    if a > 0 {
      var tab' := tab[1..] + [tab[0]];
      RotSlices(tab', a - 1);
      assert tab'[a - 1..] == tab[a..] + [tab[0]];
      assert tab'[..a - 1] == tab[1..a];
      assert tab[..a] == [tab[0]] + tab[1..a];
    } else {
      assert tab[0..] + tab[..0] == tab;
    }
  }

  /** The slot reached `d` steps after slot `a`. */
  function Wrap(a: nat, d: nat, n: nat): (i: nat)
    requires a < n && d <= n
    ensures i < n
  {
    if a + d < n then a + d else a + d - n
  }

  /** What a probe passes before it meets an empty slot. */
  function Prefix(view: seq<Slot>): (run: seq<Slot>)
    ensures |run| <= |view|
    ensures run == view[..|run|]
    ensures |run| < |view| ==> view[|run|].rpos == 0
    ensures forall i :: 0 <= i < |run| ==> run[i].rpos != 0
  {
    if view == [] || view[0].rpos == 0 then [] else [view[0]] + Prefix(view[1..])
  }

  /** The slots in use, each as often as it occurs. */
  ghost function Bag(tab: seq<Slot>): multiset<Slot>
  {
    if tab == [] then multiset{}
    else (if tab[0].rpos == 0 then multiset{} else multiset{tab[0]}) + Bag(tab[1..])
  }

  lemma BagOne(s: Slot)
    requires s.rpos != 0
    ensures Bag([s]) == multiset{s}
  {
  }

  lemma {:induction false} BagConcat(a: seq<Slot>, b: seq<Slot>)
    ensures Bag(a + b) == Bag(a) + Bag(b)
  {
    if a == [] {
      assert a + b == b;
    } else {
      ConcatTail(a, b);
      BagConcat(a[1..], b);
    }
  }

  lemma {:induction false} BagFill(tab: seq<Slot>, j: nat, s: Slot)
    requires j < |tab| && tab[j].rpos == 0 && s.rpos != 0
    ensures Bag(tab[j := s]) == Bag(tab) + multiset{s}
  {
    if j == 0 {
      assert tab[j := s][1..] == tab[1..];
    } else {
      assert tab[j := s][1..] == tab[1..][j - 1 := s];
      BagFill(tab[1..], j - 1, s);
    }
  }

  function OwnOfHash(s: Slot, h: u32): seq<Slot> {
    if s.hval == h then [s] else []
  }

  /** The slots of hash `h`, in order. */
  function OfHash(slots: seq<Slot>, h: u32): seq<Slot>
  {
    if slots == [] then [] else OwnOfHash(slots[0], h) + OfHash(slots[1..], h)
  }

  function FreeAt(tab: seq<Slot>, home: nat): (i: nat)
    requires home < |tab|
    ensures i < |tab|
  {
    Wrap(home, |Prefix(Rot(tab, home))|, |tab|)
  }

  /** `tab` with `s` in the first empty slot from its home on. */
  function Place(tab: seq<Slot>, s: Slot): (tab': seq<Slot>)
    requires 0 < |tab|
    ensures |tab'| == |tab|
  {
    tab[FreeAt(tab, Home(s.hval, |tab|)) := s]
  }

  function NoSlots(n: nat): (tab: seq<Slot>)
    ensures |tab| == n
  {
    seq(n, _ => EMPTY)
  }

  /** The table of `n` slots into which the first `k` slots of `list` were placed, in order. */
  function Build(list: seq<Slot>, n: nat, k: nat): (tab: seq<Slot>)
    requires 0 < n && k <= |list|
    ensures |tab| == n
    decreases k
  {
    if k == 0 then NoSlots(n) else Place(Build(list, n, k - 1), list[k - 1])
  }

  /**
   * A probe for `h` passes exactly the listed slots of that hash, in list order, and no slot of
   * that hash lies behind the empty slot that stops the probe.
   */
  ghost predicate Finds(tab: seq<Slot>, list: seq<Slot>, h: u32)
    requires 0 < |tab|
  {
    FindsIn(Rot(tab, Home(h, |tab|)), list, h)
  }

  lemma {:induction false} OfHashConcat(a: seq<Slot>, b: seq<Slot>, h: u32)
    ensures OfHash(a + b, h) == OfHash(a, h) + OfHash(b, h)
  {
    if a == [] {
      assert a + b == b;
    } else {
      OfHashConcat(a[1..], b, h);
      ConcatTail(a, b);
      Assoc(OwnOfHash(a[0], h), OfHash(a[1..], h), OfHash(b, h));
    }
  }

  lemma {:induction false} OfHashNone(a: seq<Slot>, h: u32)
    requires forall i :: 0 <= i < |a| ==> a[i].hval != h
    ensures OfHash(a, h) == []
  {
    if a != [] {
      OfHashNone(a[1..], h);
    }
  }

  lemma BagRot(tab: seq<Slot>, a: nat)
    requires a <= |tab|
    ensures |Bag(Rot(tab, a))| == |Bag(tab)|
  {
    RotSlices(tab, a);
    BagConcat(tab[..a], tab[a..]);
    BagConcat(tab[a..], tab[..a]);
    assert tab[..a] + tab[a..] == tab;
  }

  lemma {:induction false} NotFull(view: seq<Slot>)
    requires |Bag(view)| < |view|
    ensures |Prefix(view)| < |view|
  {
    if view[0].rpos != 0 {
      NotFull(view[1..]);
    }
  }

  /** A table that is not full stops every probe. */
  lemma ProbeStops(tab: seq<Slot>, home: nat)
    requires home < |tab| && |Bag(tab)| < |tab|
    ensures |Prefix(Rot(tab, home))| < |tab|
    ensures tab[FreeAt(tab, home)].rpos == 0
  {
    BagRot(tab, home);
    NotFull(Rot(tab, home));
    RotSlices(tab, home);
  }

  /** The slot `d` steps behind the start is the next of the run, or ends it. */
  lemma RunAt(tab: seq<Slot>, home: nat, d: nat, run: seq<Slot>)
    requires home < |tab| && d < |tab| && run == Prefix(Rot(tab, home)) && d <= |run|
    ensures tab[Wrap(home, d, |tab|)].rpos != 0 ==>
              d < |run| && run[d..] == [tab[Wrap(home, d, |tab|)]] + run[d + 1..]
    ensures tab[Wrap(home, d, |tab|)].rpos == 0 ==> run[d..] == []
  {
    RotSlices(tab, home);
    PrefixAt(Rot(tab, home), d);
    hide *;
    RotAt(tab, home, d);
    DropOne(run, d);
  }

  lemma RotAt(tab: seq<Slot>, home: nat, d: nat)
    requires home < |tab| && d < |tab|
    ensures (tab[home..] + tab[..home])[d] == tab[Wrap(home, d, |tab|)]
  {
  }

  lemma DropOne(run: seq<Slot>, d: nat)
    requires d <= |run|
    ensures run[d..] == if d < |run| then [run[d]] + run[d + 1..] else []
  {
  }

  lemma {:induction false} PrefixAt(view: seq<Slot>, d: nat)
    requires d <= |Prefix(view)| && d < |view|
    ensures d < |Prefix(view)| <==> view[d].rpos != 0
    ensures d < |Prefix(view)| ==> Prefix(view)[d] == view[d]
    decreases |view|
  {
    if d > 0 {
      PrefixAt(view[1..], d - 1);
    }
  }

  /** Filling an empty slot `d` steps behind the start lengthens the run only if it stopped it. */
  lemma {:induction false} PrefixFill(view: seq<Slot>, d: nat, s: Slot)
    requires d < |view| && view[d].rpos == 0 && s.rpos != 0
    ensures |Prefix(view)| <= d
    ensures |Prefix(view)| == d ==> Prefix(view[d := s]) == Prefix(view) + ([s] + Prefix(view[d + 1..]))
    ensures |Prefix(view)| < d ==> Prefix(view[d := s]) == Prefix(view)
  {
    if view[0].rpos != 0 {
      PrefixFill(view[1..], d - 1, s);
      assert view[d := s][1..] == view[1..][d - 1 := s];
      assert view[1..][d..] == view[d + 1..];
      Assoc([view[0]], Prefix(view[1..]), [s] + Prefix(view[d + 1..]));
    } else if d == 0 {
      assert view[d := s][1..] == view[1..];
      assert Prefix(view[d := s]) == [] + ([s] + Prefix(view[1..]));
    }
  }

  /** `Finds`, for a probe that sees `view`. */
  ghost predicate FindsIn(view: seq<Slot>, list: seq<Slot>, h: u32) {
    && OfHash(Prefix(view), h) == OfHash(list, h)
    && forall i :: |Prefix(view)| <= i < |view| && view[i].hval == h ==> view[i].rpos == 0
  }

  /** Filling an empty slot keeps a probe right, if it is the one that stopped its own probe. */
  lemma FillFinds(view: seq<Slot>, list: seq<Slot>, d: nat, s: Slot, h: u32)
    requires d < |view| && view[d].rpos == 0 && s.rpos != 0
    requires FindsIn(view, list, h)
    requires s.hval == h ==> d == |Prefix(view)|
    ensures FindsIn(view[d := s], list + [s], h)
  {
    PrefixFill(view, d, s);
    OfHashConcat(list, [s], h);
    if |Prefix(view)| == d {
      LongerRun(view, list, d, s, h);
    }
  }

  lemma LongerRun(view: seq<Slot>, list: seq<Slot>, d: nat, s: Slot, h: u32)
    requires d < |view| && view[d].rpos == 0 && s.rpos != 0
    requires FindsIn(view, list, h) && d == |Prefix(view)|
    ensures OfHash(Prefix(view) + ([s] + Prefix(view[d + 1..])), h) == OfHash(list, h) + OfHash([s], h)
  {
    var run, rest := Prefix(view), Prefix(view[d + 1..]);
    RestOf(view, d, rest, h);
    OfHashConcat(run, [s] + rest, h);
    OfHashConcat([s], rest, h);
  }

  lemma RestOf(view: seq<Slot>, d: nat, rest: seq<Slot>, h: u32)
    requires d < |view| && rest == Prefix(view[d + 1..])
    requires forall i :: d <= i < |view| && view[i].hval == h ==> view[i].rpos == 0
    ensures OfHash(rest, h) == []
  {
    forall i | 0 <= i < |rest| ensures rest[i].hval != h {
      assert rest[i] == view[d + 1 + i] && rest[i].rpos != 0;
    }
    OfHashNone(rest, h);
  }

  /** Placing one more slot keeps every probe right, whatever hash it looks for. */
  lemma PlaceFinds(tab: seq<Slot>, list: seq<Slot>, s: Slot, h: u32)
    requires 0 < |tab| && |Bag(tab)| < |tab| && s.rpos != 0
    requires Finds(tab, list, h)
    ensures Finds(Place(tab, s), list + [s], h)
  {
    var n := |tab|;
    ProbeStops(tab, Home(s.hval, n));
    var j := FreeAt(tab, Home(s.hval, n));
    var a := Home(h, n);
    var d := if a <= j then j - a else j + n - a;
    RotUpdate(tab, a, j, d, s);
    FillFinds(Rot(tab, a), list, d, s, h);
  }

  lemma RotUpdate(tab: seq<Slot>, a: nat, j: nat, d: nat, s: Slot)
    requires a < |tab| && j < |tab| && d < |tab| && j == Wrap(a, d, |tab|)
    ensures Rot(tab[j := s], a) == Rot(tab, a)[d := s]
    ensures Rot(tab, a)[d] == tab[j]
  {
    RotSlices(tab, a);
    RotSlices(tab[j := s], a);
  }

  lemma EmptyTable(n: nat, h: u32)
    requires 0 < n
    ensures Finds(NoSlots(n), [], h)
    ensures Bag(NoSlots(n)) == multiset{}
  {
    EmptyBag(NoSlots(n));
    RotSlices(NoSlots(n), Home(h, n));
    assert Prefix(Rot(NoSlots(n), Home(h, n))) == [];
  }

  lemma {:induction false} EmptyBag(tab: seq<Slot>)
    requires forall i :: 0 <= i < |tab| ==> tab[i].rpos == 0
    ensures Bag(tab) == multiset{}
  {
    if tab != [] {
      EmptyBag(tab[1..]);
    }
  }

  lemma PlaceStores(tab: seq<Slot>, s: Slot)
    requires 0 < |tab| && |Bag(tab)| < |tab| && s.rpos != 0
    ensures Bag(Place(tab, s)) == Bag(tab) + multiset{s}
    ensures |Bag(Place(tab, s))| == |Bag(tab)| + 1
  {
    var home := Home(s.hval, |tab|);
    ProbeStops(tab, home);
    BagFill(tab, FreeAt(tab, home), s);
  }

  ghost predicate Occupied(list: seq<Slot>) {
    forall i :: 0 <= i < |list| ==> list[i].rpos != 0
  }

  lemma {:induction false} BuildCounts(list: seq<Slot>, n: nat, k: nat)
    requires k <= |list| < n && Occupied(list)
    ensures |Bag(Build(list, n, k))| == k
    decreases k
  {
    if k == 0 {
      EmptyTable(n, 0);
    } else {
      BuildCounts(list, n, k - 1);
      PlaceStores(Build(list, n, k - 1), list[k - 1]);
    }
  }

  lemma {:induction false} BuildBag(list: seq<Slot>, n: nat, k: nat)
    requires k <= |list| < n && Occupied(list)
    ensures Bag(Build(list, n, k)) == Bag(list[..k])
    decreases k
  {
    hide Place, Bag;
    if k == 0 {
      EmptyTable(n, 0);
      EmptyBag(list[..0]);
    } else {
      BuildBag(list, n, k - 1);
      BuildCounts(list, n, k - 1);
      PlaceStores(Build(list, n, k - 1), list[k - 1]);
      assert list[..k] == list[..k - 1] + [list[k - 1]];
      BagConcat(list[..k - 1], [list[k - 1]]);
      BagOne(list[k - 1]);
    }
  }

  /** A probe meets the slots of its hash, in insertion order, before any empty slot. */
  lemma {:induction false} BuildFinds(list: seq<Slot>, n: nat, k: nat, h: u32)
    requires k <= |list| < n && Occupied(list)
    ensures Finds(Build(list, n, k), list[..k], h)
    decreases k
  {
    hide Place, Finds;
    if k == 0 {
      EmptyTable(n, h);
      assert list[..0] == [];
    } else {
      BuildFinds(list, n, k - 1, h);
      BuildCounts(list, n, k - 1);
      PlaceFinds(Build(list, n, k - 1), list[..k - 1], list[k - 1], h);
      assert list[..k] == list[..k - 1] + [list[k - 1]];
    }
  }

  /** The slot `d` steps behind the home of hash `h`, cyclically. */
  function Reached(h: u32, d: nat, n: nat): (i: nat)
    requires 0 < n
    ensures i < n
  {
    (h / 256 % n + d) % n
  }

  lemma ReachedIs(h: u32, d: nat, n: nat)
    requires d < n
    ensures Reached(h, d, n) == Wrap(Home(h, n), d, n)
  {
    OneTurn(Home(h, n), d, n);
  }

  lemma OneTurn(a: nat, d: nat, n: nat)
    requires a < n && d < n
    ensures (a + d) % n == if a + d < n then a + d else a + d - n
  {
    if a + d < n {
      Quotient(a + d, 0, n);
    } else {
      Quotient(a + d, 1, n);
    }
  }

  lemma Quotient(x: nat, q: nat, n: nat)
    requires q <= 1 && q * n <= x < (q + 1) * n
    ensures x % n == x - q * n
  {
  }

  /** Each listed slot is in the table, and none between its home and it is empty. */
  lemma PlacedAt(list: seq<Slot>, n: nat, i: nat) returns (d: nat)
    requires i < |list| < n && Occupied(list)
    ensures d < n && Build(list, n, |list|)[Reached(list[i].hval, d, n)] == list[i]
    ensures forall c :: 0 <= c < d ==> Build(list, n, |list|)[Reached(list[i].hval, c, n)].rpos != 0
  {
    hide Build, Prefix, Rot, Occupied, Reached, OfHash;
    var h, tab := list[i].hval, Build(list, n, |list|);
    var home := Home(h, n);
    var run := Prefix(Rot(tab, home));
    BuildFinds(list, n, |list|, h);
    assert list[..|list|] == list;
    OfHashHas(list, i);
    d := HasOfHash(run, h, list[i]);
    forall c | 0 <= c <= d ensures tab[Reached(h, c, n)] == run[c] {
      RunHas(tab, home, c);
      ReachedIs(h, c, n);
    }
  }

  lemma RunHas(tab: seq<Slot>, home: nat, c: nat)
    requires home < |tab| && c < |Prefix(Rot(tab, home))|
    ensures Prefix(Rot(tab, home))[c] == tab[Wrap(home, c, |tab|)]
  {
    RotSlices(tab, home);
    PrefixAt(Rot(tab, home), c);
    hide *;
    RotAt(tab, home, c);
  }

  lemma {:induction false} OfHashHas(list: seq<Slot>, i: nat)
    requires i < |list|
    ensures list[i] in OfHash(list, list[i].hval)
  {
    if i > 0 {
      OfHashHas(list[1..], i - 1);
    }
  }

  lemma {:induction false} HasOfHash(run: seq<Slot>, h: u32, s: Slot) returns (d: nat)
    requires s in OfHash(run, h)
    ensures d < |run| && run[d] == s
  {
    if s == run[0] {
      d := 0;
    } else {
      d := HasOfHash(run[1..], h, s);
      d := d + 1;
    }
  }

  /** A slot that stays empty is zero. */
  lemma {:induction false} StaysZero(list: seq<Slot>, n: nat, k: nat, j: nat)
    requires k <= |list| && j < n && Occupied(list) && Build(list, n, k)[j].rpos == 0
    ensures Build(list, n, k)[j] == Slot(0, 0)
    decreases k
  {
    hide FreeAt;
    if k > 0 {
      StaysZero(list, n, k - 1, j);
    }
  }
}
