/** The merge of two tag lists by hand, `+=`. */
module TwoFiles {
  import opened Seqs
  import opened SemiXml
  import opened Merging

  /** AIsLessThanB: by begin, then the longer one first, then by the tag order. */
  predicate Less(tagOrder: seq<string>, a: Tag, b: Tag) {
    if a.begin < b.begin then true
    else if a.begin > b.begin then false
    else if a.end > b.end then true
    else if a.end < b.end then false
    else FindOrder(tagOrder, a.name) < FindOrder(tagOrder, b.name)
  }

  /** 1 when a comes first, -1 when b does. */
  function Compare3way(tagOrder: seq<string>, a: string, b: string): int {
    if FindOrder(tagOrder, a) < FindOrder(tagOrder, b) then 1
    else if FindOrder(tagOrder, a) > FindOrder(tagOrder, b) then -1
    else 0
  }

  lemma WeakOrder(tagOrder: seq<string>, a: Tag, b: Tag, c: Tag)
    ensures Less(tagOrder, a, b) ==> !Less(tagOrder, b, a)
    ensures Less(tagOrder, a, b) && !Less(tagOrder, c, b) ==> Less(tagOrder, a, c)
    ensures !Less(tagOrder, b, a) && !Less(tagOrder, c, b) ==> !Less(tagOrder, c, a)
  {
  }

  ghost predicate Sorted(tagOrder: seq<string>, tags: seq<Tag>) {
    forall i, j :: 0 <= i < j < |tags| ==> !Less(tagOrder, tags[j], tags[i])
  }

  /** How many tags of file 1 are passed in front of a tag of file 2: those that begin before it … */
  function PassBefore(self: seq<Tag>, t: Tag): (n: nat)
    ensures n <= |self|
  {
    if self == [] || self[0].begin >= t.begin then 0 else 1 + PassBefore(self[1..], t)
  }

  /** … and then those that begin with it and are less. */
  function PassSame(tagOrder: seq<string>, self: seq<Tag>, t: Tag): (n: nat)
    ensures n <= |self|
  {
    if self == [] || self[0].begin != t.begin || !Less(tagOrder, self[0], t) then 0
    else 1 + PassSame(tagOrder, self[1..], t)
  }

  function Passed(tagOrder: seq<string>, self: seq<Tag>, t: Tag): (n: nat)
    ensures n <= |self|
  {
    var n := PassBefore(self, t);
    n + PassSame(tagOrder, self[n..], t)
  }

  /** The merged list; file 1 is the left operand. */
  function MergeTwo(tagOrder: seq<string>, self: seq<Tag>, other: seq<Tag>): seq<Tag>
    decreases |other|
  {
    if other == [] then self
    else
      var n := Passed(tagOrder, self, other[0]);
      self[..n] + ([other[0]] + MergeTwo(tagOrder, self[n..], other[1..]))
  }

  /** Which file the tags of the merged list come from. */
  function Origins(tagOrder: seq<string>, self: seq<Tag>, other: seq<Tag>): (o: seq<nat>)
    ensures |o| == |MergeTwo(tagOrder, self, other)|
    decreases |other|
  {
    if other == [] then Repeat(1, |self|)
    else
      var n := Passed(tagOrder, self, other[0]);
      Repeat(1, n) + ([2] + Origins(tagOrder, self[n..], other[1..]))
  }

  function Repeat(x: nat, n: nat): (s: seq<nat>)
    ensures |s| == n && forall i :: 0 <= i < n ==> s[i] == x
  {
    seq(n, i => x)
  }

  /** The tags of a list that come from file `f`. */
  ghost function From(tags: seq<Tag>, origins: seq<nat>, f: nat): seq<Tag>
    requires |tags| == |origins|
  {
    if tags == [] then []
    else (if origins[0] == f then [tags[0]] else []) + From(tags[1..], origins[1..], f)
  }

  lemma {:induction false} FromConcat(a: seq<Tag>, oa: seq<nat>, b: seq<Tag>, ob: seq<nat>, f: nat)
    requires |a| == |oa| && |b| == |ob|
    ensures From(a + b, oa + ob, f) == From(a, oa, f) + From(b, ob, f)
  {
    if a == [] {
      assert a + b == b && oa + ob == ob;
    } else {
      FromConcat(a[1..], oa[1..], b, ob, f);
      ConcatTail(a, b);
      ConcatTail(oa, ob);
      var one := if oa[0] == f then [a[0]] else [];
      Assoc(one, From(a[1..], oa[1..], f), From(b, ob, f));
    }
  }

  lemma {:induction false} FromAll(a: seq<Tag>, oa: seq<nat>, x: nat, f: nat)
    requires |a| == |oa| && forall i :: 0 <= i < |oa| ==> oa[i] == x
    ensures From(a, oa, f) == if x == f then a else []
  {
    if a != [] {
      FromAll(a[1..], oa[1..], x, f);
      assert a == [a[0]] + a[1..];
    }
  }

  /** No tag is lost or made up, and each file keeps its order. */
  lemma {:induction false} MergeKeeps(tagOrder: seq<string>, self: seq<Tag>, other: seq<Tag>)
    ensures var r, o := MergeTwo(tagOrder, self, other), Origins(tagOrder, self, other);
      From(r, o, 1) == self && From(r, o, 2) == other && forall i :: 0 <= i < |o| ==> o[i] == 1 || o[i] == 2
    decreases |other|
  {
    hide Passed, From;
    if other == [] {
      FromAll(self, Repeat(1, |self|), 1, 1);
      FromAll(self, Repeat(1, |self|), 1, 2);
    } else {
      var n := Passed(tagOrder, self, other[0]);
      MergeKeeps(tagOrder, self[n..], other[1..]);
      var r, o := MergeTwo(tagOrder, self[n..], other[1..]), Origins(tagOrder, self[n..], other[1..]);
      forall f | f == 1 || f == 2
        ensures From(self[..n] + ([other[0]] + r), Repeat(1, n) + ([2] + o), f)
             == (if f == 1 then self[..n] else [other[0]]) + From(r, o, f)
      {
        FromConcat(self[..n], Repeat(1, n), [other[0]] + r, [2] + o, f);
        FromConcat([other[0]], [2], r, o, f);
        FromAll(self[..n], Repeat(1, n), 1, f);
        FromAll([other[0]], [2], 2, f);
      }
      assert self[..n] + self[n..] == self && [other[0]] + other[1..] == other;
    }
  }

  /** What may stand in front of what: on ties the tag from file 2 comes first. */
  ghost predicate Goes(tagOrder: seq<string>, a: Tag, oa: nat, b: Tag, ob: nat) {
    if oa == 1 && ob == 2 then Less(tagOrder, a, b) else !Less(tagOrder, b, a)
  }

  ghost predicate WellMerged(tagOrder: seq<string>, r: seq<Tag>, o: seq<nat>)
    requires |r| == |o|
  {
    forall i, j :: 0 <= i < j < |r| ==> Goes(tagOrder, r[i], o[i], r[j], o[j])
  }

  lemma {:induction false} PassBeforeIs(self: seq<Tag>, t: Tag)
    ensures forall i :: 0 <= i < PassBefore(self, t) ==> self[i].begin < t.begin
    ensures PassBefore(self, t) < |self| ==> self[PassBefore(self, t)].begin >= t.begin
  {
    if self != [] && self[0].begin < t.begin {
      PassBeforeIs(self[1..], t);
    }
  }

  lemma {:induction false} PassSameIs(tagOrder: seq<string>, self: seq<Tag>, t: Tag)
    ensures forall i :: 0 <= i < PassSame(tagOrder, self, t) ==> Less(tagOrder, self[i], t)
    ensures var n := PassSame(tagOrder, self, t);
      n < |self| ==> self[n].begin != t.begin || !Less(tagOrder, self[n], t)
  {
    hide Less;
    if self != [] && self[0].begin == t.begin && Less(tagOrder, self[0], t) {
      PassSameIs(tagOrder, self[1..], t);
    }
  }

  /** On a sorted list, what is passed is less, and what is left is not. */
  lemma PassedIs(tagOrder: seq<string>, self: seq<Tag>, t: Tag)
    requires Sorted(tagOrder, self)
    ensures var n := Passed(tagOrder, self, t);
      && (forall i :: 0 <= i < n ==> Less(tagOrder, self[i], t))
      && (forall i :: n <= i < |self| ==> !Less(tagOrder, self[i], t))
  {
    hide FindOrder;
    var b, n := PassBefore(self, t), Passed(tagOrder, self, t);
    PassBeforeIs(self, t);
    PassSameIs(tagOrder, self[b..], t);
    forall i | 0 <= i < n ensures Less(tagOrder, self[i], t) {
      if i >= b {
        assert self[i] == self[b..][i - b];
      }
    }
    if n < |self| {
      assert self[n] == self[b..][n - b];
      hide *;
      LeftBehind(tagOrder, self, t, n);
    }
  }

  /** On a sorted list, nothing behind a tag that is not less is less. */
  lemma LeftBehind(tagOrder: seq<string>, self: seq<Tag>, t: Tag, n: nat)
    requires Sorted(tagOrder, self) && n < |self| && !Less(tagOrder, self[n], t)
    ensures forall i :: n <= i < |self| ==> !Less(tagOrder, self[i], t)
  {
    hide FindOrder;
    forall i | n <= i < |self| ensures !Less(tagOrder, self[i], t) {
      assert !Less(tagOrder, self[i], self[n]) || i == n;
    }
  }

  ghost predicate FromFiles(r: seq<Tag>, o: seq<nat>, self: seq<Tag>, other: seq<Tag>)
    requires |r| == |o|
  {
    forall i :: 0 <= i < |r| ==> (o[i] == 1 && r[i] in self) || (o[i] == 2 && r[i] in other)
  }

  lemma {:induction false} MergeFromFiles(tagOrder: seq<string>, self: seq<Tag>, other: seq<Tag>)
    ensures FromFiles(MergeTwo(tagOrder, self, other), Origins(tagOrder, self, other), self, other)
    decreases |other|
  {
    hide Passed;
    if other != [] {
      var n := Passed(tagOrder, self, other[0]);
      MergeFromFiles(tagOrder, self[n..], other[1..]);
      FilesPrefixed(self, other, n, MergeTwo(tagOrder, self[n..], other[1..]),
                    Origins(tagOrder, self[n..], other[1..]));
    }
  }

  lemma FilesPrefixed(self: seq<Tag>, other: seq<Tag>, n: nat, r: seq<Tag>, o: seq<nat>)
    requires other != [] && n <= |self| && |r| == |o| && FromFiles(r, o, self[n..], other[1..])
    ensures FromFiles(self[..n] + ([other[0]] + r), Repeat(1, n) + ([2] + o), self, other)
  {
    var all, origins := self[..n] + ([other[0]] + r), Repeat(1, n) + ([2] + o);
    forall i | 0 <= i < |all|
      ensures (origins[i] == 1 && all[i] in self) || (origins[i] == 2 && all[i] in other)
    {
      if i < n {
        assert all[i] == self[i];
      } else if i > n {
        assert all[i] == r[i - n - 1] && origins[i] == o[i - n - 1];
        assert forall x :: x in self[n..] ==> x in self;
        assert forall x :: x in other[1..] ==> x in other;
      }
    }
  }

  /** The order of the tags in their fields. */
  ghost predicate InFront(tagOrder: seq<string>, a: Tag, b: Tag) {
    || a.begin < b.begin
    || (a.begin == b.begin && a.end > b.end)
    || (a.begin == b.begin && a.end == b.end && FindOrder(tagOrder, a.name) < FindOrder(tagOrder, b.name))
  }

  lemma LessIs(tagOrder: seq<string>, a: Tag, b: Tag)
    ensures Less(tagOrder, a, b) <==> InFront(tagOrder, a, b)
  {
  }

  /** Two sorted lists make a sorted one, with the tag of file 2 first on ties. */
  lemma MergeSorted(tagOrder: seq<string>, self: seq<Tag>, other: seq<Tag>)
    requires forall i, j :: 0 <= i < j < |self| ==> !InFront(tagOrder, self[j], self[i])
    requires forall i, j :: 0 <= i < j < |other| ==> !InFront(tagOrder, other[j], other[i])
    ensures var r, o := MergeTwo(tagOrder, self, other), Origins(tagOrder, self, other);
      forall i, j :: 0 <= i < j < |r| ==>
        if o[i] == 1 && o[j] == 2 then InFront(tagOrder, r[i], r[j]) else !InFront(tagOrder, r[j], r[i])
  {
    hide *;
    SortedIs(tagOrder, self);
    SortedIs(tagOrder, other);
    MergeWell(tagOrder, self, other);
    WellMergedIs(tagOrder, MergeTwo(tagOrder, self, other), Origins(tagOrder, self, other));
  }

  lemma SortedIs(tagOrder: seq<string>, tags: seq<Tag>)
    requires forall i, j :: 0 <= i < j < |tags| ==> !InFront(tagOrder, tags[j], tags[i])
    ensures Sorted(tagOrder, tags)
  {
    hide Less, InFront;
    forall i, j | 0 <= i < j < |tags| ensures !Less(tagOrder, tags[j], tags[i]) {
      LessIs(tagOrder, tags[j], tags[i]);
    }
  }

  lemma WellMergedIs(tagOrder: seq<string>, r: seq<Tag>, o: seq<nat>)
    requires |r| == |o| && WellMerged(tagOrder, r, o)
    ensures forall i, j :: 0 <= i < j < |r| ==>
              if o[i] == 1 && o[j] == 2 then InFront(tagOrder, r[i], r[j]) else !InFront(tagOrder, r[j], r[i])
  {
    hide Less, InFront;
    forall i, j | 0 <= i < j < |r|
      ensures if o[i] == 1 && o[j] == 2 then InFront(tagOrder, r[i], r[j]) else !InFront(tagOrder, r[j], r[i])
    {
      LessIs(tagOrder, r[i], r[j]);
      LessIs(tagOrder, r[j], r[i]);
      assert Goes(tagOrder, r[i], o[i], r[j], o[j]);
    }
  }

  lemma {:induction false} MergeWell(tagOrder: seq<string>, self: seq<Tag>, other: seq<Tag>)
    requires Sorted(tagOrder, self) && Sorted(tagOrder, other)
    ensures WellMerged(tagOrder, MergeTwo(tagOrder, self, other), Origins(tagOrder, self, other))
    decreases |other|
  {
    hide Passed, Less;
    if other != [] {
      var n := Passed(tagOrder, self, other[0]);
      PassedIs(tagOrder, self, other[0]);
      MergeWell(tagOrder, self[n..], other[1..]);
      MergeFromFiles(tagOrder, self[n..], other[1..]);
      Prefixed(tagOrder, self, other, n, MergeTwo(tagOrder, self[n..], other[1..]),
               Origins(tagOrder, self[n..], other[1..]));
    }
  }

  lemma Prefixed(tagOrder: seq<string>, self: seq<Tag>, other: seq<Tag>, n: nat, r: seq<Tag>, o: seq<nat>)
    requires Sorted(tagOrder, self) && Sorted(tagOrder, other) && other != [] && n <= |self| && |r| == |o|
    requires forall i :: 0 <= i < n ==> Less(tagOrder, self[i], other[0])
    requires forall i :: n <= i < |self| ==> !Less(tagOrder, self[i], other[0])
    requires WellMerged(tagOrder, r, o) && FromFiles(r, o, self[n..], other[1..])
    ensures WellMerged(tagOrder, self[..n] + ([other[0]] + r), Repeat(1, n) + ([2] + o))
  {
    hide Less;
    var all, origins, t := self[..n] + ([other[0]] + r), Repeat(1, n) + ([2] + o), other[0];
    forall i, j | 0 <= i < j < |all| ensures Goes(tagOrder, all[i], origins[i], all[j], origins[j]) {
      if i > n {
        assert Goes(tagOrder, r[i - n - 1], o[i - n - 1], r[j - n - 1], o[j - n - 1]);
      } else if j > n {
        NotBefore(tagOrder, self, other, n, r, o, j - n - 1);
        if i < n {
          WeakOrder(tagOrder, self[i], t, r[j - n - 1]);
          WeakOrder(tagOrder, self[i], r[j - n - 1], t);
        }
      } else if j == n {
        WeakOrder(tagOrder, self[i], t, t);
      }
    }
  }

  /** Nothing in the rest is less than the tag of file 2 in front of it. */
  lemma NotBefore(tagOrder: seq<string>, self: seq<Tag>, other: seq<Tag>, n: nat, r: seq<Tag>, o: seq<nat>, k: nat)
    requires Sorted(tagOrder, other) && other != [] && n <= |self| && |r| == |o| && k < |r|
    requires forall i :: n <= i < |self| ==> !Less(tagOrder, self[i], other[0])
    requires FromFiles(r, o, self[n..], other[1..])
    ensures !Less(tagOrder, r[k], other[0])
  {
    hide Less;
    if o[k] == 1 {
      var i :| 0 <= i < |self[n..]| && self[n..][i] == r[k];
      assert self[n + i] == r[k];
    } else {
      var i :| 0 <= i < |other[1..]| && other[1..][i] == r[k];
      assert other[i + 1] == r[k];
    }
  }

  /** The two inner loops: the tags of file 1 that go in front of a tag of file 2. */
  method Pass(tagOrder: seq<string>, self: seq<Tag>, from: nat, t: Tag, before: seq<Tag>)
    returns (tmp: seq<Tag>, to: nat)
    requires from <= |self|
    ensures from <= to <= |self| && to - from == Passed(tagOrder, self[from..], t)
    ensures tmp == before + self[from..to]
  {
    hide Less, Compare3way, Passed, Sofar, GoneBy, GoneOn;
    tmp, to := before, from;
    NoneGone(tagOrder, self, from, t, before);
    while to < |self| && self[to].begin < t.begin
      invariant from <= to <= |self| && Sofar(tmp, before, self, from, to) && GoneBy(self, from, to, t)
    {
      BeforeGone(self, from, to, t);
      OneMore(tmp, before, self, from, to);
      tmp := tmp + [self[to]];
      to := to + 1;
    }
    ghost var mid := to;
    NoneGone(tagOrder, self, mid, t, []);
    while to < |self| && self[to].begin == t.begin
      invariant mid <= to <= |self| && Sofar(tmp, before, self, from, to) && GoneOn(tagOrder, self, mid, to, t)
    {
      SameGone(tagOrder, self, mid, to, t);
      OneMore(tmp, before, self, from, to);
      if self[to].end > t.end {
        tmp := tmp + [self[to]];
        to := to + 1;
      } else if self[to].end == t.end {
        if Compare3way(tagOrder, t.name, self[to].name) >= 0 {
          break;
        }
        tmp := tmp + [self[to]];
        to := to + 1;
      } else {
        break;
      }
    }
    AllGone(tagOrder, self, from, mid, to, t);
    SofarIs(tmp, before, self, from, to);
  }

  /** operator+=, on the tags of the left operand. */
  method MergeLists(tagOrder: seq<string>, self: seq<Tag>, data: seq<Tag>) returns (tmp: seq<Tag>)
    ensures tmp == MergeTwo(tagOrder, self, data)
  {
    hide MergeTwo, Passed;
    tmp := [];
    var iter2 := 0;
    assert self[0..] == self && data[0..] == data;
    for iter := 0 to |data|
      invariant iter2 <= |self|
      invariant tmp + MergeTwo(tagOrder, self[iter2..], data[iter..]) == MergeTwo(tagOrder, self, data)
    {
      ghost var from, before := iter2, tmp;
      tmp, iter2 := Pass(tagOrder, self, iter2, data[iter], tmp);
      MergeOne(tagOrder, self, data, from, iter2, iter, before);
      tmp := tmp + [data[iter]];
    }
    MergeNone(tagOrder, self[iter2..], data[|data|..]);
    tmp := tmp + self[iter2..];
  }

  /** What was copied when the tags from `from` up to `to` were passed. */
  ghost predicate Sofar(tmp: seq<Tag>, before: seq<Tag>, self: seq<Tag>, from: nat, to: nat) {
    from <= to <= |self| && tmp == before + self[from..to]
  }

  lemma OneMore(tmp: seq<Tag>, before: seq<Tag>, self: seq<Tag>, from: nat, to: nat)
    requires Sofar(tmp, before, self, from, to) && to < |self|
    ensures Sofar(tmp + [self[to]], before, self, from, to + 1)
  {
    assert self[from..to] + [self[to]] == self[from..to + 1];
  }

  lemma SofarIs(tmp: seq<Tag>, before: seq<Tag>, self: seq<Tag>, from: nat, to: nat)
    requires Sofar(tmp, before, self, from, to)
    ensures tmp == before + self[from..to]
  {
  }

  /** The tags from `from` up to `to` begin before `t`; the first loop is to pass more of them. */
  ghost predicate GoneBy(self: seq<Tag>, from: nat, to: nat, t: Tag) {
    from <= to <= |self| && PassBefore(self[from..], t) == to - from + PassBefore(self[to..], t)
  }

  /** Likewise for the second loop, and the tags that begin with `t`. */
  ghost predicate GoneOn(tagOrder: seq<string>, self: seq<Tag>, mid: nat, to: nat, t: Tag) {
    mid <= to <= |self| && PassSame(tagOrder, self[mid..], t) == to - mid + PassSame(tagOrder, self[to..], t)
  }

  lemma NoneGone(tagOrder: seq<string>, self: seq<Tag>, from: nat, t: Tag, before: seq<Tag>)
    requires from <= |self|
    ensures GoneBy(self, from, from, t) && GoneOn(tagOrder, self, from, from, t)
    ensures Sofar(before, before, self, from, from)
  {
    assert before + self[from..from] == before;
  }

  lemma BeforeGone(self: seq<Tag>, from: nat, to: nat, t: Tag)
    requires GoneBy(self, from, to, t) && to < |self| && self[to].begin < t.begin
    ensures GoneBy(self, from, to + 1, t)
  {
    assert self[to..][1..] == self[to + 1..];
  }

  /** The branches of the second loop decide by Less. */
  lemma SameGone(tagOrder: seq<string>, self: seq<Tag>, mid: nat, to: nat, t: Tag)
    requires GoneOn(tagOrder, self, mid, to, t) && to < |self| && self[to].begin == t.begin
    ensures Less(tagOrder, self[to], t) <==>
              self[to].end > t.end || (self[to].end == t.end && Compare3way(tagOrder, t.name, self[to].name) < 0)
    ensures Less(tagOrder, self[to], t) ==> GoneOn(tagOrder, self, mid, to + 1, t)
  {
    assert self[to..][1..] == self[to + 1..];
  }

  /** Both loops together pass what stands in front of `t`. */
  lemma AllGone(tagOrder: seq<string>, self: seq<Tag>, from: nat, mid: nat, to: nat, t: Tag)
    requires GoneBy(self, from, mid, t) && (mid < |self| ==> self[mid].begin >= t.begin)
    requires GoneOn(tagOrder, self, mid, to, t)
    requires to < |self| && self[to].begin == t.begin ==> !Less(tagOrder, self[to], t)
    ensures Passed(tagOrder, self[from..], t) == to - from
  {
    hide Less;
    assert PassBefore(self[mid..], t) == 0 && PassSame(tagOrder, self[to..], t) == 0;
    PassedAt(tagOrder, self, from, mid, to, t);
  }

  lemma PassedAt(tagOrder: seq<string>, self: seq<Tag>, from: nat, mid: nat, to: nat, t: Tag)
    requires from <= mid <= to <= |self|
    requires PassBefore(self[from..], t) == mid - from && PassSame(tagOrder, self[mid..], t) == to - mid
    ensures Passed(tagOrder, self[from..], t) == to - from
  {
    assert self[from..][mid - from..] == self[mid..];
  }

  lemma MergeOne(tagOrder: seq<string>, self: seq<Tag>, data: seq<Tag>, from: nat, to: nat, iter: nat, before: seq<Tag>)
    requires from <= to <= |self| && iter < |data| && Passed(tagOrder, self[from..], data[iter]) == to - from
    ensures before + MergeTwo(tagOrder, self[from..], data[iter..])
         == before + self[from..to] + [data[iter]] + MergeTwo(tagOrder, self[to..], data[iter + 1..])
  {
    hide Passed;
    assert self[from..][..to - from] == self[from..to] && self[from..][to - from..] == self[to..];
    assert data[iter..][0] == data[iter] && data[iter..][1..] == data[iter + 1..];
  }

  lemma MergeNone(tagOrder: seq<string>, self: seq<Tag>, none: seq<Tag>)
    requires none == []
    ensures MergeTwo(tagOrder, self, none) == self
  {
  }
}
