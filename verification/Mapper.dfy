/** The map from offsets of a clipped text back to offsets of the original. */
module Mapper {
  import opened SemiXml

  datatype Span = Span(first: nat, second: nat)

  /** Region `r` of the original, range[r], stands at domain[r] in the clipped text. */
  datatype Maps = Maps(domain: seq<Span>, range: seq<Span>)

  predicate Contains(s: Span, n: nat) {
    s.first <= n <= s.second
  }

  function DoMapping(domain: Span, range: Span, n: nat): nat
    requires Contains(domain, n)
  {
    range.first + (n - domain.first)
  }

  /** setClippingSpan: a new region, a region that grows, or nothing. */
  function SetSpan(m: Maps, s: Span): (r: Result<Maps>)
    requires |m.domain| == |m.range| && s.first <= s.second
    ensures r.Ok? ==> |r.value.domain| == |r.value.range|
  {
    if m.domain == [] then Ok(Maps([Span(0, s.second - s.first)], [s]))
    else
      var d, r := m.domain[|m.domain| - 1], m.range[|m.range| - 1];
      if r.second < s.first then
        Ok(Maps(m.domain + [Span(d.second + 1, d.second + 1 + (s.second - s.first))], m.range + [s]))
      else if r.second < s.second then
        if s.first < r.first then Error
        else
          Ok(Maps(m.domain[|m.domain| - 1 := Span(d.first, d.second + (s.second - r.second))],
                  m.range[|m.range| - 1 := Span(r.first, r.second + (s.second - r.second))]))
      else Ok(m)
  }

  /** Regions of the same length on both sides: touching but for one offset, and apart in the original. */
  ghost predicate IsMap(m: Maps) {
    && |m.domain| == |m.range|
    && (m.domain != [] ==> m.domain[0].first == 0)
    && (forall r :: 0 <= r < |m.domain| ==> SameLength(m.domain[r], m.range[r]))
    && (forall r :: 0 < r < |m.domain| ==> Apart(m.domain[r - 1], m.domain[r], m.range[r - 1], m.range[r]))
  }

  ghost predicate SameLength(d: Span, r: Span) {
    d.first <= d.second && r.first <= r.second && d.second - d.first == r.second - r.first
  }

  ghost predicate Apart(d: Span, d': Span, r: Span, r': Span) {
    d'.first == d.second + 1 && r.second < r'.first
  }

  lemma SetSpanIsMap(m: Maps, s: Span)
    requires IsMap(m) && s.first <= s.second && SetSpan(m, s).Ok?
    ensures IsMap(SetSpan(m, s).value)
  {
  }

  /** The regions are in order on both sides. */
  lemma {:induction false} RegionsOrdered(m: Maps, a: nat, b: nat)
    requires IsMap(m) && a < b < |m.domain|
    ensures m.domain[a].second < m.domain[b].first && m.range[a].second < m.range[b].first
    decreases b
  {
    assert Apart(m.domain[b - 1], m.domain[b], m.range[b - 1], m.range[b]);
    if a < b - 1 {
      RegionsOrdered(m, a, b - 1);
      assert SameLength(m.domain[b - 1], m.range[b - 1]);
    }
  }

  /** The last offset that can be mapped. */
  function Limit(m: Maps): nat
    requires m.domain != []
  {
    m.domain[|m.domain| - 1].second
  }

  ghost predicate InDomain(m: Maps, n: nat) {
    m.domain != [] && n <= Limit(m)
  }

  /** The region from `r` on whose end is not before `n`. */
  ghost function RegionFrom(m: Maps, n: nat, r: nat): (r': nat)
    requires IsMap(m) && r < |m.domain| && n <= Limit(m)
    ensures r <= r' < |m.domain| && n <= m.domain[r'].second
    ensures forall j :: r <= j < r' ==> m.domain[j].second < n
    decreases |m.domain| - r
  {
    if n <= m.domain[r].second then r else RegionFrom(m, n, r + 1)
  }

  ghost function RegionOf(m: Maps, n: nat): (r: nat)
    requires IsMap(m) && InDomain(m, n)
    ensures r < |m.domain| && Contains(m.domain[r], n)
  {
    var r := RegionFrom(m, n, 0);
    assert r > 0 ==> Apart(m.domain[r - 1], m.domain[r], m.range[r - 1], m.range[r]);
    r
  }

  /** Every offset lies in exactly one region. */
  lemma OneRegion(m: Maps, n: nat, r: nat)
    requires IsMap(m) && r < |m.domain|
    ensures Contains(m.domain[r], n) <==> InDomain(m, n) && r == RegionOf(m, n)
  {
    if r < |m.domain| - 1 {
      RegionsOrdered(m, r, |m.domain| - 1);
    }
    assert forall j :: 0 <= j < |m.domain| ==> SameLength(m.domain[j], m.range[j]);
    if InDomain(m, n) {
      var q := RegionOf(m, n);
      if r < q {
        RegionsOrdered(m, r, q);
      } else if q < r {
        RegionsOrdered(m, q, r);
      }
    }
  }

  /** Where an offset of the clipped text comes from. */
  ghost function PosMap(m: Maps, n: nat): nat
    requires IsMap(m) && InDomain(m, n)
  {
    DoMapping(m.domain[RegionOf(m, n)], m.range[RegionOf(m, n)], n)
  }

  /** The map is strictly increasing, so tags that were sorted stay sorted. */
  lemma PosMapIncreases(m: Maps, a: nat, b: nat)
    requires IsMap(m) && InDomain(m, a) && InDomain(m, b)
    ensures a < b <==> PosMap(m, a) < PosMap(m, b)
    ensures a == b <==> PosMap(m, a) == PosMap(m, b)
  {
    var q, r := RegionOf(m, a), RegionOf(m, b);
    assert SameLength(m.domain[q], m.range[q]) && SameLength(m.domain[r], m.range[r]);
    if q < r {
      RegionsOrdered(m, q, r);
    } else if r < q {
      RegionsOrdered(m, r, q);
    }
  }

  /** What Mapper::map makes of a span. */
  ghost function MapSpan(m: Maps, s: Span): Result<Span>
    requires IsMap(m) && s.first <= s.second
  {
    if !InDomain(m, s.second) then Error else Ok(Span(PosMap(m, s.first), PosMap(m, s.second)))
  }

  // The program.

  ghost predicate Sorted(domain: seq<Span>) {
    && (forall i, j :: 0 <= i < j < |domain| ==> domain[i].second < domain[j].first)
    && (forall i :: 0 <= i < |domain| ==> domain[i].first <= domain[i].second)
  }

  /** std::lower_bound by the ends of the spans. */
  method LowerBoundEnd(domain: seq<Span>, lo: nat, hi: nat, n: nat) returns (i: nat)
    requires lo <= hi <= |domain| && Sorted(domain)
    ensures lo <= i <= hi
    ensures forall j :: lo <= j < i ==> domain[j].second < n
    ensures i < hi ==> n <= domain[i].second
  {
    var a, b := lo, hi;
    while a < b
      invariant lo <= a <= b <= hi
      invariant forall j :: lo <= j < a ==> domain[j].second < n
      invariant b < hi ==> n <= domain[b].second
    {
      var mid := (a + b) / 2;
      if domain[mid].second < n {
        a := mid + 1;
      } else {
        b := mid;
      }
    }
    return a;
  }

  /** std::upper_bound by the begins of the spans. */
  method UpperBoundBegin(domain: seq<Span>, n: nat) returns (i: nat)
    requires Sorted(domain)
    ensures i <= |domain|
    ensures forall j :: 0 <= j < i ==> domain[j].first <= n
    ensures i < |domain| ==> n < domain[i].first
  {
    var a, b := 0, |domain|;
    while a < b
      invariant 0 <= a <= b <= |domain|
      invariant forall j :: 0 <= j < a ==> domain[j].first <= n
      invariant b < |domain| ==> n < domain[b].first
    {
      var mid := (a + b) / 2;
      if n < domain[mid].first {
        b := mid;
      } else {
        a := mid + 1;
      }
    }
    return a;
  }

  lemma MapSorted(m: Maps)
    requires IsMap(m)
    ensures Sorted(m.domain)
  {
    forall i, j | 0 <= i < j < |m.domain| ensures m.domain[i].second < m.domain[j].first {
      RegionsOrdered(m, i, j);
    }
    assert forall i :: 0 <= i < |m.domain| ==> SameLength(m.domain[i], m.range[i]);
  }

  class PositionMapper {
    var domain: seq<Span>
    var range: seq<Span>

    constructor ()
      ensures domain == [] && range == []
    {
      domain, range := [], [];
    }

    ghost function Value(): Maps
      reads this
    {
      Maps(domain, range)
    }

    method SetClippingSpan(s: Span) returns (ok: bool)
      requires s.first <= s.second && IsMap(Value())
      modifies this
      ensures ok == SetSpan(old(Value()), s).Ok?
      ensures Value() == if ok then SetSpan(old(Value()), s).value else old(Value())
      ensures IsMap(Value())
    {
      if SetSpan(Value(), s).Ok? {
        SetSpanIsMap(Value(), s);
      }
      var start, end := s.first, s.second;
      var length := end - start;
      if |domain| == 0 {
        domain := domain + [Span(0, length)];
        range := range + [Span(start, end)];
        return true;
      }
      var rangeLast := range[|range| - 1].second;
      if rangeLast < start {
        var domainLast := domain[|domain| - 1].second;
        domain := domain + [Span(domainLast + 1, domainLast + 1 + length)];
        range := range + [Span(start, end)];
      } else if rangeLast < end {
        if start < range[|range| - 1].first {
          return false;
        }
        var diff := end - rangeLast;
        var d, r := domain[|domain| - 1], range[|range| - 1];
        domain := domain[|domain| - 1 := Span(d.first, d.second + diff)];
        range := range[|range| - 1 := Span(r.first, r.second + diff)];
      }
      return true;
    }

    /**
     * map: the search region handed over from the tag before hides an empty tag that lies in front of it, which
     * ends in a failing assertion; everything else is mapped as by a full search.
     */
    method Map(searchBegin: nat, searchEnd: nat, s: Span) returns (r: Result<Span>, begin': nat, end': nat)
      requires IsMap(Value()) && s.first <= s.second && searchBegin <= searchEnd <= |domain|
      ensures r == if Hidden(Value(), searchBegin, s) then Error else MapSpan(Value(), s)
      ensures r.Ok? ==> begin' <= end' <= |domain| && InDomain(Value(), s.first)
                        && begin' == RegionOf(Value(), s.first)
    {
      hide MapSpan, IsMap, RegionOf;
      if s.first == s.second {
        r, begin', end' := MapEmptyTag(searchBegin, searchEnd, s);
      } else {
        r, begin', end' := MapTag(s);
      }
    }

    method MapEmptyTag(searchBegin: nat, searchEnd: nat, s: Span) returns (r: Result<Span>, begin': nat, end': nat)
      requires IsMap(Value()) && s.first == s.second && searchBegin <= searchEnd <= |domain|
      ensures r == if Hidden(Value(), searchBegin, s) then Error else MapSpan(Value(), s)
      ensures r.Ok? ==> begin' <= end' <= |domain| && InDomain(Value(), s.first)
                        && begin' == RegionOf(Value(), s.first)
    {
      hide IsMap, Sorted, RegionOf;
      begin', end' := searchBegin, searchEnd;
      MapSorted(Value());
      SidesMatch(Value());
      var at := LowerBoundEnd(domain, searchBegin, searchEnd, s.second);
      if at == searchEnd {
        at := LowerBoundEnd(domain, searchBegin, |domain|, s.second);
        if at == |domain| {
          NotFound(Value(), searchBegin, s.second);
          return Error, begin', end';
        }
      }
      Found(Value(), searchBegin, s.second, at);
      if !Contains(domain[at], s.first) {
        return Error, begin', end';
      }
      var first := DoMapping(domain[at], range[at], s.first);
      return Ok(Span(first, first)), at, at + 1;
    }

    method MapTag(s: Span) returns (r: Result<Span>, begin': nat, end': nat)
      requires IsMap(Value()) && s.first < s.second
      ensures r == MapSpan(Value(), s)
      ensures r.Ok? ==> begin' <= end' <= |domain| && InDomain(Value(), s.first)
                        && begin' == RegionOf(Value(), s.first)
    {
      hide IsMap, Sorted, RegionOf;
      begin', end' := 0, 0;
      MapSorted(Value());
      SidesMatch(Value());
      var domFirst := UpperBoundBegin(domain, s.first);
      if domFirst == 0 {
        FirstFound(Value(), s.first, 0);
        return Error, begin', end';
      }
      domFirst := domFirst - 1;
      if !Contains(domain[domFirst], s.first) {
        FirstFound(Value(), s.first, domFirst + 1);
        return Error, begin', end';
      }
      OneRegion(Value(), s.first, domFirst);
      var domSecond := LowerBoundEnd(domain, 0, |domain|, s.second);
      var outside := domSecond == |domain|;
      if !outside {
        EndFound(Value(), s.second, domSecond);
        outside := !Contains(domain[domSecond], s.second);
      }
      if outside {
        return Error, begin', end';
      }
      OneRegion(Value(), s.second, domSecond);
      var out := Span(DoMapping(domain[domFirst], range[domFirst], s.first),
                      DoMapping(domain[domSecond], range[domSecond], s.second));
      RegionMonotone(Value(), s.first, s.second);
      return Ok(out), domFirst, domSecond;
    }
  }

  lemma SidesMatch(m: Maps)
    requires IsMap(m)
    ensures |m.domain| == |m.range|
  {
  }

  /** An empty tag in front of the region in which the search begins. */
  ghost predicate Hidden(m: Maps, begin: nat, s: Span)
    requires IsMap(m)
  {
    s.first == s.second && InDomain(m, s.first) && RegionOf(m, s.first) < begin
  }

  /** Searching from a region on finds the region of an offset, unless that lies before it. */
  lemma Found(m: Maps, begin: nat, n: nat, at: nat)
    requires IsMap(m) && begin <= at < |m.domain|
    requires n <= m.domain[at].second && forall j :: begin <= j < at ==> m.domain[j].second < n
    ensures InDomain(m, n)
    ensures if Contains(m.domain[at], n) then RegionOf(m, n) == at else RegionOf(m, n) < begin
  {
    if at < |m.domain| - 1 {
      RegionsOrdered(m, at, |m.domain| - 1);
      assert SameLength(m.domain[|m.domain| - 1], m.range[|m.domain| - 1]);
    }
    OneRegion(m, n, at);
    var q := RegionOf(m, n);
    if at < q {
      RegionsOrdered(m, at, q);
    }
  }

  lemma NotFound(m: Maps, begin: nat, n: nat)
    requires IsMap(m) && begin <= |m.domain| && forall j :: begin <= j < |m.domain| ==> m.domain[j].second < n
    ensures InDomain(m, n) ==> RegionOf(m, n) < begin
  {
  }

  lemma RegionMonotone(m: Maps, a: nat, b: nat)
    requires IsMap(m) && a <= b && InDomain(m, b)
    ensures InDomain(m, a) && RegionOf(m, a) <= RegionOf(m, b)
  {
    if RegionOf(m, b) < RegionOf(m, a) {
      RegionsOrdered(m, RegionOf(m, b), RegionOf(m, a));
    }
  }

  lemma FirstFound(m: Maps, n: nat, i: nat)
    requires IsMap(m) && i <= |m.domain|
    requires (i < |m.domain| ==> n < m.domain[i].first) && (i > 0 ==> !Contains(m.domain[i - 1], n))
    requires i > 0 ==> m.domain[i - 1].first <= n
    ensures !InDomain(m, n)
    ensures i == 0 ==> m.domain == []
  {
    forall r | 0 < r < |m.domain| ensures m.domain[r].first == m.domain[r - 1].second + 1 {
      assert Apart(m.domain[r - 1], m.domain[r], m.range[r - 1], m.range[r]);
    }
  }

  lemma EndFound(m: Maps, n: nat, i: nat)
    requires IsMap(m) && i < |m.domain| && n <= m.domain[i].second
    requires forall j :: 0 <= j < i ==> m.domain[j].second < n
    ensures Contains(m.domain[i], n)
  {
    if i > 0 {
      assert Apart(m.domain[i - 1], m.domain[i], m.range[i - 1], m.range[i]);
    }
  }
}
