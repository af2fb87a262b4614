/** Clipping regions out of a text, and uniting annotations of the clipped text with the original. */
module Clip {
  import opened SemiXml
  import opened Mapper

  /** The clipped text and tags so far, whether the first region is still to come, and where the last one ended. */
  datatype Clipped = Clipped(out: string, written: seq<Tag>, firstRegion: bool, end: nat)

  const START := Clipped("", [], true, 0)

  predicate Spans(tags: seq<Tag>) {
    forall i :: 0 <= i < |tags| ==> tags[i].begin <= tags[i].end
  }

  predicate ByBegin(tags: seq<Tag>) {
    forall i, j :: 0 <= i < j < |tags| ==> tags[i].begin <= tags[j].begin
  }

  /** `copy`: reading nothing succeeds anywhere. */
  function Copied(text: string, from: nat, to: nat): Result<string>
    requires from <= to
  {
    if from == to then Ok("") else if to > |text| then Error else Ok(text[from..to])
  }

  function ClipTag(text: string, relay: set<string>, c: Clipped, t: Tag): Result<Clipped>
    requires t.begin <= t.end
  {
    if t.name !in relay || t.end <= c.end then Ok(c)
    else
      var apart := c.end < t.begin;
      var part := Copied(text, if apart then t.begin else c.end, t.end);
      if part.Error? then Error
      else
        Ok(Clipped(c.out + (if apart && !c.firstRegion then "\n" else "") + part.value, c.written + [t],
                   c.firstRegion && !apart, t.end))
  }

  function ClipTags(text: string, relay: set<string>, c: Clipped, tags: seq<Tag>): Result<Clipped>
    requires Spans(tags)
    decreases |tags|
  {
    if tags == [] then Ok(c)
    else
      var next := ClipTag(text, relay, c, tags[0]);
      if next.Error? then Error else ClipTags(text, relay, next.value, tags[1..])
  }

  // What a caller can tell from the tags alone.

  /** A tag that is clipped when the regions so far end at `end`. */
  predicate Taken(relay: set<string>, t: Tag, end: nat) {
    t.name in relay && t.end > end
  }

  /** Every tag that goes beyond the regions so far touches them: there is no further region. */
  predicate NoGap(relay: set<string>, tags: seq<Tag>, end: nat) {
    if tags == [] then true
    else if !Taken(relay, tags[0], end) then NoGap(relay, tags[1..], end)
    else tags[0].begin <= end && NoGap(relay, tags[1..], tags[0].end)
  }

  /** The first region begins behind the start of the text, or is the only one. */
  predicate Delimited(relay: set<string>, tags: seq<Tag>) {
    if tags == [] then true
    else if !Taken(relay, tags[0], 0) then Delimited(relay, tags[1..])
    else tags[0].begin > 0 || NoGap(relay, tags[1..], tags[0].end)
  }

  /** No tag that extends a region begins before it; the region at hand begins at `first`. */
  predicate RegionsFrom(relay: set<string>, tags: seq<Tag>, first: nat, end: nat) {
    if tags == [] then true
    else if !Taken(relay, tags[0], end) then RegionsFrom(relay, tags[1..], first, end)
    else if end < tags[0].begin then RegionsFrom(relay, tags[1..], tags[0].begin, tags[0].end)
    else first <= tags[0].begin && RegionsFrom(relay, tags[1..], first, tags[0].end)
  }

  predicate RegionsInOrder(relay: set<string>, tags: seq<Tag>) {
    if tags == [] then true
    else if !Taken(relay, tags[0], 0) then RegionsInOrder(relay, tags[1..])
    else RegionsFrom(relay, tags[1..], tags[0].begin, tags[0].end)
  }

  /** Tags in the order of their begins have their regions in order. */
  lemma {:induction false} ByBeginInOrder(relay: set<string>, tags: seq<Tag>)
    requires ByBegin(tags)
    ensures RegionsInOrder(relay, tags)
  {
    if tags != [] {
      if Taken(relay, tags[0], 0) {
        ByBeginFrom(relay, tags[1..], tags[0].begin, tags[0].end);
      } else {
        ByBeginInOrder(relay, tags[1..]);
      }
    }
  }

  lemma {:induction false} ByBeginFrom(relay: set<string>, tags: seq<Tag>, first: nat, end: nat)
    requires ByBegin(tags) && (tags != [] ==> first <= tags[0].begin)
    ensures RegionsFrom(relay, tags, first, end)
  {
    if tags != [] {
      var t := tags[0];
      if !Taken(relay, t, end) {
        ByBeginFrom(relay, tags[1..], first, end);
      } else {
        ByBeginFrom(relay, tags[1..], if end < t.begin then t.begin else first, t.end);
      }
    }
  }

  function SpanOf(t: Tag): Span {
    Span(t.begin, t.end)
  }

  /** setClippingSpan for each of the tags. */
  function SetTags(m: Maps, tags: seq<Tag>): (r: Result<Maps>)
    requires |m.domain| == |m.range| && Spans(tags)
    ensures r.Ok? ==> |r.value.domain| == |r.value.range|
    decreases |tags|
  {
    if tags == [] then Ok(m)
    else
      var next := SetSpan(m, SpanOf(tags[0]));
      if next.Error? then Error else SetTags(next.value, tags[1..])
  }

  const EMPTY := Maps([], [])

  // The program.

  method CopyPart(text: string, from: nat, to: nat, out: string) returns (ok: bool, out': string)
    requires from <= to
    ensures ok <==> Copied(text, from, to).Ok?
    ensures ok ==> out' == out + Copied(text, from, to).value
  {
    if to - from == 0 {
      return true, out;
    }
    if to > |text| {
      return false, out;
    }
    return true, out + text[from..to];
  }

  method ClipData(text: string, relay: set<string>, tags: seq<Tag>) returns (r: Result<Clipped>)
    requires Spans(tags)
    ensures r == ClipTags(text, relay, START, tags)
  {
    hide Copied;
    var firstRegion, endOfLastRegion: nat, osTxt, osSoff := true, 0, "", [];
    assert tags[0..] == tags;
    for i := 0 to |tags|
      invariant ClipTags(text, relay, Clipped(osTxt, osSoff, firstRegion, endOfLastRegion), tags[i..])
             == ClipTags(text, relay, START, tags)
    {
      var t := tags[i];
      ghost var c := Clipped(osTxt, osSoff, firstRegion, endOfLastRegion);
      assert tags[i..][0] == t && tags[i..][1..] == tags[i + 1..];
      if t.name !in relay {
        continue;
      }
      if t.end <= endOfLastRegion {
        continue;
      }
      var ok;
      if endOfLastRegion < t.begin {
        if firstRegion {
          assert osTxt + "" == osTxt;
          firstRegion := false;
        } else {
          osTxt := osTxt + "\n";
        }
        ok, osTxt := CopyPart(text, t.begin, t.end, osTxt);
      } else {
        assert osTxt + "" == osTxt;
        ok, osTxt := CopyPart(text, endOfLastRegion, t.end, osTxt);
      }
      if !ok {
        return Error;
      }
      endOfLastRegion := t.end;
      osSoff := osSoff + [t];
    }
    return Ok(Clipped(osTxt, osSoff, firstRegion, endOfLastRegion));
  }

  // What the mapper assumes of the clipped text.

  ghost predicate SameChar(text: string, out: string, m: Maps, r: nat, k: nat)
    requires r < |m.domain| == |m.range| && m.domain[r].first <= k
  {
    var p := m.range[r].first + (k - m.domain[r].first);
    k < |out| && p < |text| && out[k] == text[p]
  }

  /** Region after region the characters are those of the original, with a newline in between. */
  ghost predicate LaidOut(text: string, out: string, m: Maps) {
    && IsMap(m)
    && (if m.domain == [] then out == "" else |out| == Limit(m))
    && (forall r, k :: 0 <= r < |m.domain| && m.domain[r].first <= k < m.domain[r].second ==>
          SameChar(text, out, m, r, k))
    && (forall r :: 0 <= r < |m.domain| - 1 ==>
          m.domain[r].second < |out| && out[m.domain[r].second] == '\n')
  }

  /** The same of the mapper: either its first region does not begin the text, or there is no second one. */
  predicate Spaced(m: Maps) {
    |m.domain| <= 1 || (m.range != [] && m.range[0].first > 0)
  }

  /** The clipped text, and a mapper that was told the tags written so far. */
  ghost predicate InStep(text: string, c: Clipped, m: Maps) {
    && IsMap(m)
    && (m.domain == [] ==> c.firstRegion && c.end == 0)
    && (m.domain != [] ==> m.range[|m.range| - 1].second == c.end && c.end > 0)
    && (m.domain != [] ==> (c.firstRegion <==> m.range[0].first == 0 && |m.domain| == 1))
    && |c.out| == (if m.domain == [] then 0 else Limit(m)) - (if Spaced(m) then 0 else 1)
    && (Spaced(m) ==> LaidOut(text, c.out, m))
  }

  lemma GrowRegion(text: string, c: Clipped, m: Maps, t: Tag, part: string)
    requires InStep(text, c, m) && m.domain != [] && t.begin <= c.end < t.end && SetSpan(m, SpanOf(t)).Ok?
    requires t.end <= |text| && part == text[c.end..t.end]
    ensures InStep(text, Clipped(c.out + part, c.written + [t], c.firstRegion, t.end), SetSpan(m, SpanOf(t)).value)
  {
    var m', last := SetSpan(m, SpanOf(t)).value, |m.domain| - 1;
    var out := c.out + part;
    SetSpanIsMap(m, SpanOf(t));
    assert SameLength(m.domain[last], m.range[last]);
    if Spaced(m) {
      forall r, k | 0 <= r < |m'.domain| && m'.domain[r].first <= k < m'.domain[r].second
        ensures SameChar(text, out, m', r, k)
      {
        if k < m.domain[r].second {
          assert SameChar(text, c.out, m, r, k);
        }
      }
    }
  }

  lemma NewRegion(text: string, c: Clipped, m: Maps, t: Tag, part: string)
    requires InStep(text, c, m) && t.begin <= t.end && c.end < t.begin
    requires Copied(text, t.begin, t.end) == Ok(part)
    ensures SetSpan(m, SpanOf(t)).Ok?
    ensures InStep(text, Clipped(c.out + (if c.firstRegion then "" else "\n") + part, c.written + [t], false, t.end),
                   SetSpan(m, SpanOf(t)).value)
  {
    hide LaidOut, IsMap;
    SidesMatch(m);
    SetSpanIsMap(m, SpanOf(t));
    if m.domain == [] {
      assert c.out + "" + part == part;
      FirstRegion(text, c, m, t, part);
    } else {
      LaterMaps(m, t);
      if Spaced(SetSpan(m, SpanOf(t)).value) {
        LaterRegion(text, c, m, t, part);
      }
    }
  }

  lemma LaterMaps(m: Maps, t: Tag)
    requires IsMap(m) && m.domain != [] && t.begin <= t.end && m.range[|m.range| - 1].second < t.begin
    ensures |m.domain| == |m.range|
    ensures var d := Limit(m) + 1;
      SetSpan(m, SpanOf(t)) == Ok(Maps(m.domain + [Span(d, d + (t.end - t.begin))], m.range + [Span(t.begin, t.end)]))
  {
  }

  lemma FirstRegion(text: string, c: Clipped, m: Maps, t: Tag, part: string)
    requires m == EMPTY && t.begin <= t.end && Copied(text, t.begin, t.end) == Ok(part)
    ensures LaidOut(text, part, Maps([Span(0, t.end - t.begin)], [SpanOf(t)]))
  {
    var m' := Maps([Span(0, t.end - t.begin)], [SpanOf(t)]);
    forall k | 0 <= k < t.end - t.begin ensures SameChar(text, part, m', 0, k) {
      assert part == text[t.begin..t.end];
    }
  }

  lemma LaterRegion(text: string, c: Clipped, m: Maps, t: Tag, part: string)
    requires LaidOut(text, c.out, m) && m.domain != [] && t.begin <= t.end && m.range[|m.range| - 1].second < t.begin
    requires Copied(text, t.begin, t.end) == Ok(part)
    ensures SetSpan(m, SpanOf(t)).Ok? && LaidOut(text, c.out + "\n" + part, SetSpan(m, SpanOf(t)).value)
  {
    LaterMaps(m, t);
    SetSpanIsMap(m, SpanOf(t));
    var m', out, n := SetSpan(m, SpanOf(t)).value, c.out + "\n" + part, |m.domain|;
    forall r, k | 0 <= r < n + 1 && m'.domain[r].first <= k < m'.domain[r].second
      ensures SameChar(text, out, m', r, k)
    {
      if r < n {
        assert SameChar(text, c.out, m, r, k);
      } else {
        assert part == text[t.begin..t.end];
        assert out[k] == part[k - m'.domain[n].first];
      }
    }
    NewlineKept(text, c.out, m, part);
  }

  lemma NewlineKept(text: string, out: string, m: Maps, part: string)
    requires LaidOut(text, out, m) && m.domain != []
    ensures var out' := out + "\n" + part;
      forall r :: 0 <= r < |m.domain| ==> m.domain[r].second < |out'| && out'[m.domain[r].second] == '\n'
  {
  }

  lemma FirstRegionAtZero(text: string, c: Clipped, m: Maps, t: Tag, part: string)
    requires InStep(text, c, m) && m.domain == [] && t.begin == 0 < t.end <= |text| && part == text[0..t.end]
    ensures InStep(text, Clipped(c.out + part, c.written + [t], c.firstRegion, t.end), SetSpan(m, SpanOf(t)).value)
  {
    var m' := SetSpan(m, SpanOf(t)).value;
    SetSpanIsMap(m, SpanOf(t));
    assert c.out + part == part;
    forall k | 0 <= k < t.end ensures SameChar(text, part, m', 0, k) {}
  }

  /** Clipping one tag and telling the mapper about it, if it was written, keeps the two in step. */
  lemma StepInStep(text: string, relay: set<string>, c: Clipped, m: Maps, t: Tag)
    requires InStep(text, c, m) && t.begin <= t.end && ClipTag(text, relay, c, t).Ok?
    ensures var c' := ClipTag(text, relay, c, t).value;
      if c'.written == c.written then c' == c
      else
        c'.written == c.written + [t]
        && |m.domain| == |m.range| && (SetSpan(m, SpanOf(t)).Ok? ==> InStep(text, c', SetSpan(m, SpanOf(t)).value))
  {
    hide InStep, SetSpan;
    var c' := ClipTag(text, relay, c, t).value;
    StepSides(text, c, m);
    if t.name in relay && t.end > c.end {
      if c.end < t.begin {
        NewRegion(text, c, m, t, Copied(text, t.begin, t.end).value);
      } else {
        var part := Copied(text, c.end, t.end).value;
        assert c.out + "" == c.out;
        if m.domain == [] {
          EndAtStart(text, c, m);
          FirstRegionAtZero(text, c, m, t, part);
        } else if SetSpan(m, SpanOf(t)).Ok? {
          GrowRegion(text, c, m, t, part);
        }
      }
    }
  }

  lemma StepSides(text: string, c: Clipped, m: Maps)
    requires InStep(text, c, m)
    ensures |m.domain| == |m.range|
  {
  }

  lemma EndAtStart(text: string, c: Clipped, m: Maps)
    requires InStep(text, c, m) && m.domain == []
    ensures c.end == 0
  {
  }

  lemma {:induction false} SetTagsOne(m: Maps, tags: seq<Tag>, t: Tag)
    requires |m.domain| == |m.range| && Spans(tags)
    requires t.begin <= t.end
    ensures SetTags(m, tags + [t])
         == if SetTags(m, tags).Error? then Error else SetSpan(SetTags(m, tags).value, SpanOf(t))
    decreases |tags|
  {
    if tags == [] {
      assert [] + [t] == [t];
      assert SetTags(m, [t]) == SetSpan(m, SpanOf(t));
    } else {
      assert (tags + [t])[1..] == tags[1..] + [t];
      if SetSpan(m, SpanOf(tags[0])).Ok? {
        SetTagsOne(SetSpan(m, SpanOf(tags[0])).value, tags[1..], t);
      }
    }
  }

  lemma {:induction false} AllInStep(text: string, relay: set<string>, c: Clipped, tags: seq<Tag>)
    requires Spans(tags)
    requires ClipTags(text, relay, c, tags).Ok? && Spans(c.written)
    requires SetTags(EMPTY, c.written).Ok? ==> InStep(text, c, SetTags(EMPTY, c.written).value)
    ensures var c' := ClipTags(text, relay, c, tags).value;
      Spans(c'.written) && (SetTags(EMPTY, c'.written).Ok? ==> InStep(text, c', SetTags(EMPTY, c'.written).value))
    decreases |tags|
  {
    hide InStep, ClipTag, SetSpan;
    if tags != [] {
      var c' := ClipTag(text, relay, c, tags[0]).value;
      WrittenOnly(text, relay, c, tags[0]);
      if c' != c {
        SetTagsOne(EMPTY, c.written, tags[0]);
        if SetTags(EMPTY, c.written).Ok? {
          StepInStep(text, relay, c, SetTags(EMPTY, c.written).value, tags[0]);
        }
      }
      AllInStep(text, relay, c', tags[1..]);
    }
  }

  lemma WrittenOnly(text: string, relay: set<string>, c: Clipped, t: Tag)
    requires t.begin <= t.end && ClipTag(text, relay, c, t).Ok? && Spans(c.written)
    ensures var c' := ClipTag(text, relay, c, t).value;
      Spans(c'.written) && (c' == c || c'.written == c.written + [t])
  {
  }

  // The same told from the tags.

  ghost predicate Follows(c: Clipped, m: Maps) {
    && |m.domain| == |m.range|
    && (if m.domain == [] then c.end == 0 else m.range[|m.range| - 1].second == c.end > 0)
  }

  /** What is still to come decides whether the mapper accepts everything and whether the regions are spaced. */
  ghost predicate Foretold(relay: set<string>, tags: seq<Tag>, c: Clipped, m: Maps, after: Result<Maps>)
    requires Follows(c, m)
  {
    && (after.Ok? <==> if m.domain == [] then RegionsInOrder(relay, tags)
                       else RegionsFrom(relay, tags, m.range[|m.range| - 1].first, c.end))
    && (after.Ok? ==> (Spaced(after.value) <==> if m.domain == [] then Delimited(relay, tags)
                                                else m.range[0].first > 0
                                                     || (|m.domain| == 1 && NoGap(relay, tags, c.end))))
  }

  lemma FollowOne(text: string, relay: set<string>, c: Clipped, m: Maps, t: Tag)
    requires Follows(c, m) && t.begin <= t.end && Taken(relay, t, c.end) && ClipTag(text, relay, c, t).Ok?
    ensures SetSpan(m, SpanOf(t)).Error?
       <==> m.domain != [] && t.begin <= c.end && t.begin < m.range[|m.range| - 1].first
    ensures SetSpan(m, SpanOf(t)).Ok? ==>
              var c', m' := ClipTag(text, relay, c, t).value, SetSpan(m, SpanOf(t)).value;
              && Follows(c', m') && c'.end == t.end && m'.domain != []
              && m'.range[0].first == (if m.domain == [] then t.begin else m.range[0].first)
              && m'.range[|m'.range| - 1].first
              == (if m.domain == [] || c.end < t.begin then t.begin else m.range[|m.range| - 1].first)
              && |m'.domain| == (if m.domain == [] || c.end < t.begin then |m.domain| + 1 else |m.domain|)
  {
  }

  /** Once the mapper has refused a tag, more tags change nothing. */
  lemma {:induction false} StaysRefused(text: string, relay: set<string>, c: Clipped, tags: seq<Tag>)
    requires Spans(tags) && ClipTags(text, relay, c, tags).Ok? && Spans(c.written) && SetTags(EMPTY, c.written).Error?
    ensures var c' := ClipTags(text, relay, c, tags).value;
      Spans(c'.written) && SetTags(EMPTY, c'.written).Error?
    decreases |tags|
  {
    hide ClipTag;
    if tags != [] {
      var c' := ClipTag(text, relay, c, tags[0]).value;
      WrittenOnly(text, relay, c, tags[0]);
      if c' != c {
        SetTagsOne(EMPTY, c.written, tags[0]);
      }
      StaysRefused(text, relay, c', tags[1..]);
    }
  }

  lemma {:induction false} AllForetold(text: string, relay: set<string>, c: Clipped, tags: seq<Tag>, m: Maps)
    requires Spans(tags) && ClipTags(text, relay, c, tags).Ok?
    requires Spans(c.written) && SetTags(EMPTY, c.written) == Ok(m) && Follows(c, m)
    ensures var c' := ClipTags(text, relay, c, tags).value;
      Spans(c'.written) && Foretold(relay, tags, c, m, SetTags(EMPTY, c'.written))
    decreases |tags|
  {
    hide ClipTag, SetSpan, SetTags;
    if tags != [] {
      var t, c' := tags[0], ClipTag(text, relay, c, tags[0]).value;
      WrittenOnly(text, relay, c, t);
      TakenIs(text, relay, c, t);
      if Taken(relay, t, c.end) {
        SetTagsOne(EMPTY, c.written, t);
        FollowOne(text, relay, c, m, t);
        if SetSpan(m, SpanOf(t)).Ok? {
          AllForetold(text, relay, c', tags[1..], SetSpan(m, SpanOf(t)).value);
        } else {
          StaysRefused(text, relay, c', tags[1..]);
        }
      } else {
        AllForetold(text, relay, c, tags[1..], m);
      }
    }
  }

  lemma TakenIs(text: string, relay: set<string>, c: Clipped, t: Tag)
    requires t.begin <= t.end && ClipTag(text, relay, c, t).Ok?
    ensures var c' := ClipTag(text, relay, c, t).value;
      if Taken(relay, t, c.end) then c'.written == c.written + [t] else c' == c
  {
  }

  /**
   * The mapper accepts what was clipped if and only if no tag that extends a region begins before it, which
   * holds of tags in the order of their begins.
   */
  lemma MapperAccepts(text: string, relay: set<string>, tags: seq<Tag>)
    requires Spans(tags) && ClipTags(text, relay, START, tags).Ok?
    ensures var c := ClipTags(text, relay, START, tags).value;
      Spans(c.written) && (SetTags(EMPTY, c.written).Ok? <==> RegionsInOrder(relay, tags))
    ensures ByBegin(tags) ==> RegionsInOrder(relay, tags)
  {
    NothingYet();
    AllForetold(text, relay, START, tags, EMPTY);
    if ByBegin(tags) {
      ByBeginInOrder(relay, tags);
    }
  }

  /**
   * The clipped text is laid out as the mapper assumes if and only if the first region begins behind the start
   * of the text or is the only one: otherwise the newline in front of the second region is missing.
   */
  lemma ClipLaidOut(text: string, relay: set<string>, tags: seq<Tag>)
    requires Spans(tags) && ClipTags(text, relay, START, tags).Ok? && RegionsInOrder(relay, tags)
    ensures var c := ClipTags(text, relay, START, tags).value;
      && Spans(c.written) && SetTags(EMPTY, c.written).Ok?
      && var m := SetTags(EMPTY, c.written).value;
         IsMap(m) && (LaidOut(text, c.out, m) <==> Delimited(relay, tags))
  {
    AllInStep(text, relay, START, tags);
    NothingYet();
    AllForetold(text, relay, START, tags, EMPTY);
  }

  /** Two regions, the first at the start of the text: "abc" becomes "ac" without a newline in between. */
  lemma ClippedTogether(s: Tag, t: Tag)
    requires s == Tag("s", "", 0, 1) && t == Tag("s", "", 2, 3)
    ensures Spans([s, t]) && ClipTags("abc", {"s"}, START, [s, t]) == Ok(Clipped("ac", [s, t], false, 3))
  {
    var c := Clipped("a", [s], true, 1);
    assert [s, t][1..] == [t] && [t][1..] == [];
    assert "abc"[0..1] == "a" && "abc"[2..3] == "c" && "" + "" + "a" == "a" && "a" + "" + "c" == "ac";
    assert START.written + [s] == [s] && [s] + [t] == [s, t];
    assert ClipTag("abc", {"s"}, START, s) == Ok(c);
    assert ClipTags("abc", {"s"}, c, [t]) == ClipTags("abc", {"s"}, Clipped("ac", [s, t], false, 3), []);
  }

  lemma MappedApart(s: Tag, t: Tag)
    requires s == Tag("s", "", 0, 1) && t == Tag("s", "", 2, 3)
    ensures SetTags(EMPTY, [s, t]) == Ok(Maps([Span(0, 1), Span(2, 3)], [Span(0, 1), Span(2, 3)]))
  {
    var m := Maps([Span(0, 1)], [Span(0, 1)]);
    assert [s, t][1..] == [t] && [t][1..] == [];
    assert [Span(0, 1)] + [Span(2, 3)] == [Span(0, 1), Span(2, 3)];
    assert SetSpan(EMPTY, SpanOf(s)) == Ok(m);
    assert SetTags(m, [t]) == SetTags(Maps([Span(0, 1), Span(2, 3)], [Span(0, 1), Span(2, 3)]), []);
  }

  /** The mapper expects "a", a newline and "c", and an annotation of the "c" at 1 is mapped to the end of the "a". */
  lemma MissingNewline()
    ensures var tags := [Tag("s", "", 0, 1), Tag("s", "", 2, 3)];
      && Spans(tags) && RegionsInOrder({"s"}, tags) && !Delimited({"s"}, tags)
      && ClipTags("abc", {"s"}, START, tags).Ok? && ClipTags("abc", {"s"}, START, tags).value.out == "ac"
      && SetTags(EMPTY, tags).Ok? && !LaidOut("abc", "ac", SetTags(EMPTY, tags).value)
  {
    ClippedTogether(Tag("s", "", 0, 1), Tag("s", "", 2, 3));
    MappedApart(Tag("s", "", 0, 1), Tag("s", "", 2, 3));
    var tags := [Tag("s", "", 0, 1), Tag("s", "", 2, 3)];
    assert tags[1..][1..] == [];
  }

  /** A span inside one region comes from a span of the original that holds the same characters. */
  lemma SameCharacters(text: string, out: string, m: Maps, s: Span)
    requires LaidOut(text, out, m) && s.first < s.second && InDomain(m, s.second)
    requires RegionOf(m, s.first) == RegionOf(m, s.second)
    ensures var p, q := PosMap(m, s.first), PosMap(m, s.second);
      p < q <= |text| && s.second <= |out| && text[p..q] == out[s.first..s.second]
  {
    var r := RegionOf(m, s.first);
    var p, q := PosMap(m, s.first), PosMap(m, s.second);
    forall k | s.first <= k < s.second ensures SameChar(text, out, m, r, k) {}
    assert SameChar(text, out, m, r, s.second - 1);
    forall i | 0 <= i < q - p ensures text[p..q][i] == out[s.first..s.second][i] {
      assert SameChar(text, out, m, r, s.first + i);
    }
  }

  /** Clip, annotate, unite: whatever span is annotated within a region returns to the same characters. */
  lemma ClipUnite(text: string, relay: set<string>, tags: seq<Tag>, s: Span)
    requires Spans(tags) && ClipTags(text, relay, START, tags).Ok?
    requires RegionsInOrder(relay, tags) && Delimited(relay, tags)
    ensures var c := ClipTags(text, relay, START, tags).value;
      && Spans(c.written) && SetTags(EMPTY, c.written).Ok?
      && var m := SetTags(EMPTY, c.written).value;
         && IsMap(m)
         && (s.first < s.second <= |c.out| ==>
               InDomain(m, s.second)
               && (RegionOf(m, s.first) == RegionOf(m, s.second) ==>
                     MapSpan(m, s).Ok?
                     && MapSpan(m, s).value.first < MapSpan(m, s).value.second <= |text|
                     && text[MapSpan(m, s).value.first..MapSpan(m, s).value.second] == c.out[s.first..s.second]))
  {
    hide LaidOut, ClipTags, SetTags, IsMap;
    var c := ClipTags(text, relay, START, tags).value;
    ClipLaidOut(text, relay, tags);
    var m := SetTags(EMPTY, c.written).value;
    if s.first < s.second <= |c.out| {
      LaidOutLimit(text, c.out, m);
      if RegionOf(m, s.first) == RegionOf(m, s.second) {
        SameCharacters(text, c.out, m, s);
      }
    }
  }

  lemma NothingYet()
    ensures SetTags(EMPTY, []) == Ok(EMPTY)
  {
  }

  lemma LaidOutLimit(text: string, out: string, m: Maps)
    requires LaidOut(text, out, m) && out != ""
    ensures m.domain != [] && |out| == Limit(m)
  {
  }

  // readConformedPositions.

  /** The tags at the places their spans come from. */
  ghost function MapTags(m: Maps, tags: seq<Tag>): Result<seq<Tag>>
    requires IsMap(m) && Spans(tags)
  {
    if tags == [] then Ok([])
    else
      var s, rest := MapSpan(m, SpanOf(tags[0])), MapTags(m, tags[1..]);
      if s.Error? || rest.Error? then Error
      else Ok([tags[0].(begin := s.value.first, end := s.value.second)] + rest.value)
  }

  lemma {:induction false} SetTagsIsMap(m: Maps, tags: seq<Tag>)
    requires IsMap(m) && Spans(tags)
    ensures SetTags(m, tags).Ok? ==> IsMap(SetTags(m, tags).value)
    decreases |tags|
  {
    hide IsMap, SetSpan;
    if tags != [] {
      SidesMatch(m);
      if SetSpan(m, SpanOf(tags[0])).Ok? {
        SetSpanIsMap(m, SpanOf(tags[0]));
        SetTagsIsMap(SetSpan(m, SpanOf(tags[0])).value, tags[1..]);
      }
    }
  }

  /**
   * No empty tag lies in a region before the one in which the tag in front of it begins. The search for an
   * empty tag starts there, so it holds of tags in the order of their begins.
   */
  ghost predicate Searchable(m: Maps, tags: seq<Tag>)
    requires IsMap(m)
  {
    forall i :: 0 < i < |tags| && InDomain(m, tags[i - 1].begin) ==>
                  !Hidden(m, RegionOf(m, tags[i - 1].begin), SpanOf(tags[i]))
  }

  lemma SearchableByBegin(m: Maps, tags: seq<Tag>)
    requires IsMap(m) && ByBegin(tags)
    ensures Searchable(m, tags)
  {
    forall i | 0 < i < |tags| && InDomain(m, tags[i - 1].begin)
      ensures !Hidden(m, RegionOf(m, tags[i - 1].begin), SpanOf(tags[i]))
    {
      if InDomain(m, tags[i].begin) {
        RegionMonotone(m, tags[i - 1].begin, tags[i].begin);
      }
    }
  }

  /** What the search regions handed on leave of the mapping. */
  ghost function MapFrom(m: Maps, tags: seq<Tag>, begin: nat): Result<seq<Tag>>
    requires IsMap(m) && Spans(tags)
    decreases |tags|
  {
    if tags == [] then Ok([])
    else if Hidden(m, begin, SpanOf(tags[0])) || MapSpan(m, SpanOf(tags[0])).Error? then Error
    else
      var s := MapSpan(m, SpanOf(tags[0])).value;
      WithinDomain(m, SpanOf(tags[0]));
      var rest := MapFrom(m, tags[1..], RegionOf(m, tags[0].begin));
      if rest.Error? then Error else Ok([tags[0].(begin := s.first, end := s.second)] + rest.value)
  }

  lemma WithinDomain(m: Maps, s: Span)
    requires IsMap(m) && s.first <= s.second && MapSpan(m, s).Ok?
    ensures InDomain(m, s.first)
  {
  }

  /** The regions handed on hide nothing if and only if the tags are searchable. */
  lemma {:induction false} MapFromIs(m: Maps, tags: seq<Tag>, begin: nat)
    requires IsMap(m) && Spans(tags)
    ensures (tags != [] ==> !Hidden(m, begin, SpanOf(tags[0]))) && Searchable(m, tags) ==>
              MapFrom(m, tags, begin) == MapTags(m, tags)
    ensures MapFrom(m, tags, begin).Ok? ==>
              MapTags(m, tags).Ok? && (tags != [] ==> !Hidden(m, begin, SpanOf(tags[0]))) && Searchable(m, tags)
    decreases |tags|
  {
    hide IsMap, Hidden;
    if tags != [] && MapSpan(m, SpanOf(tags[0])).Ok? {
      WithinDomain(m, SpanOf(tags[0]));
      MapFromIs(m, tags[1..], RegionOf(m, tags[0].begin));
      SearchableTail(m, tags);
    }
  }

  lemma MapTwo(m: Maps, s: Tag, t: Tag)
    requires IsMap(m) && s.begin <= s.end && t.begin <= t.end && InDomain(m, s.end) && InDomain(m, t.end)
    ensures InDomain(m, s.begin) && InDomain(m, t.begin) && Spans([s, t])
    ensures MapTags(m, [s, t]) == Ok([s.(begin := PosMap(m, s.begin), end := PosMap(m, s.end)),
                                      t.(begin := PosMap(m, t.begin), end := PosMap(m, t.end))])
  {
    hide IsMap, PosMap;
    assert [s, t][1..] == [t] && [t][1..] == [];
    assert Spans([t]) && Spans([s, t]);
    var t' := t.(begin := PosMap(m, t.begin), end := PosMap(m, t.end));
    assert [t'] + [] == [t'];
    assert MapTags(m, [t]) == Ok([t']);
    var s' := s.(begin := PosMap(m, s.begin), end := PosMap(m, s.end));
    assert [s'] + [t'] == [s', t'];
  }

  /** Two regions, an empty tag in the second, and behind it one in the first, which the search no longer sees. */
  lemma OutOfOrder()
    ensures var m := Maps([Span(0, 1), Span(2, 3)], [Span(0, 1), Span(5, 6)]);
      var tags := [Tag("s", "", 2, 2), Tag("s", "", 0, 0)];
      && IsMap(m) && Spans(tags) && !Searchable(m, tags) && MapFrom(m, tags, 0).Error?
      && MapTags(m, tags) == Ok([Tag("s", "", 5, 5), Tag("s", "", 0, 0)])
  {
    var m := Maps([Span(0, 1), Span(2, 3)], [Span(0, 1), Span(5, 6)]);
    var s, t := Tag("s", "", 2, 2), Tag("s", "", 0, 0);
    assert IsMap(m);
    OneRegion(m, 2, 1);
    OneRegion(m, 0, 0);
    assert PosMap(m, 2) == 5 && PosMap(m, 0) == 0;
    MapTwo(m, s, t);
    assert [s, t][0].begin == 2 && Hidden(m, 1, SpanOf([s, t][1]));
    hide IsMap, MapTags, PosMap, RegionOf;
    MapFromIs(m, [s, t], 0);
  }

  lemma SearchableTail(m: Maps, tags: seq<Tag>)
    requires IsMap(m) && tags != [] && InDomain(m, tags[0].begin)
    ensures Searchable(m, tags)
       <==> Searchable(m, tags[1..])
            && (|tags| > 1 ==> !Hidden(m, RegionOf(m, tags[0].begin), SpanOf(tags[1..][0])))
  {
    hide IsMap, Hidden, RegionOf;
    var rest := tags[1..];
    if Searchable(m, tags) {
      forall i | 0 < i < |rest| && InDomain(m, rest[i - 1].begin)
        ensures !Hidden(m, RegionOf(m, rest[i - 1].begin), SpanOf(rest[i]))
      {
        assert rest[i - 1] == tags[i] && rest[i] == tags[i + 1] && tags[i + 1 - 1] == tags[i];
      }
    }
    if Searchable(m, rest) {
      forall i | 1 < i < |tags| && InDomain(m, tags[i - 1].begin)
        ensures !Hidden(m, RegionOf(m, tags[i - 1].begin), SpanOf(tags[i]))
      {
        assert rest[i - 1] == tags[i] && rest[i - 1 - 1] == tags[i - 1];
      }
    }
  }

  /** Container tags that were clipped, and the embedded tags to be mapped. */
  method ReadConformedPositions(strict: seq<Tag>, partial: seq<Tag>) returns (r: Result<seq<Tag>>)
    requires Spans(strict) && Spans(partial)
    ensures SetTags(EMPTY, strict).Error? ==> r.Error?
    ensures SetTags(EMPTY, strict).Ok? ==>
              IsMap(SetTags(EMPTY, strict).value)
              && r == if Searchable(SetTags(EMPTY, strict).value, partial)
                      then MapTags(SetTags(EMPTY, strict).value, partial) else Error
  {
    hide IsMap, SetSpan, MapTags, Searchable;
    var mapper := new PositionMapper();
    EmptyIsMap();
    SetTagsIsMap(EMPTY, strict);
    assert strict[0..] == strict;
    for i := 0 to |strict|
      invariant fresh(mapper) && IsMap(mapper.Value()) && |mapper.domain| == |mapper.range|
      invariant SetTags(mapper.Value(), strict[i..]) == SetTags(EMPTY, strict)
    {
      assert strict[i..][0] == strict[i] && strict[i..][1..] == strict[i + 1..];
      var ok := mapper.SetClippingSpan(SpanOf(strict[i]));
      if !ok {
        return Error;
      }
      SidesMatch(mapper.Value());
    }
    r := MapEmbedded(mapper, partial);
  }

  method MapEmbedded(mapper: PositionMapper, partial: seq<Tag>) returns (r: Result<seq<Tag>>)
    requires IsMap(mapper.Value()) && Spans(partial)
    ensures r == if Searchable(mapper.Value(), partial) then MapTags(mapper.Value(), partial) else Error
  {
    hide IsMap, MapSpan, MapTags, RegionOf, Hidden, Searchable, Outlook, MapFrom;
    ghost var m := mapper.Value();
    var begin: nat, end: nat, out := 0, |mapper.domain|, [];
    MapFromIs(m, partial, 0);
    NothingHidden(m, partial);
    OutlookStart(m, partial);
    for i := 0 to |partial|
      invariant begin <= end <= |mapper.domain| && Outlook(m, partial, out, i, begin)
    {
      OutlookNext(m, partial, out, i, begin);
      var mapped;
      mapped, begin, end := mapper.Map(begin, end, SpanOf(partial[i]));
      if mapped.Error? {
        return Error;
      }
      out := out + [partial[i].(begin := mapped.value.first, end := mapped.value.second)];
    }
    OutlookEnd(m, partial, out, begin);
    return Ok(out);
  }

  /** The first `i` tags were mapped to `out`, and the rest is mapped from region `begin` on. */
  ghost predicate Outlook(m: Maps, tags: seq<Tag>, out: seq<Tag>, i: nat, begin: nat)
    requires IsMap(m) && Spans(tags)
  {
    && i <= |tags| && Spans(tags[i..])
    && (MapFrom(m, tags, 0).Error? <==> MapFrom(m, tags[i..], begin).Error?)
    && (MapFrom(m, tags, 0).Ok? ==> MapFrom(m, tags, 0).value == out + MapFrom(m, tags[i..], begin).value)
  }

  lemma OutlookStart(m: Maps, tags: seq<Tag>)
    requires IsMap(m) && Spans(tags)
    ensures Outlook(m, tags, [], 0, 0)
  {
    assert tags[0..] == tags;
  }

  lemma OutlookNext(m: Maps, tags: seq<Tag>, out: seq<Tag>, i: nat, begin: nat)
    requires IsMap(m) && Spans(tags) && i < |tags| && Outlook(m, tags, out, i, begin)
    ensures var s := MapSpan(m, SpanOf(tags[i]));
      if Hidden(m, begin, SpanOf(tags[i])) || s.Error? then MapFrom(m, tags, 0).Error?
      else
        InDomain(m, tags[i].begin)
        && Outlook(m, tags, out + [tags[i].(begin := s.value.first, end := s.value.second)], i + 1,
                   RegionOf(m, tags[i].begin))
  {
    hide IsMap, RegionOf, Hidden, PosMap;
    assert tags[i..][0] == tags[i] && tags[i..][1..] == tags[i + 1..];
    assert Spans(tags[i + 1..]);
    if MapSpan(m, SpanOf(tags[i])).Ok? {
      WithinDomain(m, SpanOf(tags[i]));
    }
  }

  lemma OutlookEnd(m: Maps, tags: seq<Tag>, out: seq<Tag>, begin: nat)
    requires IsMap(m) && Spans(tags) && Outlook(m, tags, out, |tags|, begin)
    ensures MapFrom(m, tags, 0) == Ok(out)
  {
    assert MapFrom(m, tags[|tags|..], begin) == Ok([]) && out + [] == out;
  }

  lemma NothingHidden(m: Maps, tags: seq<Tag>)
    requires IsMap(m)
    ensures tags != [] ==> !Hidden(m, 0, SpanOf(tags[0]))
  {
  }

  lemma {:induction false} MapTagsAt(m: Maps, tags: seq<Tag>, i: nat)
    requires IsMap(m) && i < |tags| && Spans(tags) && MapTags(m, tags).Ok?
    ensures InDomain(m, tags[i].end) && |MapTags(m, tags).value| == |tags|
    ensures MapTags(m, tags).value[i]
         == tags[i].(begin := PosMap(m, tags[i].begin), end := PosMap(m, tags[i].end))
    decreases |tags|
  {
    hide IsMap, PosMap;
    if i > 0 {
      MapTagsAt(m, tags[1..], i - 1);
    } else if |tags| > 1 {
      MapTagsAt(m, tags[1..], 0);
    }
  }

  /** Mapped tags keep their order: by begin, and by end. */
  lemma OrderKept(m: Maps, tags: seq<Tag>, i: nat, j: nat)
    requires IsMap(m) && i < |tags| && j < |tags| && Spans(tags) && MapTags(m, tags).Ok?
    ensures |MapTags(m, tags).value| == |tags|
    ensures var s, t := MapTags(m, tags).value[i], MapTags(m, tags).value[j];
      && (s.begin < t.begin <==> tags[i].begin < tags[j].begin)
      && (s.end < t.end <==> tags[i].end < tags[j].end)
      && (IsEmpty(s) <==> IsEmpty(tags[i]))
      && s.name == tags[i].name && s.attrs == tags[i].attrs
  {
    MapTagsAt(m, tags, i);
    MapTagsAt(m, tags, j);
    PosMapIncreases(m, tags[i].begin, tags[j].begin);
    PosMapIncreases(m, tags[i].end, tags[j].end);
    PosMapIncreases(m, tags[i].begin, tags[i].end);
  }

  lemma EmptyIsMap()
    ensures IsMap(EMPTY)
  {
  }
}
