/** The exporter: weaves the tags of a stand-off list into the text they annotate. */
module Export {
  import opened SemiXml

  // What is written at each offset: empty tags at the head of the list, then end tags, then the rest.

  /** The first tag from `k` on that is not an empty tag at `i`. */
  function Lead(tags: seq<Tag>, k: nat, i: nat): (k': nat)
    requires k <= |tags|
    ensures k <= k' <= |tags|
    decreases |tags| - k
  {
    if k < |tags| && tags[k].begin == i && IsEmpty(tags[k]) then Lead(tags, k + 1, i) else k
  }

  /** The first tag from `k` on that does not begin at `i`. */
  function Starts(tags: seq<Tag>, k: nat, i: nat): (k': nat)
    requires k <= |tags|
    ensures k <= k' <= |tags|
    decreases |tags| - k
  {
    if k < |tags| && tags[k].begin == i then Starts(tags, k + 1, i) else k
  }

  function TagEvent(t: Tag): Event {
    if IsEmpty(t) then EmptyEv(t.name, t.attrs) else StartEv(t.name, t.attrs)
  }

  function TagEvents(tags: seq<Tag>, a: nat, b: nat): seq<Event>
    requires a <= b <= |tags|
    decreases b - a
  {
    if a == b then [] else [TagEvent(tags[a])] + TagEvents(tags, a + 1, b)
  }

  /** The names of the first `k` tags that end at `e` without being empty, newest first. */
  function EndNames(tags: seq<Tag>, k: nat, e: nat): seq<string>
    requires k <= |tags|
  {
    if k == 0 then []
    else
      var t, older := tags[k - 1], EndNames(tags, k - 1, e);
      if !IsEmpty(t) && t.end == e then [t.name] + older else older
  }

  function EndEvents(names: seq<string>): seq<Event> {
    if names == [] then [] else [EndEv(names[0])] + EndEvents(names[1..])
  }

  /** What is written from offset `i` on, when the first `k` tags were already written. */
  function EventsFrom(text: string, tags: seq<Tag>, i: nat, k: nat): seq<Event>
    requires i <= |text| && k <= |tags|
    decreases |text| - i
  {
    var k1 := Lead(tags, k, i);
    var k2 := Starts(tags, k1, i);
    TagEvents(tags, k, k1) + EndEvents(EndNames(tags, k1, i)) + TagEvents(tags, k1, k2)
    + if i == |text| then [] else [CharEv(text[i])] + EventsFrom(text, tags, i + 1, k2)
  }

  function Exported(text: string, tags: seq<Tag>): string {
    SerAll(EventsFrom(text, tags, 0, 0))
  }

  /** The lists that can be woven in: spans inside the text, ordered by where they begin. */
  predicate WellPlaced(text: string, tags: seq<Tag>) {
    && (forall i :: 0 <= i < |tags| ==> tags[i].begin <= tags[i].end <= |text|)
    && (forall i, j :: 0 <= i < j < |tags| ==> tags[i].begin <= tags[j].begin)
  }

  // The loops of writeSemiXMLImpl.

  /** The end tags that are due, as far as offset `i` is concerned. */
  ghost predicate Due(endTags: map<nat, seq<string>>, tags: seq<Tag>, k: nat, i: nat)
    requires k <= |tags|
  {
    DueLater(endTags, tags, k, i) && Late(endTags, tags, k, i)
  }

  ghost predicate DueLater(endTags: map<nat, seq<string>>, tags: seq<Tag>, k: nat, i: nat)
    requires k <= |tags|
  {
    && (forall e :: e >= i ==> (e in endTags <==> EndNames(tags, k, e) != []))
    && (forall e :: e >= i && e in endTags ==> endTags[e] == EndNames(tags, k, e))
  }

  /** An end tag that is overdue belongs to a tag that ends before it begins, and any such tag leaves one. */
  ghost predicate Late(endTags: map<nat, seq<string>>, tags: seq<Tag>, k: nat, i: nat)
    requires k <= |tags|
  {
    && (forall e :: e in endTags && e < i ==> exists j :: 0 <= j < k && tags[j].end == e < tags[j].begin)
    && (forall j :: 0 <= j < k && tags[j].end < tags[j].begin ==> exists e :: e in endTags && e < i)
  }

  /** How far the list was consumed when offset `i` is at hand; tags that begin at `i` may be among them. */
  ghost predicate Consumed(tags: seq<Tag>, k: nat, i: nat)
    requires k <= |tags|
  {
    && (forall j :: 0 <= j < k ==> tags[j].begin <= i)
    && (forall a, b :: 0 <= a < b < k ==> tags[a].begin <= tags[b].begin)
    && (k < |tags| && tags[k].begin < i ==> k > 0 && tags[k].begin < tags[k - 1].begin)
  }

  method MinKey(m: map<nat, seq<string>>) returns (e: nat)
    requires m != map[]
    ensures e in m && forall x :: x in m ==> e <= x
  {
    var keys := m.Keys;
    e :| e in keys;
    keys := keys - {e};
    while keys != {}
      invariant keys <= m.Keys && e in m && forall x :: x in m && x !in keys ==> e <= x
      decreases keys
    {
      var x :| x in keys;
      if x < e {
        e := x;
      }
      keys := keys - {x};
    }
  }

  lemma EndStep(names: seq<string>, j: nat)
    requires j < |names|
    ensures SerAll(EndEvents(names[j..])) == "</" + names[j] + ">" + SerAll(EndEvents(names[j + 1..]))
  {
    var rest := EndEvents(names[j + 1..]);
    assert names[j..][1..] == names[j + 1..];
    assert ([EndEv(names[j])] + rest)[1..] == rest;
    assert Ser(EndEv(names[j])) == "<" + ("/" + names[j]) + ">" == "</" + names[j] + ">";
  }

  method WriteEndTags(names: seq<string>) returns (out: string)
    ensures out == SerAll(EndEvents(names))
  {
    hide SerAll, EndEvents;
    out := "";
    assert names[0..] == names;
    for j := 0 to |names|
      invariant out + SerAll(EndEvents(names[j..])) == SerAll(EndEvents(names))
    {
      EndStep(names, j);
      var tag := "</" + names[j] + ">";
      assert out + (tag + SerAll(EndEvents(names[j + 1..]))) == out + tag + SerAll(EndEvents(names[j + 1..]));
      out := out + tag;
    }
    NoEvents();
    assert names[|names|..] == [] && out + "" == out;
  }

  lemma NoEvents()
    ensures SerAll(EndEvents([])) == ""
  {
  }

  lemma {:induction false} EndNamesWitness(tags: seq<Tag>, k: nat, e: nat)
    requires k <= |tags|
    ensures EndNames(tags, k, e) != [] <==> exists j :: 0 <= j < k && !IsEmpty(tags[j]) && tags[j].end == e
    decreases k
  {
    if k > 0 {
      EndNamesWitness(tags, k - 1, e);
    }
  }

  /** An empty tag changes nothing about the end tags that are due. */
  lemma PointDue(endTags: map<nat, seq<string>>, tags: seq<Tag>, k: nat, i: nat)
    requires k < |tags| && IsEmpty(tags[k]) && Due(endTags, tags, k, i)
    ensures Due(endTags, tags, k + 1, i)
  {
    assert forall e :: EndNames(tags, k + 1, e) == EndNames(tags, k, e);
  }

  /** A start tag makes one more end tag due. */
  lemma StartDue(endTags: map<nat, seq<string>>, tags: seq<Tag>, k: nat, i: nat)
    requires k < |tags| && !IsEmpty(tags[k]) && tags[k].begin == i && Due(endTags, tags, k, i + 1)
    ensures Due(Pushed(endTags, tags[k]), tags, k + 1, i + 1)
  {
    hide EndNames, Late;
    NamesOne(tags, k);
    StartLate(endTags, tags, k, i);
  }

  lemma NamesOne(tags: seq<Tag>, k: nat)
    requires k < |tags| && !IsEmpty(tags[k])
    ensures EndNames(tags, k + 1, tags[k].end) == [tags[k].name] + EndNames(tags, k, tags[k].end)
    ensures forall e :: e != tags[k].end ==> EndNames(tags, k + 1, e) == EndNames(tags, k, e)
  {
  }

  lemma StartLate(endTags: map<nat, seq<string>>, tags: seq<Tag>, k: nat, i: nat)
    requires k < |tags| && !IsEmpty(tags[k]) && tags[k].begin == i && Late(endTags, tags, k, i + 1)
    ensures Late(Pushed(endTags, tags[k]), tags, k + 1, i + 1)
  {
    var after := Pushed(endTags, tags[k]);
    forall j | 0 <= j < k + 1 && tags[j].end < tags[j].begin ensures exists e :: e in after && e < i + 1 {
      if j == k {
        assert tags[k].end in after;
      } else {
        var e :| e in endTags && e < i + 1;
        assert e in after;
      }
    }
    forall e | e in after && e < i + 1 ensures exists j :: 0 <= j < k + 1 && tags[j].end == e < tags[j].begin {
      if e == tags[k].end {
        assert tags[k].end == e < tags[k].begin;
      } else {
        var j :| 0 <= j < k && tags[j].end == e < tags[j].begin;
      }
    }
  }

  function Pushed(endTags: map<nat, seq<string>>, t: Tag): map<nat, seq<string>> {
    endTags[t.end := [t.name] + if t.end in endTags then endTags[t.end] else []]
  }

  /** With no end tag overdue, dropping those due now leaves those due later. */
  lemma NextDue(endTags: map<nat, seq<string>>, tags: seq<Tag>, k: nat, i: nat)
    requires k <= |tags| && Due(endTags, tags, k, i) && forall e :: e in endTags ==> i <= e
    ensures Due(endTags - {i}, tags, k, i + 1)
    ensures EndNames(tags, k, i) == if i in endTags then endTags[i] else []
  {
  }

  lemma ConsumeOne(tags: seq<Tag>, k: nat, i: nat)
    requires k < |tags| && Consumed(tags, k, i) && tags[k].begin == i
    ensures Consumed(tags, k + 1, i)
  {
  }

  lemma ConsumeNext(tags: seq<Tag>, k: nat, i: nat)
    requires k <= |tags| && Consumed(tags, k, i) && (k < |tags| ==> tags[k].begin != i)
    ensures Consumed(tags, k, i + 1)
  {
  }

  lemma Overdue(endTags: map<nat, seq<string>>, text: string, tags: seq<Tag>, k: nat, i: nat, e: nat)
    requires k <= |tags| && Due(endTags, tags, k, i) && e in endTags && e < i
    ensures !WellPlaced(text, tags)
  {
  }

  /** A tag left over begins out of order or behind the text. */
  lemma LeftOver(text: string, tags: seq<Tag>, k: nat)
    requires k < |tags| && Consumed(tags, k, |text|) && tags[k].begin != |text|
    ensures !WellPlaced(text, tags)
  {
  }

  /** An end tag left over belongs to a tag that ends behind the text or before its own begin. */
  lemma EndLeftOver(endTags: map<nat, seq<string>>, text: string, tags: seq<Tag>, k: nat, e: nat)
    requires k <= |tags| && Due(endTags, tags, k, |text| + 1) && e in endTags
    ensures !WellPlaced(text, tags)
  {
    if e > |text| {
      EndNamesWitness(tags, k, e);
    }
  }

  lemma AllPlaced(text: string, tags: seq<Tag>)
    requires Due(map[], tags, |tags|, |text| + 1) && Consumed(tags, |tags|, |text|)
    ensures WellPlaced(text, tags)
  {
    forall j | 0 <= j < |tags| ensures tags[j].begin <= tags[j].end <= |text| {
      EndNamesWitness(tags, |tags|, tags[j].end);
    }
  }

  /** What is still to be written, in three stages at each offset. */
  function Tail(text: string, tags: seq<Tag>, i: nat, k: nat): string
    requires i <= |text| && k <= |tags|
  {
    if i == |text| then "" else Escape(text[i]) + SerAll(EventsFrom(text, tags, i + 1, k))
  }

  function AfterEnds(text: string, tags: seq<Tag>, i: nat, k: nat): string
    requires i <= |text| && k <= |tags|
  {
    SerAll(TagEvents(tags, k, Starts(tags, k, i))) + Tail(text, tags, i, Starts(tags, k, i))
  }

  function AfterLead(text: string, tags: seq<Tag>, i: nat, k: nat): string
    requires i <= |text| && k <= |tags|
  {
    SerAll(EndEvents(EndNames(tags, k, i))) + AfterEnds(text, tags, i, k)
  }

  function FromLead(text: string, tags: seq<Tag>, i: nat, k: nat): string
    requires i <= |text| && k <= |tags|
  {
    SerAll(TagEvents(tags, k, Lead(tags, k, i))) + AfterLead(text, tags, i, Lead(tags, k, i))
  }

  lemma Stages(text: string, tags: seq<Tag>, i: nat, k: nat)
    requires i <= |text| && k <= |tags|
    ensures SerAll(EventsFrom(text, tags, i, k)) == FromLead(text, tags, i, k)
  {
    hide SerAll, TagEvents, EndEvents, EndNames;
    var k1 := Lead(tags, k, i);
    var k2 := Starts(tags, k1, i);
    var lead, ends, starts := TagEvents(tags, k, k1), EndEvents(EndNames(tags, k1, i)), TagEvents(tags, k1, k2);
    var rest := if i == |text| then [] else [CharEv(text[i])] + EventsFrom(text, tags, i + 1, k2);
    SerConcat(lead + ends + starts, rest);
    SerConcat(lead + ends, starts);
    SerConcat(lead, ends);
    TailOf(text, tags, i, k2, rest);
    Joined(SerAll(ends), SerAll(starts), SerAll(rest));
    Joined(SerAll(lead), SerAll(ends) + SerAll(starts), SerAll(rest));
    Joined(SerAll(lead), SerAll(ends), SerAll(starts));
  }

  lemma TailOf(text: string, tags: seq<Tag>, i: nat, k: nat, rest: seq<Event>)
    requires i <= |text| && k <= |tags|
    requires rest == if i == |text| then [] else [CharEv(text[i])] + EventsFrom(text, tags, i + 1, k)
    ensures SerAll(rest) == Tail(text, tags, i, k)
  {
    assert i < |text| ==> rest[1..] == EventsFrom(text, tags, i + 1, k);
  }

  lemma LeadOne(text: string, tags: seq<Tag>, i: nat, k: nat)
    requires i <= |text| && k < |tags| && tags[k].begin == i && IsEmpty(tags[k])
    ensures FromLead(text, tags, i, k) == Ser(TagEvent(tags[k])) + FromLead(text, tags, i, k + 1)
  {
    hide AfterLead;
    var k1 := Lead(tags, k, i);
    var rest := TagEvents(tags, k + 1, k1);
    assert ([TagEvent(tags[k])] + rest)[1..] == rest;
    assert Ser(TagEvent(tags[k])) + SerAll(rest) + AfterLead(text, tags, i, k1)
        == Ser(TagEvent(tags[k])) + (SerAll(rest) + AfterLead(text, tags, i, k1));
  }

  lemma LeadDone(text: string, tags: seq<Tag>, i: nat, k: nat)
    requires i <= |text| && k <= |tags| && Lead(tags, k, i) == k
    ensures FromLead(text, tags, i, k) == AfterLead(text, tags, i, k)
  {
    hide AfterLead;
    assert SerAll([]) + AfterLead(text, tags, i, k) == AfterLead(text, tags, i, k);
  }

  lemma StartOne(text: string, tags: seq<Tag>, i: nat, k: nat)
    requires i <= |text| && k < |tags| && tags[k].begin == i
    ensures AfterEnds(text, tags, i, k) == Ser(TagEvent(tags[k])) + AfterEnds(text, tags, i, k + 1)
  {
    hide Tail;
    var k2 := Starts(tags, k, i);
    var rest := TagEvents(tags, k + 1, k2);
    assert ([TagEvent(tags[k])] + rest)[1..] == rest;
    assert Ser(TagEvent(tags[k])) + SerAll(rest) + Tail(text, tags, i, k2)
        == Ser(TagEvent(tags[k])) + (SerAll(rest) + Tail(text, tags, i, k2));
  }

  lemma StartsDone(text: string, tags: seq<Tag>, i: nat, k: nat)
    requires i <= |text| && k <= |tags| && Starts(tags, k, i) == k
    ensures AfterEnds(text, tags, i, k) == Tail(text, tags, i, k)
  {
    assert SerAll([]) + Tail(text, tags, i, k) == Tail(text, tags, i, k);
  }

  lemma Joined(a: string, b: string, c: string)
    ensures a + (b + c) == a + b + c
  {
  }

  /** emptyTagString and startTagString. */
  function TagString(t: Tag): (s: string)
    ensures s == Ser(TagEvent(t))
  {
    "<" + (t.name + (if t.attrs == "" then "" else " " + t.attrs) + if IsEmpty(t) then "/" else "") + ">"
  }

  /** The tags at offset `i`: empty tags, end tags, then the others; an overdue end tag is an error. */
  method WriteTagsAt(text: string, tags: seq<Tag>, i: nat, k: nat, endTags: map<nat, seq<string>>, written: string)
    returns (r: Result<string>, k': nat, endTags': map<nat, seq<string>>)
    requires i <= |text| && k <= |tags| && Due(endTags, tags, k, i) && Consumed(tags, k, i)
    ensures r.Error? ==> !WellPlaced(text, tags)
    ensures k' <= |tags|
    ensures r.Ok? ==> r.value + Tail(text, tags, i, k') == written + SerAll(EventsFrom(text, tags, i, k))
    ensures r.Ok? ==> Due(endTags', tags, k', i + 1) && Consumed(tags, k', i)
    ensures r.Ok? && k' < |tags| ==> tags[k'].begin != i
  {
    hide Due, Consumed, EventsFrom, SerAll, Exported, WellPlaced, Tail, FromLead, AfterLead, AfterEnds, TagString,
         Ser, Escape, EndNames, EndEvents, Pushed;
    var out := written;
    k', endTags' := k, endTags;
    ghost var all := written + SerAll(EventsFrom(text, tags, i, k));
    Stages(text, tags, i, k);
    while k' < |tags| && i == tags[k'].begin && IsEmpty(tags[k'])
      invariant k' <= |tags| && Due(endTags', tags, k', i) && Consumed(tags, k', i)
      invariant out + FromLead(text, tags, i, k') == all
    {
      LeadOne(text, tags, i, k');
      PointDue(endTags', tags, k', i);
      ConsumeOne(tags, k', i);
      Joined(out, TagString(tags[k']), FromLead(text, tags, i, k' + 1));
      out := out + TagString(tags[k']);
      k' := k' + 1;
    }
    LeadDone(text, tags, i, k');
    if endTags' != map[] {
      var e := MinKey(endTags');
      if i > e {
        Overdue(endTags', text, tags, k', i, e);
        return Error, k', endTags';
      }
    }
    NextDue(endTags', tags, k', i);
    EndsThen(text, tags, i, k');
    if i in endTags' {
      var names := endTags'[i];
      endTags' := endTags' - {i};
      var ends := WriteEndTags(names);
      Joined(out, ends, AfterEnds(text, tags, i, k'));
      out := out + ends;
    } else {
      assert endTags' - {i} == endTags';
    }
    while k' < |tags| && i == tags[k'].begin
      invariant k' <= |tags| && Due(endTags', tags, k', i + 1) && Consumed(tags, k', i)
      invariant out + AfterEnds(text, tags, i, k') == all
    {
      StartOne(text, tags, i, k');
      ConsumeOne(tags, k', i);
      Joined(out, TagString(tags[k']), AfterEnds(text, tags, i, k' + 1));
      out := out + TagString(tags[k']);
      if IsEmpty(tags[k']) {
        PointDue(endTags', tags, k', i + 1);
      } else {
        StartDue(endTags', tags, k', i);
        endTags' := Pushed(endTags', tags[k']);
      }
      k' := k' + 1;
    }
    StartsDone(text, tags, i, k');
    return Ok(out), k', endTags';
  }

  /**
   * writeSemiXMLImpl: succeeds exactly on the lists that can be woven in, and then writes at every
   * offset what EventsFrom lists.
   */
  method WriteSemiXml(text: string, tags: seq<Tag>) returns (r: Result<string>)
    ensures r == if WellPlaced(text, tags) then Ok(Exported(text, tags)) else Error
  {
    hide Due, Consumed, EventsFrom, SerAll, Exported, WellPlaced, Escape;
    var out: string, i: nat, k: nat, eof := "", 0, 0, false;
    var endTags: map<nat, seq<string>> := map[];
    Begin(text, tags);
    while !eof
      invariant i <= |text| && k <= |tags|
      invariant Due(endTags, tags, k, if eof then i + 1 else i) && Consumed(tags, k, i)
      invariant !eof ==> out + SerAll(EventsFrom(text, tags, i, k)) == Exported(text, tags)
      invariant eof ==> i == |text| && out == Exported(text, tags) && (k < |tags| ==> tags[k].begin != i)
      decreases |text| - i, !eof
    {
      var r', k', endTags' := WriteTagsAt(text, tags, i, k, endTags, out);
      if r'.Error? {
        return Error;
      }
      out, k, endTags := r'.value, k', endTags';
      if i < |text| {
        ConsumeNext(tags, k, i);
        Joined(out, Escape(text[i]), SerAll(EventsFrom(text, tags, i + 1, k)));
        out := out + Escape(text[i]);
        i := i + 1;
      } else {
        assert out + "" == out;
        eof := true;
      }
    }
    if k < |tags| {
      LeftOver(text, tags, k);
      var begin, end := tags[k].begin, tags[k].end;
      if begin != i || end != i {
        return Error;
      }
      assert false;  // every tag that begins at the end of the text was written in the loop
    }
    if endTags != map[] {
      var e := MinKey(endTags);
      EndLeftOver(endTags, text, tags, k, e);
      LaterEnd(endTags, tags, k, i, e);
      if |endTags| != 1 || e != i {
        return Error;
      }
      assert false;  // every end tag due at the end of the text was written in the loop
    }
    AllPlaced(text, tags);
    return Ok(out);
  }

  lemma Begin(text: string, tags: seq<Tag>)
    ensures Due(map[], tags, 0, 0) && Consumed(tags, 0, 0)
    ensures "" + SerAll(EventsFrom(text, tags, 0, 0)) == Exported(text, tags)
  {
  }

  lemma EndsThen(text: string, tags: seq<Tag>, i: nat, k: nat)
    requires i <= |text| && k <= |tags|
    ensures AfterLead(text, tags, i, k) == SerAll(EndEvents(EndNames(tags, k, i))) + AfterEnds(text, tags, i, k)
    ensures EndNames(tags, k, i) == [] ==> AfterLead(text, tags, i, k) == AfterEnds(text, tags, i, k)
  {
    assert "" + AfterEnds(text, tags, i, k) == AfterEnds(text, tags, i, k);
  }

  lemma LaterEnd(endTags: map<nat, seq<string>>, tags: seq<Tag>, k: nat, i: nat, e: nat)
    requires k <= |tags| && Due(endTags, tags, k, i + 1) && e in endTags && Consumed(tags, k, i)
    ensures e != i
  {
  }
}
