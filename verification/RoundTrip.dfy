/** Importing what was exported: the importer simulates the exporter event by event. */
module RoundTrip {
  import opened SemiXml
  import opened Import
  import opened Export
  import opened Neat
  import Importer
  import Seqs

  // The importer on events.

  /** What the lexer and the parser of names can take apart again. */
  predicate LegibleEvent(ev: Event) {
    match ev
    case CharEv(c) => true
    case EndEv(name) => name != "" && NoSpace(name) && '>' !in name
    case EmptyEv(name, attrs) => SafeText(name, attrs)
    case StartEv(name, attrs) => SafeText(name, attrs)
  }

  predicate LegibleEvents(evs: seq<Event>) {
    forall i :: 0 <= i < |evs| ==> LegibleEvent(evs[i])
  }

  /** A start tag whose inside ends in a slash looks like an empty tag. */
  predicate SafeEvent(ev: Event) {
    LegibleEvent(ev) && (ev.StartEv? ==> Content(ev)[|Content(ev)| - 1] != '/')
  }

  predicate SafeEvents(evs: seq<Event>) {
    forall i :: 0 <= i < |evs| ==> SafeEvent(evs[i])
  }

  function EventStep(st: State, ev: Event): Result<State> {
    match ev
    case CharEv(c) => Ok(if st.phase == Body then st.(text := st.text + [c]) else st)
    case EndEv(name) => if st.phase == Closed then Error else CloseTag(st, name)
    case StartEv(name, attrs) =>
      if st.phase == Closed then Error
      else if st.phase == Seeking && name != "" && (name[0] == '!' || name[0] == '?') then Ok(st)
      else Ok(OpenTag(st, NameAttrs(name, attrs)))
    case EmptyEv(name, attrs) =>
      if st.phase == Closed then Error
      else if st.phase == Seeking && name != "" && (name[0] == '!' || name[0] == '?') then Ok(st)
      else Ok(PointTag(st, NameAttrs(name, attrs)))
  }

  function EventRun(st: State, evs: seq<Event>): Result<State>
    decreases |evs|
  {
    if evs == [] then Ok(st)
    else
      var next := EventStep(st, evs[0]);
      if next.Error? then Error else EventRun(next.value, evs[1..])
  }

  /** What the importer does with the token of an event. */
  function TokenStep(st: State, ev: Event): Result<State> {
    if ev.CharEv? then EventStep(st, ev) else Step(st, TagTok(Content(ev)))
  }

  function TokenRun(st: State, evs: seq<Event>): Result<State>
    decreases |evs|
  {
    if evs == [] then Ok(st)
    else
      var next := TokenStep(st, evs[0]);
      if next.Error? then Error else TokenRun(next.value, evs[1..])
  }

  lemma {:induction false} EventRunConcat(st: State, a: seq<Event>, b: seq<Event>)
    ensures EventRun(st, a + b) == if EventRun(st, a).Error? then Error else EventRun(EventRun(st, a).value, b)
    decreases |a|
  {
    if a == [] {
      assert a + b == b;
    } else {
      assert (a + b)[1..] == a[1..] + b;
      if EventStep(st, a[0]).Ok? {
        EventRunConcat(EventStep(st, a[0]).value, a[1..], b);
      }
    }
  }

  lemma LexTag(content: string, rest: string)
    requires '>' !in content
    ensures Lex("<" + content + ">" + rest)
         == if Lex(rest).Error? then Error else Ok([TagTok(content)] + Lex(rest).value)
  {
    var s := "<" + content + ">" + rest;
    assert s[1..] == content + ['>'] + rest;
    UntilAt(content, '>', rest);
    LexStep(s, |content|);
    hide *;
    assert s[1..|content| + 1] == content && s[|content| + 2..] == rest;
  }

  lemma LexText(a: string, rest: string)
    requires a != "" && '<' !in a
    ensures rest == "" || rest[0] == '<' ==>
              Lex(a + rest) == if Lex(rest).Error? then Error else Ok([Text(a)] + Lex(rest).value)
    ensures rest != "" && rest[0] != '<' && Lex(rest).Ok? ==>
              Lex(rest).value != [] && Lex(rest).value[0].Text?
              && Lex(a + rest) == Ok([Text(a + Lex(rest).value[0].s)] + Lex(rest).value[1..])
  {
    var n := Until(rest, '<');
    UntilPast(a, rest, '<');
    LexRun(a + rest, |a| + n);
    TextParts(a, rest, n);
    if rest == "" || rest[0] == '<' {
      assert n == 0;
    } else {
      LexRun(rest, n);
    }
    hide *;
  }

  lemma TextParts(a: string, rest: string, n: nat)
    requires n <= |rest|
    ensures (a + rest)[..|a| + n] == a + rest[..n] && (a + rest)[|a| + n..] == rest[n..]
    ensures n == 0 ==> a + rest[..n] == a && rest[n..] == rest
  {
  }

  lemma EscapeHasNoTag(c: char)
    ensures '<' !in Escape(c) && Escape(c) != ""
  {
  }

  /** A character in front: it joins the text token behind it, or makes one of its own. */
  lemma RunChar(st: State, c: char, rest: string)
    requires Lex(rest).Ok?
    ensures Lex(Escape(c) + rest).Ok?
    ensures Run(st, Lex(Escape(c) + rest).value)
         == Run(EventStep(st, CharEv(c)).value, Lex(rest).value)
  {
    hide Lex, Plain, Escape;
    EscapeHasNoTag(c);
    LexText(Escape(c), rest);
    var toks := Lex(rest).value;
    if rest == "" || rest[0] == '<' {
      assert Escape(c) + "" == Escape(c);
      PlainEscape(c, "");
      PlainNothing();
      TextFirst(st, c, Escape(c), "", toks);
      assert ([Text(Escape(c))] + toks)[1..] == toks;
    } else {
      var s := toks[0].s;
      PlainEscape(c, s);
      assert ([Text(Escape(c) + s)] + toks[1..])[1..] == toks[1..];
      if Plain(s).Ok? {
        assert st.text + ([c] + Plain(s).value) == st.text + [c] + Plain(s).value;
      }
    }
  }

  lemma PlainNothing()
    ensures Plain("") == Ok("")
  {
  }

  lemma TextFirst(st: State, c: char, esc: string, s: string, toks: seq<Token>)
    requires Plain(esc) == Ok([c] + s) && s == ""
    ensures Step(st, Text(esc)) == EventStep(st, CharEv(c))
  {
    assert [c] + s == [c];
  }

  lemma ContentSafe(ev: Event)
    requires !ev.CharEv? && LegibleEvent(ev)
    ensures '>' !in Content(ev) && Content(ev) != "" && !IsSpace(Content(ev)[0])
  {
  }

  lemma TagStep(st: State, ev: Event)
    requires !ev.CharEv? && SafeEvent(ev)
    ensures Step(st, TagTok(Content(ev))) == EventStep(st, ev)
  {
    hide ParseTag, OpenTag, PointTag, CloseTag;
    var tag := Content(ev);
    match ev {
      case EndEv(name) =>
        assert tag[|tag| - 1] == name[|name| - 1];
        assert StripEnd(tag) == |name| && tag[1..|name| + 1] == name;
      case StartEv(name, attrs) =>
        ParseBack(name, attrs);
      case EmptyEv(name, attrs) =>
        ParseBack(name, attrs);
        assert tag[..|tag| - 1] == name + (if attrs == "" then "" else " " + attrs);
      case CharEv(c) =>
    }
  }

  /** The importer on the text of legible events handles one event after the other. */
  lemma {:induction false} ReadEvents(st: State, evs: seq<Event>)
    requires LegibleEvents(evs)
    ensures Lex(SerAll(evs)).Ok?
    ensures Run(st, Lex(SerAll(evs)).value) == TokenRun(st, evs)
    decreases |evs|
  {
    hide Lex, Step, EventStep, Escape, LegibleEvent;
    if evs == [] {
      LexNothing();
    } else {
      var ev, rest := evs[0], SerAll(evs[1..]);
      assert LegibleEvents(evs[1..]);
      if ev.CharEv? {
        CharAlways(st, ev.c);
        ReadEvents(EventStep(st, ev).value, evs[1..]);
        RunChar(st, ev.c, rest);
      } else {
        ReadEvents(st, evs[1..]);
        ContentSafe(ev);
        LexTag(Content(ev), rest);
        var toks := Lex(rest).value;
        assert ([TagTok(Content(ev))] + toks)[1..] == toks;
        if TokenStep(st, ev).Ok? {
          ReadEvents(TokenStep(st, ev).value, evs[1..]);
        }
      }
    }
  }

  lemma {:induction false} TokensAreEvents(st: State, evs: seq<Event>)
    requires SafeEvents(evs)
    ensures LegibleEvents(evs) && TokenRun(st, evs) == EventRun(st, evs)
    decreases |evs|
  {
    if evs != [] {
      hide Step, EventStep, LegibleEvent;
      if !evs[0].CharEv? {
        TagStep(st, evs[0]);
      }
      if EventStep(st, evs[0]).Ok? {
        TokensAreEvents(EventStep(st, evs[0]).value, evs[1..]);
      }
    }
  }

  /** The importer on the text of safe events does what each event asks for. */
  lemma RunEvents(st: State, evs: seq<Event>)
    requires SafeEvents(evs)
    ensures Lex(SerAll(evs)).Ok?
    ensures Run(st, Lex(SerAll(evs)).value) == EventRun(st, evs)
  {
    TokensAreEvents(st, evs);
    ReadEvents(st, evs);
  }

  lemma CharAlways(st: State, c: char)
    ensures EventStep(st, CharEv(c)).Ok?
  {
  }

  lemma LexNothing()
    ensures Lex("") == Ok([])
  {
  }

  // The exporter's events, seen from the importer.

  /** Tag `j` has had its end tag, when at offset `i` the end tags down to index `m` were written. */
  predicate Done(tags: seq<Tag>, j: nat, i: nat, m: nat)
    requires j < |tags|
  {
    IsEmpty(tags[j]) || tags[j].end < i || (tags[j].end == i && j >= m)
  }

  /** The tags of a name, among the first `k`, that are still open. */
  function Opens(tags: seq<Tag>, name: string, k: nat, i: nat, m: nat): seq<nat>
    requires k <= |tags|
  {
    if k == 0 then []
    else
      Opens(tags, name, k - 1, i, m)
      + if tags[k - 1].name == name && !Done(tags, k - 1, i, m) then [k - 1] else []
  }

  ghost predicate Copied(st: State, tags: seq<Tag>, i: nat, k: nat, m: nat)
    requires k <= |tags|
  {
    && |st.tags| == k
    && forall j :: 0 <= j < k ==>
         st.tags[j] == tags[j].(end := if Done(tags, j, i, m) then tags[j].end else DUMMY_END)
  }

  ghost predicate StacksOf(st: State, tags: seq<Tag>, i: nat, k: nat, m: nat)
    requires k <= |tags|
  {
    forall name :: StackOf(st.stacks, name) == Opens(tags, name, k, i, m)
  }

  predicate PhaseIs(st: State, tags: seq<Tag>, i: nat, k: nat, m: nat)
    requires k <= |tags|
  {
    st.phase == if k == 0 then Seeking else if !IsEmpty(tags[0]) && Done(tags, 0, i, m) then Closed else Body
  }

  /** The importer's state when the exporter has written `k` tags, up to offset `i` and end tag `m`. */
  ghost predicate Sim(st: State, text: string, tags: seq<Tag>, i: nat, k: nat, m: nat)
    requires i <= |text| && k <= |tags|
  {
    st.text == text[..i] && Copied(st, tags, i, k, m) && StacksOf(st, tags, i, k, m) && PhaseIs(st, tags, i, k, m)
  }

  lemma {:induction false} SameOpens(tags: seq<Tag>, name: string, k: nat, i: nat, m: nat, i': nat, m': nat)
    requires k <= |tags|
    requires forall j :: 0 <= j < k && tags[j].name == name ==> Done(tags, j, i, m) == Done(tags, j, i', m')
    ensures Opens(tags, name, k, i, m) == Opens(tags, name, k, i', m')
  {
    if k > 0 {
      SameOpens(tags, name, k - 1, i, m, i', m');
    }
  }

  /** With everything from `m` on done, the open tags are those below `m`. */
  lemma {:induction false} OpensBelow(tags: seq<Tag>, name: string, k: nat, i: nat, m: nat, b: nat)
    requires b <= k <= |tags|
    requires forall j :: b <= j < k && tags[j].name == name ==> Done(tags, j, i, m)
    ensures Opens(tags, name, k, i, m) == Opens(tags, name, b, i, m)
    decreases k
  {
    if k > b {
      OpensBelow(tags, name, k - 1, i, m, b);
      assert Opens(tags, name, k - 1, i, m) + [] == Opens(tags, name, k - 1, i, m);
    }
  }

  /** Moving the point of view without an end tag in between. */
  lemma SimSame(st: State, text: string, tags: seq<Tag>, i: nat, k: nat, m: nat, i': nat, m': nat)
    requires i <= |text| && i' <= |text| && k <= |tags|
    requires Copied(st, tags, i, k, m) && StacksOf(st, tags, i, k, m) && PhaseIs(st, tags, i, k, m)
    requires st.text == text[..i']
    requires forall j :: 0 <= j < k ==> Done(tags, j, i, m) == Done(tags, j, i', m')
    ensures Sim(st, text, tags, i', k, m')
  {
    forall name ensures StackOf(st.stacks, name) == Opens(tags, name, k, i', m') {
      SameOpens(tags, name, k, i, m, i', m');
    }
  }

  /** A tag that begins here and does not end here yet. */
  lemma SimTag(st: State, text: string, tags: seq<Tag>, i: nat, k: nat, m: nat)
    requires i <= |text| && k < |tags| && Sim(st, text, tags, i, k, m)
    requires tags[k].begin == i <= tags[k].end && st.phase != Closed && (k == 0 ==> !Marked(tags[0]))
    ensures EventStep(st, TagEvent(tags[k])).Ok?
    ensures Sim(EventStep(st, TagEvent(tags[k])).value, text, tags, i, k + 1, m)
  {
    hide Opens;
    var t := tags[k];
    var st' := EventStep(st, TagEvent(t)).value;
    forall name ensures StackOf(st'.stacks, name) == Opens(tags, name, k + 1, i, m) {
      OpensOne(tags, name, k, i, m);
      assert StackOf(st.stacks, name) == Opens(tags, name, k, i, m);
    }
  }

  lemma OpensOne(tags: seq<Tag>, name: string, k: nat, i: nat, m: nat)
    requires k < |tags|
    ensures Opens(tags, name, k + 1, i, m)
         == if tags[k].name == name && !Done(tags, k, i, m) then Opens(tags, name, k, i, m) + [k]
            else Opens(tags, name, k, i, m)
  {
  }

  /** The end tag of tag `m - 1`: it is the newest open tag of its name, because no two of them cross. */
  lemma SimEnd(st: State, text: string, tags: seq<Tag>, i: nat, k: nat, m: nat)
    requires i <= |text| && 0 < m <= k <= |tags| && Sim(st, text, tags, i, k, m)
    requires !IsEmpty(tags[m - 1]) && tags[m - 1].end == i && st.phase != Closed && NoCrossing(tags)
    requires forall j :: 0 <= j < k && !IsEmpty(tags[j]) ==> tags[j].begin < i
    ensures EventStep(st, EndEv(tags[m - 1].name)).Ok?
    ensures Sim(EventStep(st, EndEv(tags[m - 1].name)).value, text, tags, i, k, m - 1)
  {
    hide Opens;
    var t, ix := tags[m - 1], m - 1;
    TopIs(tags, i, k, m);
    var stack := Opens(tags, t.name, ix, i, m - 1);
    assert StackOf(st.stacks, t.name) == stack + [ix];
    assert (stack + [ix])[..|stack|] == stack;
    var st' := EventStep(st, EndEv(t.name)).value;
    forall name ensures StackOf(st'.stacks, name) == Opens(tags, name, k, i, m - 1) {
      assert StackOf(st.stacks, name) == Opens(tags, name, k, i, m);
      if name != t.name {
        SameOpens(tags, name, k, i, m, i, m - 1);
      }
    }
  }

  lemma TopIs(tags: seq<Tag>, i: nat, k: nat, m: nat)
    requires 0 < m <= k <= |tags|
    requires !IsEmpty(tags[m - 1]) && tags[m - 1].end == i && NoCrossing(tags)
    requires forall j :: 0 <= j < k && !IsEmpty(tags[j]) ==> tags[j].begin < i
    ensures Opens(tags, tags[m - 1].name, k, i, m) == Opens(tags, tags[m - 1].name, m - 1, i, m - 1) + [m - 1]
    ensures Opens(tags, tags[m - 1].name, k, i, m - 1) == Opens(tags, tags[m - 1].name, m - 1, i, m - 1)
  {
    hide Opens;
    var name := tags[m - 1].name;
    forall j | m <= j < k && tags[j].name == name ensures Done(tags, j, i, m) {
      assert IsEmpty(tags[j]) || tags[m - 1].end <= tags[j].begin || tags[j].end <= tags[m - 1].end;
    }
    OpensBelow(tags, name, k, i, m, m);
    OpensOne(tags, name, m - 1, i, m);
    SameOpens(tags, name, m - 1, i, m, i, m - 1);
    OpensBelow(tags, name, k, i, m - 1, m - 1);
  }

  /** All the end tags due at an offset, newest first. */
  lemma {:induction false} SimEnds(st: State, text: string, tags: seq<Tag>, i: nat, k: nat, m: nat)
    requires i <= |text| && m <= k <= |tags| && Sim(st, text, tags, i, k, m)
    requires NoCrossing(tags) && (m > 0 ==> st.phase != Closed)
    requires forall j :: 0 <= j < k && !IsEmpty(tags[j]) ==> tags[j].begin < i
    ensures EventRun(st, EndEvents(EndNames(tags, m, i))).Ok?
    ensures Sim(EventRun(st, EndEvents(EndNames(tags, m, i))).value, text, tags, i, k, 0)
    decreases m
  {
    hide Sim, NoCrossing, EventStep;
    if m > 0 {
      if !IsEmpty(tags[m - 1]) && tags[m - 1].end == i {
        SimEnd(st, text, tags, i, k, m);
        var st' := EventStep(st, EndEv(tags[m - 1].name)).value;
        if m > 1 {
          EndStaysOpen(st, st', text, tags, i, k, m);
        }
        var older := EndEvents(EndNames(tags, m - 1, i));
        EndEventsFirst(tags, m, i);
        hide EndNames, EndEvents;
        SimEnds(st', text, tags, i, k, m - 1);
        RunFirst(st, EndEv(tags[m - 1].name), older);
      } else {
        SimSkip(st, text, tags, i, k, m);
        hide EventRun, EndEvents;
        SimEnds(st, text, tags, i, k, m - 1);
      }
    }
  }

  /** Only the last end tag closes the document. */
  lemma EndStaysOpen(st: State, st': State, text: string, tags: seq<Tag>, i: nat, k: nat, m: nat)
    requires i <= |text| && 1 < m <= k <= |tags| && st.phase != Closed
    requires Sim(st, text, tags, i, k, m) && Sim(st', text, tags, i, k, m - 1)
    ensures st'.phase != Closed
  {
  }

  /** A tag that does not end here. */
  lemma SimSkip(st: State, text: string, tags: seq<Tag>, i: nat, k: nat, m: nat)
    requires i <= |text| && 0 < m <= k <= |tags| && Sim(st, text, tags, i, k, m)
    requires IsEmpty(tags[m - 1]) || tags[m - 1].end != i
    ensures Sim(st, text, tags, i, k, m - 1)
  {
    SimSame(st, text, tags, i, k, m, i, m - 1);
  }

  lemma EndEventsFirst(tags: seq<Tag>, m: nat, i: nat)
    requires 0 < m <= |tags| && !IsEmpty(tags[m - 1]) && tags[m - 1].end == i
    ensures EndEvents(EndNames(tags, m, i)) == [EndEv(tags[m - 1].name)] + EndEvents(EndNames(tags, m - 1, i))
  {
    assert EndNames(tags, m, i)[1..] == EndNames(tags, m - 1, i);
  }

  lemma RunFirst(st: State, ev: Event, evs: seq<Event>)
    requires EventStep(st, ev).Ok?
    ensures EventRun(st, [ev] + evs) == EventRun(EventStep(st, ev).value, evs)
  {
    hide EventStep;
    Seqs.ConsTail(ev, evs);
  }

  lemma PhaseAt(st: State, text: string, tags: seq<Tag>, i: nat, k: nat, m: nat)
    requires i <= |text| && k <= |tags| && Sim(st, text, tags, i, k, m)
    ensures st.phase == Closed <==> k > 0 && !IsEmpty(tags[0]) && Done(tags, 0, i, m)
  {
  }

  /** A run of tags that begin at the same offset. */
  lemma {:induction false} SimTags(st: State, text: string, tags: seq<Tag>, i: nat, a: nat, b: nat, m: nat)
    requires i <= |text| && a <= b <= |tags| && Sim(st, text, tags, i, a, m) && WellPlaced(text, tags)
    requires forall j :: a <= j < b ==> tags[j].begin == i
    requires st.phase != Closed && (tags != [] ==> !Marked(tags[0]))
    requires b > 0 && !IsEmpty(tags[0]) ==> !Done(tags, 0, i, m)
    ensures EventRun(st, TagEvents(tags, a, b)).Ok?
    ensures Sim(EventRun(st, TagEvents(tags, a, b)).value, text, tags, i, b, m)
    ensures EventRun(st, TagEvents(tags, a, b)).value.phase != Closed
    decreases b - a
  {
    hide Sim, Marked, EndNames;
    if a < b {
      PhaseAt(st, text, tags, i, a, m);
      SimTag(st, text, tags, i, a, m);
      var st' := EventStep(st, TagEvent(tags[a])).value;
      PhaseAt(st', text, tags, i, a + 1, m);
      SimTags(st', text, tags, i, a + 1, b, m);
      assert TagEvents(tags, a, b)[1..] == TagEvents(tags, a + 1, b);
    }
  }

  /** The start tag of `t` looks like an empty tag. */
  predicate EndsInSlash(t: Tag)
    requires t.name != ""
  {
    var content := Content(StartEv(t.name, t.attrs));
    !IsEmpty(t) && content[|content| - 1] == '/'
  }

  predicate NoSlash(tags: seq<Tag>)
    requires Named(tags)
  {
    forall j :: 0 <= j < |tags| ==> !EndsInSlash(tags[j])
  }

  predicate Safe(tags: seq<Tag>) {
    Named(tags) && NoSlash(tags)
  }

  ghost predicate Exportable(text: string, tags: seq<Tag>) {
    WellPlaced(text, tags) && Safe(tags) && Rooted(text, tags) && NoCrossing(tags)
  }

  /** The first `k` tags are those that begin before `i`. */
  predicate Reached(tags: seq<Tag>, i: nat, k: nat)
    requires k <= |tags|
  {
    && (forall j :: 0 <= j < k ==> tags[j].begin < i)
    && (forall j :: k <= j < |tags| ==> i <= tags[j].begin)
  }

  lemma {:induction false} LeadIs(tags: seq<Tag>, k: nat, i: nat)
    requires k <= |tags|
    ensures forall j :: k <= j < Lead(tags, k, i) ==> tags[j].begin == i && IsEmpty(tags[j])
    ensures Lead(tags, k, i) < |tags| ==> !(tags[Lead(tags, k, i)].begin == i && IsEmpty(tags[Lead(tags, k, i)]))
    decreases |tags| - k
  {
    if k < |tags| && tags[k].begin == i && IsEmpty(tags[k]) {
      LeadIs(tags, k + 1, i);
    }
  }

  lemma {:induction false} StartsIs(tags: seq<Tag>, k: nat, i: nat)
    requires k <= |tags|
    ensures forall j :: k <= j < Starts(tags, k, i) ==> tags[j].begin == i
    ensures Starts(tags, k, i) < |tags| ==> tags[Starts(tags, k, i)].begin != i
    decreases |tags| - k
  {
    if k < |tags| && tags[k].begin == i {
      StartsIs(tags, k + 1, i);
    }
  }

  lemma AtEnd(text: string, tags: seq<Tag>, k: nat)
    requires k <= |tags| && WellPlaced(text, tags) && Reached(tags, |text|, k)
    ensures forall j :: k <= j < |tags| ==> tags[j].begin == |text| && IsEmpty(tags[j])
  {
    assert forall j :: k <= j < |tags| ==> tags[j].begin == |text| == tags[j].end;
  }

  /** The tags at an offset, in front of, at, and behind the end tags. */
  lemma OffsetTags(text: string, tags: seq<Tag>, i: nat, k: nat)
    requires i <= |text| && k <= |tags| && WellPlaced(text, tags) && Reached(tags, i, k)
    ensures var k1 := Lead(tags, k, i);
      var k2 := Starts(tags, k1, i);
      && (forall j :: k <= j < k1 ==> tags[j].begin == i && IsEmpty(tags[j]))
      && (forall j :: k1 <= j < k2 ==> tags[j].begin == i)
      && Reached(tags, i + 1, k2) && (i == |text| ==> k1 == k2 == |tags|)
  {
    LeadIs(tags, k, i);
    var k1 := Lead(tags, k, i);
    StartsIs(tags, k1, i);
    if i == |text| {
      AtEnd(text, tags, k);
    }
  }

  /** Until the end of the text the root is open. */
  lemma NotClosed(st: State, text: string, tags: seq<Tag>, i: nat, k: nat, m: nat)
    requires i <= |text| && k <= |tags| && Sim(st, text, tags, i, k, m) && Rooted(text, tags)
    requires i < |text| || m > 0
    ensures st.phase != Closed
    ensures k > 0 && !IsEmpty(tags[0]) ==> !Done(tags, 0, i, m)
  {
  }

  lemma OffsetRun(st: State, text: string, tags: seq<Tag>, i: nat, k: nat)
    returns (st': State, k1: nat, k2: nat)
    requires i <= |text| && k <= |tags| && Exportable(text, tags)
    requires Sim(st, text, tags, i, k, |tags|) && Reached(tags, i, k)
    ensures k1 == Lead(tags, k, i) && k2 == Starts(tags, k1, i)
    ensures EventRun(st, TagEvents(tags, k, k1) + EndEvents(EndNames(tags, k1, i)) + TagEvents(tags, k1, k2)) == Ok(st')
    ensures Sim(st', text, tags, i, k2, 0) && Reached(tags, i + 1, k2)
    ensures i == |text| ==> k2 == |tags|
  {
    hide Sim, EventRun, EndEvents, EndNames, TagEvents, Rooted, NoCrossing, SafeEvent, WellPlaced;
    OffsetTags(text, tags, i, k);
    k1 := Lead(tags, k, i);
    k2 := Starts(tags, k1, i);
    st' := st;
    if tags == [] {
      NoTags(st, text, tags, i);
    } else {
      NotClosed(st, text, tags, i, k, |tags|);
      RootOpen(text, tags, i);
      SimTags(st, text, tags, i, k, k1, |tags|);
      var st1 := EventRun(st, TagEvents(tags, k, k1)).value;
      SimDown(st1, text, tags, i, k1);
      SimEnds(st1, text, tags, i, k1, k1);
      var st2 := EventRun(st1, EndEvents(EndNames(tags, k1, i))).value;
      if i < |text| {
        NotClosed(st2, text, tags, i, k1, 0);
        RootOpen(text, tags, i);
        SimTags(st2, text, tags, i, k1, k2, 0);
      } else {
        NoneLeft(st2, tags, k1);
      }
      st' := EventRun(st2, TagEvents(tags, k1, k2)).value;
      EventRunConcat(st, TagEvents(tags, k, k1), EndEvents(EndNames(tags, k1, i)));
      EventRunConcat(st, TagEvents(tags, k, k1) + EndEvents(EndNames(tags, k1, i)), TagEvents(tags, k1, k2));
    }
  }

  lemma NoneLeft(st: State, tags: seq<Tag>, k: nat)
    requires k <= |tags|
    ensures EventRun(st, TagEvents(tags, k, k)) == Ok(st)
  {
  }

  lemma NoTags(st: State, text: string, tags: seq<Tag>, i: nat)
    requires tags == [] && i <= |text| && Sim(st, text, tags, i, 0, 0)
    ensures EventRun(st, TagEvents(tags, 0, 0) + EndEvents(EndNames(tags, 0, i)) + TagEvents(tags, 0, 0)) == Ok(st)
  {
  }

  lemma RootOpen(text: string, tags: seq<Tag>, i: nat)
    requires tags != [] && i <= |text| && Rooted(text, tags)
    ensures !IsEmpty(tags[0]) ==> !Done(tags, 0, i, |tags|)
    ensures i < |text| && !IsEmpty(tags[0]) ==> !Done(tags, 0, i, 0)
  {
  }

  lemma SimDown(st: State, text: string, tags: seq<Tag>, i: nat, k: nat)
    requires i <= |text| && k <= |tags| && Sim(st, text, tags, i, k, |tags|)
    ensures Sim(st, text, tags, i, k, k)
  {
    SimSame(st, text, tags, i, k, |tags|, i, k);
  }

  lemma SimChar(st: State, text: string, tags: seq<Tag>, i: nat, k: nat)
    requires i < |text| && k <= |tags| && Sim(st, text, tags, i, k, 0)
    requires Rooted(text, tags) && Reached(tags, i + 1, k)
    ensures Sim(EventStep(st, CharEv(text[i])).value, text, tags, i + 1, k, |tags|)
  {
    var st' := EventStep(st, CharEv(text[i])).value;
    assert st.phase == Body;
    assert text[..i] + [text[i]] == text[..i + 1];
    assert StacksOf(st', tags, i, k, 0) by {
      assert StacksOf(st, tags, i, k, 0);
    }
    SimSame(st', text, tags, i, k, 0, i + 1, |tags|);
  }

  lemma {:induction false} SimAll(st: State, text: string, tags: seq<Tag>, i: nat, k: nat)
    requires i <= |text| && k <= |tags| && Exportable(text, tags)
    requires Sim(st, text, tags, i, k, |tags|) && Reached(tags, i, k)
    ensures EventRun(st, EventsFrom(text, tags, i, k)).Ok?
    ensures Sim(EventRun(st, EventsFrom(text, tags, i, k)).value, text, tags, |text|, |tags|, 0)
    decreases |text| - i
  {
    hide Sim, Reached, Exportable, EndEvents, EndNames, TagEvents, EventRun, EventStep;
    var st', k1, k2 := OffsetRun(st, text, tags, i, k);
    var here := TagEvents(tags, k, k1) + EndEvents(EndNames(tags, k1, i)) + TagEvents(tags, k1, k2);
    if i == |text| {
      assert here + [] == here;
    } else {
      assert Rooted(text, tags) by {
        RootedOf(text, tags);
      }
      SimChar(st', text, tags, i, k2);
      CharAlways(st', text[i]);
      var st'' := EventStep(st', CharEv(text[i])).value;
      SimAll(st'', text, tags, i + 1, k2);
      var rest := EventsFrom(text, tags, i + 1, k2);
      EventRunConcat(st, here, [CharEv(text[i])] + rest);
      CharFirst(st', text[i], rest);
    }
  }

  lemma RootedOf(text: string, tags: seq<Tag>)
    requires Exportable(text, tags)
    ensures Rooted(text, tags)
  {
  }

  lemma CharFirst(st: State, c: char, rest: seq<Event>)
    ensures EventRun(st, [CharEv(c)] + rest) == EventRun(EventStep(st, CharEv(c)).value, rest)
  {
    assert ([CharEv(c)] + rest)[1..] == rest;
  }

  lemma {:induction false} NoneOpen(text: string, tags: seq<Tag>, name: string, k: nat)
    requires k <= |tags| && WellPlaced(text, tags)
    ensures Opens(tags, name, k, |text|, 0) == []
  {
    if k > 0 {
      NoneOpen(text, tags, name, k - 1);
    }
  }

  /** Only legible events are written. */
  lemma {:induction false} EndsLegible(tags: seq<Tag>, k: nat, e: nat)
    requires k <= |tags| && Named(tags)
    ensures LegibleEvents(EndEvents(EndNames(tags, k, e)))
  {
    hide Named, LegibleEvent;
    if k > 0 {
      hide LegibleEvents, EndEvents, EndNames;
      EndsLegible(tags, k - 1, e);
      EndsLegibleOne(tags, k, e);
    }
  }

  lemma EndsLegibleOne(tags: seq<Tag>, k: nat, e: nat)
    requires 0 < k <= |tags| && Named(tags) && LegibleEvents(EndEvents(EndNames(tags, k - 1, e)))
    ensures LegibleEvents(EndEvents(EndNames(tags, k, e)))
  {
    var names := EndNames(tags, k - 1, e);
    if !IsEmpty(tags[k - 1]) && tags[k - 1].end == e {
      assert LegibleEvent(TagEvent(tags[k - 1]));
      assert ([tags[k - 1].name] + names)[1..] == names;
    } else {
      assert EndNames(tags, k, e) == names;
    }
  }

  lemma TagLegible(tags: seq<Tag>, j: nat)
    requires j < |tags| && Named(tags)
    ensures LegibleEvent(TagEvent(tags[j]))
  {
  }

  lemma {:induction false} TagsLegible(tags: seq<Tag>, a: nat, b: nat)
    requires a <= b <= |tags| && Named(tags)
    ensures LegibleEvents(TagEvents(tags, a, b))
    decreases b - a
  {
    hide Named, LegibleEvent, TagEvent;
    if a < b {
      TagLegible(tags, a);
      TagsLegible(tags, a + 1, b);
    }
  }

  lemma {:induction false} AllLegible(text: string, tags: seq<Tag>, i: nat, k: nat)
    requires i <= |text| && k <= |tags| && Named(tags)
    ensures LegibleEvents(EventsFrom(text, tags, i, k))
    decreases |text| - i
  {
    hide Named, LegibleEvent, EndEvents, EndNames, TagEvents;
    var k1 := Lead(tags, k, i);
    var k2 := Starts(tags, k1, i);
    TagsLegible(tags, k, k1);
    EndsLegible(tags, k1, i);
    TagsLegible(tags, k1, k2);
    if i < |text| {
      AllLegible(text, tags, i + 1, k2);
      CharLegible(text[i]);
    }
  }

  lemma CharLegible(c: char)
    ensures LegibleEvent(CharEv(c))
  {
  }

  /** The start tags and empty tags among the events. */
  function TagsOf(evs: seq<Event>): seq<Event> {
    if evs == [] then []
    else if evs[0].StartEv? || evs[0].EmptyEv? then [evs[0]] + TagsOf(evs[1..])
    else TagsOf(evs[1..])
  }

  lemma TagsOfCons(ev: Event, rest: seq<Event>)
    ensures TagsOf([ev] + rest) == if ev.StartEv? || ev.EmptyEv? then [ev] + TagsOf(rest) else TagsOf(rest)
  {
    Seqs.ConsTail(ev, rest);
  }

  lemma {:induction false} TagsConcat(a: seq<Event>, b: seq<Event>)
    ensures TagsOf(a + b) == TagsOf(a) + TagsOf(b)
  {
    if a == [] {
      assert a + b == b;
    } else {
      assert (a + b)[0] == a[0] && (a + b)[1..] == a[1..] + b;
      TagsConcat(a[1..], b);
      Seqs.Assoc([a[0]], TagsOf(a[1..]), TagsOf(b));
    }
  }

  lemma {:induction false} TagsOfEnds(names: seq<string>)
    ensures TagsOf(EndEvents(names)) == []
  {
    if names != [] {
      TagsOfEnds(names[1..]);
      assert EndEvents(names)[1..] == EndEvents(names[1..]);
    }
  }

  lemma {:induction false} TagsOfTags(tags: seq<Tag>, a: nat, b: nat)
    requires a <= b <= |tags|
    ensures TagsOf(TagEvents(tags, a, b)) == TagEvents(tags, a, b)
    decreases b - a
  {
    if a < b {
      TagsOfTags(tags, a + 1, b);
      TagsOfCons(TagEvent(tags[a]), TagEvents(tags, a + 1, b));
    }
  }

  lemma {:induction false} TagEventsJoin(tags: seq<Tag>, a: nat, b: nat, c: nat)
    requires a <= b <= c <= |tags|
    ensures TagEvents(tags, a, b) + TagEvents(tags, b, c) == TagEvents(tags, a, c)
    decreases b - a
  {
    if a < b {
      TagEventsJoin(tags, a + 1, b, c);
    }
  }

  lemma {:induction false} TagEventsAt(tags: seq<Tag>, a: nat, b: nat, j: nat)
    requires a <= j < b <= |tags|
    ensures |TagEvents(tags, a, b)| == b - a && TagEvents(tags, a, b)[j - a] == TagEvent(tags[j])
    decreases b - a
  {
    if a + 1 < b {
      TagEventsAt(tags, a + 1, b, if j == a then a + 1 else j);
    }
  }

  /** Every tag of the list is written once, in the order of the list. */
  lemma {:induction false} TagsOfEvents(text: string, tags: seq<Tag>, i: nat, k: nat)
    requires i <= |text| && k <= |tags| && WellPlaced(text, tags) && Reached(tags, i, k)
    ensures TagsOf(EventsFrom(text, tags, i, k)) == TagEvents(tags, k, |tags|)
    decreases |text| - i
  {
    hide Reached, WellPlaced, EndEvents, EndNames, TagEvents, TagsOf;
    OffsetTags(text, tags, i, k);
    var k1 := Lead(tags, k, i);
    var k2 := Starts(tags, k1, i);
    var a, e, b := TagEvents(tags, k, k1), EndEvents(EndNames(tags, k1, i)), TagEvents(tags, k1, k2);
    TagsConcat(a, e);
    TagsConcat(a + e, b);
    TagsOfTags(tags, k, k1);
    TagsOfEnds(EndNames(tags, k1, i));
    TagsOfTags(tags, k1, k2);
    TagEventsJoin(tags, k, k1, k2);
    assert a + [] == a;
    if i == |text| {
      assert a + e + b + [] == a + e + b;
    } else {
      var rest := EventsFrom(text, tags, i + 1, k2);
      TagsOfEvents(text, tags, i + 1, k2);
      TagsConcat(a + e + b, [CharEv(text[i])] + rest);
      TagsOfChar(text[i], rest);
      TagEventsJoin(tags, k, k2, |tags|);
    }
  }

  lemma TagsOfChar(c: char, rest: seq<Event>)
    ensures TagsOf([CharEv(c)] + rest) == TagsOf(rest)
  {
    TagsOfCons(CharEv(c), rest);
  }

  lemma {:induction false} SafeFromTags(evs: seq<Event>)
    requires LegibleEvents(evs) && forall j :: 0 <= j < |TagsOf(evs)| ==> SafeEvent(TagsOf(evs)[j])
    ensures SafeEvents(evs)
  {
    if evs != [] {
      hide LegibleEvent;
      var n := if evs[0].StartEv? || evs[0].EmptyEv? then 1 else 0;
      assert n == 1 ==> SafeEvent(TagsOf(evs)[0]);
      forall j | 0 <= j < |TagsOf(evs[1..])| ensures SafeEvent(TagsOf(evs[1..])[j]) {
        assert TagsOf(evs[1..])[j] == TagsOf(evs)[n + j];
      }
      SafeFromTags(evs[1..]);
    }
  }

  /** Only safe events are written for safe tags. */
  lemma AllSafe(text: string, tags: seq<Tag>)
    requires WellPlaced(text, tags) && Safe(tags)
    ensures SafeEvents(EventsFrom(text, tags, 0, 0))
  {
    hide EventsFrom, TagEvents, WellPlaced, TagsOf, LegibleEvents, SafeEvents, Safe, SafeEvent;
    StartReached(tags);
    TagsOfEvents(text, tags, 0, 0);
    var evs := TagEvents(tags, 0, |tags|);
    assert Named(tags) by {
      SafeNamed(tags);
    }
    AllLegible(text, tags, 0, 0);
    TagEventsSize(tags);
    forall j | 0 <= j < |evs| ensures SafeEvent(evs[j]) {
      TagEventsAt(tags, 0, |tags|, j);
      TagSafe(tags, j);
    }
    SafeFromTags(EventsFrom(text, tags, 0, 0));
  }

  lemma SafeNamed(tags: seq<Tag>)
    requires Safe(tags)
    ensures Named(tags)
  {
  }

  lemma StartReached(tags: seq<Tag>)
    ensures Reached(tags, 0, 0)
  {
  }

  lemma TagEventsSize(tags: seq<Tag>)
    ensures |TagEvents(tags, 0, |tags|)| == |tags|
  {
    if tags != [] {
      TagEventsAt(tags, 0, |tags|, 0);
    }
  }

  lemma TagSafe(tags: seq<Tag>, j: nat)
    requires j < |tags| && Safe(tags)
    ensures Named(tags) && SafeEvent(TagEvent(tags[j]))
  {
    assert !EndsInSlash(tags[j]);
  }

  lemma StartSim(text: string, tags: seq<Tag>)
    ensures Sim(State(Seeking, [], map[], ""), text, tags, 0, 0, |tags|)
  {
  }

  lemma EndSim(st: State, text: string, tags: seq<Tag>)
    requires WellPlaced(text, tags) && Sim(st, text, tags, |text|, |tags|, 0)
    ensures st.text == text && st.tags == tags && AllClosed(st.stacks)
  {
    assert text[..|text|] == text;
    forall name | name in st.stacks ensures st.stacks[name] == [] {
      NoneOpen(text, tags, name, |tags|);
      assert StackOf(st.stacks, name) == Opens(tags, name, |tags|, |text|, 0);
    }
  }

  lemma ImportExported(text: string, tags: seq<Tag>)
    requires Exportable(text, tags)
    ensures Imported([], Exported(text, tags)) == Ok(Document(text, tags))
  {
    hide Sim, EventRun, Run, Lex, EventsFrom, SerAll, SafeEvents, AllClosed, NoCrossing, Rooted;
    var start, evs := State(Seeking, [], map[], ""), EventsFrom(text, tags, 0, 0);
    AllSafe(text, tags);
    RunEvents(start, evs);
    StartSim(text, tags);
    SimAll(start, text, tags, 0, 0);
    EndSim(EventRun(start, evs).value, text, tags);
  }

  // A start tag that looks like an empty tag.

  /** Stacks hold indices of tags. */
  ghost predicate Below(st: State) {
    forall name, x :: x in StackOf(st.stacks, name) ==> x < |st.tags|
  }

  ghost predicate NotOpen(st: State, u: nat) {
    u < |st.tags| && forall name :: u !in StackOf(st.stacks, name)
  }

  /** At most `n` tags were added, and tags that are not open stay as they are. */
  ghost predicate Grown(st: State, st': State, n: nat) {
    && |st.tags| <= |st'.tags| <= |st.tags| + n && Below(st')
    && forall u: nat :: NotOpen(st, u) ==> NotOpen(st', u) && st'.tags[u] == st.tags[u]
  }

  lemma CloseGrown(st: State, name: string)
    requires Below(st) && CloseTag(st, name).Ok?
    ensures Grown(st, CloseTag(st, name).value, 0)
  {
    var stack, st' := StackOf(st.stacks, name), CloseTag(st, name).value;
    assert stack[|stack| - 1] in stack;
    forall name', x | x in StackOf(st'.stacks, name') ensures x in StackOf(st.stacks, name') {}
  }

  lemma OpenGrown(st: State, na: NameAttrs)
    requires Below(st)
    ensures Grown(st, OpenTag(st, na), 1)
  {
    var st' := OpenTag(st, na);
    forall name, x | x in StackOf(st'.stacks, name) ensures x in StackOf(st.stacks, name) || x == |st.tags| {}
  }

  lemma PointGrown(st: State, na: NameAttrs)
    requires Below(st)
    ensures Grown(st, PointTag(st, na), 1) && NotOpen(PointTag(st, na), |st.tags|)
  {
  }

  lemma SameGrown(st: State, text: string)
    requires Below(st)
    ensures Grown(st, st, 0) && Grown(st, st.(text := text), 0)
  {
  }

  lemma BodyGrown(st: State, tag: string)
    requires tag != "" && BodyTag(st, tag).Ok? && Below(st)
    ensures Grown(st, BodyTag(st, tag).value, if tag[0] == '/' then 0 else 1)
  {
    hide Below, Grown, ParseTag, OpenTag, PointTag, CloseTag;
    if tag[0] == '/' {
      CloseGrown(st, tag[1..StripEnd(tag) + 1]);
    } else if tag[|tag| - 1] == '/' {
      PointGrown(st, ParseTag(tag[..|tag| - 1]).value);
    } else {
      OpenGrown(st, ParseTag(tag).value);
    }
  }

  lemma StepGrown(st: State, tag: string)
    requires tag != "" && Step(st, TagTok(tag)).Ok? && Below(st)
    ensures Grown(st, Step(st, TagTok(tag)).value, if tag[0] == '/' then 0 else 1)
  {
    hide Below, BodyTag;
    SameGrown(st, st.text);
    if BodyTag(st, tag).Ok? {
      BodyGrown(st, tag);
    }
  }

  lemma ContentEnd(ev: Event)
    requires !ev.CharEv? && LegibleEvent(ev)
    ensures Content(ev) != "" && (Content(ev)[0] == '/' <==> ev.EndEv?)
  {
  }

  /** An event adds one tag at most, and only if it is one. */
  lemma OneMore(st: State, ev: Event)
    requires LegibleEvent(ev) && TokenStep(st, ev).Ok? && Below(st)
    ensures Grown(st, TokenStep(st, ev).value, |TagsOf([ev])|)
  {
    assert [ev][1..] == [];
    hide Below, Grown, Step, Content;
    if ev.CharEv? {
      SameGrown(st, TokenStep(st, ev).value.text);
    } else {
      ContentEnd(ev);
      StepGrown(st, Content(ev));
    }
  }

  lemma {:induction false} AtMost(st: State, evs: seq<Event>)
    requires LegibleEvents(evs) && TokenRun(st, evs).Ok? && Below(st)
    ensures Grown(st, TokenRun(st, evs).value, |TagsOf(evs)|)
    decreases |evs|
  {
    if evs == [] {
      SameGrown(st, st.text);
    } else {
      hide TokenStep, LegibleEvent, Below;
      OneMore(st, evs[0]);
      AtMost(TokenStep(st, evs[0]).value, evs[1..]);
      assert evs == [evs[0]] + evs[1..];
      TagsConcat([evs[0]], evs[1..]);
    }
  }

  lemma {:induction false} TokenRunConcat(st: State, a: seq<Event>, b: seq<Event>)
    ensures TokenRun(st, a + b) == if TokenRun(st, a).Error? then Error else TokenRun(TokenRun(st, a).value, b)
    decreases |a|
  {
    if a == [] {
      assert a + b == b;
    } else {
      assert (a + b)[1..] == a[1..] + b;
      if TokenStep(st, a[0]).Ok? {
        TokenRunConcat(TokenStep(st, a[0]).value, a[1..], b);
      }
    }
  }

  /** Such a start tag is read as an empty tag, which nothing will ever change. */
  lemma SlashStep(st: State, t: Tag)
    requires SafeText(t.name, t.attrs) && EndsInSlash(t) && Below(st)
    ensures var r := TokenStep(st, StartEv(t.name, t.attrs));
      r.Ok? ==> r.value.tags == st.tags
                || (|r.value.tags| == |st.tags| + 1 && NotOpen(r.value, |st.tags|)
                    && IsEmpty(r.value.tags[|st.tags|]))
  {
    hide ParseTag, CloseTag, OpenTag;
  }

  /** The `u`-th tag among the events. */
  lemma {:induction false} TagAt(evs: seq<Event>, u: nat) returns (n: nat)
    requires u < |TagsOf(evs)|
    ensures n < |evs| && evs[n] == TagsOf(evs)[u]
    ensures |TagsOf(evs[..n])| == u && |TagsOf(evs[n + 1..])| == |TagsOf(evs)| - u - 1
  {
    if (evs[0].StartEv? || evs[0].EmptyEv?) && u == 0 {
      n := 0;
    } else {
      var k := if evs[0].StartEv? || evs[0].EmptyEv? then 1 else 0;
      n := TagAt(evs[1..], u - k);
      assert evs[..n + 1] == [evs[0]] + evs[1..][..n] && evs[n + 2..] == evs[1..][n + 1..];
      TagsConcat([evs[0]], evs[1..][..n]);
      assert [evs[0]][1..] == [];
      n := n + 1;
    }
  }

  /** With a start tag that looks like an empty tag, another list is read back. */
  lemma SlashLost(text: string, tags: seq<Tag>)
    requires WellPlaced(text, tags) && Named(tags) && !NoSlash(tags)
    ensures Imported([], Exported(text, tags)) != Ok(Document(text, tags))
  {
    hide TokenStep, LegibleEvent, Below, NotOpen, Run, Lex, EventsFrom, SerAll, WellPlaced, TagsOf, TokenRun, Grown,
         TagEvents, EndsInSlash, Content;
    var start, evs := State(Seeking, [], map[], ""), EventsFrom(text, tags, 0, 0);
    AllLegible(text, tags, 0, 0);
    ReadEvents(start, evs);
    StartReached(tags);
    TagsOfEvents(text, tags, 0, 0);
    var u :| 0 <= u < |tags| && EndsInSlash(tags[u]);
    TagEventsAt(tags, 0, |tags|, u);
    SlashEvent(tags[u]);
    var n := TagAt(evs, u);
    assert evs == evs[..n] + ([evs[n]] + evs[n + 1..]);
    TokenRunConcat(start, evs[..n], [evs[n]] + evs[n + 1..]);
    if TokenRun(start, evs).Ok? {
      var st := TokenRun(start, evs[..n]).value;
      NothingBelow();
      AtMost(start, evs[..n]);
      GrownIs(start, st, u);
      SlashThen(st, tags[u], evs[n + 1..], u, |tags|);
    }
  }

  lemma SlashEvent(t: Tag)
    requires t.name != "" && EndsInSlash(t)
    ensures TagEvent(t) == StartEv(t.name, t.attrs)
  {
  }

  lemma GrownIs(st: State, st': State, n: nat)
    requires Grown(st, st', n)
    ensures |st'.tags| <= |st.tags| + n && Below(st')
  {
  }

  lemma NothingBelow()
    ensures Below(State(Seeking, [], map[], ""))
  {
  }

  lemma SlashThen(st: State, t: Tag, rest: seq<Event>, u: nat, n: nat)
    requires SafeText(t.name, t.attrs) && EndsInSlash(t) && Below(st) && |st.tags| <= u < n
    requires LegibleEvents(rest) && |TagsOf(rest)| == n - u - 1
    requires TokenRun(st, [StartEv(t.name, t.attrs)] + rest).Ok?
    ensures var st' := TokenRun(st, [StartEv(t.name, t.attrs)] + rest).value;
      |st'.tags| < n || (u < |st'.tags| && IsEmpty(st'.tags[u]))
  {
    hide TokenStep, LegibleEvent, Below, NotOpen, TagsOf, EndsInSlash;
    var ev := StartEv(t.name, t.attrs);
    assert ([ev] + rest)[1..] == rest;
    SlashStep(st, t);
    LegibleTag(t);
    OneMore(st, ev);
    var st' := TokenStep(st, ev).value;
    AtMost(st', rest);
    if |st.tags| == u && |st'.tags| == u + 1 {
      assert NotOpen(st', u);
    }
  }

  lemma LegibleTag(t: Tag)
    requires SafeText(t.name, t.attrs)
    ensures LegibleEvent(StartEv(t.name, t.attrs))
  {
  }

  lemma NamedRoundTrip(text: string, tags: seq<Tag>)
    requires WellPlaced(text, tags) && Named(tags)
    ensures Imported([], Exported(text, tags)) == Ok(Document(text, tags))
       <==> Rooted(text, tags) && NoCrossing(tags) && NoSlash(tags)
  {
    hide Imported, Exported, Named, NoSlash, WellPlaced, Rooted, NoCrossing;
    ImportProper(Exported(text, tags));
    if !NoSlash(tags) {
      SlashLost(text, tags);
    } else if Rooted(text, tags) && NoCrossing(tags) {
      ImportExported(text, tags);
    }
  }

  /**
   * Importing an exported document gives back the text and the tag list, exactly when names and attributes can
   * be written inside a tag, the first tag is a root, no two tags of the same name cross, and no start tag looks
   * like an empty tag; tags of different names may cross.
   */
  lemma RoundTrip(text: string, tags: seq<Tag>)
    requires WellPlaced(text, tags)
    ensures Imported([], Exported(text, tags)) == Ok(Document(text, tags))
       <==> Safe(tags) && Rooted(text, tags) && NoCrossing(tags)
  {
    hide Imported, Exported, Named, NoSlash, WellPlaced, Rooted, NoCrossing;
    if Named(tags) {
      NamedRoundTrip(text, tags);
    } else if Imported([], Exported(text, tags)) == Ok(Document(text, tags)) {
      ImportNeat(Exported(text, tags));
    }
  }

  /** The two programs one after the other: is everything as it was? */
  method Reimport(text: string, tags: seq<Tag>) returns (same: bool)
    ensures same <==> Exportable(text, tags)
  {
    hide WellPlaced, Safe, Rooted, NoCrossing, Imported, Exported;
    var exported := WriteSemiXml(text, tags);
    if exported.Error? {
      return false;
    }
    RoundTrip(text, tags);
    var manager := new Importer.StandOffManager([]);
    var ok, outTxt := manager.ReadSemiXml(exported.value);
    same := ok && outTxt == text && manager.tagsData == tags;
  }
}
