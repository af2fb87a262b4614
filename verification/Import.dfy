/** The importer: an automaton over the tokens of a semi-XML text, with one stack per tag name. */
module Import {
  import opened SemiXml

  /** Before the root tag, inside the document, or behind the end of the root. */
  datatype Phase = Seeking | Body | Closed

  /** `text` is the raw text written so far; `stacks` holds the indices of the open tags of a name. */
  datatype State = State(phase: Phase, tags: seq<Tag>, stacks: map<string, seq<nat>>, text: string)

  /** The end of a tag that is still open. */
  const DUMMY_END := 0xffff_ffff

  function StackOf(stacks: map<string, seq<nat>>, name: string): seq<nat> {
    if name in stacks then stacks[name] else []
  }

  function StripEnd(tag: string): (last: nat)
    requires tag != ""
    ensures last < |tag|
  {
    if |tag| > 1 && IsSpace(tag[|tag| - 1]) then StripEnd(tag[..|tag| - 1]) else |tag| - 1
  }

  function CloseTag(st: State, name: string): Result<State> {
    var stack := StackOf(st.stacks, name);
    if stack == [] then Error
    else
      var ix := stack[|stack| - 1];
      if ix >= |st.tags| then Error
      else
        Ok(State(if ix == 0 then Closed else Body,
                 st.tags[ix := st.tags[ix].(end := |st.text|)],
                 st.stacks[name := stack[..|stack| - 1]],
                 st.text))
  }

  function OpenTag(st: State, na: NameAttrs): State {
    var ix := |st.tags|;
    State(Body,
          st.tags + [Tag(na.name, na.attrs, |st.text|, DUMMY_END)],
          st.stacks[na.name := StackOf(st.stacks, na.name) + [ix]],
          st.text)
  }

  function PointTag(st: State, na: NameAttrs): State {
    State(Body, st.tags + [Tag(na.name, na.attrs, |st.text|, |st.text|)], st.stacks, st.text)
  }

  /** A tag inside the document. */
  function BodyTag(st: State, tag: string): Result<State> {
    if tag == "" || IsSpace(tag[0]) then Error
    else if tag[0] == '/' then
      var last := StripEnd(tag);
      if last == 0 then Error else CloseTag(st, tag[1..last + 1])
    else if tag[|tag| - 1] == '/' then
      var na := ParseTag(tag[..|tag| - 1]);
      if na.Error? then Error else Ok(PointTag(st, na.value))
    else
      var na := ParseTag(tag);
      if na.Error? then Error else Ok(OpenTag(st, na.value))
  }

  function Step(st: State, token: Token): Result<State> {
    match token
    case Text(s) =>
      if st.phase != Body then Ok(st)
      else
        var plain := Plain(s);
        if plain.Error? then Error else Ok(st.(text := st.text + plain.value))
    case TagTok(tag) =>
      match st.phase
      case Closed => Error
      case Body => BodyTag(st, tag)
      case Seeking =>
        if tag == "" then Error
        else if tag[0] == '!' || tag[0] == '?' then Ok(st)
        else BodyTag(st, tag)
  }

  function Run(st: State, tokens: seq<Token>): Result<State>
    decreases |tokens|
  {
    if tokens == [] then Ok(st)
    else
      var next := Step(st, tokens[0]);
      if next.Error? then Error else Run(next.value, tokens[1..])
  }

  ghost predicate AllClosed(stacks: map<string, seq<nat>>) {
    forall name :: name in stacks ==> stacks[name] == []
  }

  /** The outcome of an import: the raw text and the tags, or an error. */
  datatype Document = Document(text: string, tags: seq<Tag>)

  ghost function Imported(tags: seq<Tag>, input: string): Result<Document> {
    var tokens := Lex(input);
    if tokens.Error? then Error
    else
      var end := Run(State(Seeking, tags, map[], ""), tokens.value);
      if end.Error? || !AllClosed(end.value.stacks) then Error
      else Ok(Document(end.value.text, end.value.tags))
  }

  // Every import, whatever its input, yields properly nested spans under a root.

  /** Tags of the same name do not cross: one ends before the other begins, or contains it. */
  ghost predicate NoCrossing(tags: seq<Tag>) {
    forall i, j :: 0 <= i < j < |tags| && tags[i].name == tags[j].name && !IsEmpty(tags[i]) && !IsEmpty(tags[j]) ==>
                     tags[i].end <= tags[j].begin || tags[j].end <= tags[i].end
  }

  /** The first tag starts the text and, unless it is empty, covers all of it. */
  ghost predicate Rooted(text: string, tags: seq<Tag>) {
    && (tags == [] ==> text == "")
    && (tags != [] ==> tags[0].begin == 0 && (tags[0].end == 0 || tags[0].end == |text|))
  }

  ghost predicate IsOpen(st: State, i: nat)
    requires i < |st.tags|
  {
    i in StackOf(st.stacks, st.tags[i].name)
  }

  ghost predicate Stacked(st: State) {
    && (forall name, p :: name in st.stacks && 0 <= p < |st.stacks[name]| ==>
          st.stacks[name][p] < |st.tags| && st.tags[st.stacks[name][p]].name == name)
    && (forall name, p, q :: name in st.stacks && 0 <= p < q < |st.stacks[name]| ==>
          st.stacks[name][p] < st.stacks[name][q])
  }

  ghost predicate Nested(st: State) {
    && (forall i :: 0 <= i < |st.tags| ==> st.tags[i].begin <= |st.text|)
    && (forall i :: 0 <= i < |st.tags| && !IsOpen(st, i) ==> st.tags[i].end <= |st.text|)
    && (forall i, j :: 0 <= i < j < |st.tags| && st.tags[i].name == st.tags[j].name && !IsOpen(st, i) ==>
          st.tags[i].end <= st.tags[j].begin || (!IsOpen(st, j) && st.tags[j].end <= st.tags[i].end))
  }

  ghost predicate RootState(st: State) {
    && (st.phase == Seeking <==> st.tags == [])
    && (st.phase == Seeking ==> st.text == "")
    && (st.tags != [] ==> st.tags[0].begin == 0)
    && (st.phase == Body ==> IsOpen(st, 0) || st.tags[0].end == 0)
    && (st.phase == Closed ==> st.tags[0].end == |st.text|)
  }

  ghost predicate Sound(st: State) {
    Stacked(st) && Nested(st) && RootState(st)
  }

  lemma CloseSound(st: State, name: string)
    requires Sound(st) && st.phase == Body && CloseTag(st, name).Ok?
    ensures Sound(CloseTag(st, name).value)
  {
    hide Stacked, IsOpen;
    CloseStacks(st, name);
  }

  lemma CloseStacks(st: State, name: string)
    requires Stacked(st) && CloseTag(st, name).Ok?
    ensures var stack := StackOf(st.stacks, name);
      var ix, st' := stack[|stack| - 1], CloseTag(st, name).value;
      && Stacked(st') && IsOpen(st, ix) && st.tags[ix].name == name
      && (forall i :: 0 <= i < |st.tags| ==> (IsOpen(st', i) <==> IsOpen(st, i) && i != ix))
      && (forall j :: ix < j < |st.tags| && st.tags[j].name == name ==> !IsOpen(st, j))
  {
    var st', stack := CloseTag(st, name).value, st.stacks[name];
    var top := |stack| - 1;
    var ix := stack[top];
    assert st.tags[ix].name == name;
    forall i | 0 <= i < |st.tags| ensures IsOpen(st', i) <==> IsOpen(st, i) && i != ix {
      if st.tags[i].name == name {
        InPopped(stack, i);
      }
    }
    forall j | ix < j < |st.tags| && st.tags[j].name == name ensures !IsOpen(st, j) {
      NoneAbove(st, name, j);
    }
  }

  lemma InPopped(stack: seq<nat>, i: nat)
    requires stack != [] && forall p, q :: 0 <= p < q < |stack| ==> stack[p] < stack[q]
    ensures i in stack[..|stack| - 1] <==> i in stack && i != stack[|stack| - 1]
  {
    if i in stack && i != stack[|stack| - 1] {
      var p :| 0 <= p < |stack| && stack[p] == i;
      assert stack[..|stack| - 1][p] == i;
    }
  }

  /** The top of a stack is the newest open tag of its name. */
  lemma NoneAbove(st: State, name: string, j: nat)
    requires Stacked(st) && name in st.stacks && st.stacks[name] != []
    requires st.stacks[name][|st.stacks[name]| - 1] < j
    ensures j !in st.stacks[name]
  {
  }

  lemma OpenSound(st: State, na: NameAttrs)
    requires Sound(st) && st.phase != Closed
    ensures Sound(OpenTag(st, na))
  {
    hide Stacked, IsOpen;
    OpenStacks(st, na);
  }

  lemma OpenStacks(st: State, na: NameAttrs)
    requires Stacked(st)
    ensures Stacked(OpenTag(st, na)) && IsOpen(OpenTag(st, na), |st.tags|)
    ensures forall i :: 0 <= i < |st.tags| ==> (IsOpen(OpenTag(st, na), i) <==> IsOpen(st, i))
  {
    var st', ix, stack := OpenTag(st, na), |st.tags|, StackOf(st.stacks, na.name);
    assert st'.stacks[na.name][|stack|] == ix;
    forall i | 0 <= i < ix ensures IsOpen(st', i) <==> IsOpen(st, i) {
      assert i in stack + [ix] <==> i in stack;
    }
  }

  lemma PointSound(st: State, na: NameAttrs)
    requires Sound(st) && st.phase != Closed
    ensures Sound(PointTag(st, na))
  {
    hide Stacked, IsOpen;
    PointStacks(st, na);
  }

  lemma PointStacks(st: State, na: NameAttrs)
    requires Stacked(st)
    ensures Stacked(PointTag(st, na)) && !IsOpen(PointTag(st, na), |st.tags|)
    ensures forall i :: 0 <= i < |st.tags| ==> (IsOpen(PointTag(st, na), i) <==> IsOpen(st, i))
  {
  }

  lemma TextSound(st: State, text: string)
    requires Sound(st) && st.phase == Body
    ensures Sound(st.(text := st.text + text))
  {
  }

  lemma StepSound(st: State, token: Token)
    requires Sound(st) && Step(st, token).Ok?
    ensures Sound(Step(st, token).value)
  {
    hide Sound, BodyTag, Plain;
    match token {
      case Text(s) =>
        if st.phase == Body {
          TextSound(st, Plain(s).value);
        }
      case TagTok(tag) =>
        if st.phase == Body || (tag[0] != '!' && tag[0] != '?') {
          BodySound(st, tag);
        }
    }
  }

  lemma BodySound(st: State, tag: string)
    requires Sound(st) && st.phase != Closed && BodyTag(st, tag).Ok?
    ensures Sound(BodyTag(st, tag).value)
  {
    hide Sound, CloseTag, OpenTag, PointTag, ParseTag;
    if tag[0] == '/' {
      SeekingHasNone(st, tag[1..StripEnd(tag) + 1]);
      CloseSound(st, tag[1..StripEnd(tag) + 1]);
    } else if tag[|tag| - 1] == '/' {
      PointSound(st, ParseTag(tag[..|tag| - 1]).value);
    } else {
      OpenSound(st, ParseTag(tag).value);
    }
  }

  lemma SeekingHasNone(st: State, name: string)
    requires Sound(st)
    ensures st.phase == Seeking ==> CloseTag(st, name).Error?
  {
  }

  lemma {:induction false} RunSound(st: State, tokens: seq<Token>)
    requires Sound(st) && Run(st, tokens).Ok?
    ensures Sound(Run(st, tokens).value)
    decreases |tokens|
  {
    if tokens != [] {
      StepSound(st, tokens[0]);
      RunSound(Step(st, tokens[0]).value, tokens[1..]);
    }
  }

  /** No input at all makes the importer produce crossing spans or a missing root. */
  lemma ImportProper(input: string)
    ensures Imported([], input).Ok? ==>
              Rooted(Imported([], input).value.text, Imported([], input).value.tags)
              && NoCrossing(Imported([], input).value.tags)
  {
    if Imported([], input).Ok? {
      var start := State(Seeking, [], map[], "");
      RunSound(start, Lex(input).value);
      var end := Run(start, Lex(input).value).value;
      assert forall i :: 0 <= i < |end.tags| ==> !IsOpen(end, i);
    }
  }
}
