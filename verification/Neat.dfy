/** What comes out of an import can be exported. */
module Neat {
  import opened SemiXml
  import opened Import
  import opened Export

  /** A name in front of which the importer skips over everything: that of a declaration or an instruction. */
  predicate Marked(t: Tag) {
    t.name != "" && (t.name[0] == '!' || t.name[0] == '?')
  }

  /** Names and attributes that can be written inside a tag and read back. */
  predicate Named(tags: seq<Tag>) {
    && (forall j :: 0 <= j < |tags| ==> SafeText(tags[j].name, tags[j].attrs))
    && (tags != [] ==> !Marked(tags[0]))
  }

  // What an import makes of names and attributes.

  lemma {:induction false} SkippedFrom(s: string, c: char)
    ensures c !in s ==> c !in SkipSpaces(s)
    ensures s != "" && !IsSpace(s[0]) ==> SkipSpaces(s) == s
  {
    if s != "" && IsSpace(s[0]) {
      SkippedFrom(s[1..], c);
    }
  }

  lemma {:induction false} TrimmedFrom(s: string, c: char)
    ensures c !in s ==> c !in TrimEnd(s)
    ensures TrimEnd(s) != "" ==> s != "" && TrimEnd(s)[0] == s[0] && !IsSpace(TrimEnd(s)[|TrimEnd(s)| - 1])
  {
    if s != "" && IsSpace(s[|s| - 1]) {
      TrimmedFrom(s[..|s| - 1], c);
    }
  }

  lemma {:induction false} LinesFrom(rest: string)
    requires '>' !in rest
    ensures '>' !in AttrLines(rest) && '\n' !in AttrLines(rest)
    decreases |rest|
  {
    if rest != "" {
      var n := Until(rest, '\n');
      LinePiece(rest, n);
      var more := "";
      if n < |rest| {
        LinesFrom(rest[n + 1..]);
        more := AttrLines(rest[n + 1..]);
      }
      hide *;
      InBoth(" " + rest[..n], more, '>');
      InBoth(" " + rest[..n], more, '\n');
    }
  }

  lemma LinePiece(rest: string, n: nat)
    requires n == Until(rest, '\n') && '>' !in rest
    ensures '\n' !in " " + rest[..n] && '>' !in " " + rest[..n]
    ensures n < |rest| ==> '>' !in rest[n + 1..]
    ensures rest != "" ==>
              AttrLines(rest) == " " + rest[..n] + (if n == |rest| then "" else AttrLines(rest[n + 1..]))
  {
    if rest != "" {
      LinesAre(rest, n);
    }
    hide *;
    NotInFront(rest, n, '>');
    NotInFront(rest, n, '\n');
    if n < |rest| {
      NotBehind(rest, n + 1, '>');
    }
  }

  lemma NotInFront(s: string, n: nat, c: char)
    requires n <= |s| && c != ' ' && forall k :: 0 <= k < n ==> s[k] != c
    ensures c !in " " + s[..n]
  {
    assert forall k :: 0 < k <= n ==> (" " + s[..n])[k] == s[k - 1];
  }

  lemma NotBehind(s: string, n: nat, c: char)
    requires n <= |s| && c !in s
    ensures c !in s[n..]
  {
  }

  lemma LinesAre(rest: string, n: nat)
    requires rest != "" && n == Until(rest, '\n')
    ensures AttrLines(rest) == " " + rest[..n] + (if n == |rest| then "" else AttrLines(rest[n + 1..]))
  {
  }

  lemma InBoth(a: string, b: string, c: char)
    ensures c in a + b <==> c in a || c in b
  {
  }

  lemma {:induction false} WordFrom(s: string)
    ensures NoSpace(s[..WordLength(s)])
    ensures s != "" && !IsSpace(s[0]) ==> WordLength(s) > 0
  {
    if s != "" && !IsSpace(s[0]) {
      WordFrom(s[1..]);
      assert s[..WordLength(s)] == [s[0]] + s[1..][..WordLength(s[1..])];
    }
  }

  /** Names and attributes taken from inside a tag can be written inside a tag. */
  lemma ParsedSafe(tag: string)
    requires '>' !in tag && tag != "" && !IsSpace(tag[0]) && tag[0] != '/' && ParseTag(tag).Ok?
    ensures SafeText(ParseTag(tag).value.name, ParseTag(tag).value.attrs)
    ensures ParseTag(tag).value.name[0] == tag[0]
  {
    SkippedFrom(tag, '>');
    WordFrom(tag);
    var lines := AttrLines(tag[WordLength(tag)..]);
    LinesFrom(tag[WordLength(tag)..]);
    SkippedFrom(lines, '>');
    SkippedFrom(lines, '\n');
    TrimmedFrom(SkipSpaces(lines), '>');
    TrimmedFrom(SkipSpaces(lines), '\n');
  }

  // What an import makes of a list.

  /** Names, attributes and begins are those of a list that can be woven in; so are the ends of closed tags. */
  ghost predicate Neat(st: State) {
    && Named(st.tags)
    && (forall i :: 0 <= i < |st.tags| ==> st.tags[i].begin <= |st.text|)
    && (forall i, j :: 0 <= i < j < |st.tags| ==> st.tags[i].begin <= st.tags[j].begin)
    && (forall i :: 0 <= i < |st.tags| && !IsOpen(st, i) ==> st.tags[i].begin <= st.tags[i].end <= |st.text|)
  }

  lemma TextNeat(st: State, text: string)
    requires Neat(st)
    ensures Neat(st.(text := st.text + text))
  {
  }

  lemma CloseNeat(st: State, name: string)
    requires Neat(st) && Stacked(st) && CloseTag(st, name).Ok?
    ensures Neat(CloseTag(st, name).value)
  {
    hide IsOpen, Stacked;
    CloseStacks(st, name);
  }

  lemma OpenNeat(st: State, na: NameAttrs)
    requires Neat(st) && Stacked(st) && SafeText(na.name, na.attrs)
    requires st.tags == [] ==> na.name[0] != '!' && na.name[0] != '?'
    ensures Neat(OpenTag(st, na))
  {
    hide IsOpen, Stacked;
    OpenStacks(st, na);
  }

  lemma PointNeat(st: State, na: NameAttrs)
    requires Neat(st) && Stacked(st) && SafeText(na.name, na.attrs)
    requires st.tags == [] ==> na.name[0] != '!' && na.name[0] != '?'
    ensures Neat(PointTag(st, na))
  {
    hide IsOpen, Stacked;
    PointStacks(st, na);
  }

  lemma BodyNeat(st: State, tag: string)
    requires Neat(st) && Stacked(st) && '>' !in tag && BodyTag(st, tag).Ok?
    requires st.tags == [] ==> tag[0] != '!' && tag[0] != '?'
    ensures Neat(BodyTag(st, tag).value)
  {
    hide Neat, Stacked, CloseTag, OpenTag, PointTag, ParseTag;
    if tag[0] == '/' {
      CloseNeat(st, tag[1..StripEnd(tag) + 1]);
    } else if tag[|tag| - 1] == '/' {
      ParsedSafe(tag[..|tag| - 1]);
      PointNeat(st, ParseTag(tag[..|tag| - 1]).value);
    } else {
      ParsedSafe(tag);
      OpenNeat(st, ParseTag(tag).value);
    }
  }

  predicate Clean(token: Token) {
    token.TagTok? ==> '>' !in token.s
  }

  lemma StepNeat(st: State, token: Token)
    requires Neat(st) && Sound(st) && Clean(token) && Step(st, token).Ok?
    ensures Neat(Step(st, token).value)
  {
    hide Neat, BodyTag;
    match token {
      case Text(s) =>
        if st.phase == Body {
          TextNeat(st, Plain(s).value);
        }
      case TagTok(tag) =>
        if st.phase == Body || (st.phase == Seeking && tag[0] != '!' && tag[0] != '?') {
          BodyNeat(st, tag);
        }
    }
  }

  lemma {:induction false} RunNeat(st: State, tokens: seq<Token>)
    requires Neat(st) && Sound(st) && Run(st, tokens).Ok? && forall i :: 0 <= i < |tokens| ==> Clean(tokens[i])
    ensures Neat(Run(st, tokens).value)
    decreases |tokens|
  {
    if tokens != [] {
      hide Neat, Sound, Step, Clean;
      StepNeat(st, tokens[0]);
      StepSound(st, tokens[0]);
      RunNeat(Step(st, tokens[0]).value, tokens[1..]);
    }
  }

  lemma {:induction false} LexClean(s: string)
    requires Lex(s).Ok?
    ensures forall i :: 0 <= i < |Lex(s).value| ==> Clean(Lex(s).value[i])
    decreases |s|
  {
    if s != "" {
      if s[0] == '<' {
        LexClean(s[Until(s[1..], '>') + 2..]);
      } else {
        LexClean(s[Until(s, '<')..]);
      }
    }
  }

  /** Whatever the input, what was imported can be exported. */
  lemma ImportNeat(input: string)
    requires Imported([], input).Ok?
    ensures var d := Imported([], input).value;
      WellPlaced(d.text, d.tags) && Named(d.tags)
  {
    var start := State(Seeking, [], map[], "");
    LexClean(input);
    RunNeat(start, Lex(input).value);
    var end := Run(start, Lex(input).value).value;
    assert forall i :: 0 <= i < |end.tags| ==> !IsOpen(end, i);
  }
}
