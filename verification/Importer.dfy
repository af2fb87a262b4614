/** The importer as a program: a lexer with one character of lookahead, and the loops of the reader. */
module Importer {
  import opened SemiXml
  import opened Import
  import TwoFiles

  datatype TokenType = TText | TTag | TEof

  /** What is left of the input is what was read of it and what is to come, and the stop was not met. */
  ghost predicate Reading(rest: string, read: string, input: string, pos: nat, stop: char) {
    pos <= |input| && rest == read + input[pos..] && stop !in read
  }

  lemma ReadStart(read: string, input: string, pos: nat, stop: char)
    requires pos <= |input| && stop !in read
    ensures Reading(read + input[pos..], read, input, pos, stop)
    ensures "" + input[pos..] == input[pos..]
  {
  }

  lemma ReadMore(rest: string, read: string, input: string, pos: nat, stop: char)
    requires Reading(rest, read, input, pos, stop) && pos < |input|
    ensures rest == read + [input[pos]] + input[pos + 1..] && stop !in read
    ensures input[pos] != stop ==> Reading(rest, read + [input[pos]], input, pos + 1, stop)
    ensures rest == read + ([input[pos]] + input[pos + 1..])
  {
    assert [input[pos]] + input[pos + 1..] == input[pos..];
  }

  lemma ReadAll(rest: string, read: string, input: string, stop: char)
    requires Reading(rest, read, input, |input|, stop)
    ensures rest == read && stop !in rest
  {
  }

  class SemiXmlLexer {
    const input: string
    var pos: nat
    var eof: bool
    var lookahead: char
    var currToken: string
    var tokenType: TokenType

    ghost predicate Valid()
      reads this
    {
      pos <= |input| && (eof ==> pos == |input|)
    }

    /** What was not made into tokens yet. */
    ghost function Rest(): string
      requires Valid()
      reads this
    {
      if eof then "" else [lookahead] + input[pos..]
    }

    /** The current token and those behind it. */
    ghost function Coming(): Result<seq<Token>>
      requires Valid()
      reads this
    {
      if tokenType == TEof then Ok([])
      else if Lex(Rest()).Error? then Error
      else Ok([if tokenType == TTag then TagTok(currToken) else Text(currToken)] + Lex(Rest()).value)
    }

    /** Before the first call of Advance. */
    constructor (input: string)
      ensures Valid() && this.input == input && Rest() == input
    {
      this.input := input;
      if |input| > 0 {
        lookahead, pos, eof := input[0], 1, false;
      } else {
        pos, eof := 0, true;
      }
      currToken, tokenType := "", TEof;
    }

    method GetLookahead()
      requires Valid() && !eof
      modifies this`lookahead, this`pos, this`eof
      ensures Valid() && Rest() == old(input[pos..])
    {
      if pos < |input| {
        lookahead, pos := input[pos], pos + 1;
      } else {
        eof := true;
      }
    }

    /** The inside of a tag, up to its '>'. */
    method ReadTag() returns (ok: bool)
      requires Valid() && !eof
      modifies this`currToken, this`pos
      ensures Valid()
      ensures ok ==> '>' !in currToken && old(input[pos..]) == currToken + ['>'] + input[pos..]
      ensures !ok ==> '>' !in old(input[pos..])
    {
      hide Lex, Until, Plain, Reading;
      ghost var rest := input[pos..];
      currToken := "";
      ReadStart(currToken, input, pos, '>');
      while true
        invariant Valid() && !eof && Reading(rest, currToken, input, pos, '>')
        decreases |input| - pos
      {
        if pos == |input| {
          ReadAll(rest, currToken, input, '>');
          return false;
        }
        var ch := input[pos];
        ReadMore(rest, currToken, input, pos, '>');
        pos := pos + 1;
        if ch == '>' {
          return true;
        }
        currToken := currToken + [ch];
      }
    }

    /** A text token, up to the next '<', which becomes the lookahead. */
    method ReadText()
      requires Valid() && !eof && lookahead != '<'
      modifies this
      ensures Valid() && tokenType == old(tokenType)
      ensures currToken != "" && '<' !in currToken && (Rest() == "" || Rest()[0] == '<')
      ensures old(Rest()) == currToken + Rest()
    {
      hide Reading;
      ghost var rest := Rest();
      currToken := [lookahead];
      ReadStart(currToken, input, pos, '<');
      while true
        invariant Valid() && !eof && Reading(rest, currToken, input, pos, '<') && tokenType == old(tokenType)
        invariant currToken != ""
        decreases |input| - pos
      {
        if pos == |input| {
          ReadAll(rest, currToken, input, '<');
          eof := true;
          assert currToken + "" == currToken;
          return;
        }
        var ch := input[pos];
        ReadMore(rest, currToken, input, pos, '<');
        pos := pos + 1;
        if ch == '<' {
          lookahead := ch;
          return;
        }
        currToken := currToken + [ch];
      }
    }

    method Advance() returns (ok: bool)
      requires Valid()
      modifies this
      ensures Valid()
      ensures ok ==> Coming() == Lex(old(Rest()))
      ensures !ok ==> Lex(old(Rest())).Error?
      ensures ok && tokenType != TEof ==> |Rest()| < |old(Rest())|
      ensures ok && tokenType == TEof ==> Rest() == ""
    {
      hide Lex;
      if eof {
        NoTokens();
        tokenType := TEof;
        return true;
      }
      ghost var rest := Rest();
      if lookahead == '<' {
        tokenType := TTag;
        ok := ReadTag();
        if !ok {
          Unterminated(rest);
          return;
        }
        TagRest(rest, currToken, input[pos..]);
        GetLookahead();
      } else {
        tokenType := TText;
        ReadText();
        TextRest(currToken, Rest());
        ok := true;
      }
    }
  }

  lemma NoTokens()
    ensures Lex("") == Ok([])
  {
  }

  lemma Unterminated(s: string)
    requires s != "" && s[0] == '<' && '>' !in s[1..]
    ensures Lex(s).Error?
  {
    NoneUntil(s[1..], '>');
  }

  lemma TagRest(s: string, tag: string, rest: string)
    requires s != "" && s[0] == '<' && s[1..] == tag + ['>'] + rest && '>' !in tag
    ensures Lex(s) == if Lex(rest).Error? then Error else Ok([TagTok(tag)] + Lex(rest).value)
    ensures |rest| < |s|
  {
    UntilAt(tag, '>', rest);
    LexStep(s, |tag|);
    hide *;
    TagParts(s, tag, rest);
  }

  lemma TagParts(s: string, tag: string, rest: string)
    requires s != "" && s[1..] == tag + ['>'] + rest
    ensures s[1..|tag| + 1] == tag && s[|tag| + 2..] == rest && |rest| < |s|
  {
    assert s == [s[0]] + (tag + ['>'] + rest);
  }

  lemma TextRest(a: string, rest: string)
    requires a != "" && '<' !in a && (rest == "" || rest[0] == '<')
    ensures Lex(a + rest) == if Lex(rest).Error? then Error else Ok([Text(a)] + Lex(rest).value)
  {
    UntilPast(a, rest, '<');
    LexRun(a + rest, |a|);
    hide *;
    assert (a + rest)[..|a|] == a && (a + rest)[|a|..] == rest;
  }

  /** getUscCodeHex and getUscCodeDec. */
  method GetUscCode(s: string, hex: bool) returns (r: Result<nat>)
    ensures r == Code(s, hex)
  {
    if s == "" {
      return Error;
    }
    var code: nat := 0;
    for i := 0 to |s|
      invariant CodeFrom(s, i, code, hex) == Code(s, hex)
    {
      var d := HexDigit(s[i]);
      if d < 0 || (!hex && d > 9) {
        return Error;
      }
      code := code * (if hex then 16 else 10) + d;
      if code > UNICODE_MAX {
        return Error;
      }
    }
    return Ok(code);
  }

  method UnescapeSeq(name: string) returns (r: Result<string>)
    ensures r == Unescape(name)
  {
    if name == "lt" {
      return Ok("<");
    } else if name == "gt" {
      return Ok(">");
    } else if name == "amp" {
      return Ok("&");
    } else if name == "quot" {
      return Ok("\"");
    } else if name == "apos" {
      return Ok("\'");
    } else if |name| >= 2 && name[0] == '#' {
      var code: Result<nat>;
      if name[1] == 'x' {
        code := GetUscCode(name[2..], true);
      } else {
        code := GetUscCode(name[1..], false);
      }
      if code.Error? {
        return Error;
      }
      return EncodeUtf8(code.value);
    }
    return Error;
  }

  /** convertEscapeChar: `ch` is behind the '&', and afterwards behind the ';'. */
  method ConvertEscapeChar(text: string, ch: nat) returns (r: Result<string>, ch': nat)
    requires ch <= |text|
    ensures ch <= ch' <= |text|
    ensures r.Ok? ==> ch < ch' && ch' == ch + Until(text[ch..], ';') + 1
    ensures r == if ch + Until(text[ch..], ';') == |text| then Error
                 else Unescape(text[ch..ch + Until(text[ch..], ';')])
  {
    ch' := ch;
    var escapeSeq := "";
    while ch' < |text| && text[ch'] != ';'
      invariant ch <= ch' <= |text| && escapeSeq == text[ch..ch'] && ';' !in escapeSeq
    {
      escapeSeq := escapeSeq + [text[ch']];
      ch' := ch' + 1;
    }
    if ch' == |text| {
      assert text[ch..] == escapeSeq;
      NoneUntil(escapeSeq, ';');
      return Error, ch';
    }
    assert text[ch..] == escapeSeq + [';'] + text[ch' + 1..];
    UntilAt(escapeSeq, ';', text[ch' + 1..]);
    r := UnescapeSeq(escapeSeq);
    ch' := ch' + 1;
  }

  /** The text tokens of the document: escape sequences are replaced as they are written. */
  method WriteText(text: string, outTxt: string) returns (r: Result<string>)
    ensures r == if Plain(text).Error? then Error else Ok(outTxt + Plain(text).value)
  {
    hide Unescape, Plain;
    var ch, out := 0, outTxt;
    assert text[0..] == text;
    while ch < |text|
      invariant ch <= |text|
      invariant Plain(text).Error? <==> Plain(text[ch..]).Error?
      invariant Plain(text).Ok? ==> outTxt + Plain(text).value == out + Plain(text[ch..]).value
    {
      PlainAt(text, ch);
      if text[ch] == '&' {
        var unesc, ch' := ConvertEscapeChar(text, ch + 1);
        if unesc.Error? {
          return Error;
        }
        out, ch := out + unesc.value, ch';
      } else {
        out, ch := out + [text[ch]], ch + 1;
      }
    }
    PlainEmpty(text, out);
    return Ok(out);
  }

  lemma PlainEmpty(text: string, out: string)
    ensures Plain(text[|text|..]) == Ok("") && out + "" == out
  {
  }

  /** Plain at a position of a text. */
  lemma PlainAt(text: string, ch: nat)
    requires ch < |text|
    ensures text[ch] != '&' ==> Plain(text[ch..]) == PlainOne(text[ch], Plain(text[ch + 1..]))
    ensures text[ch] == '&' ==> Plain(text[ch..]) == PlainEsc(text, ch, Until(text[ch + 1..], ';'))
  {
    hide Until, Unescape;
    var from := text[ch..];
    Dropped(text, ch);
    if text[ch] == '&' {
      var n := Until(text[ch + 1..], ';');
      if ch + 1 + n < |text| {
        Dropped2(text, ch, n);
      }
    }
  }

  function PlainOne(c: char, rest: Result<string>): Result<string> {
    if rest.Error? then Error else Ok([c] + rest.value)
  }

  function PlainEsc(text: string, ch: nat, n: nat): Result<string>
    requires ch + 1 + n <= |text|
  {
    if ch + 1 + n == |text| then Error
    else
      var one, rest := Unescape(text[ch + 1..ch + 1 + n]), Plain(text[ch + n + 2..]);
      if one.Error? || rest.Error? then Error else Ok(one.value + rest.value)
  }

  lemma Dropped(text: string, ch: nat)
    requires ch < |text|
    ensures text[ch..] != "" && text[ch..][0] == text[ch] && text[ch..][1..] == text[ch + 1..]
  {
  }

  lemma Dropped2(text: string, ch: nat, n: nat)
    requires ch + 1 + n < |text|
    ensures text[ch..][1..n + 1] == text[ch + 1..ch + 1 + n] && text[ch..][n + 2..] == text[ch + n + 2..]
  {
  }

  // The inside of a tag.

  lemma {:induction false} SpacesSkipped(s: string, n: nat)
    requires n <= |s| && forall i :: 0 <= i < n ==> IsSpace(s[i])
    requires n < |s| ==> !IsSpace(s[n])
    ensures SkipSpaces(s) == s[n..]
    decreases n
  {
    if n > 0 {
      SpacesSkipped(s[1..], n - 1);
      assert s[1..][n - 1..] == s[n..];
    }
  }

  lemma {:induction false} WordEnds(s: string, n: nat)
    requires n <= |s| && (forall i :: 0 <= i < n ==> !IsSpace(s[i])) && (n < |s| ==> IsSpace(s[n]))
    ensures WordLength(s) == n
    decreases n
  {
    if n > 0 {
      WordEnds(s[1..], n - 1);
    }
  }

  lemma {:induction false} EndTrimmed(s: string, n: nat)
    requires n <= |s| && (forall i :: n <= i < |s| ==> IsSpace(s[i])) && (n > 0 ==> !IsSpace(s[n - 1]))
    ensures TrimEnd(s) == s[..n]
    decreases |s|
  {
    if n < |s| {
      EndTrimmed(s[..|s| - 1], n);
      assert s[..|s| - 1][..n] == s[..n];
    } else {
      assert s[..n] == s;
    }
  }

  /** `iss >> word`: skips spaces and reads up to the next one. */
  method ReadWord(iss: string) returns (word: string, rest: string)
    ensures var s := SkipSpaces(iss);
      word == s[..WordLength(s)] && rest == s[WordLength(s)..]
  {
    var i := 0;
    while i < |iss| && IsSpace(iss[i])
      invariant i <= |iss| && forall k :: 0 <= k < i ==> IsSpace(iss[k])
    {
      i := i + 1;
    }
    SpacesSkipped(iss, i);
    var s := iss[i..];
    var n := 0;
    while n < |s| && !IsSpace(s[n])
      invariant n <= |s| && forall k :: 0 <= k < n ==> !IsSpace(s[k])
    {
      n := n + 1;
    }
    WordEnds(s, n);
    return s[..n], s[n..];
  }

  /** The getline loop: every line with a space in front of it. */
  method ReadLines(rest: string) returns (lines: string)
    ensures lines == AttrLines(rest)
  {
    lines := "";
    var left := rest;
    while left != ""
      invariant lines + AttrLines(left) == AttrLines(rest)
      decreases |left|
    {
      var n := 0;
      while n < |left| && left[n] != '\n'
        invariant n <= |left| && '\n' !in left[..n]
      {
        n := n + 1;
      }
      LineEnds(left, n);
      lines := lines + (" " + left[..n]);
      left := if n == |left| then "" else left[n + 1..];
    }
  }

  lemma LineEnds(left: string, n: nat)
    requires left != "" && n <= |left| && '\n' !in left[..n] && (n < |left| ==> left[n] == '\n')
    ensures Until(left, '\n') == n
    ensures AttrLines(left) == " " + left[..n] + AttrLines(if n == |left| then "" else left[n + 1..])
  {
    if n < |left| {
      UntilAt(left[..n], '\n', left[n + 1..]);
      assert left[..n] + ['\n'] + left[n + 1..] == left;
    } else {
      assert left[..n] == left;
      NoneUntil(left, '\n');
      assert " " + left + "" == " " + left;
    }
  }

  method ParseNameAttrs(iss: string) returns (r: Result<NameAttrs>)
    ensures r == ParseTag(iss)
  {
    hide SkipSpaces, TrimEnd, IsSpace, WordLength, AttrLines;
    var name, rest := ReadWord(iss);
    if name == "" {
      return Error;
    }
    var lines := ReadLines(rest);
    if lines == "" {
      Trimmed(lines, 0, -1);
      return Ok(NameAttrs(name, ""));
    }
    var head: nat := 0;
    while head < |lines| && IsSpace(lines[head])
      invariant head <= |lines| && forall k :: 0 <= k < head ==> IsSpace(lines[k])
    {
      head := head + 1;
    }
    var tail: int := |lines| - 1;
    while tail >= 0 && IsSpace(lines[tail])
      invariant -1 <= tail < |lines| && forall k :: tail < k < |lines| ==> IsSpace(lines[k])
    {
      tail := tail - 1;
    }
    Trimmed(lines, head, tail);
    return Ok(NameAttrs(name, if head <= tail then lines[head..tail + 1] else ""));
  }

  lemma Trimmed(lines: string, head: nat, tail: int)
    requires head <= |lines| && -1 <= tail < |lines|
    requires (forall k :: 0 <= k < head ==> IsSpace(lines[k])) && (head < |lines| ==> !IsSpace(lines[head]))
    requires (forall k :: tail < k < |lines| ==> IsSpace(lines[k])) && (tail >= 0 ==> !IsSpace(lines[tail]))
    ensures TrimEnd(SkipSpaces(lines)) == if head <= tail then lines[head..tail + 1] else ""
  {
    hide SkipSpaces, TrimEnd, IsSpace;
    SpacesSkipped(lines, head);
    TrimmedRest(lines, lines[head..], head, if head <= tail then tail + 1 - head else 0);
  }

  lemma TrimmedRest(lines: string, s: string, head: nat, n: nat)
    requires head + n <= |lines| && s == lines[head..]
    requires forall k :: head + n <= k < |lines| ==> IsSpace(lines[k])
    requires n > 0 ==> !IsSpace(lines[head + n - 1])
    ensures TrimEnd(s) == lines[head..head + n]
  {
    hide IsSpace, TrimEnd;
    forall i | n <= i < |s| ensures IsSpace(s[i]) {
      assert s[i] == lines[head + i];
    }
    EndTrimmed(s, n);
  }

  // The reader.

  /** What the tokens to come make of a state. */
  ghost function RunAll(st: State, coming: Result<seq<Token>>): Result<State> {
    if coming.Error? then Error else Run(st, coming.value)
  }

  ghost predicate InRange(stacks: map<string, seq<nat>>, n: nat) {
    forall name, p :: name in stacks && 0 <= p < |stacks[name]| ==> stacks[name][p] < n
  }

  method StripTrailing(tag: string) returns (last: nat)
    requires tag != "" && tag[0] == '/'
    ensures last == StripEnd(tag)
  {
    last := |tag| - 1;
    assert tag[..|tag|] == tag;
    while IsSpace(tag[last])
      invariant last < |tag| && StripEnd(tag[..last + 1]) == StripEnd(tag)
      decreases last
    {
      assert last > 0 && tag[..last + 1][..last] == tag[..last];
      last := last - 1;
    }
  }

  method AllEmpty(stacks: map<string, seq<nat>>) returns (empty: bool)
    ensures empty <==> AllClosed(stacks)
  {
    var names := stacks.Keys;
    while names != {}
      invariant names <= stacks.Keys && forall name :: name in stacks && name !in names ==> stacks[name] == []
      decreases names
    {
      var name :| name in names;
      if stacks[name] != [] {
        return false;
      }
      names := names - {name};
    }
    return true;
  }

  class StandOffManager {
    var tagsData: seq<Tag>
    var tagOrder: seq<string>

    constructor (tagOrder: seq<string>)
      ensures tagsData == [] && this.tagOrder == tagOrder
    {
      tagsData := [];
      this.tagOrder := tagOrder;
    }

    /** operator+=: the tags of another manager, which may be this one, are merged in. */
    method AddAssign(a: StandOffManager)
      modifies this`tagsData
      ensures tagsData == TwoFiles.MergeTwo(tagOrder, old(tagsData), old(a.tagsData))
    {
      var data := a.tagsData;
      tagsData := TwoFiles.MergeLists(tagOrder, tagsData, data);
    }

    /** A tag inside the document. */
    method ReadTag(tag: string, tagStacks: map<string, seq<nat>>, outTxt: string, ghost phase: Phase)
      returns (ok: bool, stacks: map<string, seq<nat>>, closed: bool)
      requires InRange(tagStacks, |tagsData|)
      modifies this`tagsData
      ensures var r := BodyTag(State(phase, old(tagsData), tagStacks, outTxt), tag);
        && ok == r.Ok?
        && (ok ==> r.value == State(if closed then Closed else Body, tagsData, stacks, outTxt))
      ensures ok ==> InRange(stacks, |tagsData|)
    {
      hide ParseTag, StripEnd;
      stacks, closed := tagStacks, false;
      ghost var st := State(phase, tagsData, tagStacks, outTxt);
      if tag == "" || IsSpace(tag[0]) {
        return false, stacks, closed;
      }
      if tag[0] == '/' {
        var last := StripTrailing(tag);
        if last == 0 {
          return false, stacks, closed;
        }
        var name := tag[1..last + 1];
        var stack := if name in stacks then stacks[name] else [];
        if stack == [] {
          return false, stacks, closed;
        }
        var ix := stack[|stack| - 1];
        stacks := stacks[name := stack[..|stack| - 1]];
        tagsData := tagsData[ix := tagsData[ix].(end := |outTxt|)];
        return true, stacks, ix == 0;
      } else if tag[|tag| - 1] == '/' {
        var td := ParseNameAttrs(tag[..|tag| - 1]);
        if td.Error? {
          return false, stacks, closed;
        }
        tagsData := tagsData + [Tag(td.value.name, td.value.attrs, |outTxt|, |outTxt|)];
        return true, stacks, false;
      } else {
        var td := ParseNameAttrs(tag);
        if td.Error? {
          return false, stacks, closed;
        }
        var ix := |tagsData|;
        tagsData := tagsData + [Tag(td.value.name, td.value.attrs, |outTxt|, DUMMY_END)];
        var stack := if td.value.name in stacks then stacks[td.value.name] else [];
        stacks := stacks[td.value.name := stack + [ix]];
        return true, stacks, false;
      }
    }

    /** Seeks to the first tag that is neither "<!...>" nor "<?...>". */
    method SeekRoot(lexer: SemiXmlLexer, ghost st: State) returns (ok: bool)
      requires lexer.Valid() && st.phase == Seeking
      modifies lexer
      ensures lexer.Valid()
      ensures !ok ==> RunAll(st, old(lexer.Coming())).Error?
      ensures ok ==> RunAll(st, lexer.Coming()) == RunAll(st, old(lexer.Coming()))
      ensures ok && lexer.tokenType != TEof ==>
                lexer.tokenType == TTag && lexer.currToken != ""
                && lexer.currToken[0] != '!' && lexer.currToken[0] != '?'
    {
      hide Lex, Plain, BodyTag, SemiXmlLexer.Rest;
      ghost var goal := RunAll(st, lexer.Coming());
      while lexer.tokenType != TEof
        invariant lexer.Valid() && RunAll(st, lexer.Coming()) == goal
        decreases |lexer.Rest()|, lexer.tokenType != TEof
      {
        if lexer.tokenType == TTag {
          var tag := lexer.currToken;
          if tag == "" {
            return false;
          }
          if tag[0] != '!' && tag[0] != '?' {
            break;
          }
        }
        ok := lexer.Advance();
        if !ok {
          return;
        }
      }
      ok := true;
    }

    /** The tokens from the root tag to its end tag. */
    method ReadBody(lexer: SemiXmlLexer)
      returns (ok: bool, outTxt: string, tagStacks: map<string, seq<nat>>, ghost st: State)
      requires lexer.Valid()
      requires lexer.tokenType == TTag && lexer.currToken != ""
      requires lexer.currToken[0] != '!' && lexer.currToken[0] != '?'
      modifies this`tagsData, lexer
      ensures lexer.Valid()
      ensures !ok ==> RunAll(State(Seeking, old(tagsData), map[], ""), old(lexer.Coming())).Error?
      ensures ok ==> st == State(st.phase, tagsData, tagStacks, outTxt)
                     && RunAll(st, lexer.Coming())
                     == RunAll(State(Seeking, old(tagsData), map[], ""), old(lexer.Coming()))
      ensures ok && lexer.tokenType != TEof ==> st.phase == Closed
    {
      hide Lex, Plain, BodyTag, InRange, SemiXmlLexer.Rest;
      outTxt, tagStacks := "", map[];
      st := State(Seeking, tagsData, tagStacks, outTxt);
      ghost var goal := RunAll(st, lexer.Coming());
      NoStacks(|tagsData|);
      while lexer.tokenType != TEof
        invariant lexer.Valid() && RunAll(st, lexer.Coming()) == goal
        invariant st == State(st.phase, tagsData, tagStacks, outTxt) && InRange(tagStacks, |tagsData|)
        invariant st.phase != Closed
        invariant st.phase == Seeking ==> lexer.tokenType == TTag && lexer.currToken != ""
                                          && lexer.currToken[0] != '!' && lexer.currToken[0] != '?'
        decreases |lexer.Rest()|, lexer.tokenType != TEof
      {
        var closed := false;
        if lexer.tokenType == TText {
          var txt := WriteText(lexer.currToken, outTxt);
          if txt.Error? {
            ok := false;
            return;
          }
          outTxt := txt.value;
          st := st.(text := outTxt);
        } else {
          ok, tagStacks, closed := ReadTag(lexer.currToken, tagStacks, outTxt, st.phase);
          if !ok {
            return;
          }
          st := State(if closed then Closed else Body, tagsData, tagStacks, outTxt);
        }
        ok := lexer.Advance();
        if !ok {
          return;
        }
        if closed {
          return;
        }
      }
      ok := true;
    }

    /** readSemiXMLandWriteRawText: what Imported says about the tags so far and the input. */
    method ReadSemiXml(inSxml: string) returns (ok: bool, outTxt: string)
      modifies this`tagsData
      ensures ok == Imported(old(tagsData), inSxml).Ok?
      ensures ok ==> Document(outTxt, tagsData) == Imported(old(tagsData), inSxml).value
    {
      hide BodyTag, Lex, Plain, AllClosed, SemiXmlLexer.Rest;
      var lexer := new SemiXmlLexer(inSxml);
      outTxt := "";
      ok := lexer.Advance();
      if !ok {
        return;
      }
      ok := SeekRoot(lexer, State(Seeking, tagsData, map[], ""));
      if !ok {
        return;
      }
      if lexer.tokenType == TEof {
        NoStacks(0);
        return true, outTxt;
      }
      var tagStacks;
      ghost var st;
      ok, outTxt, tagStacks, st := ReadBody(lexer);
      if !ok {
        return;
      }
      while lexer.tokenType != TEof
        invariant lexer.Valid() && fresh(lexer)
        invariant RunAll(st, lexer.Coming()) == RunAll(State(Seeking, old(tagsData), map[], ""), Lex(inSxml))
        invariant st == State(st.phase, tagsData, tagStacks, outTxt)
        invariant lexer.tokenType != TEof ==> st.phase == Closed
        decreases |lexer.Rest()|, lexer.tokenType != TEof
      {
        if lexer.tokenType == TTag {
          return false, outTxt;
        }
        ok := lexer.Advance();
        if !ok {
          return;
        }
      }
      ok := AllEmpty(tagStacks);
    }
  }

  lemma NoStacks(n: nat)
    ensures InRange(map[], n) && AllClosed(map[])
  {
  }
}
