/** The lexer and the tag parser on any text, character by character. */
module Lexical {
  import opened SemiXml

  // What is written.

  /** Two characters are escaped, and nothing else is. */
  lemma EscapeIs(c: char)
    ensures Escape('<') == "&lt;" && Escape('&') == "&amp;"
    ensures c != '<' && c != '&' ==> Escape(c) == [c]
  {
  }

  function Behindname(attrs: string): string {
    if attrs == "" then "" else " " + attrs
  }

  /** A start tag, an empty tag, an end tag, a character. */
  lemma SerIs(name: string, attrs: string, c: char)
    ensures Ser(StartEv(name, attrs)) == "<" + (name + Behindname(attrs)) + ">"
    ensures Ser(EmptyEv(name, attrs)) == "<" + (name + Behindname(attrs) + "/") + ">"
    ensures Ser(EndEv(name)) == "<" + ("/" + name) + ">" && Ser(CharEv(c)) == Escape(c)
  {
  }

  // Tokens.

  ghost function Spelled(token: Token): string {
    match token
    case Text(s) => s
    case TagTok(s) => "<" + s + ">"
  }

  ghost function SpelledAll(tokens: seq<Token>): string {
    if tokens == [] then "" else Spelled(tokens[0]) + SpelledAll(tokens[1..])
  }

  /** Texts that are not empty and hold no '<', tags that hold no '>', and no text next to another. */
  ghost predicate AreTokens(tokens: seq<Token>) {
    && (forall i :: 0 <= i < |tokens| ==>
          match tokens[i] case Text(s) => s != "" && '<' !in s case TagTok(s) => '>' !in s)
    && (forall i :: 0 < i < |tokens| ==> !(tokens[i - 1].Text? && tokens[i].Text?))
  }

  /** The tokens of a text are the pieces it consists of. */
  lemma {:induction false} LexIs(s: string)
    requires Lex(s).Ok?
    ensures AreTokens(Lex(s).value) && SpelledAll(Lex(s).value) == s
    ensures s != "" && s[0] == '<' ==> Lex(s).value[0].TagTok?
    decreases |s|
  {
    if s != "" && s[0] == '<' {
      var n := Until(s[1..], '>');
      assert n < |s[1..]|;
      LexStep(s, n);
      TagPiece(s, n);
      hide Lex, LexTagged, Until;
      LexIs(s[n + 2..]);
      OneToken(TagTok(s[1..n + 1]), Lex(s[n + 2..]).value);
    } else if s != "" {
      var n := Until(s, '<');
      LexRun(s, n);
      hide Lex, LexPlain, Until;
      LexIs(s[n..]);
      TextPiece(s, n);
      OneToken(Text(s[..n]), Lex(s[n..]).value);
    } else {
      NoTokens();
    }
  }

  lemma NoTokens()
    ensures Lex("") == Ok([]) && AreTokens([]) && SpelledAll([]) == ""
  {
  }

  lemma TagPiece(s: string, n: nat)
    requires s != "" && s[0] == '<' && n < |s[1..]| && n == Until(s[1..], '>')
    ensures '>' !in s[1..n + 1] && s == "<" + s[1..n + 1] + ">" + s[n + 2..]
  {
    assert forall k :: 0 <= k < n ==> s[1..n + 1][k] == s[1..][k];
    assert s[n + 1] == s[1..][n];
  }

  lemma TextPiece(s: string, n: nat)
    requires 0 < n <= |s| && (forall k :: 0 <= k < n ==> s[k] != '<') && (n < |s| ==> s[n] == '<')
    ensures '<' !in s[..n] && s == s[..n] + s[n..] && (s[n..] != "" ==> s[n..][0] == '<')
  {
  }

  lemma OneToken(token: Token, rest: seq<Token>)
    requires AreTokens(rest)
    requires match token
             case Text(s) => s != "" && '<' !in s && (rest != [] ==> !rest[0].Text?)
             case TagTok(s) => '>' !in s
    ensures AreTokens([token] + rest) && SpelledAll([token] + rest) == Spelled(token) + SpelledAll(rest)
  {
    assert ([token] + rest)[1..] == rest;
  }

  // The inside of a tag.

  predicate IsBlank(c: char) {
    c in " \t\n\r" || c as int == 11 || c as int == 12
  }

  ghost predicate Blank(s: string) {
    forall i :: 0 <= i < |s| ==> IsBlank(s[i])
  }

  /** Line ends turned into blanks. */
  function Joined(s: string): (t: string)
    ensures |t| == |s|
  {
    seq(|s|, i requires 0 <= i < |s| => if s[i] == '\n' then ' ' else s[i])
  }

  /** The text between the blanks on both sides. */
  ghost predicate Inside(s: string, inner: string) {
    && (inner != "" ==> !IsBlank(inner[0]) && !IsBlank(inner[|inner| - 1]))
    && exists a, b :: Blank(a) && Blank(b) && s == a + inner + b
  }

  lemma BlankIs(c: char)
    ensures IsSpace(c) <==> IsBlank(c)
  {
  }

  lemma {:induction false} SkipIs(s: string) returns (a: string)
    ensures Blank(a) && s == a + SkipSpaces(s)
    ensures SkipSpaces(s) != "" ==> !IsBlank(SkipSpaces(s)[0])
  {
    hide Blank;
    a := "";
    if s != "" && IsSpace(s[0]) {
      a := SkipIs(s[1..]);
      BlankMore(a, s[0]);
      a := [s[0]] + a;
    } else {
      NoBlank();
    }
  }

  lemma NoBlank()
    ensures Blank("")
  {
  }

  lemma BlankMore(a: string, c: char)
    requires Blank(a) && IsSpace(c)
    ensures Blank([c] + a) && Blank(a + [c])
  {
    BlankIs(c);
  }

  lemma {:induction false} TrimIs(s: string) returns (b: string)
    ensures Blank(b) && s == TrimEnd(s) + b
    ensures TrimEnd(s) != "" ==> !IsBlank(TrimEnd(s)[|TrimEnd(s)| - 1]) && s != "" && TrimEnd(s)[0] == s[0]
  {
    hide Blank;
    b := "";
    if s != "" && IsSpace(s[|s| - 1]) {
      b := TrimIs(s[..|s| - 1]);
      BlankMore(b, s[|s| - 1]);
      b := b + [s[|s| - 1]];
    } else {
      NoBlank();
    }
  }

  function LastEnd(s: string): string
    requires s != ""
  {
    if s[|s| - 1] == '\n' then " " else ""
  }

  /** The lines behind a name, with blanks for their ends; a last line end is dropped. */
  lemma {:induction false} LinesAre(rest: string)
    requires rest != ""
    ensures " " + Joined(rest) == AttrLines(rest) + LastEnd(rest)
    decreases |rest|
  {
    var n := Until(rest, '\n');
    if n == |rest| {
      assert Joined(rest) == rest && rest[..n] == rest && LastEnd(rest) == "";
    } else {
      var line, more := rest[..n], rest[n + 1..];
      FirstLine(rest, n);
      hide *;
      if more == "" {
        MoreLines(line, "", "", " ");
      } else {
        LinesAre(more);
        MoreLines(line, Joined(more), AttrLines(more), LastEnd(more));
      }
    }
  }

  lemma FirstLine(rest: string, n: nat)
    requires n == Until(rest, '\n') < |rest|
    ensures var line, more := rest[..n], rest[n + 1..];
      && AttrLines(rest) == " " + line + AttrLines(more)
      && Joined(rest) == line + (" " + Joined(more))
      && (more == "" ==> AttrLines(more) == "" && Joined(more) == "" && LastEnd(rest) == " ")
      && (more != "" ==> LastEnd(rest) == LastEnd(more))
  {
    var line, more := rest[..n], rest[n + 1..];
    LinesUnfold(rest, n, more);
    hide AttrLines;
    JoinedUnfold(rest, n);
  }

  lemma LinesUnfold(rest: string, n: nat, more: string)
    requires n == Until(rest, '\n') < |rest| && more == rest[n + 1..]
    ensures AttrLines(rest) == " " + rest[..n] + AttrLines(more) && (more == "" ==> AttrLines(more) == "")
  {
    NoLines();
    hide AttrLines;
    Unfolded(rest, n);
  }

  lemma NoLines()
    ensures AttrLines("") == ""
  {
  }

  lemma Unfolded(rest: string, n: nat)
    requires rest != "" && n == Until(rest, '\n')
    ensures AttrLines(rest) == " " + rest[..n] + (if n == |rest| then "" else AttrLines(rest[n + 1..]))
  {
    hide Until;
  }

  lemma JoinedUnfold(rest: string, n: nat)
    requires n < |rest| && rest[n] == '\n' && forall i :: 0 <= i < n ==> rest[i] != '\n'
    ensures Joined(rest) == rest[..n] + (" " + Joined(rest[n + 1..]))
  {
    var more := rest[n + 1..];
    assert forall i :: 0 <= i < |more| ==> Joined(rest)[n + 1 + i] == Joined(more)[i];
  }

  lemma MoreLines(line: string, joined: string, lines: string, end: string)
    requires " " + joined == lines + end
    ensures " " + (line + (" " + joined)) == " " + line + lines + end
  {
    assert " " + (line + (lines + end)) == " " + line + lines + end;
  }

  lemma {:induction false} WordIs(s: string)
    ensures var n := WordLength(s);
      (forall i :: 0 <= i < n ==> !IsBlank(s[i])) && (n < |s| ==> IsBlank(s[n]))
  {
    if s != "" && !IsSpace(s[0]) {
      WordIs(s[1..]);
    }
  }

  /** What a tag consists of: blanks, a name without blanks, and behind it the attributes, line ends as blanks. */
  ghost predicate Consists(tag: string, name: string, attrs: string) {
    exists front, rest ::
      Blank(front) && tag == front + name + rest && IsName(name, rest) && Inside(Joined(rest), attrs)
  }

  /** The name goes up to the first blank. */
  ghost predicate IsName(name: string, rest: string) {
    name != "" && (forall i :: 0 <= i < |name| ==> !IsBlank(name[i])) && (rest != "" ==> IsBlank(rest[0]))
  }

  /** The inside of a tag is parsed unless it is blank, and gives the name and the attributes that it consists of. */
  lemma ParseIs(tag: string)
    ensures ParseTag(tag).Error? <==> Blank(tag)
    ensures ParseTag(tag).Ok? ==> Consists(tag, ParseTag(tag).value.name, ParseTag(tag).value.attrs)
  {
    var s := SkipSpaces(tag);
    var n := WordLength(s);
    var front := SkipIs(tag);
    WordIs(s);
    if s == "" {
      assert tag == front;
    } else {
      BlankIs(s[0]);
      assert tag[|front|] == s[0];
      assert !Blank(tag) && n > 0;
      var name, rest, attrs := s[..n], s[n..], TrimEnd(SkipSpaces(AttrLines(s[n..])));
      AttrsInside(rest);
      assert ParseTag(tag) == Ok(NameAttrs(name, attrs));
      hide *;
      TagPieces(tag, front, s, n, attrs);
    }
  }

  lemma TagPieces(tag: string, front: string, s: string, n: nat, attrs: string)
    requires Blank(front) && tag == front + s && 0 < n <= |s| && Inside(Joined(s[n..]), attrs)
    requires (forall i :: 0 <= i < n ==> !IsBlank(s[i])) && (n < |s| ==> IsBlank(s[n]))
    ensures Consists(tag, s[..n], attrs)
  {
    hide Blank, IsBlank, Joined, Inside;
    assert s == s[..n] + s[n..] && tag == front + s[..n] + s[n..];
    assert IsName(s[..n], s[n..]);
  }

  lemma AttrsInside(rest: string)
    ensures Inside(Joined(rest), TrimEnd(SkipSpaces(AttrLines(rest))))
  {
    hide IsBlank, Joined;
    var lines := AttrLines(rest);
    var skipped := SkipSpaces(lines);
    var attrs := TrimEnd(skipped);
    hide AttrLines;
    var a := SkipIs(lines);
    var b := TrimIs(skipped);
    hide SkipSpaces, TrimEnd;
    if rest == "" {
      NothingInside();
    } else {
      LinesAre(rest);
      var c := LastEnd(rest);
      FirstBlank(rest);
      assert "" + skipped == skipped;
      LastBlank(rest);
      Within(Joined(rest), a, attrs, b, c);
    }
  }

  lemma FirstBlank(rest: string)
    requires rest != ""
    ensures AttrLines(rest) != "" && IsBlank(AttrLines(rest)[0])
  {
  }

  lemma LastBlank(rest: string)
    requires rest != ""
    ensures Blank(LastEnd(rest))
  {
  }

  lemma NothingInside()
    ensures Inside(Joined(""), TrimEnd(SkipSpaces(AttrLines(""))))
  {
    assert Blank("") && Joined("") == "" + "" + "";
  }

  lemma Within(joined: string, a: string, attrs: string, b: string, c: string)
    requires " " + joined == (a + (attrs + b)) + c && Blank(a) && Blank(b) && Blank(c) && a != ""
    requires attrs != "" ==> !IsBlank(attrs[0]) && !IsBlank(attrs[|attrs| - 1])
    ensures Inside(joined, attrs)
  {
    hide IsBlank;
    assert joined == (" " + joined)[1..] == a[1..] + attrs + (b + c);
    assert Blank(a[1..]) && Blank(b + c);
  }
}
