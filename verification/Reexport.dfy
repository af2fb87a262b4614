/** Exporting what was imported, and importing it again. */
module Reexport {
  import opened SemiXml
  import opened Import
  import opened Export
  import opened Neat
  import opened RoundTrip

  /**
   * What was imported is exported and imported again unchanged if and only if no tag with something inside
   * ends in a slash: `<a b/ >x</a>` is written as `<a b/>x</a>`.
   */
  lemma Reexported(input: string)
    requires Imported([], input).Ok?
    ensures var d := Imported([], input).value;
      Named(d.tags) && (Imported([], Exported(d.text, d.tags)) == Ok(d) <==> NoSlash(d.tags))
  {
    hide WellPlaced, Named, NoSlash, Rooted, NoCrossing, Imported, Exported;
    ImportNeat(input);
    ImportProper(input);
    RoundTrip.RoundTrip(Imported([], input).value.text, Imported([], input).value.tags);
  }

  /** Import, export, import: did the second import give what the first gave? */
  method Normalise(input: string) returns (imported: bool, exported: bool, same: bool)
    ensures imported <==> Imported([], input).Ok?
    ensures imported ==> exported && Named(Imported([], input).value.tags)
    ensures imported ==> (same <==> NoSlash(Imported([], input).value.tags))
  {
    hide WellPlaced, Named, NoSlash, Imported, Exported;
    exported, same := false, false;
    var manager := new Importer.StandOffManager([]);
    var text;
    imported, text := manager.ReadSemiXml(input);
    if imported {
      ImportNeat(input);
      Reexported(input);
      var r := WriteSemiXml(text, manager.tagsData);
      exported := r.Ok?;
      var again := new Importer.StandOffManager([]);
      var ok, text' := again.ReadSemiXml(r.value);
      same := ok && text' == text && again.tagsData == manager.tagsData;
    }
  }

  // The input that does not survive: `<a b/ >x</a>`.

  lemma SlashTail()
    ensures Lex("x</a>") == Ok([Text("x"), TagTok("/a")])
  {
    LexNothing();
    LexTag("/a", "");
    hide Lex;
    assert "<" + "/a" + ">" + "" == "</a>";
    LexText("x", "</a>");
    assert "x" + "</a>" == "x</a>";
    assert [TagTok("/a")] + [] == [TagTok("/a")] && [Text("x")] + [TagTok("/a")] == [Text("x"), TagTok("/a")];
  }

  lemma SlashTokens()
    ensures Lex("<a b/ >x</a>") == Ok([TagTok("a b/ "), Text("x"), TagTok("/a")])
  {
    hide Lex;
    SlashTail();
    LexTag("a b/ ", "x</a>");
    assert "<" + "a b/ " + ">" + "x</a>" == "<a b/ >x</a>";
    assert [TagTok("a b/ ")] + [Text("x"), TagTok("/a")] == [TagTok("a b/ "), Text("x"), TagTok("/a")];
  }

  lemma SlashParsed()
    ensures ParseTag("a b/ ") == Ok(NameAttrs("a", "b/"))
  {
    var rest := " b/ ";
    assert "a b/ " == "a" + rest;
    WordIs("a", rest);
    assert SkipSpaces("a b/ ") == "a b/ ";
    assert "a b/ "[..1] == "a" && "a b/ "[1..] == rest;
    NoneUntil(rest, '\n');
    assert AttrLines(rest) == " " + rest;
    assert (" " + rest)[1..] == rest && rest[1..] == "b/ ";
    assert SkipSpaces(" " + rest) == SkipSpaces(rest) == SkipSpaces("b/ ") == "b/ ";
    assert "b/ "[..2] == "b/";
    assert TrimEnd("b/ ") == TrimEnd("b/") == "b/";
  }

  lemma SlashRun(start: State)
    requires start == State(Seeking, [], map[], "")
    ensures Run(start, [TagTok("a b/ "), Text("x"), TagTok("/a")]).Ok?
    ensures var st := Run(start, [TagTok("a b/ "), Text("x"), TagTok("/a")]).value;
      st.text == "x" && st.tags == [Tag("a", "b/", 0, 1)] && AllClosed(st.stacks)
  {
    hide ParseTag, StripEnd, Plain, Run;
    SlashParsed();
    var st1 := OpenTag(start, NameAttrs("a", "b/"));
    assert Step(start, TagTok("a b/ ")) == Ok(st1);
    assert st1.stacks == map[]["a" := [0]] by {
      assert [] + [0] == [0];
    }
    PlainNothing();
    PlainEscape('x', "");
    assert Escape('x') + "" == "x" && [('x')] + "" == "x";
    var st2 := st1.(text := "x");
    assert Step(st1, Text("x")) == Ok(st2) by {
      assert "" + "x" == "x";
    }
    SlashClosed(st2);
    var st3 := Step(st2, TagTok("/a")).value;
    RunThree(start, TagTok("a b/ "), Text("x"), TagTok("/a"), st1, st2, st3);
  }

  lemma SlashClosed(st: State)
    requires st.phase == Body && st.text == "x" && st.tags == [Tag("a", "b/", 0, DUMMY_END)]
    requires st.stacks == map[]["a" := [0]]
    ensures Step(st, TagTok("/a")).Ok?
    ensures var st' := Step(st, TagTok("/a")).value;
      st'.text == "x" && st'.tags == [Tag("a", "b/", 0, 1)] && AllClosed(st'.stacks)
  {
    assert StripEnd("/a") == 1 && "/a"[1..2] == "a";
  }

  lemma RunThree(st: State, a: Token, b: Token, c: Token, st1: State, st2: State, st3: State)
    requires Step(st, a) == Ok(st1) && Step(st1, b) == Ok(st2) && Step(st2, c) == Ok(st3)
    ensures Run(st, [a, b, c]) == Ok(st3)
  {
    hide Step;
    assert [a, b, c][1..] == [b, c] && [b, c][1..] == [c] && [c][1..] == [];
    assert Run(st2, [c]) == Run(st3, []);
    assert Run(st1, [b, c]) == Run(st2, [c]);
  }

  /** It is imported as a tag whose attributes end in a slash, and the export of that is read differently. */
  lemma SlashExample()
    ensures Imported([], "<a b/ >x</a>") == Ok(Document("x", [Tag("a", "b/", 0, 1)]))
    ensures Imported([], Exported("x", [Tag("a", "b/", 0, 1)])) != Ok(Document("x", [Tag("a", "b/", 0, 1)]))
  {
    hide Lex, Run, Exported;
    SlashTokens();
    SlashRun(State(Seeking, [], map[], ""));
    ImportNeat("<a b/ >x</a>");
    Reexported("<a b/ >x</a>");
    assert Content(StartEv("a", "b/")) == "a b/";
    assert EndsInSlash(Tag("a", "b/", 0, 1));
  }
}
