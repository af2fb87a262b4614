/** Tags, and the semi-XML text that carries them: escapes, tag syntax, tokens. */
module SemiXml {

  datatype Tag = Tag(name: string, attrs: string, begin: nat, end: nat)

  predicate IsEmpty(t: Tag) {
    t.begin == t.end
  }

  datatype Result<+T> = Ok(value: T) | Error

  predicate IsSpace(c: char) {
    c == ' ' || c == '\t' || c == '\n' || c == '\r' || c == 11 as char || c == 12 as char
  }

  /** What the exporter writes, piece by piece. */
  datatype Event =
    | StartEv(name: string, attrs: string)
    | EmptyEv(name: string, attrs: string)
    | EndEv(name: string)
    | CharEv(c: char)

  function Escape(c: char): (s: string)
    ensures s != "" && s[0] != '<'
  {
    if c == '<' then "&lt;" else if c == '&' then "&amp;" else [c]
  }

  /** The inside of a tag. */
  function Content(ev: Event): string
    requires !ev.CharEv?
  {
    match ev
    case StartEv(name, attrs) => name + (if attrs == "" then "" else " " + attrs)
    case EmptyEv(name, attrs) => name + (if attrs == "" then "" else " " + attrs) + "/"
    case EndEv(name) => "/" + name
  }

  function Ser(ev: Event): string {
    if ev.CharEv? then Escape(ev.c) else "<" + Content(ev) + ">"
  }

  function SerAll(evs: seq<Event>): string {
    if evs == [] then "" else Ser(evs[0]) + SerAll(evs[1..])
  }

  lemma {:induction false} SerConcat(a: seq<Event>, b: seq<Event>)
    ensures SerAll(a + b) == SerAll(a) + SerAll(b)
  {
    if a == [] {
      assert a + b == b;
    } else {
      assert (a + b)[0] == a[0] && (a + b)[1..] == a[1..] + b;
      SerConcat(a[1..], b);
      assert Ser(a[0]) + (SerAll(a[1..]) + SerAll(b)) == Ser(a[0]) + SerAll(a[1..]) + SerAll(b);
    }
  }

  // Tokens.

  datatype Token = Text(s: string) | TagTok(s: string)

  /** The length of the run up to `c`. */
  function Until(s: string, c: char): (n: nat)
    ensures n <= |s|
    ensures forall i :: 0 <= i < n ==> s[i] != c
    ensures n < |s| ==> s[n] == c
  {
    if s == "" || s[0] == c then 0 else 1 + Until(s[1..], c)
  }

  lemma {:induction false} UntilAt(a: string, c: char, b: string)
    requires forall i :: 0 <= i < |a| ==> a[i] != c
    ensures Until(a + [c] + b, c) == |a|
    ensures Until(a, c) == |a|
  {
    if a != "" {
      UntilAt(a[1..], c, b);
      assert (a + [c] + b)[1..] == a[1..] + [c] + b;
    }
  }

  lemma {:induction false} UntilPast(a: string, b: string, c: char)
    requires forall i :: 0 <= i < |a| ==> a[i] != c
    ensures Until(a + b, c) == |a| + Until(b, c)
  {
    if a == "" {
      assert a + b == b;
    } else {
      UntilPast(a[1..], b, c);
      assert (a + b)[1..] == a[1..] + b;
    }
  }

  /** The tokens of a text, if its last tag is terminated. */
  function Lex(s: string): Result<seq<Token>>
    decreases |s|, 1
  {
    if s == "" then Ok([])
    else if s[0] == '<' then LexTagged(s, Until(s[1..], '>'))
    else LexPlain(s, Until(s, '<'))
  }

  /** A tag of `n` characters in front. */
  function LexTagged(s: string, n: nat): Result<seq<Token>>
    requires n < |s|
    decreases |s|, 0
  {
    if 1 + n == |s| then Error
    else
      var rest := Lex(s[n + 2..]);
      if rest.Error? then Error else Ok([TagTok(s[1..n + 1])] + rest.value)
  }

  /** A text of `n` characters in front. */
  function LexPlain(s: string, n: nat): Result<seq<Token>>
    requires 0 < n <= |s|
    decreases |s|, 0
  {
    var rest := Lex(s[n..]);
    if rest.Error? then Error else Ok([Text(s[..n])] + rest.value)
  }

  /** One step of the lexer, when a tag is next. */
  lemma LexStep(s: string, n: nat)
    requires s != "" && s[0] == '<' && 1 + n < |s| && n == Until(s[1..], '>')
    ensures Lex(s) == if Lex(s[n + 2..]).Error? then Error else Ok([TagTok(s[1..n + 1])] + Lex(s[n + 2..]).value)
  {
    hide LexTagged;
    TaggedIs(s, n);
  }

  lemma TaggedIs(s: string, n: nat)
    requires 1 + n < |s|
    ensures LexTagged(s, n)
         == if Lex(s[n + 2..]).Error? then Error else Ok([TagTok(s[1..n + 1])] + Lex(s[n + 2..]).value)
  {
    hide Lex;
  }

  /** One step of the lexer, when a text is next. */
  lemma LexRun(s: string, n: nat)
    requires s != "" && s[0] != '<' && n == Until(s, '<')
    ensures Lex(s) == if Lex(s[n..]).Error? then Error else Ok([Text(s[..n])] + Lex(s[n..]).value)
  {
    hide LexPlain;
    PlainIs(s, n);
  }

  lemma PlainIs(s: string, n: nat)
    requires 0 < n <= |s|
    ensures LexPlain(s, n) == if Lex(s[n..]).Error? then Error else Ok([Text(s[..n])] + Lex(s[n..]).value)
  {
    hide Lex;
  }

  // Character references.

  function HexDigit(c: char): (d: int)
    ensures -1 <= d <= 15
  {
    if '0' <= c <= '9' then c as int - '0' as int
    else if 'a' <= c <= 'f' then c as int - 'a' as int + 10
    else if 'A' <= c <= 'F' then c as int - 'A' as int + 10
    else -1
  }

  const UNICODE_MAX := 0x10ffff

  /** getUscCodeHex and getUscCodeDec, from the digits `s[i..]` on. */
  function CodeFrom(s: string, i: nat, code: nat, hex: bool): Result<nat>
    requires i <= |s|
    decreases |s| - i
  {
    if i == |s| then Ok(code)
    else
      var d := HexDigit(s[i]);
      if d < 0 || (!hex && d > 9) then Error
      else
        var next := code * (if hex then 16 else 10) + d;
        if next > UNICODE_MAX then Error else CodeFrom(s, i + 1, next, hex)
  }

  function Code(s: string, hex: bool): Result<nat> {
    if s == "" then Error else CodeFrom(s, 0, 0, hex)
  }

  function Base(hex: bool): nat {
    if hex then 16 else 10
  }

  predicate AreDigits(s: string, hex: bool) {
    forall k :: 0 <= k < |s| ==> IsDigit(s[k], hex)
  }

  /** The number that digits stand for. */
  function Value(s: string, hex: bool): nat
    requires AreDigits(s, hex)
  {
    if s == "" then 0 else Value(s[..|s| - 1], hex) * Base(hex) + HexDigit(s[|s| - 1])
  }

  predicate IsDigit(c: char, hex: bool) {
    0 <= HexDigit(c) < Base(hex)
  }

  /** One digit more. */
  lemma OneDigit(s: string, i: nat, hex: bool)
    requires i < |s| && AreDigits(s[..i], hex)
    ensures AreDigits(s[..i + 1], hex) <==> IsDigit(s[i], hex)
    ensures IsDigit(s[i], hex) ==> Value(s[..i + 1], hex) == Value(s[..i], hex) * Base(hex) + HexDigit(s[i])
  {
    hide HexDigit;
    assert s[..i + 1][..i] == s[..i];
    assert forall k :: 0 <= k < i ==> s[..i + 1][k] == s[..i][k];
  }

  lemma PrefixDigits(s: string, i: nat, hex: bool)
    requires i <= |s| && AreDigits(s, hex)
    ensures AreDigits(s[..i], hex) && (i < |s| ==> IsDigit(s[i], hex))
  {
    hide HexDigit;
  }

  /** From some digit on, the value of those before it being given. */
  lemma {:induction false} CodeFromIs(s: string, i: nat, hex: bool)
    requires i <= |s| && AreDigits(s[..i], hex) && Value(s[..i], hex) <= UNICODE_MAX
    ensures CodeFrom(s, i, Value(s[..i], hex), hex)
         == if AreDigits(s, hex) && Value(s, hex) <= UNICODE_MAX then Ok(Value(s, hex)) else Error
    decreases |s| - i
  {
    hide HexDigit, AreDigits, Value;
    if i == |s| {
      assert s[..i] == s;
    } else {
      OneDigit(s, i, hex);
      if AreDigits(s, hex) {
        PrefixDigits(s, i, hex);
        ValueGrows(s, i + 1, hex);
      }
      if IsDigit(s[i], hex) && Value(s[..i + 1], hex) <= UNICODE_MAX {
        CodeFromIs(s, i + 1, hex);
      }
    }
  }

  lemma {:induction false} ValueGrows(s: string, i: nat, hex: bool)
    requires i <= |s| && AreDigits(s, hex)
    ensures AreDigits(s[..i], hex) && Value(s[..i], hex) <= Value(s, hex)
    decreases |s| - i
  {
    hide HexDigit, AreDigits, Value;
    PrefixDigits(s, i, hex);
    if i == |s| {
      assert s[..i] == s;
    } else {
      OneDigit(s, i, hex);
      ValueGrows(s, i + 1, hex);
    }
  }

  /** A character reference is read exactly if it consists of digits and is at most the Unicode maximum. */
  lemma CodeIs(s: string, hex: bool)
    ensures Code(s, hex) == if s != "" && AreDigits(s, hex) && Value(s, hex) <= UNICODE_MAX
                            then Ok(Value(s, hex)) else Error
  {
    if s != "" {
      assert s[..0] == "";
      CodeFromIs(s, 0, hex);
    }
  }

  /** The numeral of a number, in the digits 0 to 9 and a to f. */
  function Numeral(n: nat, hex: bool): string {
    if n < Base(hex) then [LastDigit(n, hex)] else Numeral(n / Base(hex), hex) + [LastDigit(n, hex)]
  }

  function LastDigit(n: nat, hex: bool): (c: char)
    ensures HexDigit(c) == n % Base(hex)
  {
    "0123456789abcdef"[n % Base(hex)]
  }

  lemma {:induction false} NumeralIs(n: nat, hex: bool)
    ensures Numeral(n, hex) != "" && AreDigits(Numeral(n, hex), hex) && Value(Numeral(n, hex), hex) == n
  {
    hide HexDigit, LastDigit, Value, AreDigits;
    if n >= Base(hex) {
      NumeralIs(n / Base(hex), hex);
      DigitBehind(Numeral(n / Base(hex), hex), LastDigit(n, hex), hex);
    } else {
      NoDigits(hex);
      DigitBehind("", LastDigit(n, hex), hex);
      assert "" + [LastDigit(n, hex)] == [LastDigit(n, hex)];
    }
  }

  lemma NoDigits(hex: bool)
    ensures AreDigits("", hex) && Value("", hex) == 0
  {
  }

  lemma DigitBehind(s: string, c: char, hex: bool)
    requires AreDigits(s, hex) && IsDigit(c, hex)
    ensures AreDigits(s + [c], hex) && Value(s + [c], hex) == Value(s, hex) * Base(hex) + HexDigit(c)
  {
    hide HexDigit;
    assert (s + [c])[..|s|] == s && (s + [c])[..|s| + 1] == s + [c];
    OneDigit(s + [c], |s|, hex);
  }

  /** The reference to a character is read back as its code, exactly up to the Unicode maximum. */
  lemma CodeOfNumeral(n: nat, hex: bool)
    ensures Code(Numeral(n, hex), hex) == if n <= UNICODE_MAX then Ok(n) else Error
  {
    NumeralIs(n, hex);
    CodeIs(Numeral(n, hex), hex);
  }

  /** encodeUtf8, for codes up to the Unicode maximum; a char stands for a byte. */
  function EncodeUtf8(c: nat): Result<string> {
    if c <= 0x7f then Ok([c as char])
    else if c <= 0x7ff then Ok([(0xc0 + c / 64) as char, (0x80 + c % 64) as char])
    else if c <= 0xffff then
      Ok([(0xe0 + c / 4096) as char, (0x80 + c / 64 % 64) as char, (0x80 + c % 64) as char])
    else if c <= UNICODE_MAX then
      Ok([(0xf0 + c / 262144) as char, (0x80 + c / 4096 % 64) as char,
          (0x80 + c / 64 % 64) as char, (0x80 + c % 64) as char])
    else Error
  }

  /** unescape: what the name between '&' and ';' stands for. */
  function Unescape(name: string): Result<string> {
    if name == "lt" then Ok("<")
    else if name == "gt" then Ok(">")
    else if name == "amp" then Ok("&")
    else if name == "quot" then Ok("\"")
    else if name == "apos" then Ok("\'")
    else if |name| >= 2 && name[0] == '#' then
      var code := if name[1] == 'x' then Code(name[2..], true) else Code(name[1..], false);
      if code.Error? then Error else EncodeUtf8(code.value)
    else Error
  }

  /** The characters of a text token, with its escape sequences replaced. */
  function Plain(s: string): Result<string>
    decreases |s|
  {
    if s == "" then Ok("")
    else if s[0] == '&' then
      var n := Until(s[1..], ';');
      if 1 + n == |s| then Error
      else
        var one, rest := Unescape(s[1..n + 1]), Plain(s[n + 2..]);
        if one.Error? || rest.Error? then Error else Ok(one.value + rest.value)
    else
      var rest := Plain(s[1..]);
      if rest.Error? then Error else Ok([s[0]] + rest.value)
  }

  /** An escaped character in front of a text is that character in front of the plain text. */
  lemma PlainEscape(c: char, s: string)
    ensures Plain(Escape(c) + s) == if Plain(s).Error? then Error else Ok([c] + Plain(s).value)
  {
    hide Code, EncodeUtf8, HexDigit;
    var t := Escape(c) + s;
    if c == '<' {
      assert t[1..] == "lt" + [';'] + s;
      UntilAt("lt", ';', s);
      assert t[1..3] == "lt" && t[4..] == s;
    } else if c == '&' {
      assert t[1..] == "amp" + [';'] + s;
      UntilAt("amp", ';', s);
      assert t[1..4] == "amp" && t[5..] == s;
    } else {
      assert t[1..] == s;
    }
  }

  // The inside of a tag: parseNameAttrs.

  function SkipSpaces(s: string): (rest: string)
    ensures rest == "" || !IsSpace(rest[0])
  {
    if s != "" && IsSpace(s[0]) then SkipSpaces(s[1..]) else s
  }

  function WordLength(s: string): (n: nat)
    ensures n <= |s|
  {
    if s == "" || IsSpace(s[0]) then 0 else 1 + WordLength(s[1..])
  }

  /** The lines behind the name, each with a space in front, the line ends dropped. */
  function AttrLines(rest: string): string
    decreases |rest|
  {
    if rest == "" then ""
    else
      var n := Until(rest, '\n');
      " " + rest[..n] + (if n == |rest| then "" else AttrLines(rest[n + 1..]))
  }

  function TrimEnd(s: string): string {
    if s != "" && IsSpace(s[|s| - 1]) then TrimEnd(s[..|s| - 1]) else s
  }

  datatype NameAttrs = NameAttrs(name: string, attrs: string)

  function ParseTag(tag: string): Result<NameAttrs> {
    var s := SkipSpaces(tag);
    var n := WordLength(s);
    if n == 0 then Error else Ok(NameAttrs(s[..n], TrimEnd(SkipSpaces(AttrLines(s[n..])))))
  }

  predicate NoSpace(s: string) {
    forall i :: 0 <= i < |s| ==> !IsSpace(s[i])
  }

  /** A name and attributes that survive the way through a tag. */
  predicate SafeText(name: string, attrs: string) {
    && name != "" && NoSpace(name) && name[0] != '/' && '>' !in name
    && '>' !in attrs && '\n' !in attrs
    && (attrs != "" ==> !IsSpace(attrs[0]) && !IsSpace(attrs[|attrs| - 1]))
  }

  lemma {:induction false} WordIs(name: string, rest: string)
    requires NoSpace(name) && (rest == "" || IsSpace(rest[0]))
    ensures WordLength(name + rest) == |name|
  {
    if name == "" {
      assert name + rest == rest;
    } else {
      WordIs(name[1..], rest);
      assert (name + rest)[1..] == name[1..] + rest;
    }
  }

  lemma NoneUntil(s: string, c: char)
    requires c !in s
    ensures Until(s, c) == |s|
  {
  }

  /** Parsing what the exporter writes gives the name and the attributes back. */
  lemma ParseBack(name: string, attrs: string)
    requires SafeText(name, attrs)
    ensures ParseTag(name + (if attrs == "" then "" else " " + attrs)) == Ok(NameAttrs(name, attrs))
  {
    var rest := if attrs == "" then "" else " " + attrs;
    var s := name + rest;
    assert SkipSpaces(s) == s;
    WordIs(name, rest);
    assert s[..|name|] == name && s[|name|..] == rest;
    if attrs != "" {
      NoneUntil(rest, '\n');
      assert AttrLines(rest) == " " + rest;
      assert (" " + rest)[1..] == rest && rest[1..] == attrs;
      assert SkipSpaces(" " + rest) == SkipSpaces(rest) == SkipSpaces(attrs) == attrs;
      assert TrimEnd(attrs) == attrs;
    }
  }
}
