/** What character references stand for, told from the bytes alone. */
module References {
  import opened Options
  import opened SemiXml

  // UTF-8, as a reader sees it.

  /** A character, and how many bytes it takes. */
  datatype Decoded = Decoded(code: nat, length: nat)

  predicate Continues(s: string, i: nat) {
    i < |s| && 0x80 <= s[i] as int < 0xc0
  }

  /** The low six bits of a continuation byte. */
  function Six(s: string, i: nat): nat
    requires Continues(s, i)
  {
    s[i] as int - 0x80
  }

  /** The character in front of `s`; longer forms than necessary are refused. */
  function ReadUtf8(s: string): Option<Decoded> {
    if s == "" then None
    else
      var lead := s[0] as int;
      if lead < 0x80 then Some(Decoded(lead, 1))
      else if 0xc0 <= lead < 0xe0 && Continues(s, 1) then
        var code := (lead - 0xc0) * 0x40 + Six(s, 1);
        if code < 0x80 then None else Some(Decoded(code, 2))
      else if 0xe0 <= lead < 0xf0 && Continues(s, 1) && Continues(s, 2) then
        var code := (lead - 0xe0) * 0x1000 + Six(s, 1) * 0x40 + Six(s, 2);
        if code < 0x800 then None else Some(Decoded(code, 3))
      else if 0xf0 <= lead < 0xf8 && Continues(s, 1) && Continues(s, 2) && Continues(s, 3) then
        var code := (lead - 0xf0) * 0x4_0000 + Six(s, 1) * 0x1000 + Six(s, 2) * 0x40 + Six(s, 3);
        if code < 0x1_0000 then None else Some(Decoded(code, 4))
      else None
  }

  lemma ReadOne(c: nat, rest: string)
    requires c < 0x80
    ensures ReadUtf8([c as char] + rest) == Some(Decoded(c, 1))
  {
  }

  lemma ReadTwo(h: nat, l: nat, rest: string)
    requires 2 <= h < 0x20 && l < 0x40
    ensures ReadUtf8([(0xc0 + h) as char, (0x80 + l) as char] + rest) == Some(Decoded(h * 0x40 + l, 2))
  {
  }

  lemma ReadThree(h: nat, m: nat, l: nat, rest: string)
    requires h < 0x10 && m < 0x40 && l < 0x40 && (h > 0 || m >= 0x20)
    ensures ReadUtf8([(0xe0 + h) as char, (0x80 + m) as char, (0x80 + l) as char] + rest)
         == Some(Decoded(h * 0x1000 + m * 0x40 + l, 3))
  {
  }

  lemma ReadFour(h: nat, m: nat, n: nat, l: nat, rest: string)
    requires h < 8 && m < 0x40 && n < 0x40 && l < 0x40 && (h > 0 || m >= 0x10)
    ensures ReadUtf8([(0xf0 + h) as char, (0x80 + m) as char, (0x80 + n) as char, (0x80 + l) as char] + rest)
         == Some(Decoded(h * 0x4_0000 + m * 0x1000 + n * 0x40 + l, 4))
  {
  }

  /** Every code up to the Unicode maximum is written as bytes that are read back as that code, in front of anything. */
  lemma Utf8Back(c: nat, rest: string)
    requires c <= 0x10_ffff
    ensures EncodeUtf8(c).Ok?
    ensures var bytes := EncodeUtf8(c).value;
      && (forall i :: 0 <= i < |bytes| ==> bytes[i] as int < 0x100)
      && ReadUtf8(bytes + rest) == Some(Decoded(c, |bytes|))
  {
    hide ReadUtf8;
    var q1 := c / 64;
    var q2 := q1 / 64;
    SixBits(c, q1);
    SixBits(q1, q2);
    SixBits(q2, q2 / 64);
    Quotients(c, q1, q2);
    if 0x80 <= c <= 0x7ff {
      ReadTwo(q1, c % 64, rest);
    } else if 0x7ff < c <= 0xffff {
      ReadThree(q2, q1 % 64, c % 64, rest);
    } else if 0xffff < c {
      ReadFour(q2 / 64, q2 % 64, q1 % 64, c % 64, rest);
    } else {
      ReadOne(c, rest);
    }
  }

  lemma SixBits(c: nat, q: nat)
    requires q == c / 64
    ensures c == q * 64 + c % 64 && c % 64 < 64
  {
  }

  lemma Quotients(c: nat, q1: nat, q2: nat)
    requires q1 == c / 64 && q2 == q1 / 64
    ensures c / 4096 == q2 && c / 262144 == q2 / 64
  {
  }

  // References in a text.

  /** A reference in front of a text. */
  lemma PlainReference(name: string, s: string)
    requires ';' !in name
    ensures Plain("&" + name + ";" + s)
         == if Unescape(name).Error? || Plain(s).Error? then Error else Ok(Unescape(name).value + Plain(s).value)
  {
    hide Unescape;
    var t := "&" + name + ";" + s;
    assert t[1..] == name + [';'] + s;
    UntilAt(name, ';', s);
    assert t[1..|name| + 1] == name && t[|name| + 2..] == s;
  }

  /** What the five named references stand for. */
  function Named(): map<string, char> {
    map["lt" := '<', "gt" := '>', "amp" := '&', "quot" := '"', "apos" := '\'']
  }

  lemma PlainNamed(name: string, s: string)
    requires name in Named() && Plain(s).Ok?
    ensures Plain("&" + name + ";" + s) == Ok([Named()[name]] + Plain(s).value)
  {
    hide Plain;
    PlainReference(name, s);
  }

  // Numeric references.

  ghost predicate Figure(c: char, d: nat) {
    d < 16 && (c == "0123456789abcdef"[d] || c == "0123456789ABCDEF"[d])
  }

  /** `digits` writes `n` in base ten, or in base sixteen with letters of either case. */
  ghost predicate Writes(digits: string, n: nat, hex: bool) {
    var base := if hex then 16 else 10;
    if digits == "" then n == 0
    else Figure(digits[|digits| - 1], n % base) && Writes(digits[..|digits| - 1], n / base, hex)
  }

  lemma FigureIs(c: char, d: nat)
    ensures Figure(c, d) <==> HexDigit(c) == d
  {
    if 0 <= HexDigit(c) {
      assert Figure(c, HexDigit(c));
    }
  }

  lemma LastPlace(v: nat, f: nat, n: nat, base: nat)
    requires f < base
    ensures n == v * base + f <==> n % base == f && n / base == v
  {
    if n == v * base + f {
      SplitIsUnique(n / base, n % base, v, f, base);
    }
  }

  lemma SplitIsUnique(v: nat, f: nat, w: nat, g: nat, base: nat)
    requires f < base && g < base && v * base + f == w * base + g
    ensures v == w && f == g
  {
    if v < w {
      Below(v, f, w, base);
    } else if w < v {
      Below(w, g, v, base);
    }
  }

  lemma Below(v: nat, f: nat, w: nat, base: nat)
    requires f < base && v < w
    ensures v * base + f < w * base
  {
    assert (v + 1) * base <= w * base;
  }

  lemma {:induction false} WritesIs(digits: string, n: nat, hex: bool)
    ensures Writes(digits, n, hex) <==> AreDigits(digits, hex) && Value(digits, hex) == n
  {
    hide HexDigit, Figure;
    if digits != "" {
      var k, base := |digits| - 1, if hex then 16 else 10;
      var front, c := digits[..k], digits[k];
      WritesIs(front, n / base, hex);
      FigureIs(c, n % base);
      assert digits[..k + 1] == digits;
      if AreDigits(digits, hex) {
        PrefixDigits(digits, k, hex);
      }
      if AreDigits(front, hex) {
        OneDigit(digits, k, hex);
        if IsDigit(c, hex) {
          LastPlace(Value(front, hex), HexDigit(c), n, base);
        }
      }
    }
  }

  /** A numeral is accepted exactly if it writes a number up to the maximum in its base, and gives that number. */
  lemma CodeTold(digits: string, n: nat, hex: bool)
    ensures Code(digits, hex) == Ok(n) <==> digits != "" && Writes(digits, n, hex) && n <= 0x10_ffff
  {
    hide Code, Writes, AreDigits, Value;
    CodeIs(digits, hex);
    WritesIs(digits, n, hex);
  }

  function Reference(digits: string, hex: bool): string {
    (if hex then "&#x" else "&#") + digits + ";"
  }

  /** A numeric reference stands for the bytes that are read as its character, and for nothing beyond the maximum. */
  lemma PlainNumeric(digits: string, n: nat, hex: bool, s: string)
    requires digits != "" && Writes(digits, n, hex) && Plain(s).Ok?
    ensures n > 0x10_ffff ==> Plain(Reference(digits, hex) + s).Error?
    ensures n <= 0x10_ffff ==>
              exists bytes :: Plain(Reference(digits, hex) + s) == Ok(bytes + Plain(s).value)
                              && ReadUtf8(bytes) == Some(Decoded(n, |bytes|))
  {
    hide *;
    var name := (if hex then "#x" else "#") + digits;
    NumericName(digits, n, hex, name);
    ReferenceIs(digits, hex, s);
    PlainReference(name, s);
    if n <= 0x10_ffff {
      BytesRead(n);
    }
  }

  lemma ReferenceIs(digits: string, hex: bool, s: string)
    ensures Reference(digits, hex) + s == "&" + ((if hex then "#x" else "#") + digits) + ";" + s
  {
  }

  lemma BytesRead(n: nat)
    requires n <= 0x10_ffff
    ensures EncodeUtf8(n).Ok?
    ensures ReadUtf8(EncodeUtf8(n).value) == Some(Decoded(n, |EncodeUtf8(n).value|))
  {
    Utf8Back(n, "");
    assert EncodeUtf8(n).value + "" == EncodeUtf8(n).value;
  }

  lemma NumericName(digits: string, n: nat, hex: bool, name: string)
    requires digits != "" && Writes(digits, n, hex)
    requires name == (if hex then "#x" else "#") + digits
    ensures ';' !in name && Unescape(name) == if n > 0x10_ffff then Error else EncodeUtf8(n)
  {
    hide EncodeUtf8, Writes, Code, HexDigit;
    WritesIs(digits, n, hex);
    NoSemicolon(digits, hex);
    CodeIs(digits, hex);
    assert name[if hex then 2 else 1..] == digits;
  }

  lemma NoSemicolon(digits: string, hex: bool)
    requires AreDigits(digits, hex) && digits != ""
    ensures ';' !in digits && digits[0] != 'x'
  {
    assert !IsDigit(';', hex) && !IsDigit('x', hex);
    assert forall k :: 0 <= k < |digits| ==> IsDigit(digits[k], hex);
  }
}
