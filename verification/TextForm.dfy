/** The text form of a database, character by character. */
module TextForm {
  import opened Bytes
  import opened Dump
  import opened Options
  import opened Records
  import opened Seqs

  // Numbers.

  predicate AreDigits(s: seq<byte>) {
    forall i :: 0 <= i < |s| ==> '0' as int <= s[i] <= '9' as int
  }

  /** The number that decimal digits stand for. */
  ghost function Worth(s: seq<byte>): int {
    if s == [] then 0 else Worth(s[..|s| - 1]) * 10 + (s[|s| - 1] - '0' as int)
  }

  /** Digits of a number that the parser accepts. */
  ghost predicate Numeral(s: seq<byte>, n: int) {
    s != [] && AreDigits(s) && Worth(s) == n && (n < 10 || n / 10 + n % 10 <= 429_496_729)
  }

  lemma OneMore(s: seq<byte>, c: byte)
    ensures Worth(s + [c]) == Worth(s) * 10 + (c - '0' as int)
    ensures AreDigits(s + [c]) <==> AreDigits(s) && '0' as int <= c <= '9' as int
  {
    assert (s + [c])[..|s|] == s;
    assert forall i :: 0 <= i < |s| ==> (s + [c])[i] == s[i];
  }

  /** A number is written in decimal, without zeros in front. */
  lemma {:induction false} DecIs(n: nat)
    ensures Dec(n) != [] && AreDigits(Dec(n)) && Worth(Dec(n)) == n
    ensures Dec(n)[0] == '0' as int <==> n == 0
  {
    if n < 10 {
      OneMore([], ZERO + n);
      assert [] + [ZERO + n] == Dec(n);
    } else {
      hide Worth, AreDigits;
      DecIs(n / 10);
      OneMore(Dec(n / 10), ZERO + n % 10);
      LastDigit(n);
    }
  }

  lemma LastDigit(n: nat)
    ensures n / 10 * 10 + n % 10 == n && '0' as int <= ZERO + n % 10 <= '9' as int
  {
  }

  /** The digits of a run up to `m`, and one more. */
  lemma OneFurther(text: seq<byte>, i: nat, m: nat)
    requires i <= m < |text| && '0' as int <= text[m] <= '9' as int && AreDigits(text[i..m])
    ensures AreDigits(text[i..m + 1]) && Worth(text[i..m + 1]) == Worth(text[i..m]) * 10 + (text[m] - '0' as int)
  {
    assert text[i..m + 1] == text[i..m] + [text[m]];
    OneMore(text[i..m], text[m]);
  }

  lemma AllOf(text: seq<byte>, i: nat, m: nat, j: nat)
    requires i <= m <= j <= |text| && AreDigits(text[i..j])
    ensures AreDigits(text[i..m]) && forall k :: i <= k < j ==> '0' as int <= text[k] <= '9' as int
  {
    assert forall k :: i <= k < j ==> text[k] == text[i..j][k - i];
  }

  /** Once a number is too large, more digits do not help. */
  lemma {:induction false} StaysRejected(text: seq<byte>, i: nat, m: nat, j: nat)
    requires i < m <= j <= |text| && AreDigits(text[i..j]) && AreDigits(text[i..m]) && Worth(text[i..m]) >= 0
    requires !Accepted(Worth(text[i..m]))
    ensures Worth(text[i..j]) >= 0 && !Accepted(Worth(text[i..j]))
    decreases j - m
  {
    if m < j {
      AllOf(text, i, m, j);
      OneFurther(text, i, m);
      Tenfold(Worth(text[i..m]), text[m] - '0' as int);
      StaysRejected(text, i, m + 1, j);
    }
  }

  lemma Tenfold(n: int, c: int)
    requires n >= 0 && 0 <= c < 10
    ensures !Accepted(n) ==> !Accepted(n * 10 + c)
    ensures Accepted(n * 10 + c) <==> n == 0 || n + c <= TENTH
  {
    assert (n * 10 + c) / 10 == n && (n * 10 + c) % 10 == c;
  }

  /** The digits from `m` to the end `j` of a run that begins at `i`. */
  lemma {:induction false} DigitsAre(text: seq<byte>, i: nat, m: nat, j: nat, n: nat)
    requires i < m <= j <= |text| && AreDigits(text[i..j]) && (j < |text| ==> !IsDigit(text[j]))
    requires AreDigits(text[i..m]) && Worth(text[i..m]) == n && Accepted(n)
    ensures Worth(text[i..j]) >= 0
    ensures Digits(text, m, n) == if Accepted(Worth(text[i..j])) then Some(Num(Worth(text[i..j]), j)) else None
    decreases j - m
  {
    hide Accepted;
    if m < j {
      AllOf(text, i, m, j);
      OneFurther(text, i, m);
      var c: int := text[m] - '0' as int;
      Tenfold(n, c);
      if Accepted(n * 10 + c) {
        DigitsAre(text, i, m + 1, j, n * 10 + c);
      } else {
        StaysRejected(text, i, m + 1, j);
      }
      SmallSum(n, c);
    }
  }

  lemma SmallSum(n: int, c: int)
    requires 0 <= c < 10
    ensures n == 0 ==> n + c <= TENTH
  {
  }

  /** A run of digits is read as the number they stand for, or refused if that is not accepted. */
  lemma NumAtIs(text: seq<byte>, i: nat, j: nat)
    requires i < j <= |text| && AreDigits(text[i..j])
    requires j < |text| ==> !('0' as int <= text[j] <= '9' as int)
    ensures var n := Worth(text[i..j]);
      && n >= 0
      && NumAt(text, i) == if n < 10 || n / 10 + n % 10 <= 429_496_729 then Some(Num(n, j)) else None
  {
    AllOf(text, i, i + 1, j);
    assert text[i..i] == [] && AreDigits([]);
    OneFurther(text, i, i);
    DigitsAre(text, i, i + 1, j, text[i] - '0' as int);
  }

  /** The end of the run of digits that begins at `i`. */
  ghost function RunEnd(text: seq<byte>, i: nat): (j: nat)
    requires i <= |text|
    ensures i <= j <= |text| && (j < |text| ==> !('0' as int <= text[j] <= '9' as int))
    ensures forall k :: i <= k < j ==> '0' as int <= text[k] <= '9' as int
    decreases |text| - i
  {
    if i < |text| && '0' as int <= text[i] <= '9' as int then RunEnd(text, i + 1) else i
  }

  /** Whatever is read as a number is a numeral, up to something that is no digit. */
  lemma NumAtBack(text: seq<byte>, i: nat)
    requires NumAt(text, i).Some?
    ensures var Num(n, j) := NumAt(text, i).value;
      i < j <= |text| && Numeral(text[i..j], n) && (j < |text| ==> !('0' as int <= text[j] <= '9' as int))
  {
    var j := RunEnd(text, i);
    assert forall k :: 0 <= k < j - i ==> text[i..j][k] == text[i + k];
    NumAtIs(text, i, j);
  }

  // Records.

  /** "+klen,vlen:key->val", and the end of the line, with the lengths in the digits `k` and `v`. */
  function Line(k: seq<byte>, v: seq<byte>, key: seq<byte>, val: seq<byte>): seq<byte> {
    ['+' as int] + k + [',' as int] + v + [':' as int] + key + ['-' as int, '>' as int] + val + ['\n' as int]
  }

  lemma LineIs(k: seq<byte>, v: seq<byte>, key: seq<byte>, val: seq<byte>)
    ensures RecordOf(k, v, key, val) == Line(k, v, key, val)
  {
  }

  /** What is dumped of a record. */
  lemma RecTextIs(r: Rec)
    ensures RecText(r) == Line(Dec(|r.key|), Dec(|r.val|), r.key, r.val)
  {
    hide Dec, RecordOf, Line;
    LineIs(Dec(|r.key|), Dec(|r.val|), r.key, r.val);
  }

  /** From `i` on the text holds lines for these records, whatever digits their lengths have, and an empty line. */
  ghost predicate IsText(text: seq<byte>, i: nat, recs: seq<Rec>)
    decreases |recs|
  {
    if recs == [] then i < |text| && text[i] == '\n' as int
    else exists k, v :: IsLine(text, i, k, v, recs[0])
                        && IsText(text, i + |Line(k, v, recs[0].key, recs[0].val)|, recs[1..])
  }

  ghost predicate IsLine(text: seq<byte>, i: nat, k: seq<byte>, v: seq<byte>, r: Rec) {
    && Numeral(k, |r.key|) && Numeral(v, |r.val|) && |r.key| + |r.val| <= 0xffff_ffff
    && i + |Line(k, v, r.key, r.val)| <= |text|
    && text[i..i + |Line(k, v, r.key, r.val)|] == Line(k, v, r.key, r.val)
  }

  lemma NumeralRead(text: seq<byte>, i: nat, s: seq<byte>, n: nat, after: byte)
    requires Reads(text, i, s) && Reads(text, i + |s|, [after]) && Numeral(s, n) && !IsDigit(after)
    ensures NumAt(text, i) == Some(Num(n, i + |s|)) && CharAt(text, i + |s|) == after
  {
    hide Reads;
    ReadsSlice(text, i, s);
    CharRead(text, i + |s|, after);
    NumAtIs(text, i, i + |s|);
  }

  /** A line is parsed as its record. */
  lemma LineParsed(text: seq<byte>, i: nat, k: seq<byte>, v: seq<byte>, r: Rec)
    requires IsLine(text, i, k, v, r)
    ensures var next := i + |Line(k, v, r.key, r.val)|;
      && i < next <= |text|
      && ParseFrom(text, i)
         == if ParseFrom(text, next).None? then None else Some([r] + ParseFrom(text, next).value)
  {
    hide Numeral, Line;
    LineIs(k, v, r.key, r.val);
    ReadsSlice(text, i, Line(k, v, r.key, r.val));
    hide Reads, RecordOf, NumAt, CharAt;
    var m := i + 1 + |k|;
    var kpos := m + 1 + |v| + 1;
    var kend := kpos + |r.key|;
    RecordSplit(text, i, k, v, r.key, r.val, m, kpos, kend);
    RecordEnds(text, i, kpos, kend, r.key, r.val);
    NumeralRead(text, i + 1, k, |r.key|, COMMA);
    NumeralRead(text, m + 1, v, |r.val|, COLON);
    assert Rec(text[kpos..kend], text[kend + 2..kend + 2 + |r.val|]) == r;
  }

  lemma {:induction false} TextParsed(text: seq<byte>, i: nat, recs: seq<Rec>)
    requires IsText(text, i, recs)
    ensures ParseFrom(text, i) == Some(recs)
    decreases |recs|
  {
    if recs != [] {
      var k, v := FirstLine(text, i, recs);
      hide IsLine, IsText, ParseFrom, Line;
      TextParsed(text, i + |Line(k, v, recs[0].key, recs[0].val)|, recs[1..]);
      LineParsed(text, i, k, v, recs[0]);
      assert recs == [recs[0]] + recs[1..];
    }
  }

  lemma FirstLine(text: seq<byte>, i: nat, recs: seq<Rec>) returns (k: seq<byte>, v: seq<byte>)
    requires recs != [] && IsText(text, i, recs)
    ensures IsLine(text, i, k, v, recs[0])
    ensures IsText(text, i + |Line(k, v, recs[0].key, recs[0].val)|, recs[1..])
  {
    hide IsLine, Line;
    k, v :| IsLine(text, i, k, v, recs[0]) && IsText(text, i + |Line(k, v, recs[0].key, recs[0].val)|, recs[1..]);
  }

  /** A line in front, and what is parsed of the rest. */
  ghost predicate Leads(text: seq<byte>, i: nat, k: seq<byte>, v: seq<byte>, r: Rec, next: nat) {
    && IsLine(text, i, k, v, r) && next == i + |Line(k, v, r.key, r.val)| && i < next <= |text|
    && ParseFrom(text, i) == if ParseFrom(text, next).None? then None else Some([r] + ParseFrom(text, next).value)
  }

  /** The two numbers in front of a parsed line, and that the rest is there. */
  ghost predicate Shaped(text: seq<byte>, i: nat, kn: nat, kstop: nat, vn: nat, vstop: nat) {
    && NumAt(text, i + 1) == Some(Num(kn, kstop)) && NumAt(text, kstop + 1) == Some(Num(vn, vstop))
    && kn + vn <= 0xffff_ffff && vstop + 3 + kn + vn < |text|
    && CharAt(text, i) == PLUS && CharAt(text, kstop) == COMMA && CharAt(text, vstop) == COLON
    && CharAt(text, vstop + 1 + kn) == MINUS && CharAt(text, vstop + 2 + kn) == GREATER
    && CharAt(text, vstop + 3 + kn + vn) == NEWLINE
  }

  lemma ParsedShape(text: seq<byte>, i: nat) returns (kn: nat, kstop: nat, vn: nat, vstop: nat)
    requires CharAt(text, i) == PLUS && ParseFrom(text, i).Some?
    ensures Shaped(text, i, kn, kstop, vn, vstop)
  {
    var k := NumAt(text, i + 1).value;
    var v := NumAt(text, k.next + 1).value;
    hide NumAt;
    kn, kstop, vn, vstop := k.n, k.next, v.n, v.next;
  }

  lemma ShapeIs(text: seq<byte>, i: nat, kn: nat, kstop: nat, vn: nat, vstop: nat)
    requires Shaped(text, i, kn, kstop, vn, vstop)
    ensures i < kstop < vstop && vstop + 3 + kn + vn < |text| && kn + vn <= 0xffff_ffff
    ensures text[i] == PLUS && text[kstop] == COMMA && text[vstop] == COLON
    ensures text[vstop + 1 + kn] == MINUS && text[vstop + 2 + kn] == GREATER && text[vstop + 3 + kn + vn] == NEWLINE
    ensures i + 1 <= kstop && Numeral(text[i + 1..kstop], kn)
    ensures kstop + 1 <= vstop && Numeral(text[kstop + 1..vstop], vn)
  {
    hide NumAt, Numeral;
    NumAtBack(text, i + 1);
    NumAtBack(text, kstop + 1);
  }

  /** What is parsed in front is a line. */
  lemma ParsedLine(text: seq<byte>, i: nat) returns (k: seq<byte>, v: seq<byte>, r: Rec, next: nat)
    requires CharAt(text, i) == PLUS && ParseFrom(text, i).Some?
    ensures Leads(text, i, k, v, r, next)
  {
    hide *;
    var kn, kstop, vn, vstop := ParsedShape(text, i);
    ShapeIs(text, i, kn, kstop, vn, vstop);
    k, v, r, next := PiecesLead(text, i, kstop, vstop, vstop + 1 + kn, vstop + 3 + kn + vn);
  }

  lemma PiecesLead(text: seq<byte>, i: nat, kstop: nat, vstop: nat, kend: nat, vend: nat)
    returns (k: seq<byte>, v: seq<byte>, r: Rec, next: nat)
    requires i < kstop < vstop < kend && kend + 2 <= vend < |text| && vend - vstop - 3 <= 0xffff_ffff
    requires text[i] == PLUS && text[kstop] == COMMA && text[vstop] == COLON
    requires text[kend] == MINUS && text[kend + 1] == GREATER && text[vend] == NEWLINE
    requires Numeral(text[i + 1..kstop], kend - vstop - 1) && Numeral(text[kstop + 1..vstop], vend - kend - 2)
    ensures Leads(text, i, k, v, r, next)
  {
    hide *;
    k, v, next := text[i + 1..kstop], text[kstop + 1..vstop], vend + 1;
    r := Rec(text[vstop + 1..kend], text[kend + 2..vend]);
    Pieces(text, i, kstop, vstop, kend, vend);
    LineLeads(text, i, k, v, r, next);
  }

  lemma LineLeads(text: seq<byte>, i: nat, k: seq<byte>, v: seq<byte>, r: Rec, next: nat)
    requires Numeral(k, |r.key|) && Numeral(v, |r.val|) && |r.key| + |r.val| <= 0xffff_ffff
    requires i <= next <= |text| && text[i..next] == Line(k, v, r.key, r.val)
    ensures Leads(text, i, k, v, r, next)
  {
    hide Numeral, Line, ParseFrom;
    LineParsed(text, i, k, v, r);
  }

  lemma Pieces(text: seq<byte>, i: nat, kstop: nat, vstop: nat, kend: nat, vend: nat)
    requires i < kstop < vstop < kend && kend + 2 <= vend < |text|
    requires text[i] == PLUS && text[kstop] == COMMA && text[vstop] == COLON
    requires text[kend] == MINUS && text[kend + 1] == GREATER && text[vend] == NEWLINE
    ensures text[i..vend + 1]
         == Line(text[i + 1..kstop], text[kstop + 1..vstop], text[vstop + 1..kend], text[kend + 2..vend])
  {
  }

  lemma {:induction false} ParsedText(text: seq<byte>, i: nat)
    requires ParseFrom(text, i).Some?
    ensures IsText(text, i, ParseFrom(text, i).value)
    decreases |text| - i
  {
    if CharAt(text, i) == PLUS {
      var k, v, r, next := ParsedLine(text, i);
      hide IsLine, Line, ParseFrom;
      ParsedText(text, next);
      TextLonger(text, i, k, v, r, next, ParseFrom(text, next).value);
    }
  }

  lemma TextLonger(text: seq<byte>, i: nat, k: seq<byte>, v: seq<byte>, r: Rec, next: nat, rest: seq<Rec>)
    requires IsLine(text, i, k, v, r) && next == i + |Line(k, v, r.key, r.val)| && IsText(text, next, rest)
    ensures IsText(text, i, [r] + rest)
  {
    hide IsLine, Line;
    ConsTail(r, rest);
  }

  /** A text is parsed as a list of records if and only if it is one of their text forms. */
  lemma ParseExact(text: seq<byte>, recs: seq<Rec>)
    ensures ParseFrom(text, 0) == Some(recs) <==> IsText(text, 0, recs)
  {
    if ParseFrom(text, 0) == Some(recs) {
      ParsedText(text, 0);
    }
    if IsText(text, 0, recs) {
      TextParsed(text, 0, recs);
    }
  }

  // Dumping any image.

  /** What can be dumped from `pos` to `eod` is a sequence of records that ends there, and all of them are dumped. */
  lemma {:induction false} DumpBack(image: seq<byte>, pos: nat, eod: nat) returns (es: seq<Entry>)
    requires DumpFrom(image, pos, eod).Some? && pos <= |image|
    ensures Holds(image, es, pos) && pos + Total(es) == eod
    ensures DumpFrom(image, pos, eod) == Some(DumpText(RecsOf(es)))
    decreases eod - pos
  {
    hide *;
    es := [];
    if pos == eod {
      NothingDumped(image, pos);
    } else {
      var e := FirstDumped(image, pos, eod);
      var rest := DumpBack(image, pos + Size(e), eod);
      MoreDumped(image, pos, e, rest);
      es := [e] + rest;
    }
  }

  lemma NothingDumped(image: seq<byte>, pos: nat)
    requires pos <= |image|
    ensures Holds(image, [], pos) && Total([]) == 0 && DumpFrom(image, pos, pos) == Some(DumpText(RecsOf([])))
  {
  }

  lemma FirstDumped(image: seq<byte>, pos: nat, eod: nat) returns (e: Entry)
    requires DumpFrom(image, pos, eod).Some? && pos <= |image| && pos != eod
    ensures Written(image, e, pos) && pos < pos + Size(e) <= |image|
    ensures pos + Size(e) <= eod && DumpFrom(image, pos + Size(e), eod).Some?
    ensures DumpFrom(image, pos, eod)
         == Some(RecText(Rec(e.key, e.val)) + DumpFrom(image, pos + Size(e), eod).value)
  {
    hide RecText, Word, Reads;
    var klen, vlen := Word(image, pos), Word(image, pos + 4);
    var vpos := pos + 8 + klen;
    e := Entry(image[pos + 8..vpos], image[vpos..vpos + vlen], true);
    ReadsSlice(image, pos + 8, e.key);
    ReadsSlice(image, vpos, e.val);
  }

  lemma MoreDumped(image: seq<byte>, pos: nat, e: Entry, rest: seq<Entry>)
    requires Written(image, e, pos) && Holds(image, rest, pos + Size(e))
    ensures Holds(image, [e] + rest, pos) && Total([e] + rest) == Size(e) + Total(rest)
    ensures DumpText(RecsOf([e] + rest)) == RecText(Rec(e.key, e.val)) + DumpText(RecsOf(rest))
  {
    hide RecText, Written;
    ConsTail(e, rest);
    ConsTail(Rec(e.key, e.val), RecsOf(rest));
  }
}
