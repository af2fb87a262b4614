/** The text form of a database: what dumping writes, and what parsing reads. */
module Dump {
  import opened Bytes
  import opened Options
  import opened Seqs
  import opened Records

  datatype Rec = Rec(key: seq<byte>, val: seq<byte>)

  // The characters of the text form.
  const PLUS: byte := 43
  const COMMA: byte := 44
  const COLON: byte := 58
  const MINUS: byte := 45
  const GREATER: byte := 62
  const NEWLINE: byte := 10
  const ZERO: byte := 48

  predicate IsDigit(c: byte) {
    ZERO <= c <= ZERO + 9
  }

  /** printf("%u"). */
  function Dec(n: nat): (s: seq<byte>)
    ensures s != [] && forall i :: 0 <= i < |s| ==> IsDigit(s[i])
  {
    if n < 10 then [ZERO + n] else Dec(n / 10) + [ZERO + n % 10]
  }

  /** A record with its lengths written as `k` and `v`. */
  function RecordOf(k: seq<byte>, v: seq<byte>, key: seq<byte>, val: seq<byte>): (s: seq<byte>)
    ensures |s| == 6 + |k| + |v| + |key| + |val|
  {
    [PLUS] + (k + ([COMMA] + (v + ([COLON] + (key + ([MINUS, GREATER] + (val + [NEWLINE])))))))
  }

  function RecText(r: Rec): seq<byte> {
    RecordOf(Dec(|r.key|), Dec(|r.val|), r.key, r.val)
  }

  function DumpText(recs: seq<Rec>): seq<byte> {
    if recs == [] then [NEWLINE] else RecText(recs[0]) + DumpText(recs[1..])
  }

  /** The records of a data section, zero-filled gaps among them. */
  function RecsOf(es: seq<Entry>): seq<Rec> {
    if es == [] then [] else [Rec(es[0].key, es[0].val)] + RecsOf(es[1..])
  }

  // Dumping.

  /** What dmode writes from offset `pos` on. */
  function DumpFrom(image: seq<byte>, pos: nat, eod: nat): Option<seq<byte>>
    decreases eod - pos
  {
    if pos >= eod then if pos == eod then Some([NEWLINE]) else None
    else if eod - pos < 8 || |image| - pos < 8 then None
    else
      var klen, vlen, kpos := Word(image, pos), Word(image, pos + 4), pos + 8;
      if eod - kpos < klen || |image| - kpos < klen then None
      else
        var vpos := kpos + klen;
        if eod - vpos < vlen || |image| - vpos < vlen then None
        else
          var rest := DumpFrom(image, vpos + vlen, eod);
          if rest.None? then None else Some(RecText(Rec(image[kpos..vpos], image[vpos..vpos + vlen])) + rest.value)
  }

  /** fcpy: copies in pieces of the buffer, each checked against the limit. */
  method FCopy(image: seq<byte>, pos: nat, len: nat, limit: nat, blen: nat)
    returns (ok: bool, bytes: seq<byte>)
    requires pos <= limit && pos <= |image| && blen > 0
    ensures ok <==> len <= limit - pos && len <= |image| - pos
    ensures ok ==> bytes == image[pos..pos + len]
  {
    var at, left := pos, len;
    bytes := [];
    while left > blen
      invariant pos <= at <= limit && at <= |image| && left >= 0 && at + left == pos + len && bytes == image[pos..at]
      decreases left
    {
      if limit - at < blen || |image| - at < blen {
        return false, bytes;
      }
      bytes := bytes + image[at..at + blen];
      at, left := at + blen, left - blen;
    }
    if limit - at < left || |image| - at < left {
      return false, bytes;
    }
    return true, bytes + image[at..at + left];
  }

  /** dmode with mode 'd', without the map form; `blen` is the size of its buffer. */
  method DumpMode(image: seq<byte>, blen: nat) returns (r: Option<seq<byte>>)
    requires blen > 0
    ensures r == if |image| < 2048 then None else DumpFrom(image, 2048, Word(image, 0))
  {
    hide RecText, Word;
    if |image| < DATA_START {
      return None;
    }
    var pos: nat, eod, out := DATA_START, Word(image, 0), [];
    while pos < eod
      invariant pos == DATA_START || pos <= eod
      invariant DATA_START <= pos <= |image|
      invariant DumpFrom(image, DATA_START, eod).None? <==> DumpFrom(image, pos, eod).None?
      invariant DumpFrom(image, DATA_START, eod).Some? ==>
                  DumpFrom(image, DATA_START, eod).value == out + DumpFrom(image, pos, eod).value
    {
      if eod - pos < 8 || |image| - pos < 8 {
        return None;
      }
      var klen, vlen := Word(image, pos), Word(image, pos + 4);
      var ok, key := FCopy(image, pos + 8, klen, eod, blen);
      if !ok {
        return None;
      }
      var val;
      ok, val := FCopy(image, pos + 8 + klen, vlen, eod, blen);
      if !ok {
        return None;
      }
      out := out + RecText(Rec(key, val));
      pos := pos + 8 + klen + vlen;
    }
    if pos != eod {
      return None;
    }
    return Some(out + [NEWLINE]);
  }

  /** A data section is dumped record by record, whatever bytes its keys and values hold. */
  lemma {:induction false} DumpsRecords(image: seq<byte>, es: seq<Entry>, pos: nat)
    requires Holds(image, es, pos)
    ensures DumpFrom(image, pos, pos + Total(es)) == Some(DumpText(RecsOf(es)))
    decreases |es|
  {
    hide RecText, Word, Written, DumpText;
    DumpNext(es);
    if es != [] {
      var e := es[0];
      WrittenSlices(image, e, pos);
      DumpsRecords(image, es[1..], pos + Size(e));
    }
  }

  lemma WrittenSlices(image: seq<byte>, e: Entry, pos: nat)
    requires Written(image, e, pos)
    ensures pos + Size(e) <= |image| && Word(image, pos) == |e.key| && Word(image, pos + 4) == |e.val|
    ensures image[pos + 8..pos + 8 + |e.key|] == e.key
    ensures image[pos + 8 + |e.key|..pos + 8 + |e.key| + |e.val|] == e.val
  {
    hide Word;
    ReadsSlice(image, pos + 8, e.key);
    ReadsSlice(image, pos + 8 + |e.key|, e.val);
  }

  lemma DumpNext(es: seq<Entry>)
    ensures DumpText(RecsOf(es))
         == if es == [] then [NEWLINE] else RecText(Rec(es[0].key, es[0].val)) + DumpText(RecsOf(es[1..]))
  {
    if es != [] {
      ConsTail(Rec(es[0].key, es[0].val), RecsOf(es[1..]));
    }
  }

  // Parsing.

  /** A number, and the offset of the character behind it. */
  datatype Num = Num(n: nat, next: nat)

  /** 0xffffffff / 10. */
  const TENTH := 429496729

  function Digits(text: seq<byte>, i: nat, n: nat): Option<Num>
    requires i <= |text|
    decreases |text| - i
  {
    if i < |text| && IsDigit(text[i]) then
      var c := text[i] - ZERO;
      if TENTH - c < n then None else Digits(text, i + 1, n * 10 + c)
    else Some(Num(n, i))
  }

  function NumAt(text: seq<byte>, i: nat): (r: Option<Num>)
    ensures r.Some? ==> i < r.value.next <= |text|
  {
    if i < |text| && IsDigit(text[i]) then
      DigitsGo(text, i + 1, text[i] - ZERO);
      Digits(text, i + 1, text[i] - ZERO)
    else None
  }

  lemma {:induction false} DigitsGo(text: seq<byte>, i: nat, n: nat)
    requires i <= |text|
    ensures Digits(text, i, n).Some? ==> i <= Digits(text, i, n).value.next <= |text|
    decreases |text| - i
  {
    if i < |text| && IsDigit(text[i]) && TENTH - (text[i] - ZERO) >= n {
      DigitsGo(text, i + 1, n * 10 + (text[i] - ZERO));
    }
  }

  /** getnum, in 32 bits: the check in front of each step keeps the result within them. */
  method GetNum(text: seq<byte>, i: nat) returns (r: Option<Num>)
    ensures r == NumAt(text, i)
    ensures r.Some? ==> r.value.n <= U32_MAX
  {
    if i >= |text| || !IsDigit(text[i]) {
      return None;
    }
    var n: u32 := text[i] - ZERO;
    var next := i + 1;
    while next < |text| && IsDigit(text[next])
      invariant i < next <= |text| && Digits(text, next, n) == NumAt(text, i)
    {
      var c := text[next] - ZERO;
      if TENTH - c < n {
        return None;
      }
      n := n * 10 + c;
      next := next + 1;
    }
    return Some(Num(n, next));
  }

  /** The numbers that getnum accepts. */
  predicate Accepted(n: nat) {
    n < 10 || n / 10 + n % 10 <= TENTH
  }

  /** The digits of a number are read back as the number, or refused if it is not accepted. */
  lemma {:induction false} DecRead(text: seq<byte>, i: nat, n: nat)
    requires Reads(text, i, Dec(n))
    ensures i + |Dec(n)| <= |text|
    ensures NumAt(text, i) == if Accepted(n) then Digits(text, i + |Dec(n)|, n) else None
    decreases n
  {
    if n < 10 {
      hide Reads, Accepted;
      CharRead(text, i, ZERO + n);
      SmallAccepted(n);
    } else {
      var q, tens := n / 10, Dec(n / 10);
      DecMore(n, q, tens);
      hide *;
      DecParts(text, i, tens, ZERO + n % 10);
      DecRead(text, i, q);
      TenthAccepted(n);
      DigitNext(text, i + |tens|, n);
    }
  }

  lemma DecMore(n: nat, q: nat, tens: seq<byte>)
    requires n >= 10 && q == n / 10 && tens == Dec(q)
    ensures q < n && Dec(n) == tens + [ZERO + n % 10]
  {
  }

  lemma DecParts(text: seq<byte>, i: nat, tens: seq<byte>, last: byte)
    requires Reads(text, i, tens + [last])
    ensures Reads(text, i, tens) && i + |tens| < |text| && text[i + |tens|] == last
  {
    hide Reads;
    ReadsBoth(text, i, tens, [last]);
    CharRead(text, i + |tens|, last);
  }

  lemma SmallAccepted(n: nat)
    requires n < 10
    ensures Accepted(n)
  {
  }

  /** The last digit of a number, behind the others. */
  lemma DigitNext(text: seq<byte>, i: nat, n: nat)
    requires i < |text| && text[i] == ZERO + n % 10
    ensures Digits(text, i, n / 10) == if TENTH - n % 10 < n / 10 then None else Digits(text, i + 1, n)
  {
    assert n / 10 * 10 + n % 10 == n;
  }

  lemma TenthAccepted(n: nat)
    requires n >= 10
    ensures Accepted(n) ==> Accepted(n / 10)
    ensures Accepted(n) <==> !(TENTH - n % 10 < n / 10)
    ensures n / 10 * 10 + n % 10 == n
  {
  }

  /** Exactly the accepted numbers are read; those up to 4294967218 are, and all that are fit in 32 bits. */
  lemma GetNumExact(n: nat, rest: seq<byte>)
    requires rest == [] || !IsDigit(rest[0])
    ensures NumAt(Dec(n) + rest, 0) == if Accepted(n) then Some(Num(n, |Dec(n)|)) else None
    ensures Accepted(n) ==> n <= U32_MAX
    ensures n <= 4294967218 ==> Accepted(n)
    ensures !Accepted(4294967219)
  {
    DecAtStart(n, rest);
    hide Dec, NumAt;
    DecRead(Dec(n) + rest, 0, n);
  }

  lemma DecAtStart(n: nat, rest: seq<byte>)
    ensures Reads(Dec(n) + rest, 0, Dec(n))
  {
    hide *;
    ReadsEnd([], Dec(n));
    assert [] + Dec(n) == Dec(n);
    ReadsGrown(Dec(n), rest, 0, Dec(n));
  }

  function CharAt(text: seq<byte>, i: nat): int {
    if i < |text| then text[i] else -1
  }

  /** What dofile_cdb hands on, from offset `i` on. */
  function ParseFrom(text: seq<byte>, i: nat): Option<seq<Rec>>
    decreases |text| - i
  {
    if CharAt(text, i) != PLUS then if CharAt(text, i) == NEWLINE then Some([]) else None
    else
      var k := NumAt(text, i + 1);
      if k.None? || CharAt(text, k.value.next) != COMMA then None
      else
        var v := NumAt(text, k.value.next + 1);
        if v.None? || CharAt(text, v.value.next) != COLON || U32_MAX - k.value.n < v.value.n then None
        else
          var kpos := v.value.next + 1;
          if |text| - kpos < k.value.n then None
          else
            var kend := kpos + k.value.n;
            if CharAt(text, kend) != MINUS || CharAt(text, kend + 1) != GREATER then None
            else if |text| - (kend + 2) < v.value.n then None
            else
              var vend := kend + 2 + v.value.n;
              if CharAt(text, vend) != NEWLINE then None
              else
                var rest := ParseFrom(text, vend + 1);
                if rest.None? then None
                else Some([Rec(text[kpos..kend], text[kend + 2..vend])] + rest.value)
  }

  /** The loop of dofile_cdb; the records go to addrec. */
  method ParseFile(text: seq<byte>) returns (r: Option<seq<Rec>>)
    ensures r == ParseFrom(text, 0)
  {
    hide NumAt;
    var i, recs: seq<Rec> := 0, [];
    while CharAt(text, i) == PLUS
      invariant i <= |text|
      invariant ParseFrom(text, 0).None? <==> ParseFrom(text, i).None?
      invariant ParseFrom(text, 0).Some? ==> ParseFrom(text, 0).value == recs + ParseFrom(text, i).value
      decreases |text| - i
    {
      var one := ParseRecord(text, i);
      if one.None? {
        return None;
      }
      var (rec, next) := one.value;
      Assoc(recs, [rec], if ParseFrom(text, next).Some? then ParseFrom(text, next).value else []);
      recs, i := recs + [rec], next;
    }
    if CharAt(text, i) != NEWLINE {
      return None;
    }
    assert recs + [] == recs;
    return Some(recs);
  }

  /** One round of that loop. */
  method ParseRecord(text: seq<byte>, i: nat) returns (r: Option<(Rec, nat)>)
    requires CharAt(text, i) == PLUS
    ensures r.None? ==> ParseFrom(text, i).None?
    ensures r.Some? ==> i < r.value.1 <= |text|
                        && ParseFrom(text, i)
                        == if ParseFrom(text, r.value.1).None? then None
                           else Some([r.value.0] + ParseFrom(text, r.value.1).value)
  {
    hide NumAt;
    var k := GetNum(text, i + 1);
    if k.None? || CharAt(text, k.value.next) != COMMA {
      return None;
    }
    var v := GetNum(text, k.value.next + 1);
    if v.None? || CharAt(text, v.value.next) != COLON || U32_MAX - k.value.n < v.value.n {
      return None;
    }
    var kpos := v.value.next + 1;
    if |text| - kpos < k.value.n {
      return None;
    }
    var kend := kpos + k.value.n;
    if CharAt(text, kend) != MINUS || CharAt(text, kend + 1) != GREATER {
      return None;
    }
    if |text| - (kend + 2) < v.value.n {
      return None;
    }
    var vend := kend + 2 + v.value.n;
    if CharAt(text, vend) != NEWLINE {
      return None;
    }
    return Some((Rec(text[kpos..kend], text[kend + 2..vend]), vend + 1));
  }

  // The round trip.

  /** A record whose lengths can be read back. */
  predicate Fits(r: Rec) {
    Accepted(|r.key|) && Accepted(|r.val|) && |r.key| + |r.val| <= U32_MAX
  }

  lemma NumberRead(text: seq<byte>, i: nat, n: nat, after: byte)
    requires Reads(text, i, Dec(n)) && Reads(text, i + |Dec(n)|, [after]) && !IsDigit(after)
    ensures NumAt(text, i) == if Accepted(n) then Some(Num(n, i + |Dec(n)|)) else None
    ensures CharAt(text, i + |Dec(n)|) == after
  {
    hide Reads;
    DecRead(text, i, n);
    CharRead(text, i + |Dec(n)|, after);
  }

  lemma CharRead(text: seq<byte>, i: nat, c: byte)
    requires Reads(text, i, [c])
    ensures i < |text| && text[i] == c && CharAt(text, i) == c
  {
    ReadsSlice(text, i, [c]);
    assert text[i] == text[i..i + 1][0];
  }

  /** Where the parts of a dumped record lie. */
  lemma RecordParts(text: seq<byte>, i: nat, r: Rec, m: nat, kpos: nat, kend: nat)
    requires Reads(text, i, RecText(r))
    requires m == i + 1 + |Dec(|r.key|)| && kpos == m + 1 + |Dec(|r.val|)| + 1 && kend == kpos + |r.key|
    ensures i + |RecText(r)| == kend + 2 + |r.val| + 1 <= |text|
    ensures CharAt(text, i) == PLUS
    ensures Reads(text, i + 1, Dec(|r.key|)) && Reads(text, m, [COMMA])
    ensures Reads(text, m + 1, Dec(|r.val|)) && Reads(text, kpos - 1, [COLON])
    ensures text[kpos..kend] == r.key && CharAt(text, kend) == MINUS && CharAt(text, kend + 1) == GREATER
    ensures text[kend + 2..kend + 2 + |r.val|] == r.val && CharAt(text, kend + 2 + |r.val|) == NEWLINE
  {
    hide Reads, Dec, CharAt, RecordOf;
    var k, v := Dec(|r.key|), Dec(|r.val|);
    RecordSplit(text, i, k, v, r.key, r.val, m, kpos, kend);
    RecordEnds(text, i, kpos, kend, r.key, r.val);
  }

  lemma RecordEnds(text: seq<byte>, i: nat, kpos: nat, kend: nat, key: seq<byte>, val: seq<byte>)
    requires Reads(text, i, [PLUS]) && Reads(text, kpos, key) && Reads(text, kend, [MINUS, GREATER])
    requires Reads(text, kend + 2, val) && Reads(text, kend + 2 + |val|, [NEWLINE]) && kend == kpos + |key|
    ensures kend + 2 + |val| + 1 <= |text| && CharAt(text, i) == PLUS
    ensures text[kpos..kend] == key && CharAt(text, kend) == MINUS && CharAt(text, kend + 1) == GREATER
    ensures text[kend + 2..kend + 2 + |val|] == val && CharAt(text, kend + 2 + |val|) == NEWLINE
  {
    hide Reads, CharAt;
    var newline := kend + 2 + |val|;
    ArrowRead(text, kend);
    CharRead(text, i, PLUS);
    ReadsSlice(text, kpos, key);
    ReadsSlice(text, kend + 2, val);
    ReadsSlice(text, newline, [NEWLINE]);
    CharRead(text, newline, NEWLINE);
  }

  lemma RecordSplit(text: seq<byte>, i: nat, k: seq<byte>, v: seq<byte>, key: seq<byte>, val: seq<byte>,
                    m: nat, kpos: nat, kend: nat)
    requires Reads(text, i, RecordOf(k, v, key, val))
    requires m == i + 1 + |k| && kpos == m + 1 + |v| + 1 && kend == kpos + |key|
    ensures Reads(text, i, [PLUS]) && Reads(text, i + 1, k) && Reads(text, m, [COMMA]) && Reads(text, m + 1, v)
    ensures Reads(text, kpos - 1, [COLON]) && Reads(text, kpos, key) && Reads(text, kend, [MINUS, GREATER])
    ensures Reads(text, kend + 2, val) && Reads(text, kend + 2 + |val|, [NEWLINE])
  {
    hide Reads;
    var end: seq<byte> := val + [NEWLINE];
    var arrow: seq<byte> := [MINUS, GREATER] + end;
    var keyed: seq<byte> := [COLON] + (key + arrow);
    var second: seq<byte> := v + keyed;
    ReadsBoth(text, i, [PLUS], k + ([COMMA] + second));
    ReadsBoth(text, i + 1, k, [COMMA] + second);
    ReadsBoth(text, m, [COMMA], second);
    ReadsBoth(text, m + 1, v, keyed);
    ReadsBoth(text, kpos - 1, [COLON], key + arrow);
    ReadsBoth(text, kpos, key, arrow);
    ReadsBoth(text, kend, [MINUS, GREATER], end);
    ReadsBoth(text, kend + 2, val, [NEWLINE]);
  }

  /** A dumped record is parsed back, if its lengths can be. */
  lemma RecordBack(text: seq<byte>, i: nat, r: Rec)
    requires Reads(text, i, RecText(r))
    ensures i + |RecText(r)| <= |text|
    ensures ParseFrom(text, i)
         == if !Fits(r) || ParseFrom(text, i + |RecText(r)|).None? then None
            else Some([r] + ParseFrom(text, i + |RecText(r)|).value)
  {
    hide Reads, NumAt, Accepted, Dec, RecText, CharAt;
    var m := i + 1 + |Dec(|r.key|)|;
    var kpos := m + 1 + |Dec(|r.val|)| + 1;
    var kend := kpos + |r.key|;
    RecordParts(text, i, r, m, kpos, kend);
    NumberRead(text, i + 1, |r.key|, COMMA);
    NumberRead(text, m + 1, |r.val|, COLON);
  }

  lemma ArrowRead(text: seq<byte>, i: nat)
    requires Reads(text, i, [MINUS, GREATER])
    ensures CharAt(text, i) == MINUS && CharAt(text, i + 1) == GREATER
  {
    ReadsSlice(text, i, [MINUS, GREATER]);
    assert text[i] == text[i..i + 2][0] && text[i + 1] == text[i..i + 2][1];
  }

  lemma {:induction false} ParsesBack(text: seq<byte>, i: nat, recs: seq<Rec>)
    requires Reads(text, i, DumpText(recs))
    ensures ParseFrom(text, i)
         == if forall k :: 0 <= k < |recs| ==> Fits(recs[k]) then Some(recs) else None
    decreases |recs|
  {
    hide Reads, RecText, Fits;
    if recs == [] {
      CharRead(text, i, NEWLINE);
    } else {
      assert DumpText(recs) == RecText(recs[0]) + DumpText(recs[1..]);
      hide DumpText;
      ReadsBoth(text, i, RecText(recs[0]), DumpText(recs[1..]));
      RecordBack(text, i, recs[0]);
      hide ParseFrom;
      ParsesBack(text, i + |RecText(recs[0])|, recs[1..]);
      FirstFits(recs);
    }
  }

  lemma FirstFits(recs: seq<Rec>)
    requires recs != []
    ensures (forall k :: 0 <= k < |recs| ==> Fits(recs[k]))
       <==> Fits(recs[0]) && forall k :: 0 <= k < |recs[1..]| ==> Fits(recs[1..][k])
    ensures recs == [recs[0]] + recs[1..]
  {
    hide Fits;
    assert forall k :: 0 < k < |recs| ==> recs[k] == recs[1..][k - 1];
  }

  /** Parsing the text of records gives the records back exactly when their lengths can be read. */
  lemma DumpParse(recs: seq<Rec>)
    ensures ParseFrom(DumpText(recs), 0) == Some(recs) <==> forall k :: 0 <= k < |recs| ==> Fits(recs[k])
  {
    ReadsEnd([], DumpText(recs));
    assert [] + DumpText(recs) == DumpText(recs);
    ParsesBack(DumpText(recs), 0, recs);
  }

  lemma {:induction false} SectionFits(es: seq<Entry>)
    requires DATA_START + Total(es) <= U32_MAX
    ensures forall k :: 0 <= k < |RecsOf(es)| ==> Fits(RecsOf(es)[k])
  {
    if es != [] {
      SectionFits(es[1..]);
      assert |es[0].key| <= 4294967218 && |es[0].val| <= 4294967218;
    }
  }

  /** Whatever database is dumped, parsing the dump gives its record sequence. */
  lemma DumpParseDatabase(image: seq<byte>, es: seq<Entry>)
    requires Holds(image, es, DATA_START) && DATA_START + Total(es) <= U32_MAX
    requires DATA_START <= |image| && Word(image, 0) == DATA_START + Total(es)
    ensures DumpFrom(image, DATA_START, Word(image, 0)).Some?
    ensures ParseFrom(DumpFrom(image, DATA_START, Word(image, 0)).value, 0) == Some(RecsOf(es))
  {
    hide DumpFrom, ParseFrom, Fits;
    DumpsRecords(image, es, DATA_START);
    SectionFits(es);
    DumpParse(RecsOf(es));
  }
}
