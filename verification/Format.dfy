/** The bytes of the two database formats, one by one. */
module Format {
  import opened Bytes
  import opened Seqs
  import opened ProbeTable
  import opened Records
  import opened Layout
  import opened CdbReader
  import CdbPlus

  // Numbers.

  /** Packing puts the least significant byte first. */
  lemma PackBytes(n: nat)
    ensures Pack(n)[0] == n % 256 && Pack(n)[1] == n / 256 % 256
    ensures Pack(n)[2] == n / 65536 % 256 && Pack(n)[3] == n / 16777216 % 256
  {
    var q := n / 256;
    assert n / 65536 == q / 256;
    assert n / 16777216 == q / 65536 == q / 256 / 256;
  }

  /** A word of an image tells each of its four bytes. */
  lemma WordBytes(image: seq<byte>, pos: nat)
    requires pos + 4 <= |image|
    ensures var n := Word(image, pos);
      && image[pos] == n % 256 && image[pos + 1] == n / 256 % 256
      && image[pos + 2] == n / 65536 % 256 && image[pos + 3] == n / 16777216 % 256
  {
    var b0: int, b1: int, b2: int, b3: int := image[pos], image[pos + 1], image[pos + 2], image[pos + 3];
    Digits(b0, b1, b2, b3, Word(image, pos));
  }

  lemma Digits(b0: int, b1: int, b2: int, b3: int, n: int)
    requires 0 <= b0 < 256 && 0 <= b1 < 256 && 0 <= b2 < 256 && 0 <= b3 < 256
    requires n == b0 + 256 * b1 + 65536 * b2 + 16777216 * b3
    ensures b0 == n % 256 && b1 == n / 256 % 256 && b2 == n / 65536 % 256 && b3 == n / 16777216 % 256
  {
    assert n / 256 == b1 + 256 * b2 + 65536 * b3;
    assert n / 65536 == b2 + 256 * b3;
    assert n / 16777216 == b3;
  }

  /** The bytes of a number and of its low 32 bits are the same. */
  lemma Wrapped(n: nat)
    ensures var m := n % 0x1_0000_0000;
      && m % 256 == n % 256 && m / 256 % 256 == n / 256 % 256
      && m / 65536 % 256 == n / 65536 % 256 && m / 16777216 % 256 == n / 16777216 % 256
  {
    var q, m := n / 0x1_0000_0000, n % 0x1_0000_0000;
    Shifted(n, q, m);
    Skipped(m, 0x100_0000 * q);
    Skipped(m / 256, 0x1_0000 * q);
    Skipped(m / 65536, 0x100 * q);
    Skipped(m / 16777216, q);
  }

  lemma Shifted(n: nat, q: nat, m: nat)
    requires n == 0x1_0000_0000 * q + m && m < 0x1_0000_0000
    ensures n == 256 * (0x100_0000 * q) + m
    ensures n / 256 == 256 * (0x1_0000 * q) + m / 256
    ensures n / 65536 == 256 * (0x100 * q) + m / 65536
    ensures n / 16777216 == 256 * q + m / 16777216
  {
  }

  lemma Skipped(x: nat, y: nat)
    ensures (256 * y + x) % 256 == x % 256
  {
  }

  /** The four bytes of a number, the least significant one first. */
  ghost predicate Number(image: seq<byte>, pos: nat, n: nat) {
    && pos + 4 <= |image|
    && image[pos] == n % 256 && image[pos + 1] == n / 256 % 256
    && image[pos + 2] == n / 65536 % 256 && image[pos + 3] == n / 16777216 % 256
  }

  /** The four bytes of a number that is stored in 32 bits. */
  lemma FourBytes(image: seq<byte>, pos: nat, n: nat)
    requires pos + 4 <= |image| && Word(image, pos) == n % 0x1_0000_0000
    ensures Number(image, pos, n)
  {
    hide Word;
    WordBytes(image, pos);
    Wrapped(n);
  }

  // The constant database.

  /** The table of contents holds two numbers for each of the 256 tables, and the data section follows it. */
  lemma DataStart()
    ensures TABLES == 256 && DATA_START == 8 * TABLES == 2048
  {
  }

  /** A record of a finished file: the lengths of key and value, then key and value. */
  lemma RecordInFile(image: seq<byte>, older: seq<Entry>, e: Entry, newer: seq<Entry>)
    requires Finished(image, Join(older, e, newer))
    ensures var p, k, v := 2048 + Total(older), |e.key|, |e.val|;
      && p + 8 + k + v <= |image|
      && image[p] == k % 256 && image[p + 1] == k / 256 % 256
      && image[p + 2] == k / 65536 % 256 && image[p + 3] == k / 16777216 % 256
      && image[p + 4] == v % 256 && image[p + 5] == v / 256 % 256
      && image[p + 6] == v / 65536 % 256 && image[p + 7] == v / 16777216 % 256
      && image[p + 8..p + 8 + k] == e.key && image[p + 8 + k..p + 8 + k + v] == e.val
  {
    hide Word, Reads, TableAt, TocAt, Join, Total;
    var p := 2048 + Total(older);
    HoldsParts(image, older, e, newer, DATA_START, p);
    WordBytes(image, p);
    WordBytes(image, p + 4);
    ReadsSlice(image, p + 8, e.key);
    ReadsSlice(image, p + 8 + |e.key|, e.val);
  }

  /** The live records of the buckets before `t`; the bucket of a key is its hash modulo 256. */
  ghost function Before(es: seq<Entry>, t: nat): nat {
    if es == [] then 0 else (if es[0].live && Hash(es[0].key) % 256 < t then 1 else 0) + Before(es[1..], t)
  }

  /** The live records of one bucket. */
  ghost function InTable(es: seq<Entry>, t: nat): nat {
    if es == [] then 0 else (if es[0].live && Hash(es[0].key) % 256 == t then 1 else 0) + InTable(es[1..], t)
  }

  lemma {:induction false} ListedAre(es: seq<Entry>, t: nat, off: nat)
    ensures |Index(es, t, off)| == InTable(es, t)
    decreases |es|
  {
    if es != [] {
      ListedAre(es[1..], t, off + Size(es[0]));
    }
  }

  lemma {:induction false} CountedBefore(es: seq<Entry>, t: nat, off: nat)
    ensures Counted(es, t, off) == Before(es, t)
    decreases |es|
  {
    if es == [] {
      CountNone(t, off);
    } else {
      CountSplit(es, t, off);
      CountedBefore(es[1..], t, off + Size(es[0]));
    }
  }

  /** The table of contents: where table `t` starts, and its two slots for every record, in 32 bits. */
  lemma TocInFile(image: seq<byte>, es: seq<Entry>, t: nat)
    requires Finished(image, es) && t < 256
    ensures var p, n := 2048 + Total(es) + 16 * Before(es, t), 2 * InTable(es, t);
      && 8 * t + 8 <= |image|
      && image[8 * t] == p % 256 && image[8 * t + 1] == p / 256 % 256
      && image[8 * t + 2] == p / 65536 % 256 && image[8 * t + 3] == p / 16777216 % 256
      && image[8 * t + 4] == n % 256 && image[8 * t + 5] == n / 256 % 256
      && image[8 * t + 6] == n / 65536 % 256 && image[8 * t + 7] == n / 16777216 % 256
  {
    var p, n := 2048 + Total(es) + 16 * Before(es, t), 2 * InTable(es, t);
    TocWords(image, es, t, p, n);
    FourBytes(image, 8 * t, p);
    FourBytes(image, 8 * t + 4, n);
    hide *;
  }

  lemma TocWords(image: seq<byte>, es: seq<Entry>, t: nat, p: nat, n: nat)
    requires Finished(image, es) && t < 256
    requires p == 2048 + Total(es) + 16 * Before(es, t) && n == 2 * InTable(es, t)
    ensures 8 * t + 8 <= |image|
    ensures Word(image, 8 * t) == p % 0x1_0000_0000 && Word(image, 8 * t + 4) == n % 0x1_0000_0000
  {
    TocEntryIs(image, es, t);
    PosIs(es, t);
    hide *;
  }

  lemma TocEntryIs(image: seq<byte>, es: seq<Entry>, t: nat)
    requires Finished(image, es) && t < 256
    ensures 8 * t + 8 <= |image|
    ensures Word(image, 8 * t) == TablePos(es, t) % 0x1_0000_0000
    ensures Word(image, 8 * t + 4) == TableSize(es, t) % 0x1_0000_0000
  {
    hide Holds, TableAt, Word, TablePos, TableSize;
    assert TocEntry(image, es, t);
  }

  lemma PosIs(es: seq<Entry>, t: nat)
    ensures TablePos(es, t) == 2048 + Total(es) + 16 * Before(es, t) && TableSize(es, t) == 2 * InTable(es, t)
  {
    PosCounted(es, t);
    CountedBefore(es, t, DATA_START);
    ListedAre(es, t, DATA_START);
    hide Total, Before, InTable, Index, TablePos, Counted;
  }

  /** A slot of a table: the hash of a key and the position of its record, or eight zero bytes. */
  lemma SlotInFile(image: seq<byte>, es: seq<Entry>, t: nat, j: nat)
    requires Finished(image, es) && t < 256 && j < |Table(es, t)|
    ensures var p, h, r := 2048 + Total(es) + 16 * Before(es, t) + 8 * j, Table(es, t)[j].hval, Table(es, t)[j].rpos;
      Number(image, p, h) && Number(image, p + 4, r) && (r == 0 ==> h == 0)
  {
    hide Table, Number, Word, Total, Holds, TocAt;
    PosCounted(es, t);
    CountedBefore(es, t, DATA_START);
    TableSlot(image, TablePos(es, t), Table(es, t), j);
    hide *;
    var p := 2048 + Total(es) + 16 * Before(es, t) + 8 * j;
    assert SlotAt(image, p, Table(es, t)[j]);
    SlotWords(image, p, Table(es, t)[j]);
    if Table(es, t)[j].rpos == 0 {
      EmptyIsZero(es, t, j);
    }
  }

  lemma EmptyIsZero(es: seq<Entry>, t: nat, j: nat)
    requires j < |Table(es, t)| && Table(es, t)[j].rpos == 0
    ensures Table(es, t)[j].hval == 0
  {
    hide Build, Index;
    var list := Index(es, t, DATA_START);
    IndexAscending(es, t, DATA_START);
    StaysZero(list, 2 * |list|, |list|, j);
  }

  /**
   * The slot of a live record: `d` steps behind the one that its hash gives, cyclically; those passed on the way
   * are in use.
   */
  lemma RecordSlot(image: seq<byte>, older: seq<Entry>, e: Entry, newer: seq<Entry>) returns (d: nat)
    requires Finished(image, Join(older, e, newer)) && e.live
    requires 2048 + Total(Join(older, e, newer)) <= 0xffff_ffff
    ensures var es, h := Join(older, e, newer), Hash(e.key);
      var start, n := 2048 + Total(es) + 16 * Before(es, h % 256), 2 * InTable(es, h % 256);
      && d < n
      && Number(image, start + 8 * Reached(h, d, n), h)
      && Number(image, start + 8 * Reached(h, d, n) + 4, 2048 + Total(older))
      && forall c :: 0 <= c < d ==> !Number(image, start + 8 * Reached(h, c, n) + 4, 0)
  {
    var es, h := Join(older, e, newer), Hash(e.key);
    hide *;
    d := SlotGiven(older, e, newer, es);
    var t := h % 256;
    var n := 2 * InTable(es, t);
    SlotInFile(image, es, t, Reached(h, d, n));
    forall c | 0 <= c < d
      ensures !Number(image, 2048 + Total(es) + 16 * Before(es, t) + 8 * Reached(h, c, n) + 4, 0)
    {
      var j := Reached(h, c, n);
      SlotInFile(image, es, t, j);
      DataStart();
      var _ := RecordOf(image, es, t, j);
      NotZero(image, 2048 + Total(es) + 16 * Before(es, t) + 8 * j + 4, Table(es, t)[j].rpos);
    }
  }

  lemma SlotGiven(older: seq<Entry>, e: Entry, newer: seq<Entry>, es: seq<Entry>) returns (d: nat)
    requires es == Join(older, e, newer) && e.live
    ensures var h := Hash(e.key);
      var n := 2 * InTable(es, h % 256);
      && d < n == |Table(es, h % 256)|
      && Table(es, h % 256)[Reached(h, d, n)] == Slot(h, 2048 + Total(older))
      && forall c :: 0 <= c < d ==> Table(es, h % 256)[Reached(h, c, n)].rpos != 0
  {
    hide Build, Index, Total, Reached, Before, InTable, Join;
    var t := Hash(e.key) % 256;
    var list, front := Index(es, t, DATA_START), Index(older, t, DATA_START);
    IndexAscending(es, t, DATA_START);
    JoinIndex(older, e, newer, t, DATA_START);
    assert list[|front|] == Slot(Hash(e.key), 2048 + Total(older));
    PosIs(es, t);
    d := PlacedAt(list, 2 * |list|, |front|);
  }

  lemma NotZero(image: seq<byte>, pos: nat, n: nat)
    requires Number(image, pos, n) && 0 < n <= 0xffff_ffff
    ensures !Number(image, pos, 0)
  {
  }

  lemma SlotWords(image: seq<byte>, p: nat, s: Slot)
    requires SlotAt(image, p, s)
    ensures Number(image, p, s.hval) && Number(image, p + 4, s.rpos)
  {
    hide Word;
    WordBytes(image, p);
    WordBytes(image, p + 4);
  }

  // CDB++.

  /** "CDB+", the size of the chunk, version 1, and the check of the byte order. */
  lemma PlusHeader(image: seq<byte>, es: seq<Entry>)
    requires CdbPlus.PlusFinished(image, es)
    ensures |image| >= 2064 && image[..4] == ['C' as int, 'D' as int, 'B' as int, '+' as int]
    ensures Number(image, 4, |image|)
    ensures image[8..12] == [1, 0, 0, 0] && image[12..16] == [0x71, 0x53, 0x44, 0x62]
  {
    hide *;
    HeaderWords(image, es);
    ChunkIs(image);
    FourBytes(image, 4, |image|);
    FourIs(image, 8, 1, [1, 0, 0, 0]);
    FourIs(image, 12, 0x6244_5371, [0x71, 0x53, 0x44, 0x62]);
  }

  lemma HeaderWords(image: seq<byte>, es: seq<Entry>)
    requires CdbPlus.PlusFinished(image, es)
    ensures |image| >= 2064 && Reads(image, 0, CdbPlus.CHUNK)
    ensures Word(image, 4) == |image| % 0x1_0000_0000 && Word(image, 8) == 1 && Word(image, 12) == 0x6244_5371
  {
    hide Word, Reads, CdbPlus.DataBytes, TableAt, CdbPlus.PlusTable, CdbPlus.Addressable;
    CdbPlus.PosIsBehind(es, 256);
  }

  lemma ChunkIs(image: seq<byte>)
    requires 4 <= |image| && Reads(image, 0, CdbPlus.CHUNK)
    ensures image[..4] == ['C' as int, 'D' as int, 'B' as int, '+' as int]
  {
    hide Reads;
    ReadsSlice(image, 0, CdbPlus.CHUNK);
  }

  lemma FourIs(image: seq<byte>, pos: nat, n: nat, bytes: seq<byte>)
    requires pos + 4 <= |image| && Word(image, pos) == n && |bytes| == 4
    requires bytes[0] == n % 256 && bytes[1] == n / 256 % 256
    requires bytes[2] == n / 65536 % 256 && bytes[3] == n / 16777216 % 256
    ensures image[pos..pos + 4] == bytes
  {
    hide Word;
    WordBytes(image, pos);
  }

  /** The reference to table `t`, if it has any slots, tells where it starts and how many they are. */
  lemma PlusReference(image: seq<byte>, es: seq<Entry>, t: nat)
    requires CdbPlus.PlusFinished(image, es) && t < 256
    ensures var n := 2 * InTable(es, t);
      var p := if n == 0 then 0 else 2064 + Total(es) + 16 * Before(es, t);
      Number(image, 16 + 8 * t, p) && Number(image, 20 + 8 * t, n)
  {
    var n := 2 * InTable(es, t);
    var p := if n == 0 then 0 else 2064 + Total(es) + 16 * Before(es, t);
    hide *;
    ReferenceWords(image, es, t, p, n);
    FourBytes(image, 16 + 8 * t, p);
    FourBytes(image, 20 + 8 * t, n);
  }

  lemma ReferenceWords(image: seq<byte>, es: seq<Entry>, t: nat, p: nat, n: nat)
    requires CdbPlus.PlusFinished(image, es) && t < 256 && n == 2 * InTable(es, t)
    requires p == if n == 0 then 0 else 2064 + Total(es) + 16 * Before(es, t)
    ensures 24 + 8 * t <= |image|
    ensures Word(image, 16 + 8 * t) == p % 0x1_0000_0000 && Word(image, 20 + 8 * t) == n % 0x1_0000_0000
  {
    ReferenceIs(es, t, p, n);
    ReferenceAt(image, es, t);
    SlotIs(image, 16 + 8 * t, p, n);
    hide *;
  }

  lemma SlotIs(image: seq<byte>, pos: nat, p: nat, n: nat)
    requires SlotAt(image, pos, Slot(p % 0x1_0000_0000, n))
    ensures pos + 8 <= |image| && Word(image, pos) == p % 0x1_0000_0000
    ensures Word(image, pos + 4) == n % 0x1_0000_0000
  {
    hide Word;
  }

  lemma ReferenceAt(image: seq<byte>, es: seq<Entry>, t: nat)
    requires CdbPlus.PlusFinished(image, es) && t < 256
    ensures SlotAt(image, 16 + 8 * t, CdbPlus.TableRef(es, t))
  {
    hide Word, Total, CdbPlus.TableRef, CdbPlus.PlusTable, CdbPlus.DataBytes, Reads, CdbPlus.PlusPos;
    var refs := CdbPlus.Refs(es, CdbPlus.NUM_TABLES);
    assert refs[t] == CdbPlus.TableRef(es, t);
    hide *;
    assert TableAt(image, 16, refs);
    TableSlot(image, 16, refs, t);
  }

  lemma ReferenceIs(es: seq<Entry>, t: nat, p: nat, n: nat)
    requires n == 2 * InTable(es, t) && p == if n == 0 then 0 else 2064 + Total(es) + 16 * Before(es, t)
    ensures CdbPlus.TableRef(es, t) == Slot(p % 0x1_0000_0000, n)
  {
    CountedBefore(es, t, CdbPlus.BEGIN);
    ListedAre(es, t, CdbPlus.BEGIN);
    hide Index, Total, Before, InTable;
    assert n == 2 * |CdbPlus.List(es, t)|;
  }

  /** A slot of a table: the hash of a key and the offset of its record, or eight zero bytes. */
  lemma PlusSlot(image: seq<byte>, es: seq<Entry>, t: nat, j: nat)
    requires CdbPlus.PlusFinished(image, es) && t < 256 && j < |CdbPlus.PlusTable(es, t)|
    ensures var p, s := 2064 + Total(es) + 16 * Before(es, t) + 8 * j, CdbPlus.PlusTable(es, t)[j];
      Number(image, p, s.hval) && Number(image, p + 4, s.rpos) && (s.rpos == 0 ==> s.hval == 0)
  {
    hide Number, Word, Build, Total, CdbPlus.Addressable, Reads, Index;
    CountedBefore(es, t, CdbPlus.BEGIN);
    var s := CdbPlus.PlusTable(es, t)[j];
    TableSlot(image, CdbPlus.PlusPos(es, t), CdbPlus.PlusTable(es, t), j);
    SlotWords(image, CdbPlus.PlusPos(es, t) + 8 * j, s);
    if s.rpos == 0 {
      var list := Index(es, t, CdbPlus.BEGIN);
      IndexAscending(es, t, CdbPlus.BEGIN);
      StaysZero(list, 2 * |list|, |list|, j);
    }
  }

  /** A record: the length of the key, the key, the length of the value, the value. */
  lemma PlusRecord(image: seq<byte>, older: seq<Entry>, e: Entry, newer: seq<Entry>)
    requires CdbPlus.PlusFinished(image, Join(older, e, newer))
    ensures var p, k, v := 2064 + Total(older), |e.key|, |e.val|;
      && p + 8 + k + v <= |image|
      && Number(image, p, k) && image[p + 4..p + 4 + k] == e.key
      && Number(image, p + 4 + k, v) && image[p + 8 + k..p + 8 + k + v] == e.val
  {
    hide *;
    DataAt(image, Join(older, e, newer));
    JoinBytes(older, e, newer);
    PlusParts(image, CdbPlus.DataBytes(older), e, CdbPlus.DataBytes(newer), 2064 + Total(older));
  }

  lemma DataAt(image: seq<byte>, es: seq<Entry>)
    requires CdbPlus.PlusFinished(image, es)
    ensures Reads(image, 2064, CdbPlus.DataBytes(es))
  {
    hide Word, Reads, TableAt, Total, CdbPlus.PlusTable, CdbPlus.DataBytes;
  }

  lemma JoinBytes(older: seq<Entry>, e: Entry, newer: seq<Entry>)
    ensures CdbPlus.DataBytes(Join(older, e, newer))
         == CdbPlus.DataBytes(older)
            + ((Pack(|e.key|) + (e.key + (Pack(|e.val|) + e.val))) + CdbPlus.DataBytes(newer))
  {
    hide CdbPlus.DataBytes, Pack;
    CdbPlus.DataConcat(older, [e] + newer);
    FirstBytes(e, newer);
  }

  lemma PlusParts(image: seq<byte>, front: seq<byte>, e: Entry, behind: seq<byte>, p: nat)
    requires Reads(image, 2064, front + ((Pack(|e.key|) + (e.key + (Pack(|e.val|) + e.val))) + behind))
    requires p == 2064 + |front|
    ensures p + 8 + |e.key| + |e.val| <= |image|
    ensures Number(image, p, |e.key|) && image[p + 4..p + 4 + |e.key|] == e.key
    ensures Number(image, p + 4 + |e.key|, |e.val|)
    ensures image[p + 8 + |e.key|..p + 8 + |e.key| + |e.val|] == e.val
  {
    hide *;
    var k, v := Pack(|e.key|), Pack(|e.val|);
    ReadsBoth(image, 2064, front, (k + (e.key + (v + e.val))) + behind);
    ReadsBoth(image, p, k + (e.key + (v + e.val)), behind);
    RecordParts(image, p, k, e.key, v, e.val);
    PackedAt(image, p, |e.key|);
    PackedAt(image, p + 4 + |e.key|, |e.val|);
  }

  lemma RecordParts(image: seq<byte>, p: nat, k: seq<byte>, key: seq<byte>, v: seq<byte>, val: seq<byte>)
    requires Reads(image, p, k + (key + (v + val))) && |k| == |v| == 4
    ensures p + 8 + |key| + |val| <= |image| && Reads(image, p, k) && Reads(image, p + 4 + |key|, v)
    ensures image[p + 4..p + 4 + |key|] == key
    ensures image[p + 8 + |key|..p + 8 + |key| + |val|] == val
  {
    hide Reads;
    ReadsBoth(image, p, k, key + (v + val));
    ReadsBoth(image, p + 4, key, v + val);
    ReadsBoth(image, p + 4 + |key|, v, val);
    ReadsSlice(image, p + 4, key);
    ReadsSlice(image, p + 8 + |key|, val);
  }

  lemma FirstBytes(e: Entry, newer: seq<Entry>)
    ensures CdbPlus.DataBytes([e] + newer)
         == (Pack(|e.key|) + (e.key + (Pack(|e.val|) + e.val))) + CdbPlus.DataBytes(newer)
  {
    hide Pack;
    ConsTail(e, newer);
  }

  lemma PackedAt(image: seq<byte>, p: nat, n: nat)
    requires Reads(image, p, Pack(n))
    ensures Number(image, p, n)
  {
    hide Pack, Reads;
    ReadsSlice(image, p, Pack(n));
    PackBytes(n);
    var four := image[p..p + 4];
    assert four[0] == image[p] && four[1] == image[p + 1] && four[2] == image[p + 2] && four[3] == image[p + 3];
  }
}
