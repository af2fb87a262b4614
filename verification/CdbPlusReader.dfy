/** The CDB++ reader: opening a memory image, and the probe loop that only a vacant slot ends. */
module CdbPlusReader {
  import opened Bytes
  import opened Seqs
  import opened ProbeTable
  import opened Records
  import opened Layout
  import opened CdbReader
  import opened CdbPlus
  import opened Files
  import opened Options

  /** open either refuses the image with an exception or returns the size of the chunk. */
  datatype OpenResult = Opened(csize: nat) | Refused

  /** A hash table as the reader sees it; no buckets are those at offset 0. */
  datatype TableView = TableView(num: nat, buckets: nat)

  // Records in an image.

  ghost predicate PlusRecordAt(image: seq<byte>, pos: nat, key: seq<byte>) {
    && pos + 8 + |key| <= |image|
    && Word(image, pos) == |key|
    && Reads(image, pos + 4, key)
    && pos + 8 + |key| + Word(image, pos + 4 + |key|) <= |image|
  }

  ghost function PlusVal(image: seq<byte>, pos: nat, key: seq<byte>): seq<byte>
    requires PlusRecordAt(image, pos, key)
  {
    var vpos := pos + 8 + |key|;
    image[vpos..vpos + Word(image, pos + 4 + |key|)]
  }

  ghost function OwnPlusHit(image: seq<byte>, s: Slot, key: seq<byte>): seq<seq<byte>> {
    if s.hval == Hash(key) && PlusRecordAt(image, s.rpos, key) then [PlusVal(image, s.rpos, key)] else []
  }

  /** The values that a reader of `image` finds for `key` when it goes through `slots`. */
  ghost function PlusHits(image: seq<byte>, slots: seq<Slot>, key: seq<byte>): seq<seq<byte>> {
    if slots == [] then [] else OwnPlusHit(image, slots[0], key) + PlusHits(image, slots[1..], key)
  }

  lemma {:induction false} PlusHitsConcat(image: seq<byte>, a: seq<Slot>, b: seq<Slot>, key: seq<byte>)
    ensures PlusHits(image, a + b, key) == PlusHits(image, a, key) + PlusHits(image, b, key)
  {
    hide OwnPlusHit;
    if a == [] {
      assert a + b == b;
    } else {
      ConcatTail(a, b);
      PlusHitsConcat(image, a[1..], b, key);
      Assoc(OwnPlusHit(image, a[0], key), PlusHits(image, a[1..], key), PlusHits(image, b, key));
    }
  }

  lemma {:induction false} PlusHitsOfHash(image: seq<byte>, slots: seq<Slot>, key: seq<byte>)
    ensures PlusHits(image, slots, key) == PlusHits(image, OfHash(slots, Hash(key)), key)
  {
    if slots != [] {
      PlusHitsOfHash(image, slots[1..], key);
      var rest := OfHash(slots[1..], Hash(key));
      if slots[0].hval == Hash(key) {
        ConsTail(slots[0], rest);
      } else {
        assert [] + rest == rest;
        assert [] + PlusHits(image, slots[1..], key) == PlusHits(image, slots[1..], key);
      }
    }
  }

  /** Where the parts of a record lie. */
  lemma RecordParts(image: seq<byte>, e: Entry, pos: nat)
    requires Reads(image, pos, RecordBytes(e)) && Sized(e)
    ensures pos + Size(e) <= |image|
    ensures Word(image, pos) == |e.key| && Word(image, pos + 4 + |e.key|) == |e.val|
    ensures Reads(image, pos + 4, e.key) && Reads(image, pos + 8 + |e.key|, e.val)
  {
    hide Pack, Reads, Word;
    ReadsSlice(image, pos, RecordBytes(e));
    ReadsBoth(image, pos, Pack(|e.key|), e.key + (Pack(|e.val|) + e.val));
    ReadsBoth(image, pos + 4, e.key, Pack(|e.val|) + e.val);
    ReadsBoth(image, pos + 4 + |e.key|, Pack(|e.val|), e.val);
    WordPacked(image, pos, |e.key|);
    WordPacked(image, pos + 4 + |e.key|, |e.val|);
  }

  lemma RecordIs(image: seq<byte>, e: Entry, pos: nat, key: seq<byte>)
    requires Reads(image, pos, RecordBytes(e)) && Sized(e)
    ensures PlusRecordAt(image, pos, key) <==> e.key == key
    ensures e.key == key ==> PlusVal(image, pos, key) == e.val
  {
    hide Word;
    RecordParts(image, e, pos);
    ReadsSlice(image, pos + 4, key);
    ReadsSlice(image, pos + 4, e.key);
    ReadsSlice(image, pos + 8 + |e.key|, e.val);
  }

  lemma OneHit(image: seq<byte>, e: Entry, off: nat, key: seq<byte>)
    requires Reads(image, off, RecordBytes(e)) && Sized(e)
    ensures PlusHits(image, OwnSlot(e, Hash(key) % 256, off), key) == OwnVal(e, key)
  {
    hide Reads, RecordBytes, PlusRecordAt, PlusVal;
    RecordIs(image, e, off, key);
  }

  /** Going through the list of a key's table finds exactly the values of that key, in the order of the puts. */
  lemma {:induction false} PlusHitsAreVals(image: seq<byte>, es: seq<Entry>, off: nat, key: seq<byte>)
    requires Reads(image, off, DataBytes(es)) && forall i :: 0 <= i < |es| ==> Sized(es[i])
    ensures PlusHits(image, Index(es, Hash(key) % 256, off), key) == Vals(es, key)
    decreases |es|
  {
    hide Reads, RecordBytes, PlusRecordAt, PlusVal, Hash, OwnSlot, OwnVal;
    if es != [] {
      var e, b := es[0], Hash(key) % 256;
      var own, rest := OwnSlot(e, b, off), Index(es[1..], b, off + Size(e));
      assert Index(es, b, off) == own + rest by {
        hide PlusHits, DataBytes, Vals, Size;
      }
      assert Vals(es, key) == OwnVal(e, key) + Vals(es[1..], key) by {
        hide PlusHits, DataBytes, Index, Size;
      }
      ReadsBoth(image, off, RecordBytes(e), DataBytes(es[1..]));
      assert |RecordBytes(e)| == Size(e);
      hide PlusHits, Index, Vals, DataBytes;
      PlusHitsAreVals(image, es[1..], off + Size(e), key);
      OneHit(image, e, off, key);
      PlusHitsConcat(image, own, rest, key);
    }
  }

  /** A probe that goes on to the first vacant slot finds exactly the values put under the key. */
  lemma PlusProbe(image: seq<byte>, es: seq<Entry>, key: seq<byte>)
    requires PlusFinished(image, es)
    ensures var t := Hash(key) % NUM_TABLES;
      && (List(es, t) == [] ==> Vals(es, key) == [])
      && (List(es, t) != [] ==>
            PlusHits(image, Prefix(Rot(PlusTable(es, t), Home(Hash(key), |PlusTable(es, t)|))), key) == Vals(es, key)
            && |Bag(PlusTable(es, t))| < |PlusTable(es, t)|)
  {
    hide Prefix, Rot, Bag, PlusHits, OfHash, Reads, DataBytes, TableAt, Word, Build;
    var h := Hash(key);
    var list := List(es, h % NUM_TABLES);
    PlusHitsAreVals(image, es, BEGIN, key);
    NoHits(image, key);
    if list != [] {
      PlusFits(es, h % NUM_TABLES);
      BuildFinds(list, 2 * |list|, |list|, h);
      BuildCounts(list, 2 * |list|, |list|);
      assert list[..|list|] == list;
      var run := Prefix(Rot(Build(list, 2 * |list|, |list|), Home(h, 2 * |list|)));
      PlusHitsOfHash(image, list, key);
      PlusHitsOfHash(image, run, key);
    }
  }

  lemma NoHits(image: seq<byte>, key: seq<byte>)
    ensures PlusHits(image, [], key) == []
  {
  }

  /** Every slot in use points at a record of the data section. */
  lemma PlusSlotGood(image: seq<byte>, es: seq<Entry>, t: nat, i: nat) returns (e: Entry)
    requires t < NUM_TABLES && PlusFinished(image, es) && i < |PlusTable(es, t)| && PlusTable(es, t)[i].rpos != 0
    ensures Reads(image, PlusTable(es, t)[i].rpos, RecordBytes(e)) && Sized(e)
  {
    hide Build, Bag, Index, TableAt, Reads, RecordBytes, DataBytes, Word;
    var list := List(es, t);
    PlusFits(es, t);
    BuildBag(list, 2 * |list|, |list|);
    assert list[..|list|] == list;
    InBag(PlusTable(es, t), i);
    var k := OfBag(list, PlusTable(es, t)[i]);
    var a, c;
    a, e, c := SplitAt(es, t, BEGIN, k);
    assert es[|a|] == e && Sized(es[|a|]);
    DataConcat(a, [e] + c);
    ReadsBoth(image, BEGIN, DataBytes(a), DataBytes([e] + c));
    DataFirst(e, c);
    ReadsBoth(image, BEGIN + Total(a), RecordBytes(e), DataBytes(c));
  }

  lemma DataFirst(e: Entry, c: seq<Entry>)
    ensures DataBytes([e] + c) == RecordBytes(e) + DataBytes(c)
  {
    ConsTail(e, c);
  }

  class Reader {
    var buffer: seq<byte>
    var n: nat
    const ht: array<TableView>

    constructor ()
      ensures fresh(ht) && ht.Length == NUM_TABLES
    {
      buffer, n, ht := [], 0, new TableView[NUM_TABLES](_ => TableView(0, 0));
    }

    function NumRecords(): nat
      reads this
    {
      n
    }

    /** The image is a finished database of `es`, and the tables are those of its references. */
    ghost predicate Over(es: seq<Entry>)
      reads this, ht
    {
      && PlusFinished(buffer, es) && ht.Length == NUM_TABLES && n == |es|
      && forall t :: 0 <= t < NUM_TABLES ==> ht[t] == ViewOf(es, t)
    }

    /** open, from a memory image; `es` is what it may be a database of. */
    method Open(image: seq<byte>, ghost es: seq<Entry>) returns (r: OpenResult)
      requires ht.Length == NUM_TABLES
      modifies this, ht
      ensures r == if |image| < BEGIN || !Reads(image, 0, CHUNK) || Word(image, 12) != BYTEORDER_CHECK
                      || |image| < Word(image, 4) then Refused else Opened(Word(image, 4))
      ensures PlusFinished(image, es) && AllLive(es) ==> r.Opened? && Over(es)
    {
      hide Reads, Word, PlusFinished, ViewOf, Counted, List, PlusPos;
      ReadsSlice(image, 0, CHUNK);
      if PlusFinished(image, es) {
        FinishedHead(image, es);
      }
      if |image| < BEGIN {
        return Refused;
      }
      if image[0..4] != CHUNK {
        return Refused;
      }
      var csize := Word(image, 4);
      var byteorder := Word(image, 12);
      if byteorder != BYTEORDER_CHECK {
        return Refused;
      }
      if |image| < csize {
        return Refused;
      }
      buffer, n := image, 0;
      NoneCounted(es);
      for i := 0 to NUM_TABLES
        invariant buffer == image
        invariant PlusFinished(image, es) ==> n == Counted(es, i, BEGIN)
        invariant PlusFinished(image, es) ==> forall t :: 0 <= t < i ==> ht[t] == ViewOf(es, t)
      {
        var offset, num := Word(image, 16 + 8 * i), Word(image, 16 + 8 * i + 4);
        if offset != 0 {
          ht[i] := TableView(num, offset);
        } else {
          ht[i] := TableView(0, 0);
        }
        n := n + num / 2;
        if PlusFinished(image, es) {
          RefRead(image, es, i);
        }
      }
      if PlusFinished(image, es) && AllLive(es) {
        CountedIsLive(es, BEGIN);
        LiveAll(es);
      }
      return Opened(csize);
    }

    /** get: the value of the first put of the key, or nothing; nothing, too, if the table starts at 2^32. */
    method Get(key: seq<byte>, ghost es: seq<Entry>) returns (r: Option<seq<byte>>)
      requires Over(es) && Probed(es, Hash(key) % NUM_TABLES)
      ensures IsFirst(if PlusPos(es, Hash(key) % NUM_TABLES) <= U32_MAX then Vals(es, key) else [], r)
    {
      hide Word, PlusFinished, Vals, PlusTable, Bag, PlusHits, Prefix, Rot, PlusPos, List;
      var hv := Hash(key);
      var view := ht[hv % NUM_TABLES];
      PlusProbe(buffer, es, key);
      ViewIs(es, hv % NUM_TABLES);
      if view.num != 0 && view.buckets != 0 {
        r := Scan(key, hv, view, es);
      } else {
        r := None;
      }
    }

    /** The probe loop. It has no counter: half of the table is vacant. */
    method Scan(key: seq<byte>, hv: u32, view: TableView, ghost es: seq<Entry>) returns (r: Option<seq<byte>>)
      requires PlusFinished(buffer, es) && hv == Hash(key) && List(es, hv % NUM_TABLES) != []
      requires view == TableView(2 * |List(es, hv % NUM_TABLES)|, PlusPos(es, hv % NUM_TABLES))
      ensures IsFirst(Vals(es, key), r)
    {
      hide Word, PlusFinished, Vals, PlusTable, Bag, PlusHits, Prefix, Rot, List, PlusPos, Reads, RecordBytes, Wrap,
           IsFirst, Hash;
      PlusProbe(buffer, es, key);
      var num := view.num;
      var k := hv / 256 % num;
      ghost var home, d := Home(hv, num), 0;
      ghost var tab := PlusTable(es, hv % NUM_TABLES);
      ghost var run := Prefix(Rot(tab, home));
      TableRange(buffer, es, hv % NUM_TABLES);
      ProbeStops(tab, home);
      HomeIs(hv, num);
      assert run[0..] == run;
      ghost var e := ScanSlot(buffer, es, key, tab, view.buckets, home, d, run, k);
      while Word(buffer, view.buckets + 8 * k + 4) != 0
        invariant d <= |run| < num && k == Wrap(home, d, num) && view.buckets + 8 * k + 8 <= |buffer|
        invariant PlusHits(buffer, run[d..], key) == Vals(es, key)
        decreases |run| - d
      {
        e := ScanSlot(buffer, es, key, tab, view.buckets, home, d, run, k);
        var q := Word(buffer, view.buckets + 8 * k + 4);
        if Word(buffer, view.buckets + 8 * k) == hv {
          var same, value := Examine(q, key, e);
          if same {
            FirstIs(e.val, PlusHits(buffer, run[d + 1..], key));
            return Some(value);
          }
        }
        assert [] + PlusHits(buffer, run[d + 1..], key) == PlusHits(buffer, run[d + 1..], key);
        NextWrap(home, d, num);
        NextSlot(k, num);
        k := (k + 1) % num;
        d := d + 1;
        e := ScanSlot(buffer, es, key, tab, view.buckets, home, d, run, k);
      }
      e := ScanSlot(buffer, es, key, tab, view.buckets, home, d, run, k);
      NoneIs();
      return None;
    }

    /** The comparison with the record at `q`, and its value if the key is the same. */
    method Examine(q: u32, key: seq<byte>, ghost e: Entry) returns (same: bool, value: seq<byte>)
      requires Reads(buffer, q, RecordBytes(e)) && Sized(e)
      ensures same <==> e.key == key
      ensures same ==> value == e.val
    {
      hide Word, Reads, RecordBytes;
      RecordParts(buffer, e, q);
      ReadsSlice(buffer, q + 4, e.key);
      ReadsSlice(buffer, q + 8 + |e.key|, e.val);
      same, value := false, [];
      if Word(buffer, q) == |key| {
        if buffer[q + 4..q + 4 + |key|] == key {
          var vsize := Word(buffer, q + 4 + |key|);
          same, value := true, buffer[q + 8 + |key|..q + 8 + |key| + vsize];
        }
      }
    }
  }

  /** The first of the values, if there is one. */
  ghost predicate IsFirst(vals: seq<seq<byte>>, r: Option<seq<byte>>) {
    r == if vals == [] then None else Some(vals[0])
  }

  lemma FirstIs(v: seq<byte>, rest: seq<seq<byte>>)
    ensures IsFirst([v] + rest, Some(v))
  {
  }

  lemma NoneIs()
    ensures IsFirst([], None)
  {
  }

  lemma HomeIs(hv: u32, num: nat)
    requires num > 0
    ensures hv / 256 % num == Home(hv, num) == Wrap(Home(hv, num), 0, num)
  {
  }

  /** What is left to be found once the slot with words `hv` and `pos` was read. */
  ghost predicate Told(buffer: seq<byte>, run: seq<Slot>, d: nat, key: seq<byte>, hv: u32, pos: u32, e: Entry) {
    d <= |run|
    && if pos == 0 then PlusHits(buffer, run[d..], key) == []
       else
         && d < |run| && Sized(e) && Reads(buffer, pos, RecordBytes(e))
         && PlusHits(buffer, run[d..], key)
         == (if hv == Hash(key) && e.key == key then [e.val] else []) + PlusHits(buffer, run[d + 1..], key)
  }

  /** The slot `d` steps behind the home slot. */
  lemma ScanSlot(buffer: seq<byte>, es: seq<Entry>, key: seq<byte>, tab: seq<Slot>, pos: nat, home: nat, d: nat,
                 run: seq<Slot>, k: nat)
    returns (e: Entry)
    requires PlusFinished(buffer, es) && tab == PlusTable(es, Hash(key) % NUM_TABLES)
    requires pos == PlusPos(es, Hash(key) % NUM_TABLES)
    requires home < |tab| && d < |tab| && run == Prefix(Rot(tab, home)) && d <= |run| && k == Wrap(home, d, |tab|)
    ensures pos + 8 * k + 8 <= |buffer|
    ensures Told(buffer, run, d, key, Word(buffer, pos + 8 * k), Word(buffer, pos + 8 * k + 4), e)
  {
    hide Word, PlusFinished, PlusTable, PlusHits, Prefix, Rot, List, PlusPos, PlusRecordAt, PlusVal, Reads, RecordBytes,
         Wrap, Hash;
    e := Entry([], [], true);
    SlotSeen(buffer, es, Hash(key) % NUM_TABLES, k);
    ScanAt(buffer, tab, home, d, run, key);
    if tab[k].rpos != 0 {
      e := PlusSlotGood(buffer, es, Hash(key) % NUM_TABLES, k);
      RecordIs(buffer, e, tab[k].rpos, key);
    }
  }

  /** What open makes of the reference to a table, which tells where it starts in 32 bits. */
  function ViewOf(es: seq<Entry>, t: nat): TableView {
    if List(es, t) == [] || PlusPos(es, t) % 0x1_0000_0000 == 0 then TableView(0, 0)
    else TableView(2 * |List(es, t)|, PlusPos(es, t) % 0x1_0000_0000)
  }

  /** The table starts within 32 bits, or there is nothing to probe. */
  ghost predicate Probed(es: seq<Entry>, t: nat) {
    PlusPos(es, t) <= U32_MAX || ViewOf(es, t).buckets == 0
  }

  lemma ViewIs(es: seq<Entry>, t: nat)
    ensures List(es, t) == [] ==> ViewOf(es, t) == TableView(0, 0)
    ensures PlusPos(es, t) <= U32_MAX && List(es, t) != [] ==>
              ViewOf(es, t) == TableView(2 * |List(es, t)|, PlusPos(es, t)) && PlusPos(es, t) != 0
  {
  }

  lemma FinishedHead(image: seq<byte>, es: seq<Entry>)
    requires PlusFinished(image, es)
    ensures BEGIN <= |image| && Reads(image, 0, CHUNK)
    ensures Word(image, 12) == BYTEORDER_CHECK && Word(image, 4) == |image| % 0x1_0000_0000
  {
    hide Reads, Word, DataBytes;
  }

  lemma NoneCounted(es: seq<Entry>)
    ensures Counted(es, 0, BEGIN) == 0
  {
  }

  /** A reference tells the size and the place of its table; an empty table has no place. */
  lemma RefRead(image: seq<byte>, es: seq<Entry>, t: nat)
    requires PlusFinished(image, es) && t < NUM_TABLES
    ensures 16 + 8 * t + 8 <= |image|
    ensures var offset, num := Word(image, 16 + 8 * t), Word(image, 16 + 8 * t + 4);
      ViewOf(es, t) == if offset != 0 then TableView(num, offset) else TableView(0, 0)
    ensures Word(image, 16 + 8 * t + 4) / 2 == |List(es, t)|
    ensures Counted(es, t + 1, BEGIN) == Counted(es, t, BEGIN) + |List(es, t)|
  {
    hide Reads, Word, DataBytes, TableAt, Refs, List, PlusTable;
    TableSlot(image, 16, Refs(es, NUM_TABLES), t);
    CountedMonotone(es, t, NUM_TABLES, BEGIN);
    RefsAt(es, t);
    CountedNext(es, t);
  }

  lemma RefsAt(es: seq<Entry>, t: nat)
    requires t < NUM_TABLES
    ensures Refs(es, NUM_TABLES)[t] == TableRef(es, t)
  {
  }

  lemma CountedNext(es: seq<Entry>, t: nat)
    ensures Counted(es, t + 1, BEGIN) == Counted(es, t, BEGIN) + |List(es, t)|
  {
  }

  lemma TableRange(image: seq<byte>, es: seq<Entry>, t: nat)
    requires PlusFinished(image, es) && t < NUM_TABLES
    ensures PlusPos(es, t) + 8 * |PlusTable(es, t)| <= |image|
    ensures |PlusTable(es, t)| == 2 * |List(es, t)|
  {
    hide Reads, Word, DataBytes, PlusTable;
    TableWithin(image, PlusPos(es, t), PlusTable(es, t));
  }

  lemma SlotSeen(image: seq<byte>, es: seq<Entry>, t: nat, k: nat)
    requires PlusFinished(image, es) && t < NUM_TABLES && k < |PlusTable(es, t)|
    ensures SlotAt(image, PlusPos(es, t) + 8 * k, PlusTable(es, t)[k])
  {
    hide Reads, Word, DataBytes, PlusTable;
    TableSlot(image, PlusPos(es, t), PlusTable(es, t), k);
  }

  /** One step of the probe: the slot seen is the next of the run, or ends it. */
  lemma ScanAt(image: seq<byte>, tab: seq<Slot>, home: nat, d: nat, run: seq<Slot>, key: seq<byte>)
    requires home < |tab| && d < |tab| && run == Prefix(Rot(tab, home)) && d <= |run|
    ensures tab[Wrap(home, d, |tab|)].rpos != 0 ==>
              d < |run| && PlusHits(image, run[d..], key)
                        == OwnPlusHit(image, tab[Wrap(home, d, |tab|)], key) + PlusHits(image, run[d + 1..], key)
    ensures tab[Wrap(home, d, |tab|)].rpos == 0 ==> PlusHits(image, run[d..], key) == []
  {
    hide OwnPlusHit, Prefix, Rot;
    RunAt(tab, home, d, run);
    if d < |run| {
      ConsTail(tab[Wrap(home, d, |tab|)], run[d + 1..]);
    }
  }

  // Whole programs.

  datatype Pair = Pair(key: seq<byte>, val: seq<byte>)

  function EntriesOf(puts: seq<Pair>): (es: seq<Entry>)
    ensures |es| == |puts| && AllLive(es)
  {
    seq(|puts|, i requires 0 <= i < |puts| => Entry(puts[i].key, puts[i].val, true))
  }

  /** The value of the first put of a key. */
  function FirstPut(puts: seq<Pair>, key: seq<byte>): Option<seq<byte>> {
    if puts == [] then None else if puts[0].key == key then Some(puts[0].val) else FirstPut(puts[1..], key)
  }

  lemma {:induction false} FirstVal(puts: seq<Pair>, key: seq<byte>)
    ensures var vals := Vals(EntriesOf(puts), key);
      FirstPut(puts, key) == if vals == [] then None else Some(vals[0])
  {
    if puts != [] {
      FirstVal(puts[1..], key);
      assert EntriesOf(puts)[1..] == EntriesOf(puts[1..]);
    }
  }

  lemma {:induction false} TotalPrefix(puts: seq<Pair>, k: nat)
    requires k <= |puts|
    ensures Total(EntriesOf(puts[..k])) <= Total(EntriesOf(puts))
    decreases |puts| - k
  {
    if k < |puts| {
      TotalPrefix(puts, k + 1);
      assert EntriesOf(puts[..k + 1]) == EntriesOf(puts[..k]) + [Entry(puts[k].key, puts[k].val, true)];
      TotalConcat(EntriesOf(puts[..k]), [Entry(puts[k].key, puts[k].val, true)]);
    } else {
      assert puts[..k] == puts;
    }
  }

  /**
   * From puts to answers: the database holds as many records as there were puts, and yields the first value,
   * unless the table of the key starts beyond 32 bits.
   */
  method BuildAndGet(puts: seq<Pair>, key: seq<byte>) returns (size: nat, r: Option<seq<byte>>)
    requires Addressable(EntriesOf(puts)) && Probed(EntriesOf(puts), Hash(key) % NUM_TABLES)
    ensures size == |puts|
    ensures r == if PlusPos(EntriesOf(puts), Hash(key) % NUM_TABLES) <= U32_MAX then FirstPut(puts, key) else None
  {
    hide Total, Vals, PlusFinished, FirstPut, Counted, Addressable, Probed, PlusPos;
    var os := new File([]);
    var builder := new Builder(os);
    for k := 0 to |puts|
      invariant builder.Valid() && builder.os == os && fresh(os) && fresh(builder) && fresh(builder.ht)
      invariant builder.es == EntriesOf(puts[..k])
    {
      PutFits(puts, k);
      AddressablePut(puts, k);
      builder.Put(puts[k].key, puts[k].val);
    }
    assert puts[..|puts|] == puts;
    ghost var es := EntriesOf(puts);
    CountedIsLive(es, BEGIN);
    LiveAll(es);
    builder.Close();
    var reader := new Reader();
    var result := reader.Open(os.data, es);
    size := reader.NumRecords();
    r := reader.Get(key, es);
    FirstVal(puts, key);
  }

  lemma AddressablePut(puts: seq<Pair>, k: nat)
    requires k < |puts| && Addressable(EntriesOf(puts))
    ensures |puts[k].key| <= U32_MAX && |puts[k].val| <= U32_MAX && BEGIN + Total(EntriesOf(puts[..k])) <= U32_MAX
  {
    var es := EntriesOf(puts);
    assert Sized(es[k]);
    var n := |puts| - 1;
    TotalPrefix(puts[..n], k);
    assert puts[..n][..k] == puts[..k] && EntriesOf(puts[..n]) == es[..n];
  }

  lemma PutFits(puts: seq<Pair>, k: nat)
    requires k < |puts|
    ensures EntriesOf(puts[..k + 1]) == EntriesOf(puts[..k]) + [Entry(puts[k].key, puts[k].val, true)]
  {
  }

  /** One record that fills the data section up to 2^32. */
  function BigPut(): Pair {
    Pair([], seq(0x1_0000_0000 - BEGIN - 8, _ => 0))
  }

  lemma BigTable()
    ensures var es := EntriesOf([BigPut()]);
      Addressable(es) && PlusPos(es, Hash([]) % NUM_TABLES) == 0x1_0000_0000 && Probed(es, Hash([]) % NUM_TABLES)
  {
    var es, t := EntriesOf([BigPut()]), Hash([]) % NUM_TABLES;
    var e := Entry(BigPut().key, BigPut().val, true);
    assert es == [e] && es[..0] == [] && es[1..] == [];
    TotalOne(e);
    CountSplit(es, t, BEGIN);
    CountNone(t, BEGIN + Size(e));
  }

  /** A table that starts at 2^32 is referred to as one that does not exist: the record is counted, but not found. */
  method TableLost() returns (size: nat, r: Option<seq<byte>>)
    ensures FirstPut([BigPut()], []) == Some(BigPut().val)
    ensures size == 1 && r == None
  {
    BigTable();
    size, r := BuildAndGet([BigPut()], []);
  }
}
