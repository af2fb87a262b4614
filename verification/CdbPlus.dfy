/** CDB++: a second table format, written by a stream builder and read without a probe counter. */
module CdbPlus {
  import opened Bytes
  import opened Seqs
  import opened Files
  import opened ProbeTable
  import opened Records
  import opened Layout
  import HashTables

  const NUM_TABLES := 256
  const VERSION := 1
  const BYTEORDER_CHECK := 0x6244_5371

  /** The data section starts behind a header of 16 bytes and the references to the tables. */
  const BEGIN := 2064

  /** "CDB+". */
  const CHUNK: seq<byte> := [67, 68, 66, 43]

  // The format.

  function RecordBytes(e: Entry): (bytes: seq<byte>)
    ensures |bytes| == Size(e)
  {
    Pack(|e.key|) + (e.key + (Pack(|e.val|) + e.val))
  }

  lemma RecordIs(e: Entry)
    ensures RecordBytes(e) == Pack(|e.key|) + (e.key + (Pack(|e.val|) + e.val))
    ensures |RecordBytes(e)| == 8 + |e.key| + |e.val|
  {
  }

  function DataBytes(es: seq<Entry>): (bytes: seq<byte>)
    ensures |bytes| == Total(es)
  {
    if es == [] then [] else RecordBytes(es[0]) + DataBytes(es[1..])
  }

  function List(es: seq<Entry>, t: nat): seq<Slot> {
    Index(es, t, BEGIN)
  }

  function PlusTable(es: seq<Entry>, t: nat): (tab: seq<Slot>)
    ensures |tab| == 2 * |List(es, t)|
  {
    var list := List(es, t);
    if list == [] then [] else Build(list, 2 * |list|, |list|)
  }

  function PlusPos(es: seq<Entry>, t: nat): nat {
    BEGIN + Total(es) + 16 * Counted(es, t, BEGIN)
  }

  /** The reference to table `t`; a reference has the form of a slot. */
  function TableRef(es: seq<Entry>, t: nat): Slot {
    Slot(if List(es, t) == [] then 0 else PlusPos(es, t) % 0x1_0000_0000, 2 * |List(es, t)|)
  }

  function Refs(es: seq<Entry>, n: nat): (refs: seq<Slot>)
    ensures |refs| == n && forall t :: 0 <= t < n ==> refs[t] == TableRef(es, t)
  {
    seq(n, t requires 0 <= t < n => TableRef(es, t))
  }

  ghost predicate PlusFinished(image: seq<byte>, es: seq<Entry>) {
    && Addressable(es)
    && Reads(image, 0, CHUNK) && |image| == PlusPos(es, NUM_TABLES)
    && Word(image, 4) == |image| % 0x1_0000_0000 && Word(image, 8) == VERSION && Word(image, 12) == BYTEORDER_CHECK
    && TableAt(image, 16, Refs(es, NUM_TABLES))
    && Reads(image, BEGIN, DataBytes(es))
    && forall t :: 0 <= t < NUM_TABLES ==> TableAt(image, PlusPos(es, t), PlusTable(es, t))
  }

  /** Every record starts within 32 bits, and has sizes of 32 bits; the last one may end beyond. */
  ghost predicate Addressable(es: seq<Entry>) {
    && (forall i :: 0 <= i < |es| ==> Sized(es[i]))
    && (es != [] ==> BEGIN + Total(es[..|es| - 1]) <= U32_MAX)
  }

  predicate Sized(e: Entry) {
    |e.key| <= U32_MAX && |e.val| <= U32_MAX
  }

  lemma AddressableOne(es: seq<Entry>, e: Entry)
    requires Addressable(es)
    ensures Addressable(es + [e]) <==> Sized(e) && BEGIN + Total(es) <= U32_MAX
  {
    assert (es + [e])[..|es|] == es && (es + [e])[|es|] == e;
  }

  ghost predicate AllLive(es: seq<Entry>) {
    forall i :: 0 <= i < |es| ==> es[i].live
  }

  lemma {:induction false} LiveAll(es: seq<Entry>)
    requires AllLive(es)
    ensures Live(es) == |es|
  {
    if es != [] {
      LiveAll(es[1..]);
    }
  }

  lemma {:induction false} DataConcat(a: seq<Entry>, b: seq<Entry>)
    ensures DataBytes(a + b) == DataBytes(a) + DataBytes(b)
  {
    hide RecordBytes;
    if a == [] {
      assert a + b == b;
    } else {
      ConcatTail(a, b);
      DataConcat(a[1..], b);
      Assoc(RecordBytes(a[0]), DataBytes(a[1..]), DataBytes(b));
    }
  }

  lemma DataOne(es: seq<Entry>, e: Entry)
    ensures DataBytes(es + [e]) == DataBytes(es) + RecordBytes(e)
  {
    hide RecordBytes;
    DataConcat(es, [e]);
    assert DataBytes([e]) == RecordBytes(e) + [] == RecordBytes(e);
  }

  lemma {:induction false} TableConcat(a: seq<Slot>, b: seq<Slot>)
    ensures TableBytes(a + b) == TableBytes(a) + TableBytes(b)
  {
    hide SlotBytes;
    if a == [] {
      assert a + b == b;
    } else {
      ConcatTail(a, b);
      TableConcat(a[1..], b);
      Assoc(SlotBytes(a[0]), TableBytes(a[1..]), TableBytes(b));
    }
  }

  lemma TableOne(a: seq<Slot>, s: Slot)
    ensures TableBytes(a + [s]) == TableBytes(a) + SlotBytes(s)
  {
    hide SlotBytes;
    TableConcat(a, [s]);
    assert TableBytes([s]) == SlotBytes(s) + [] == SlotBytes(s);
  }

  /** A stream with the data section and the first `t` tables. */
  ghost predicate PlusPartial(stream: seq<byte>, es: seq<Entry>, t: nat) {
    && |stream| == PlusPos(es, t)
    && Reads(stream, BEGIN, DataBytes(es))
    && forall u :: 0 <= u < t ==> TableAt(stream, PlusPos(es, u), PlusTable(es, u))
  }

  lemma ListFits(es: seq<Entry>, t: nat)
    requires Addressable(es)
    ensures forall i :: 0 <= i < |List(es, t)| ==> List(es, t)[i].rpos <= U32_MAX
  {
    if es != [] {
      var most, last := es[..|es| - 1], es[|es| - 1];
      assert es == most + [last];
      IndexConcat(most, [last], t, BEGIN);
      IndexAscending(most, t, BEGIN);
      OneListed(last, t, BEGIN + Total(most));
    }
  }

  lemma OneListed(e: Entry, t: nat, off: nat)
    ensures Index([e], t, off) == OwnSlot(e, t, off)
  {
    assert [e][1..] == [] && OwnSlot(e, t, off) + [] == OwnSlot(e, t, off);
  }

  lemma PlusFits(es: seq<Entry>, t: nat)
    requires Addressable(es)
    ensures forall i :: 0 <= i < |PlusTable(es, t)| ==> PlusTable(es, t)[i].rpos <= U32_MAX
    ensures Occupied(List(es, t))
  {
    hide Build;
    ListFits(es, t);
    IndexAscending(es, t, BEGIN);
    var list := List(es, t);
    if list != [] {
      BuildFits(list, 2 * |list|, |list|, U32_MAX);
    }
  }

  lemma PlusNext(stream: seq<byte>, es: seq<Entry>, t: nat)
    requires PlusPartial(stream, es, t) && Addressable(es)
    ensures PlusPartial(stream + TableBytes(PlusTable(es, t)), es, t + 1)
  {
    hide PlusTable, TableAt, TableBytes, Agree, Reads, DataBytes;
    var bytes, pos := TableBytes(PlusTable(es, t)), PlusPos(es, t);
    var stream' := stream + bytes;
    ReadsGrown(stream, bytes, BEGIN, DataBytes(es));
    PlusFits(es, t);
    ReadsEnd(stream, bytes);
    TableRead(stream', pos, PlusTable(es, t));
    forall u | 0 <= u < t ensures TableAt(stream', PlusPos(es, u), PlusTable(es, u)) {
      TableWithin(stream, PlusPos(es, u), PlusTable(es, u));
      AgreePrefix(stream, bytes, PlusPos(es, u), 8 * |PlusTable(es, u)|);
      TableMoved(stream, stream', PlusPos(es, u), PlusTable(es, u), 8 * |PlusTable(es, u)|);
    }
  }

  /** The sixteen bytes in front of the references. */
  function Head(size: nat): (h: seq<byte>)
    ensures |h| == 16
  {
    CHUNK + Pack(size) + Pack(VERSION) + Pack(BYTEORDER_CHECK)
  }

  lemma HeadRead(image: seq<byte>, size: nat)
    requires Reads(image, 0, Head(size))
    ensures Reads(image, 0, CHUNK) && |image| >= 16
    ensures Word(image, 4) == size % 0x1_0000_0000 && Word(image, 8) == VERSION && Word(image, 12) == BYTEORDER_CHECK
  {
    hide Pack, Reads, Word;
    ReadsBoth(image, 0, CHUNK + Pack(size) + Pack(VERSION), Pack(BYTEORDER_CHECK));
    ReadsBoth(image, 0, CHUNK + Pack(size), Pack(VERSION));
    ReadsBoth(image, 0, CHUNK, Pack(size));
    ReadsSlice(image, 12, Pack(BYTEORDER_CHECK));
    WordPacked(image, 4, size);
    WordPacked(image, 8, VERSION);
    WordPacked(image, 12, BYTEORDER_CHECK);
  }

  lemma {:induction false} FewListed(es: seq<Entry>, t: nat, off: nat)
    ensures |Index(es, t, off)| <= |es|
  {
    if es != [] {
      FewListed(es[1..], t, off + Size(es[0]));
    }
  }

  /** The sizes of the tables fit in 32 bits, since a record takes eight bytes and more. */
  lemma RefsFit(es: seq<Entry>)
    requires Addressable(es)
    ensures forall t :: 0 <= t < NUM_TABLES ==> Refs(es, NUM_TABLES)[t].rpos <= U32_MAX
  {
    if es != [] {
      Sizes(es[..|es| - 1]);
    }
    forall t | 0 <= t < NUM_TABLES ensures 2 * |List(es, t)| <= U32_MAX {
      FewListed(es, t, BEGIN);
    }
  }

  /** The header in front of the stream completes the file. */
  lemma PlusComplete(stream: seq<byte>, image: seq<byte>, es: seq<Entry>)
    requires PlusPartial(stream, es, NUM_TABLES) && Addressable(es)
    requires image == Head(|stream|) + TableBytes(Refs(es, NUM_TABLES)) + stream[BEGIN..]
    ensures PlusFinished(image, es)
  {
    hide PlusTable, TableAt, TableBytes, Agree, Reads, DataBytes, Head, Word, PlusPos, Addressable;
    var head, refs := Head(|stream|), TableBytes(Refs(es, NUM_TABLES));
    PosIsBehind(es, NUM_TABLES);
    ReadsEnd([], head);
    assert [] + head == head;
    ReadsGrown(head, refs, 0, head);
    ReadsGrown(head + refs, stream[BEGIN..], 0, head);
    HeadRead(image, |stream|);
    ReadsEnd(head, refs);
    ReadsGrown(head + refs, stream[BEGIN..], 16, refs);
    RefsFit(es);
    TableRead(image, 16, Refs(es, NUM_TABLES));
    BodyKept(stream, head + refs, image);
    AgreePart(image, BEGIN, stream, BEGIN, |stream| - BEGIN, 0, Total(es));
    DataKept(stream, image, es);
    forall t | 0 <= t < NUM_TABLES ensures TableAt(image, PlusPos(es, t), PlusTable(es, t)) {
      PosIsBehind(es, t);
      TableWithin(stream, PlusPos(es, t), PlusTable(es, t));
      AgreePart(image, BEGIN, stream, BEGIN, |stream| - BEGIN, PlusPos(es, t) - BEGIN, 8 * |PlusTable(es, t)|);
      TableMoved(stream, image, PlusPos(es, t), PlusTable(es, t), 8 * |PlusTable(es, t)|);
    }
  }

  lemma PosIsBehind(es: seq<Entry>, t: nat)
    ensures PlusPos(es, t) >= BEGIN + Total(es)
  {
  }

  lemma BodyKept(stream: seq<byte>, front: seq<byte>, image: seq<byte>)
    requires |front| == BEGIN <= |stream| && image == front + stream[BEGIN..]
    ensures |image| == |stream| && Agree(image, BEGIN, stream, BEGIN, |stream| - BEGIN)
  {
    AgreeSame(image, stream, BEGIN, |stream| - BEGIN);
  }

  lemma DataKept(stream: seq<byte>, image: seq<byte>, es: seq<Entry>)
    requires Reads(stream, BEGIN, DataBytes(es)) && Agree(image, BEGIN, stream, BEGIN, Total(es))
    ensures Reads(image, BEGIN, DataBytes(es))
  {
    AgreeTrans(image, BEGIN, stream, BEGIN, DataBytes(es), 0, Total(es));
  }

  // The builder.

  lemma AppendWrite(data: seq<byte>, bytes: seq<byte>)
    ensures Overwrite(data, |data|, bytes) == data + bytes
  {
  }

  lemma HeadWrite(head: seq<byte>, data: seq<byte>, bytes: seq<byte>)
    requires |head| + |bytes| <= |data|
    ensures Overwrite(head + data[|head|..], |head|, bytes) == head + bytes + data[|head| + |bytes|..]
  {
  }

  /** Puts one slot in the first vacant element from its home on. */
  method PlaceIn(dst: array<Slot>, s: Slot, ghost tab: seq<Slot>)
    requires dst[..] == tab && 0 < |tab| && |Bag(tab)| < |tab|
    modifies dst
    ensures dst[..] == Place(tab, s)
  {
    hide Place, Prefix, Rot, Bag, FreeAt;
    var n := dst.Length;
    ghost var home := Home(s.hval, n);
    ProbeStops(tab, home);
    ghost var run := |Prefix(Rot(tab, home))|;
    var k := s.hval / 256 % n;
    ghost var d := 0;
    while dst[k].rpos != 0
      invariant d <= run && k == Wrap(home, d, n) && dst[..] == tab
      decreases run - d
    {
      HashTables.ProbeAt(tab, home, d, run);
      NextSlot(k, n);
      k := (k + 1) % n;
      d := d + 1;
    }
    HashTables.ProbeAt(tab, home, d, run);
    HashTables.PlacedAt(tab, s, home, k, run);
    dst[k] := s;
  }

  lemma NextSlot(k: nat, n: nat)
    requires k < n
    ensures (k + 1) % n == if k + 1 == n then 0 else k + 1
  {
  }

  class Builder {
    const os: File
    var cur: u32
    const ht: array<seq<Slot>>
    ghost var es: seq<Entry>

    ghost predicate Valid()
      reads this, os, ht
    {
      && ht.Length == NUM_TABLES && AllLive(es) && Addressable(es)
      && os.off == |os.data| == BEGIN + Total(es) && cur == |os.data| % 0x1_0000_0000
      && Reads(os.data, BEGIN, DataBytes(es))
      && forall t :: 0 <= t < NUM_TABLES ==> ht[t] == List(es, t)
    }

    /** Seeking behind the header of an empty file leaves a hole of zeros. */
    constructor (os: File)
      requires os.data == [] && os.off == 0
      modifies os
      ensures Valid() && es == [] && this.os == os && fresh(ht)
    {
      this.os, cur, ht, es := os, BEGIN, new seq<Slot>[NUM_TABLES](_ => []), [];
      new;
      AppendWrite([], seq(BEGIN, _ => 0));
      os.Write(seq(BEGIN, _ => 0));
    }

    /**
     * put. The offset of the record is listed in 32 bits: everything is as it should be if and only if the record
     * starts within them, and so do its sizes.
     */
    method Put(key: seq<byte>, val: seq<byte>)
      requires Valid()
      modifies this`cur, this`es, os, ht
      ensures es == old(es) + [Entry(key, val, true)]
      ensures os.data == old(os.data) + RecordBytes(Entry(key, val, true))
      ensures forall t :: 0 <= t < ht.Length ==>
                ht[t] == old(ht[t]) + if t == Hash(key) % NUM_TABLES then [Slot(Hash(key), old(cur))] else []
      ensures old(cur) == old(|os.data|) <==> old(|os.data|) <= U32_MAX
      ensures Valid() <==> old(|os.data|) <= U32_MAX && |key| <= U32_MAX && |val| <= U32_MAX
    {
      hide DataBytes, Index, Reads, Total, Addressable, RecordBytes, Add32;
      ghost var e, before := Entry(key, val, true), os.data;
      RecordIs(e);
      WriteAll(Pack(|key|), key, Pack(|val|), val);
      DataOne(es, e);
      ReadsGrown(before, RecordBytes(e), BEGIN, DataBytes(es));
      ReadsEnd(before, RecordBytes(e));
      ReadsJoined(os.data, BEGIN, DataBytes(es), RecordBytes(e));
      ListOne(es, e);
      var hv := Hash(key);
      ht[hv % NUM_TABLES] := ht[hv % NUM_TABLES] + [Slot(hv, cur)];
      WrapStep(|before|, 4 + |key| + 4 + |val|);
      cur := Add32(cur, 4 + |key| + 4 + |val|);
      TotalConcat(es, [e]);
      TotalOne(e);
      AddressableOne(es, e);
      es := es + [e];
    }

    method WriteAll(a: seq<byte>, b: seq<byte>, c: seq<byte>, d: seq<byte>)
      requires os.off == |os.data|
      modifies os
      ensures os.off == |os.data| && os.data == old(os.data) + (a + (b + (c + d)))
    {
      hide Pack, Overwrite;
      ghost var before := os.data;
      AppendWrite(os.data, a);
      os.Write(a);
      AppendWrite(os.data, b);
      os.Write(b);
      AppendWrite(os.data, c);
      os.Write(c);
      AppendWrite(os.data, d);
      os.Write(d);
      Assoc(before, a, b + (c + d));
      Assoc(before + a, b, c + d);
      Assoc(before + a + b, c, d);
    }

    /** One hash table, at the end of the stream. */
    method WriteTable(list: seq<Slot>)
      requires os.off == |os.data| && list != [] && Occupied(list)
      modifies os
      ensures os.off == |os.data|
      ensures os.data == old(os.data) + TableBytes(Build(list, 2 * |list|, |list|))
    {
      hide Build, Occupied, TableBytes;
      var n := |list| * 2;
      var dst := new Slot[n](_ => EMPTY);
      HashTables.BuildStart(list, n);
      assert dst[..] == NoSlots(n);
      for j := 0 to |list|
        invariant dst[..] == Build(list, n, j) && os.off == |os.data| && os.data == old(os.data)
      {
        BuildCounts(list, n, j);
        PlaceIn(dst, list[j], Build(list, n, j));
        HashTables.BuildNext(list, n, j);
      }
      WriteSlots(dst, Build(list, n, |list|));
    }

    method WriteSlots(dst: array<Slot>, ghost tab: seq<Slot>)
      requires os.off == |os.data| && dst[..] == tab
      modifies os
      ensures os.off == |os.data| && os.data == old(os.data) + TableBytes(tab)
    {
      hide TableBytes, Pack;
      ghost var data := os.data;
      NoTable();
      assert tab[..0] == [] && data + [] == data;
      for k := 0 to dst.Length
        invariant dst[..] == tab && os.off == |os.data|
        invariant os.data == data + TableBytes(tab[..k])
      {
        ghost var before := os.data;
        AppendWrite(os.data, Pack(dst[k].hval));
        os.Write(Pack(dst[k].hval));
        AppendWrite(os.data, Pack(dst[k].rpos));
        os.Write(Pack(dst[k].rpos));
        TableOne(tab[..k], tab[k]);
        assert tab[..k] + [tab[k]] == tab[..k + 1];
        Assoc(before, Pack(dst[k].hval), Pack(dst[k].rpos));
        Assoc(data, TableBytes(tab[..k]), SlotBytes(tab[k]));
      }
      assert tab[..dst.Length] == tab;
    }

    /** The tables, and then the header in front. */
    method Close()
      requires Valid()
      modifies this`cur, os
      ensures PlusFinished(os.data, es) && es == old(es)
    {
      hide Reads, DataBytes, TableBytes, Index, Build, PlusPartial, PlusFinished, Counted, List, Refs, Head,
           Addressable;
      assert cur == os.off % 0x1_0000_0000;  // the stream offset is always consistent
      ghost var data := os.data;
      FirstPartial(os.data, es);
      for i := 0 to NUM_TABLES
        invariant os.off == |os.data| && PlusPartial(os.data, es, i)
        invariant cur == (BEGIN + Total(es)) % 0x1_0000_0000 && Addressable(es)
        invariant forall t :: 0 <= t < NUM_TABLES ==> ht[t] == List(es, t)
      {
        PlusFits(es, i);
        PlusNext(os.data, es, i);
        NoTable();
        assert os.data + [] == os.data;
        if ht[i] != [] {
          WriteTable(ht[i]);
        }
      }
      PartialLength(os.data, es, NUM_TABLES);
      WriteHeader();
    }

    method WriteHeader()
      requires os.off == |os.data| && PlusPartial(os.data, es, NUM_TABLES) && Addressable(es)
      requires ht.Length == NUM_TABLES && cur == (BEGIN + Total(es)) % 0x1_0000_0000
      requires forall t :: 0 <= t < NUM_TABLES ==> ht[t] == List(es, t)
      modifies this`cur, os
      ensures PlusFinished(os.data, es) && es == old(es)
    {
      hide Reads, DataBytes, TableBytes, SlotBytes, Pack, Index, PlusPartial, PlusFinished, Counted, List, Head,
           PlusPos, TableRef, Addressable, Add32;
      ghost var data := os.data;
      PartialLength(data, es, NUM_TABLES);
      PosIsBehind(es, NUM_TABLES);
      var offset := os.off;
      os.Seek(0);
      WriteHead(offset);
      FirstRef(es);
      assert Head(|data|) + [] == Head(|data|);
      for i := 0 to NUM_TABLES
        invariant os.off == 16 + 8 * i && cur == PlusPos(es, i) % 0x1_0000_0000
        invariant os.data == Head(|data|) + TableBytes(Refs(es, i)) + data[16 + 8 * i..]
      {
        NextRef(es, i);
        var ref := if ht[i] == [] then 0 else cur;
        RefBytes(es, i, ref);
        WriteRef(ref, |ht[i]| * 2, Head(|data|) + TableBytes(Refs(es, i)), data);
        Assoc(Head(|data|), TableBytes(Refs(es, i)), SlotBytes(TableRef(es, i)));
        WrapStep(PlusPos(es, i), 4 * 2 * |ht[i]| * 2);
        cur := Add32(cur, 4 * 2 * |ht[i]| * 2);
      }
      PlusComplete(data, os.data, es);
      os.Seek(offset);
    }

    method WriteRef(ref: nat, num: nat, ghost front: seq<byte>, ghost data: seq<byte>)
      requires |front| + 8 <= |data| && os.off == |front| && os.data == front + data[|front|..]
      modifies os
      ensures os.off == |front| + 8 && os.data == front + (Pack(ref) + Pack(num)) + data[|front| + 8..]
    {
      hide Pack;
      HeadWrite(front, data, Pack(ref));
      os.Write(Pack(ref));
      HeadWrite(front + Pack(ref), data, Pack(num));
      os.Write(Pack(num));
      Assoc(front, Pack(ref), Pack(num));
    }

    method WriteHead(size: nat)
      requires os.off == 0 && 16 <= |os.data|
      modifies os
      ensures os.off == 16 && os.data == Head(size) + old(os.data)[16..]
    {
      ghost var data := os.data;
      HeadWrite([], data, CHUNK);
      assert [] + data[0..] == data && [] + CHUNK == CHUNK;
      os.Write(CHUNK);
      HeadWrite(CHUNK, data, Pack(size));
      os.Write(Pack(size));
      HeadWrite(CHUNK + Pack(size), data, Pack(VERSION));
      os.Write(Pack(VERSION));
      HeadWrite(CHUNK + Pack(size) + Pack(VERSION), data, Pack(BYTEORDER_CHECK));
      os.Write(Pack(BYTEORDER_CHECK));
    }
  }

  function ListWith(es: seq<Entry>, e: Entry, t: nat): seq<Slot> {
    List(es, t) + if Hash(e.key) % NUM_TABLES == t then [Slot(Hash(e.key), BEGIN + Total(es))] else []
  }

  lemma ListOne(es: seq<Entry>, e: Entry)
    requires e.live
    ensures forall t :: 0 <= t < NUM_TABLES ==> List(es + [e], t) == ListWith(es, e, t)
    ensures forall t :: 0 <= t < NUM_TABLES && Hash(e.key) % NUM_TABLES != t ==> ListWith(es, e, t) == List(es, t)
  {
    forall t | 0 <= t < NUM_TABLES ensures List(es + [e], t) == ListWith(es, e, t) {
      IndexConcat(es, [e], t, BEGIN);
      assert Index([e], t, BEGIN + Total(es)) == OwnSlot(e, t, BEGIN + Total(es)) + [];
    }
    assert forall t :: List(es, t) + [] == List(es, t);
  }

  lemma TotalOne(e: Entry)
    ensures Total([e]) == Size(e)
  {
  }

  lemma NoTable()
    ensures TableBytes([]) == []
  {
  }

  lemma FirstPartial(stream: seq<byte>, es: seq<Entry>)
    requires |stream| == BEGIN + Total(es) && Reads(stream, BEGIN, DataBytes(es))
    ensures PlusPartial(stream, es, 0)
  {
  }

  lemma PartialLength(stream: seq<byte>, es: seq<Entry>, t: nat)
    requires PlusPartial(stream, es, t)
    ensures |stream| == PlusPos(es, t)
  {
  }

  lemma FirstRef(es: seq<Entry>)
    ensures TableBytes(Refs(es, 0)) == [] && PlusPos(es, 0) == BEGIN + Total(es)
  {
  }

  lemma NextRef(es: seq<Entry>, i: nat)
    ensures Refs(es, i + 1) == Refs(es, i) + [TableRef(es, i)]
    ensures TableBytes(Refs(es, i + 1)) == TableBytes(Refs(es, i)) + SlotBytes(TableRef(es, i))
    ensures PlusPos(es, i + 1) == PlusPos(es, i) + 16 * |List(es, i)|
  {
    TableOne(Refs(es, i), TableRef(es, i));
  }

  lemma RefBytes(es: seq<Entry>, i: nat, ref: nat)
    requires ref == if List(es, i) == [] then 0 else PlusPos(es, i) % 0x1_0000_0000
    ensures SlotBytes(TableRef(es, i)) == Pack(ref) + Pack(|List(es, i)| * 2)
  {
    hide Pack, List, PlusPos;
  }
}
