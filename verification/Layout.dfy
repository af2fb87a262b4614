/** The finished file: table of contents, data section, hash tables. */
module Layout {
  import opened Bytes
  import opened Seqs
  import opened ProbeTable
  import opened Records

  const TABLES := 256

  /** Tables are twice as long as the number of records they index. */
  function TableSize(es: seq<Entry>, t: nat): nat {
    2 * |Index(es, t, DATA_START)|
  }

  /** Where table `t` starts; the sum is not cut to 32 bits here. */
  function TablePos(es: seq<Entry>, t: nat): nat {
    if t == 0 then DATA_START + Total(es) else TablePos(es, t - 1) + 8 * TableSize(es, t - 1)
  }

  function Table(es: seq<Entry>, t: nat): seq<Slot>
  {
    var list := Index(es, t, DATA_START);
    if list == [] then [] else Build(list, 2 * |list|, |list|)
  }

  function SlotBytes(s: Slot): (bytes: seq<byte>)
    ensures |bytes| == 8
  {
    Pack(s.hval) + Pack(s.rpos)
  }

  function TableBytes(tab: seq<Slot>): (bytes: seq<byte>)
    ensures |bytes| == 8 * |tab|
  {
    if tab == [] then [] else SlotBytes(tab[0]) + TableBytes(tab[1..])
  }

  ghost predicate SlotAt(image: seq<byte>, pos: nat, s: Slot) {
    pos + 8 <= |image| && Word(image, pos) == s.hval && Word(image, pos + 4) == s.rpos
  }

  ghost predicate TableAt(image: seq<byte>, pos: nat, tab: seq<Slot>)
    decreases |tab|
  {
    if tab == [] then pos <= |image| else SlotAt(image, pos, tab[0]) && TableAt(image, pos + 8, tab[1..])
  }

  /** The table of contents, in 32-bit words. */
  ghost predicate TocAt(image: seq<byte>, es: seq<Entry>) {
    && DATA_START <= |image|
    && forall t :: 0 <= t < TABLES ==> TocEntry(image, es, t)
  }

  ghost predicate TocEntry(image: seq<byte>, es: seq<Entry>, t: nat)
    requires t < TABLES && DATA_START <= |image|
  {
    && Word(image, 8 * t) == TablePos(es, t) % 0x1_0000_0000
    && Word(image, 8 * t + 4) == TableSize(es, t) % 0x1_0000_0000
  }

  /** What cdb_make_finish leaves; there may be stale bytes behind the last table. */
  ghost predicate Finished(image: seq<byte>, es: seq<Entry>) {
    && TocAt(image, es)
    && Holds(image, es, DATA_START)
    && forall t :: 0 <= t < TABLES ==> TableAt(image, TablePos(es, t), Table(es, t))
  }

  lemma {:induction false} TableWithin(image: seq<byte>, pos: nat, tab: seq<Slot>)
    requires TableAt(image, pos, tab)
    ensures pos + 8 * |tab| <= |image|
    decreases |tab|
  {
    if tab != [] {
      TableWithin(image, pos + 8, tab[1..]);
    }
  }

  lemma {:induction false} TableSlot(image: seq<byte>, pos: nat, tab: seq<Slot>, i: nat)
    requires TableAt(image, pos, tab) && i < |tab|
    ensures SlotAt(image, pos + 8 * i, tab[i])
    decreases |tab|
  {
    if i > 0 {
      TableSlot(image, pos + 8, tab[1..], i - 1);
    }
  }

  lemma {:induction false} TableMoved(image: seq<byte>, image': seq<byte>, pos: nat, tab: seq<Slot>, n: nat)
    requires TableAt(image, pos, tab) && n == 8 * |tab| && Agree(image', pos, image, pos, n)
    ensures TableAt(image', pos, tab)
    decreases |tab|
  {
    if tab != [] {
      AgreePart(image', pos, image, pos, n, 0, 4);
      AgreePart(image', pos, image, pos, n, 4, 4);
      AgreePart(image', pos, image, pos, n, 8, n - 8);
      WordMoved(image', pos, image, pos);
      WordMoved(image', pos + 4, image, pos + 4);
      TableMoved(image, image', pos + 8, tab[1..], n - 8);
    }
  }

  /** Reading back the bytes of a table, as long as its positions fit in 32 bits. */
  lemma {:induction false} TableRead(image: seq<byte>, pos: nat, tab: seq<Slot>)
    requires Reads(image, pos, TableBytes(tab))
    requires forall i :: 0 <= i < |tab| ==> tab[i].rpos <= U32_MAX
    ensures TableAt(image, pos, tab)
    decreases |tab|
  {
    if tab != [] {
      hide Pack, Reads, Agree, Word;
      var s := tab[0];
      ReadsBoth(image, pos, SlotBytes(s), TableBytes(tab[1..]));
      ReadsBoth(image, pos, Pack(s.hval), Pack(s.rpos));
      WordPacked(image, pos, s.hval);
      WordPacked(image, pos + 4, s.rpos);
      TableRead(image, pos + 8, tab[1..]);
    }
  }

  /** Nothing in a built table that was not in the list. */
  lemma {:induction false} BuildFits(list: seq<Slot>, n: nat, k: nat, hi: nat)
    requires 0 < n && k <= |list|
    requires forall i :: 0 <= i < |list| ==> list[i].rpos <= hi
    ensures forall i :: 0 <= i < n ==> Build(list, n, k)[i].rpos <= hi
    decreases k
  {
    if k > 0 {
      BuildFits(list, n, k - 1, hi);
    }
  }

  lemma TableFits(es: seq<Entry>, t: nat)
    requires DATA_START + Total(es) <= U32_MAX
    ensures forall i :: 0 <= i < |Table(es, t)| ==> Table(es, t)[i].rpos <= U32_MAX
    ensures |Table(es, t)| == TableSize(es, t)
  {
    hide Build;
    IndexAscending(es, t, DATA_START);
    var list := Index(es, t, DATA_START);
    if list != [] {
      BuildFits(list, 2 * |list|, |list|, U32_MAX);
    }
  }

  function Own(e: Entry, t: nat): nat {
    if e.live && Hash(e.key) % 256 < t then 1 else 0
  }

  /** The records of the first `t` buckets. */
  function Counted(es: seq<Entry>, t: nat, off: nat): nat {
    if t == 0 then 0 else Counted(es, t - 1, off) + |Index(es, t - 1, off)|
  }

  lemma {:induction false} CountSplit(es: seq<Entry>, t: nat, off: nat)
    requires es != []
    ensures Counted(es, t, off) == Own(es[0], t) + Counted(es[1..], t, off + Size(es[0]))
    decreases t
  {
    if t > 0 {
      CountSplit(es, t - 1, off);
      assert Index(es, t - 1, off) == OwnSlot(es[0], t - 1, off) + Index(es[1..], t - 1, off + Size(es[0]));
      hide Index;
    }
  }

  lemma {:induction false} CountedIsLive(es: seq<Entry>, off: nat)
    ensures Counted(es, TABLES, off) == Live(es)
    decreases |es|
  {
    if es == [] {
      CountNone(TABLES, off);
    } else {
      CountSplit(es, TABLES, off);
      CountedIsLive(es[1..], off + Size(es[0]));
    }
  }

  lemma {:induction false} CountNone(t: nat, off: nat)
    ensures Counted([], t, off) == 0
  {
    if t > 0 {
      CountNone(t - 1, off);
    }
  }

  lemma {:induction false} PosCounted(es: seq<Entry>, t: nat)
    ensures TablePos(es, t) == DATA_START + Total(es) + 16 * Counted(es, t, DATA_START)
  {
    if t > 0 {
      PosCounted(es, t - 1);
    }
  }

  /**
   * The record count is the sum of the bucket sizes, so the tables end 16 bytes per record behind
   * the data section.
   */
  lemma TablesEnd(es: seq<Entry>)
    ensures TablePos(es, TABLES) == DATA_START + Total(es) + 16 * Live(es)
  {
    PosCounted(es, TABLES);
    CountedIsLive(es, DATA_START);
  }

  lemma {:induction false} PosMonotone(es: seq<Entry>, t: nat, u: nat)
    requires t <= u
    ensures TablePos(es, t) <= TablePos(es, u)
    decreases u
  {
    if t < u {
      PosMonotone(es, t, u - 1);
    }
  }

  lemma {:induction false} CountedMonotone(es: seq<Entry>, t: nat, u: nat, off: nat)
    requires t <= u
    ensures Counted(es, t, off) <= Counted(es, u, off)
    decreases u
  {
    if t < u {
      CountedMonotone(es, t, u - 1, off);
    }
  }

  lemma SizeBound(es: seq<Entry>, t: nat)
    requires t < TABLES
    ensures TableSize(es, t) <= 2 * Live(es)
  {
    CountedMonotone(es, t + 1, TABLES, DATA_START);
    CountedIsLive(es, DATA_START);
  }

  /** A stream with the data section and the first `t` tables. */
  ghost predicate Partial(stream: seq<byte>, es: seq<Entry>, t: nat) {
    && |stream| == TablePos(es, t)
    && Holds(stream, es, DATA_START)
    && forall u :: 0 <= u < t ==> TableAt(stream, TablePos(es, u), Table(es, u))
  }

  lemma PartialStart(stream: seq<byte>, es: seq<Entry>)
    requires |stream| == DATA_START + Total(es) && Holds(stream, es, DATA_START)
    ensures Partial(stream, es, 0)
  {
  }

  /** Another table behind the stream leaves everything before it in place. */
  lemma PartialNext(stream: seq<byte>, es: seq<Entry>, t: nat)
    requires Partial(stream, es, t) && DATA_START + Total(es) <= U32_MAX
    ensures Partial(stream + TableBytes(Table(es, t)), es, t + 1)
  {
    hide Holds, Table, TableAt, TableBytes, Agree;
    var bytes, pos := TableBytes(Table(es, t)), TablePos(es, t);
    var stream' := stream + bytes;
    PosMonotone(es, 0, t);
    AgreePrefix(stream, bytes, DATA_START, Total(es));
    HoldsMoved(stream, stream', es, DATA_START, DATA_START, Total(es));
    TableFits(es, t);
    ReadsEnd(stream, bytes);
    TableRead(stream', pos, Table(es, t));
    forall u | 0 <= u < t ensures TableAt(stream', TablePos(es, u), Table(es, u)) {
      TableFits(es, u);
      TableWithin(stream, TablePos(es, u), Table(es, u));
      AgreePrefix(stream, bytes, TablePos(es, u), 8 * TableSize(es, u));
      TableMoved(stream, stream', TablePos(es, u), Table(es, u), 8 * TableSize(es, u));
    }
  }

  /** Overwriting the first bytes with the table of contents completes the file. */
  lemma FinishedFrom(stream: seq<byte>, image: seq<byte>, es: seq<Entry>)
    requires Partial(stream, es, TABLES) && |stream| <= |image| && TocAt(image, es)
    requires forall k :: DATA_START <= k < |stream| ==> image[k] == stream[k]
    requires DATA_START + Total(es) <= U32_MAX
    ensures Finished(image, es)
  {
    hide Holds, Table, TableAt, Agree;
    PosMonotone(es, 0, TABLES);
    AgreeEach(image, DATA_START, stream, DATA_START, Total(es));
    HoldsMoved(stream, image, es, DATA_START, DATA_START, Total(es));
    forall t | 0 <= t < TABLES ensures TableAt(image, TablePos(es, t), Table(es, t)) {
      PosMonotone(es, 0, t);
      TableFits(es, t);
      TableWithin(stream, TablePos(es, t), Table(es, t));
      AgreeEach(image, TablePos(es, t), stream, TablePos(es, t), 8 * TableSize(es, t));
      TableMoved(stream, image, TablePos(es, t), Table(es, t), 8 * TableSize(es, t));
    }
  }
}
