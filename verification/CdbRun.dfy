/** Whole runs: databases built by calls of cdb_make_put, finished, and queried. */
module CdbRun {
  import opened Bytes
  import opened Files
  import opened Seqs
  import opened Records
  import opened Updates
  import opened Layout
  import opened CdbWriter
  import opened Deletion
  import opened CdbReader
  import CdbSeek

  /** The data section never leaves the 32 bits. */
  ghost predicate Roomy(calls: seq<Call>) {
    && (forall k :: 0 <= k <= |calls| ==> DATA_START + Total(Run(calls[..k]).es) <= U32_MAX)
    && (forall k :: 0 <= k < |calls| ==> |calls[k].key| <= U32_MAX && |calls[k].val| <= U32_MAX)
  }

  /** The calls of a program that fills a new database and finishes it. */
  method Build(fd: File, calls: seq<Call>) returns (rets: seq<int>, r: int, ghost es: seq<Entry>)
    requires fd.off == 0 && Roomy(calls)
    modifies fd
    ensures |rets| == |calls| && forall k :: 0 <= k < |calls| ==> rets[k] == Run(calls[..k + 1]).ret
    ensures es == Run(calls).es
    ensures r == 0 ==> Finished(fd.data, es)
    ensures r == if (U32_MAX - DATA_START - Total(es)) / 8 < Live(es) then -1 else 0
  {
    hide Finished, PutSpec, Holds, Index;
    var m := new CdbMake.Start(fd);
    rets := [];
    for k := 0 to |calls|
      invariant m.Valid() && m.fd == fd && fresh(m) && fresh(m.buf)
      invariant m.es == Run(calls[..k]).es && |rets| == k
      invariant forall i :: 0 <= i < k ==> rets[i] == Run(calls[..i + 1]).ret
    {
      assert calls[..k + 1][..k] == calls[..k];
      var ret := m.Put(calls[k].key, calls[k].val, calls[k].mode);
      rets := rets + [ret];
    }
    assert calls[..|calls|] == calls;
    es := m.es;
    r := m.Finish();
  }

  /** The loop of qmode in cdb.c over all values of a key. */
  method Query(data: seq<byte>, key: seq<byte>, ghost es: seq<Entry>) returns (values: seq<seq<byte>>)
    requires Finished(data, es) && TablePos(es, TABLES) <= U32_MAX && |key| <= U32_MAX
    ensures values == Vals(es, key)
  {
    hide Finished, Vals, TablePos;
    var c := new Cdb();
    AtLeastToc(data, es);
    var r := c.Init(data, es);
    var cf := new CdbFind(c);
    r := cf.Init(key, es);
    values := [];
    if r == 0 {
      return;
    }
    while true
      invariant cf.Valid() && cf.Over(es) && cf.cdbp == c && fresh(cf) && fresh(c)
      invariant values + cf.rest == Vals(es, key)
      decreases |cf.rest|
    {
      ghost var rest := cf.rest;
      r := cf.Next(es);
      if r <= 0 {
        assert values + [] == values;
        return;
      }
      MoveHead(values, rest);
      values := values + [c.mem[c.vpos..c.vpos + c.vlen]];
    }
  }

  lemma AtLeastToc(data: seq<byte>, es: seq<Entry>)
    requires Finished(data, es)
    ensures DATA_START <= |data|
  {
  }

  /**
   * From the calls to the answers: whatever modes were used, querying the finished database gives
   * the values that the calls were to leave under the key, oldest first.
   */
  method BuildAndQuery(calls: seq<Call>, key: seq<byte>) returns (values: seq<seq<byte>>)
    requires Roomy(calls) && |key| <= U32_MAX
    requires DATA_START + Total(Run(calls).es) + 16 * Live(Run(calls).es) <= U32_MAX
    ensures values == Expected(calls, key)
  {
    hide Finished, Vals, TablePos, Roomy, Expected, Total, Live;
    var fd := new File([]);
    ghost var es;
    var rets, r;
    rets, r, es := Build(fd, calls);
    TablesEnd(es);
    RunVals(calls, key);
    values := Query(fd.data, key, es);
  }

  /** The checks that cdb_find and cdb_findinit make before they probe bucket `t` of an opened file. */
  ghost predicate Accepted(data: seq<byte>, t: nat)
    requires DATA_START <= |data| && t < TABLES
  {
    Accepts(Mapped(data), DataEnd(Mapped(data)), t)
  }

  /**
   * The guard of cdb_make_finish counts 8 bytes per record, but cdb_find and cdb_findinit accept every bucket
   * of a finished database if and only if there was room for 16 bytes per record.
   */
  lemma FinishExact(data: seq<byte>, es: seq<Entry>)
    requires Finished(data, es) && DATA_START + Total(es) <= U32_MAX
    ensures (forall t :: 0 <= t < TABLES ==> Accepted(data, t))
       <==> DATA_START + Total(es) + 16 * Live(es) <= U32_MAX
  {
    hide Finished, TablePos, TableSize, Total, Live, Word, Accepted;
    TablesEnd(es);
    AtLeastToc(data, es);
    if TablePos(es, TABLES) <= U32_MAX {
      forall t | 0 <= t < TABLES ensures Accepted(data, t) {
        AcceptedWithin(data, es, t);
      }
    } else {
      FirstPos(es);
      var t := Beyond(es, TABLES);
      RefusedBeyond(data, es, t);
    }
  }

  lemma FirstPos(es: seq<Entry>)
    ensures TablePos(es, 0) == DATA_START + Total(es)
  {
  }

  /** What the table of contents says, seen through the mapped part of the file. */
  lemma MappedToc(data: seq<byte>, es: seq<Entry>, t: nat)
    requires t < TABLES && Finished(data, es)
    ensures DATA_START <= |Mapped(data)| && |Mapped(data)| <= |data|
    ensures Word(Mapped(data), 8 * t) == TablePos(es, t) % 0x1_0000_0000
    ensures Word(Mapped(data), 8 * t + 4) == TableSize(es, t) % 0x1_0000_0000
  {
    hide Holds, TableAt, TablePos, TableSize;
    assert TocEntry(data, es, t);
    assert forall k :: 0 <= k < DATA_START ==> Mapped(data)[k] == data[k];
  }

  lemma AcceptedWithin(data: seq<byte>, es: seq<Entry>, t: nat)
    requires t < TABLES && Finished(data, es) && TablePos(es, TABLES) <= U32_MAX
    ensures DATA_START <= |data| && Accepted(data, t)
  {
    hide Finished, TablePos, TableSize, Total, Word, Mapped, Accepted, Accepts, DataEnd;
    AtLeastToc(data, es);
    FileEnd(data, es);
    MappedToc(data, es, 0);
    MappedToc(data, es, t);
    MappedLength(data);
    FirstPos(es);
    PosBounds(es, t);
    PosBounds(es, 0);
    TableAccepted(Mapped(data), t, TablePos(es, 0), TablePos(es, t), TableSize(es, t));
    AcceptedIs(data, t);
  }

  lemma MappedLength(data: seq<byte>)
    ensures |Mapped(data)| == if |data| < U32_MAX then |data| else U32_MAX
  {
  }

  lemma AcceptedIs(data: seq<byte>, t: nat)
    requires DATA_START <= |data| && t < TABLES
    ensures DATA_START <= |Mapped(data)|
    ensures Accepted(data, t) <==> Accepts(Mapped(data), DataEnd(Mapped(data)), t)
  {
    hide Accepts, DataEnd;
  }

  /** A table inside the file, behind the first one. */
  lemma TableAccepted(mem: seq<byte>, t: nat, first: nat, pos: nat, n: nat)
    requires DATA_START <= |mem| && t < TABLES && first <= pos && pos + 8 * n <= |mem| <= U32_MAX
    requires DATA_START <= first && Word(mem, 0) == first % 0x1_0000_0000
    requires Word(mem, 8 * t) == pos % 0x1_0000_0000 && Word(mem, 8 * t + 4) == n % 0x1_0000_0000
    ensures Accepts(mem, DataEnd(mem), t)
  {
    hide Word;
    assert first % 0x1_0000_0000 == first && pos % 0x1_0000_0000 == pos && n % 0x1_0000_0000 == n;
  }

  /** The table in which the positions leave the 32 bits. */
  lemma {:induction false} Beyond(es: seq<Entry>, u: nat) returns (t: nat)
    requires TablePos(es, 0) <= U32_MAX < TablePos(es, u)
    ensures t < u && TablePos(es, t) <= U32_MAX < TablePos(es, t) + 8 * TableSize(es, t)
    decreases u
  {
    if TablePos(es, u - 1) > U32_MAX {
      t := Beyond(es, u - 1);
    } else {
      t := u - 1;
    }
  }

  /** A table that begins within 32 bits and ends beyond them is refused. */
  lemma RefusedBeyond(data: seq<byte>, es: seq<Entry>, t: nat)
    requires t < TABLES && Finished(data, es) && DATA_START + Total(es) <= U32_MAX
    requires TablePos(es, t) <= U32_MAX < TablePos(es, t) + 8 * TableSize(es, t)
    ensures DATA_START <= |data| && !Accepted(data, t)
  {
    hide Finished, TablePos, TableSize, Live, Total, Word;
    AtLeastToc(data, es);
    MappedToc(data, es, t);
    SizeBound(es, t);
    LiveBound(es);
    PosBounds(es, t);
    FileEnd(data, es);
  }

  /** A record that ends on the last byte below 2^32, and one more. */
  function WrapCalls(): seq<Call> {
    [Call(Add, [], seq(U32_MAX - 8 - DATA_START, _ => 0)), Call(Add, [], [])]
  }

  lemma Sums(a: Entry, b: Entry)
    ensures Total([]) == 0 && Total([a]) == Size(a) && Total([a, b]) == Size(a) + Size(b)
  {
    assert [a, b][1..] == [b] && [a][1..] == [] && [b][1..] == [];
    assert Total([b]) == Size(b);
  }

  lemma NothingRun()
    ensures Run([]).es == []
  {
  }

  lemma Prefixes<T>(x: T, y: T)
    ensures [x] == [] + [x] && [x, y] == [x] + [y]
    ensures [x][..0] == [] && [x][..1] == [x] && [x, y][..1] == [x] && [x, y][..2] == [x, y]
  {
  }

  lemma TwoAdded(first: Call, second: Call, a: Entry, b: Entry)
    requires first == Call(Add, a.key, a.val) && second == Call(Add, b.key, b.val) && a.live && b.live
    requires DATA_START + Size(a) <= U32_MAX && !Rejects(DATA_START + Size(a), |b.key|, |b.val|)
    ensures Run([first]).es == [a] && Run([first, second]) == Outcome([a, b], 0)
  {
    hide Total, Run, PutSpec, Size, Rejects;
    Sums(a, b);
    NothingRun();
    Prefixes(first, second);
    Prefixes(a, b);
    RunMore([], first);
    RunMore([first], second);
    PutFits([], Add, a.key, a.val) by { SizeIs(a); }
    AddUnguarded([a], b.key, b.val);
  }

  lemma SizeIs(e: Entry)
    ensures Size(e) == 8 + |e.key| + |e.val|
  {
  }

  /** The guard of _cdb_make_add wraps around and admits the second record, which ends beyond 2^32. */
  lemma GuardWraps()
    ensures Roomy(WrapCalls()[..1]) && !Roomy(WrapCalls()) && Run(WrapCalls()).ret == 0
  {
    var first, second := WrapCalls()[0], WrapCalls()[1];
    var a, b := Entry([], first.val, true), Entry([], [], true);
    assert WrapCalls() == [first, second] && |first.val| <= U32_MAX;
    assert Size(a) == U32_MAX - DATA_START && Size(b) == 8;
    TwoAdded(first, second, a, b);
    hide Run, Total, WrapCalls, Size;
    Sums(a, b);
    NothingRun();
    Prefixes(first, second);
  }

  lemma AddUnguarded(es: seq<Entry>, key: seq<byte>, val: seq<byte>)
    requires !Rejects(DATA_START + Total(es), |key|, |val|)
    ensures PutSpec(es, Add, key, val) == Outcome(es + [Entry(key, val, true)], 0)
  {
  }

  /** One record that leaves 8 bytes below 2^32, which is what the guard of cdb_make_finish asks for. */
  function WeakCalls(): seq<Call> {
    [Call(Add, [], WeakValue())]
  }

  function WeakValue(): seq<byte> {
    seq(U32_MAX - 16 - DATA_START, _ => 0)
  }

  /** The table of a single entry. */
  lemma OneTable(e: Entry)
    requires e.live
    ensures Total([e]) == Size(e) && Live([e]) == 1 && Vals([e], e.key) == [e.val]
    ensures TablePos([e], Hash(e.key) % 256) == DATA_START + Size(e) && TableSize([e], Hash(e.key) % 256) == 2
  {
    var t := Hash(e.key) % 256;
    assert [e][1..] == [];
    assert Total([e]) == Size(e) + Total([e][1..]);
    assert Index([e], t, DATA_START) == OwnSlot(e, t, DATA_START) + Index([e][1..], t, DATA_START + Size(e));
    CountSplit([e], t, DATA_START);
    CountNone(t, DATA_START + Size(e));
    PosCounted([e], t);
  }

  /** The table begins within 32 bits, and so do both of its slots, but it ends beyond them. */
  lemma WeakTable() returns (es: seq<Entry>)
    ensures Roomy(WeakCalls()) && es == Run(WeakCalls()).es && Vals(es, []) == [WeakValue()]
    ensures DATA_START + Total(es) == U32_MAX - 8 && Live(es) == 1
    ensures TablePos(es, Hash([]) % 256) == U32_MAX - 8 && TableSize(es, Hash([]) % 256) == 2
  {
    var e, call := Entry([], WeakValue(), true), Call(Add, [], WeakValue());
    es := [e];
    assert Size(e) == U32_MAX - 8 - DATA_START;
    hide TablePos, TableSize, Vals, Total, Run, PutSpec, WeakValue, Size;
    Sums(e, e);
    OneTable(e);
    NothingRun();
    Prefixes(call, call);
    Prefixes(e, e);
    PutFits([], Add, [], WeakValue());
    RunMore([], call);
  }

  /**
   * The guard is too weak: the program succeeds and the file opens, but cdb_find and cdb_findinit refuse the
   * bucket, while cdb_seek, which checks nothing, still finds the record.
   */
  method GuardTooWeak() returns (made: int, loaded: int, found: int, begun: int, sought: int, dlen: u32)
    ensures Roomy(WeakCalls()) && Expected(WeakCalls(), []) == [WeakValue()]
    ensures made == 0 && loaded == 0 && found == -1 && begun == -1
    ensures sought == 1 && dlen == |WeakValue()|
  {
    hide Finished, Vals, TablePos, TableSize, Roomy, Expected, Total, Live, Run, Accepts, WeakCalls, WeakValue;
    ghost var weak := WeakTable();
    RunVals(WeakCalls(), []);
    var fd := new File([]);
    ghost var es;
    var rets;
    rets, made, es := Build(fd, WeakCalls());
    var data := fd.data;
    AtLeastToc(data, es);
    RefusedBeyond(data, es, Hash([]) % 256);
    var c := new Cdb();
    loaded := c.Init(data, es);
    found := c.Find([], es);
    var cf := new CdbFind(c);
    begun := cf.Init([], es);
    sought, dlen := CdbSeek.Seek(fd, [], es);
  }
}
