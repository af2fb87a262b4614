/** cdb_seek, the reader that works on the file itself and seeks only when it has to. */
module CdbSeek {
  import opened Bytes
  import opened Files
  import opened Seqs
  import opened ProbeTable
  import opened Records
  import opened Layout
  import opened CdbReader

  const RBUF_SIZE := 64

  function WordIn(bytes: array<byte>, at: nat): u32
    requires at + 4 <= bytes.Length
    reads bytes
  {
    Unpack([bytes[at], bytes[at + 1], bytes[at + 2], bytes[at + 3]])
  }

  /** cdb_bread: all of the next `n` bytes, or an error at the end of the file. */
  method BRead(fd: File, rbuf: array<byte>, n: nat) returns (r: int)
    requires n <= rbuf.Length
    modifies fd`off, rbuf
    ensures r == if old(fd.off) + n <= |fd.data| then 0 else -1
    ensures r == 0 ==> fd.off == old(fd.off) + n
    ensures r == 0 ==> forall k :: 0 <= k < n ==> rbuf[k] == fd.data[old(fd.off) + k]
  {
    if fd.off > |fd.data| {
      return -1;
    }
    ghost var at := fd.off;
    var got := fd.Read(rbuf, n);
    if got < n {
      return -1;
    }
    forall k | 0 <= k < n ensures rbuf[k] == fd.data[at + k] {
      assert rbuf[..n][k] == fd.data[at..at + n][k];
    }
    return 0;
  }

  /** The key comparison: 1 if the next bytes of the file are `key`, with the offset behind them. */
  method CompareKey(fd: File, rbuf: array<byte>, key: seq<byte>, ghost stored: seq<byte>) returns (r: int)
    requires rbuf.Length == RBUF_SIZE && |stored| == |key|
    requires Reads(fd.data, fd.off, stored)
    modifies fd`off, rbuf
    ensures r == if key == stored then 1 else 0
    ensures r == 1 ==> fd.off == old(fd.off) + |key|
  {
    var k := 0;
    ghost var start := fd.off;
    ReadsSlice(fd.data, start, stored);
    while true
      invariant k <= |key| && fd.off == start + k
      invariant key[..k] == stored[..k]
      decreases |key| - k
    {
      if k == |key| {
        assert key[..k] == key && stored[..k] == stored;
        return 1;
      }
      var c := Min(|key| - k, RBUF_SIZE);
      var got := BRead(fd, rbuf, c);
      forall i | 0 <= i < c ensures rbuf[i] == stored[k + i] {
        assert fd.data[start..start + |stored|][k + i] == stored[k + i];
      }
      assert rbuf[..c] == stored[k..k + c];
      if rbuf[..c] != key[k..k + c] {
        return 0;
      }
      assert key[..k + c] == key[..k] + key[k..k + c];
      assert stored[..k + c] == stored[..k] + stored[k..k + c];
      k := k + c;
    }
  }

  /** What BRead leaves in the buffer are the words of the file. */
  lemma WordsRead(rbuf: array<byte>, data: seq<byte>, at: nat)
    requires 8 <= rbuf.Length && at + 8 <= |data|
    requires forall k :: 0 <= k < 8 ==> rbuf[k] == data[at + k]
    ensures WordIn(rbuf, 0) == Word(data, at) && WordIn(rbuf, 4) == Word(data, at + 4)
  {
  }

  /** A record header, read through the buffer, and the key behind it. */
  method AtRecord(fd: File, rbuf: array<byte>, pos: u32, key: seq<byte>, ghost e: Entry)
    returns (r: int, dlen: u32)
    requires rbuf.Length == RBUF_SIZE && Written(fd.data, e, pos)
    modifies fd`off, rbuf
    ensures r == if key == e.key then 1 else 0
    ensures r == 1 ==> fd.off == pos + 8 + |key| && dlen == |e.val|
  {
    fd.Seek(pos);
    var got := BRead(fd, rbuf, 8);
    WordsRead(rbuf, fd.data, pos);
    r, dlen := 0, 0;
    if WordIn(rbuf, 0) == |key| {
      dlen := WordIn(rbuf, 4);
      r := CompareKey(fd, rbuf, key, e.key);
    }
  }

  /** Every slot of bucket `t` starts within 32 bits. */
  ghost predicate Reachable(es: seq<Entry>, t: nat) {
    TableSize(es, t) == 0 || TablePos(es, t) + 8 * (TableSize(es, t) - 1) <= U32_MAX
  }

  /** What the table of contents of a finished file says about a bucket whose slots can be reached. */
  lemma SeekHeader(data: seq<byte>, es: seq<Entry>, t: nat)
    requires t < TABLES && Finished(data, es) && Reachable(es, t)
    ensures 8 * t + 8 <= |data| && Word(data, 8 * t + 4) == TableSize(es, t)
    ensures TableSize(es, t) > 0 ==>
              Word(data, 8 * t) == TablePos(es, t) && TablePos(es, t) + 8 * TableSize(es, t) <= |data|
  {
    hide Holds, TableAt, Word, TablePos, TableSize, Total;
    PosBounds(es, t);
    assert TocEntry(data, es, t);
    FileEnd(data, es);
  }

  /** The outcome of a search: 1 with the offset at the first of the values and its length, or 0. */
  ghost predicate Found(data: seq<byte>, off: nat, vals: seq<seq<byte>>, r: int, dlen: u32) {
    && r == (if vals == [] then 0 else 1)
    && (r == 1 ==> Reads(data, off, vals[0]) && dlen == |vals[0]|)
  }

  /** cdb_seek: on a finished file, leaves the offset at the oldest value of the key. */
  method Seek(fd: File, key: seq<byte>, ghost es: seq<Entry>) returns (r: int, dlen: u32)
    requires Finished(fd.data, es) && Reachable(es, Hash(key) % 256)
    modifies fd`off
    ensures Found(fd.data, fd.off, Vals(es, key), r, dlen)
  {
    hide Finished, Prefix, Rot, Hits, Vals, ReadTable, TablePos, TableSize, Word, Total, Written,
         Table, Reads;
    ghost var data, t := fd.data, Hash(key) % 256;
    SeekHeader(data, es, t);
    ProbeFindsVals(data, es, key);
    dlen := 0;
    var rbuf := new byte[RBUF_SIZE];
    var hval := Hash(key);
    fd.Seek(8 * (hval % 256));
    var got := BRead(fd, rbuf, 8);
    WordsRead(rbuf, fd.data, 8 * t);
    var htsize := WordIn(rbuf, 4);
    if htsize == 0 {
      return 0, 0;
    }
    var htstart := WordIn(rbuf, 0);
    r, dlen := SeekFrom(fd, rbuf, key, hval, htstart, htsize, es);
  }

  /** One slot, read through the buffer; without a seek the offset must already be that of the slot. */
  method ReadSlot(fd: File, rbuf: array<byte>, at: nat, needseek: bool) returns (hv: u32, pos: u32)
    requires rbuf.Length == RBUF_SIZE && at + 8 <= |fd.data| && (!needseek ==> fd.off == at)
    modifies fd`off, rbuf
    ensures hv == Word(fd.data, at) && pos == Word(fd.data, at + 4) && fd.off == at + 8
  {
    hide Word;
    if needseek {
      fd.Seek(at);
    }
    var got := BRead(fd, rbuf, 8);
    WordsRead(rbuf, fd.data, at);
    return WordIn(rbuf, 0), WordIn(rbuf, 4);
  }

  /** What the slot `d` steps behind the home slot says about the values still to be found. */
  lemma AtSlot(data: seq<byte>, es: seq<Entry>, key: seq<byte>, home: nat, d: nat, run: seq<Slot>, at: nat)
    returns (e: Entry)
    requires Finished(data, es) && TableSize(es, Hash(key) % 256) > 0
    requires var t := Hash(key) % 256;
      && TablePos(es, t) + 8 * TableSize(es, t) <= |data|
      && ReadTable(data, TablePos(es, t), TableSize(es, t)) == Table(es, t)
      && home < TableSize(es, t) && d < TableSize(es, t) && d <= |run| && run == Prefix(Rot(Table(es, t), home))
      && at == TablePos(es, t) + 8 * Wrap(home, d, TableSize(es, t))
    ensures at + 8 <= |data|
    ensures Word(data, at + 4) == 0 ==> Hits(data, run[d..], key) == []
    ensures Word(data, at + 4) != 0 ==> d < |run|
    ensures Word(data, at + 4) != 0 && Word(data, at) != Hash(key) ==>
              Hits(data, run[d..], key) == Hits(data, run[d + 1..], key)
    ensures Word(data, at + 4) != 0 && Word(data, at) == Hash(key) ==>
              Written(data, e, Word(data, at + 4))
              && Hits(data, run[d..], key) == (if e.key == key then [e.val] else []) + Hits(data, run[d + 1..], key)
  {
    hide Finished, Prefix, Rot, Hits, ReadTable, TablePos, TableSize, Word, Table, Written, RecordAt, ValAt, Wrap;
    var t := Hash(key) % 256;
    var i := Wrap(home, d, TableSize(es, t));
    e := Entry([], [], true);
    SlotRead(data, TablePos(es, t), TableSize(es, t), i);
    ScanStep(data, Table(es, t), home, d, run, key);
    if Word(data, at + 4) != 0 {
      assert [] + Hits(data, run[d + 1..], key) == Hits(data, run[d + 1..], key);
      if Word(data, at) == Hash(key) {
        e := RecordOf(data, es, t, i);
        RecordIsEntry(data, e, Word(data, at + 4), key);
      }
    }
  }

  /**
   * The loop of cdb_seek. Whenever it does not seek, the offset is already that of the slot it
   * is about to read.
   */
  method SeekFrom(fd: File, rbuf: array<byte>, key: seq<byte>, hval: u32, htstart: u32, htsize: u32,
                  ghost es: seq<Entry>)
    returns (r: int, dlen: u32)
    requires rbuf.Length == RBUF_SIZE && hval == Hash(key)
    requires Finished(fd.data, es) && Reachable(es, hval % 256)
    requires 0 < htsize == TableSize(es, hval % 256) && htstart == TablePos(es, hval % 256)
    requires htstart + 8 * htsize <= |fd.data|
    requires Probe(fd.data, htstart, htsize, key) == Vals(es, key)
    requires ReadTable(fd.data, htstart, htsize) == Table(es, hval % 256)
    modifies fd`off, rbuf
    ensures Found(fd.data, fd.off, Vals(es, key), r, dlen)
  {
    hide Finished, Prefix, Rot, Hits, Vals, ReadTable, TablePos, TableSize, Word, Written, Table, Wrap, Home, Found,
         Hash, Reachable, Add32;
    ghost var data, home, d, vals := fd.data, Home(hval, htsize), 0, Vals(es, key);
    ghost var run := Prefix(Rot(Table(es, hval % 256), home));
    FirstOfRun(run);
    FirstStep(hval, htsize);
    var hti, httodo, needseek := hval / 256 % htsize, htsize, true;
    dlen := 0;
    while true
      invariant d < htsize && d <= |run| && httodo == htsize - d && hti == Wrap(home, d, htsize)
      invariant Hits(data, run[d..], key) == vals
      invariant !needseek ==> fd.off == htstart + 8 * hti
      decreases httodo
    {
      var at := Add32(htstart, 8 * hti);
      SlotStart(es, hval % 256, hti, at);
      ghost var e := AtSlot(data, es, key, home, d, run, at);
      ghost var rest := if d < |run| then Hits(data, run[d + 1..], key) else [];
      NextWrap(home, d, htsize);
      var hv, pos := ReadSlot(fd, rbuf, at, needseek);
      if pos == 0 {
        NothingFound(data, fd.off, vals);
        return 0, 0;
      }
      if hv != hval {
        needseek := false;
      } else {
        r, dlen := AtRecord(fd, rbuf, pos, key, e);
        if r == 1 {
          OneFound(data, e, pos, rest);
          return;
        }
        assert [] + rest == rest;
        needseek := true;
      }
      d := d + 1;
      httodo := httodo - 1;
      if httodo == 0 {
        ScanEnd(data, run, d, key);
        NothingFound(data, fd.off, vals);
        return 0, 0;
      }
      hti := hti + 1;
      if hti == htsize {
        hti := 0;
        needseek := true;
      }
    }
  }

  lemma SlotStart(es: seq<Entry>, t: nat, i: nat, at: u32)
    requires Reachable(es, t) && i < TableSize(es, t)
    requires at == Add32(TablePos(es, t), 8 * i)
    ensures at == TablePos(es, t) + 8 * i
  {
    hide TablePos, TableSize;
    assert 8 * i <= 8 * (TableSize(es, t) - 1);
  }

  lemma NothingFound(data: seq<byte>, off: nat, vals: seq<seq<byte>>)
    ensures vals == [] ==> Found(data, off, vals, 0, 0)
  {
  }

  lemma OneFound(data: seq<byte>, e: Entry, pos: nat, rest: seq<seq<byte>>)
    requires Written(data, e, pos) && |e.val| <= U32_MAX
    ensures Found(data, pos + 8 + |e.key|, [e.val] + rest, 1, |e.val|)
  {
  }

  lemma FirstStep(h: u32, n: nat)
    requires 0 < n
    ensures Home(h, n) == h / 256 % n == Wrap(Home(h, n), 0, n)
  {
  }
}
