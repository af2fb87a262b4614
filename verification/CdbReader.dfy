/** The readers of tinycdb: cdb_find and cdb_findnext over the memory image, cdb_seek over the file. */
module CdbReader {
  import opened Bytes
  import opened Seqs
  import opened ProbeTable
  import opened Records
  import opened Layout

  /** Whatever lies at `pos`, read as a table of `n` slots. */
  function ReadTable(image: seq<byte>, pos: nat, n: nat): (tab: seq<Slot>)
    requires pos + 8 * n <= |image|
    ensures |tab| == n
  {
    seq(n, i requires 0 <= i < n => Slot(Word(image, pos + 8 * i), Word(image, pos + 8 * i + 4)))
  }

  /** The values a complete probe for `key` finds in any image. */
  ghost function Probe(image: seq<byte>, pos: nat, n: nat, key: seq<byte>): seq<seq<byte>>
    requires 0 < n && pos + 8 * n <= |image|
  {
    Hits(image, Prefix(Rot(ReadTable(image, pos, n), Home(Hash(key), n))), key)
  }

  lemma {:induction false} ReadBack(image: seq<byte>, pos: nat, tab: seq<Slot>)
    requires TableAt(image, pos, tab)
    ensures pos + 8 * |tab| <= |image| && ReadTable(image, pos, |tab|) == tab
  {
    TableWithin(image, pos, tab);
    forall i | 0 <= i < |tab| ensures ReadTable(image, pos, |tab|)[i] == tab[i] {
      TableSlot(image, pos, tab, i);
    }
  }

  /** In a finished file a probe finds exactly the values stored under the key, oldest first. */
  lemma ProbeFindsVals(image: seq<byte>, es: seq<Entry>, key: seq<byte>)
    requires Finished(image, es)
    ensures var t := Hash(key) % 256;
      && TableSize(es, t) == 0 ==> Vals(es, key) == []
    ensures var t := Hash(key) % 256;
      0 < TableSize(es, t) ==>
        && TablePos(es, t) + 8 * TableSize(es, t) <= |image|
        && Probe(image, TablePos(es, t), TableSize(es, t), key) == Vals(es, key)
        && ReadTable(image, TablePos(es, t), TableSize(es, t)) == Table(es, t)
  {
    hide Build, Finds, Prefix, Rot, Holds, TableAt;
    var h := Hash(key);
    var t := h % 256;
    var list := Index(es, t, DATA_START);
    HitsAreVals(image, es, DATA_START, key);
    if list != [] {
      ReadBack(image, TablePos(es, t), Table(es, t));
      IndexAscending(es, t, DATA_START);
      BuildFinds(list, 2 * |list|, |list|, h);
      assert list[..|list|] == list;
      SameHits(image, Table(es, t), list, key);
    }
  }

  lemma SameHits(image: seq<byte>, tab: seq<Slot>, list: seq<Slot>, key: seq<byte>)
    requires 0 < |tab| && Finds(tab, list, Hash(key))
    ensures Hits(image, Prefix(Rot(tab, Home(Hash(key), |tab|))), key) == Hits(image, list, key)
  {
    hide Prefix, Rot, Hits, OfHash;
    HitsOfHash(image, list, key);
    HitsOfHash(image, Prefix(Rot(tab, Home(Hash(key), |tab|))), key);
  }

  /** One step of a probe: the slot seen is the next of the run, or ends it. */
  lemma ScanStep(image: seq<byte>, tab: seq<Slot>, home: nat, d: nat, run: seq<Slot>, key: seq<byte>)
    requires home < |tab| && d < |tab| && run == Prefix(Rot(tab, home)) && d <= |run|
    ensures tab[Wrap(home, d, |tab|)].rpos != 0 ==>
              && d < |run|
              && Hits(image, run[d..], key)
                  == OwnHit(image, tab[Wrap(home, d, |tab|)], key) + Hits(image, run[d + 1..], key)
    ensures tab[Wrap(home, d, |tab|)].rpos == 0 ==> Hits(image, run[d..], key) == []
  {
    hide OwnHit, Prefix, Rot;
    RunAt(tab, home, d, run);
    if d < |run| {
      ConsTail(tab[Wrap(home, d, |tab|)], run[d + 1..]);
    }
  }

  lemma ScanEnd(image: seq<byte>, run: seq<Slot>, n: nat, key: seq<byte>)
    requires |run| <= n
    ensures n <= |run| ==> Hits(image, run[n..], key) == []
  {
  }

  lemma {:induction false} InBag(tab: seq<Slot>, i: nat)
    requires i < |tab| && tab[i].rpos != 0
    ensures tab[i] in Bag(tab)
  {
    if i > 0 {
      InBag(tab[1..], i - 1);
    }
  }

  lemma {:induction false} OfBag(tab: seq<Slot>, s: Slot) returns (i: nat)
    requires s in Bag(tab)
    ensures i < |tab| && tab[i] == s
  {
    if tab[0].rpos != 0 && tab[0] == s {
      i := 0;
    } else {
      i := OfBag(tab[1..], s);
      i := i + 1;
    }
  }

  /** Every slot in use of a finished table points at the header of a record of the data section. */
  lemma RecordOf(image: seq<byte>, es: seq<Entry>, t: nat, i: nat) returns (e: Entry)
    requires t < TABLES && Finished(image, es) && i < |Table(es, t)| && Table(es, t)[i].rpos != 0
    ensures Written(image, e, Table(es, t)[i].rpos)
    ensures Table(es, t)[i].rpos + Size(e) <= DATA_START + Total(es)
  {
    hide Build, Bag, Index, TableAt, Holds, Written;
    var list := Index(es, t, DATA_START);
    IndexAscending(es, t, DATA_START);
    BuildBag(list, 2 * |list|, |list|);
    assert list[..|list|] == list;
    InBag(Table(es, t), i);
    var k := OfBag(list, Table(es, t)[i]);
    var a, c;
    a, e, c := SplitAt(es, t, DATA_START, k);
    HoldsParts(image, a, e, c, DATA_START, DATA_START + Total(a));
    JoinSums(a, e, c);
  }

  // What the readers map of a file, and what they check of a bucket.

  function Mapped(data: seq<byte>): seq<byte> {
    if |data| < U32_MAX then data else data[..U32_MAX]
  }

  /** The end of the data section is where the first table begins, if that lies inside the file. */
  function DataEnd(mem: seq<byte>): nat
    requires DATA_START <= |mem|
  {
    var pos := Word(mem, 0);
    if pos < DATA_START then DATA_START else if pos >= |mem| then |mem| else pos
  }

  /** The checks of cdb_find and cdb_findinit on the table of bucket `t`. */
  ghost predicate Accepts(mem: seq<byte>, dend: nat, t: nat)
    requires DATA_START <= |mem| && t < TABLES
  {
    var pos, n := Word(mem, 8 * t), Word(mem, 8 * t + 4);
    n == 0 || (n <= |mem| / 8 && dend <= pos <= |mem| && 8 * n <= |mem| - pos)
  }

  class Cdb {
    var mem: seq<byte>
    var fsize: u32
    var dend: u32
    var vpos: u32
    var vlen: u32
    var kpos: u32
    var klen: u32

    constructor ()
    {
      mem, fsize, dend, vpos, vlen, kpos, klen := [], 0, 0, 0, 0, 0, 0;
    }

    ghost predicate Valid()
      reads this`mem, this`fsize, this`dend
    {
      |mem| == fsize && DATA_START <= dend <= fsize
    }

    /** The image is a finished database of `es` whose tables end within 32 bits. */
    ghost predicate Open(es: seq<Entry>)
      reads this`mem, this`fsize, this`dend
    {
      && Valid() && Finished(mem, es)
      && dend == DATA_START + Total(es)
      && TablePos(es, TABLES) <= fsize
    }

    /** cdb_init; `es` is what the file may be a finished database of. */
    method Init(data: seq<byte>, ghost es: seq<Entry>) returns (r: int)
      modifies this
      ensures r == if |data| < 2048 then -1 else 0
      ensures r == 0 ==> Valid() && mem == Mapped(data) && dend == DataEnd(mem)
      ensures r == 0 ==> vpos == 0 && vlen == 0 && kpos == 0 && klen == 0
      ensures r == 0 && Finished(data, es) && TablePos(es, TABLES) <= U32_MAX ==> Open(es)
    {
      hide Finished, TablePos, Total, Word;
      if |data| < DATA_START {
        return -1;
      }
      fsize := if |data| < U32_MAX then |data| else U32_MAX;
      mem := data[..fsize];
      vpos, vlen, kpos, klen := 0, 0, 0, 0;
      dend := Word(mem, 0);
      if dend < DATA_START {
        dend := DATA_START;
      } else if dend >= fsize {
        dend := fsize;
      }
      if Finished(data, es) && TablePos(es, TABLES) <= U32_MAX {
        FileEnd(data, es);
        FinishedWithin(data, es, fsize);
        FirstTable(mem, es);
        FirstPosOf(es);
      }
      return 0;
    }

    /** Is the record at `pos` one of `key`? The positions are checked against `limit` first. */
    method Examine(pos: u32, key: seq<byte>, limit: u32) returns (r: int)
      requires Valid() && 8 <= limit <= fsize && |key| <= U32_MAX
      requires |key| <= limit || (pos + 8 <= limit && Word(mem, pos) != |key|)
      modifies this`vpos, this`vlen, this`kpos, this`klen
      ensures r == 1 ==> RecordAt(mem, pos, key) && Located(key, ValAt(mem, pos, key), limit)
      ensures r == 0 ==> !RecordAt(mem, pos, key)
      ensures r == -1 || r == 0 || r == 1
      ensures IsRecord(mem, pos, limit) ==> r != -1
    {
      hide Reads;
      ReadsSlice(mem, pos + 8, key);
      if pos > limit - 8 {
        return -1;
      }
      if Word(mem, pos) == |key| {
        if Sub32(limit, |key|) < pos + 8 {
          return -1;
        }
        if key == mem[pos + 8..pos + 8 + |key|] {
          var n := Word(mem, pos + 4);
          if limit < n || limit - n < pos + 8 + |key| {
            return -1;
          }
          kpos := pos + 8;
          klen := |key|;
          vpos := pos + 8 + |key|;
          vlen := n;
          return 1;
        }
      }
      return 0;
    }

    /** The result fields describe a record of `key` that holds `val` and ends before `limit`. */
    ghost predicate Located(key: seq<byte>, val: seq<byte>, limit: nat)
      reads this
    {
      && klen == |key| && vpos == kpos + klen && vpos + vlen <= limit <= |mem|
      && mem[kpos..vpos] == key
      && mem[vpos..vpos + vlen] == val
    }

    /** What a reader of any valid image finds for `key`, in probe order. */
    ghost function Lookup(key: seq<byte>): seq<seq<byte>>
      requires Valid()
      reads this`mem, this`fsize, this`dend
    {
      var htp := 8 * (Hash(key) % 256);
      var pos, n := Word(mem, htp), Word(mem, htp + 4);
      if 0 < n && pos + 8 * n <= |mem| then Probe(mem, pos, n, key) else []
    }

    lemma LookupFindsVals(key: seq<byte>, es: seq<Entry>)
      requires Open(es)
      ensures Lookup(key) == Vals(es, key)
    {
      hide Probe, Finished, TablePos, TableSize;
      HeaderOf(mem, es, Hash(key) % 256);
      ProbeFindsVals(mem, es, key);
    }

    /** Every slot in use of the bucket of a key points at a record. */
    lemma OpenSlot(es: seq<Entry>, key: seq<byte>, i: nat)
      requires Open(es) && i < TableSize(es, Hash(key) % 256)
      ensures TablePos(es, Hash(key) % 256) + 8 * i + 8 <= |mem|
      ensures var pos := Word(mem, TablePos(es, Hash(key) % 256) + 8 * i + 4);
        pos != 0 ==> IsRecord(mem, pos, dend)
    {
      hide Finished, TablePos, TableSize, Word, IsRecord, Total;
      SlotGood(mem, es, key, i, dend);
    }

    /** What an open database says about the bucket of a key. */
    lemma OpenBucket(key: seq<byte>, es: seq<Entry>)
      requires Open(es)
      ensures var t := Hash(key) % 256;
        && Valid() && Lookup(key) == Vals(es, key) && Accepts(mem, dend, t)
        && Word(mem, 8 * t) == TablePos(es, t) && Word(mem, 8 * t + 4) == TableSize(es, t)
    {
      hide Finished, TablePos, TableSize, Total, Word, Probe, Vals;
      LookupFindsVals(key, es);
      HeaderOf(mem, es, Hash(key) % 256);
    }

    /** cdb_find. On a finished database of `es` it locates the oldest value of the key. */
    method Find(key: seq<byte>, ghost es: seq<Entry>) returns (r: int)
      requires Valid() && |key| <= U32_MAX
      modifies this`vpos, this`vlen, this`kpos, this`klen
      ensures r == -1 || r == 0 || r == 1
      ensures r == 1 ==> Lookup(key) != [] && Located(key, Lookup(key)[0], dend)
      ensures r == 0 && |key| < dend ==> Lookup(key) == []
      ensures |key| < dend && !Accepts(mem, dend, Hash(key) % 256) ==> r == -1
      ensures Open(es) ==> Lookup(key) == Vals(es, key) && r == if Vals(es, key) == [] then 0 else 1
    {
      hide Finished, Prefix, Rot, Hits, Vals, ReadTable, TablePos, TableSize, RecordAt, Probe, Located, Word, Total;
      if Open(es) {
        LookupFindsVals(key, es);
        HeaderOf(mem, es, Hash(key) % 256);
        KeyFits(es, key);
      }
      if |key| >= dend {
        return 0;
      }
      var hval := Hash(key);
      var htp := 8 * (hval % 256);
      var n := Word(mem, htp + 4);
      if n == 0 {
        return 0;
      }
      var httodo := Add32(8 * n, 0);
      var htab := Word(mem, htp);
      if n > fsize / 8 || htab < dend || htab > fsize || httodo > fsize - htab {
        return -1;
      }
      r := Scan(key, hval, htab, n, es);
    }

    /** The probe loop of cdb_find over the `n` slots at `htab`. */
    method Scan(key: seq<byte>, hval: u32, htab: u32, n: u32, ghost es: seq<Entry>) returns (r: int)
      requires Valid() && |key| < dend && hval == Hash(key) && 0 < n && htab + 8 * n <= fsize
      requires Open(es) ==> htab == TablePos(es, hval % 256) && n == TableSize(es, hval % 256)
      modifies this`vpos, this`vlen, this`kpos, this`klen
      ensures r == -1 || r == 0 || r == 1
      ensures r == 1 ==> Probe(mem, htab, n, key) != [] && Located(key, Probe(mem, htab, n, key)[0], dend)
      ensures r == 0 ==> Probe(mem, htab, n, key) == []
      ensures Open(es) ==> r != -1
    {
      hide Finished, Prefix, Rot, Hits, ReadTable, TablePos, TableSize, RecordAt, Total, Located, Written, Word;
      var httodo: nat := 8 * n;
      ghost var tab, home, d := ReadTable(mem, htab, n), Home(hval, n), 0;
      ghost var run := Prefix(Rot(tab, home));
      assert run[0..] == run;
      var htp := htab + 8 * (hval / 256 % n);
      while true
        invariant d < n && d <= |run| && httodo == 8 * (n - d) && htp == htab + 8 * Wrap(home, d, n)
        invariant Hits(mem, run[d..], key) == Hits(mem, run, key)
        decreases n - d
      {
        ghost var i := Wrap(home, d, n);
        SlotRead(mem, htab, n, i);
        ScanStep(mem, tab, home, d, run, key);
        var pos := Word(mem, htp + 4);
        if pos == 0 {
          return 0;
        }
        if Word(mem, htp) == hval {
          var found := Examine(pos, key, dend);
          if Open(es) {
            SlotGood(mem, es, key, i, dend);
          }
          if found != 0 {
            return found;
          }
        }
        httodo := httodo - 8;
        d := d + 1;
        if httodo == 0 {
          ScanEnd(mem, run, n, key);
          return 0;
        }
        htp := htp + 8;
        if htp >= htab + 8 * n {
          htp := htab;
        }
      }
    }
  }

  /** The state of an enumeration of all values of one key. */
  class CdbFind {
    const cdbp: Cdb
    var key: seq<byte>
    var hval: u32
    var htp: nat
    var htab: u32
    var htend: nat
    var httodo: nat
    /** The values still to come, and how far the probe got through how many slots. */
    ghost var rest: seq<seq<byte>>
    ghost var d: nat
    ghost var n: nat

    constructor (cdbp: Cdb)
      ensures this.cdbp == cdbp && httodo == 0
    {
      this.cdbp := cdbp;
      key, hval, htp, htab, htend, httodo := [], 0, 0, 0, 0, 0;
      rest, d, n := [], 0, 0;
    }

    ghost predicate Valid()
      reads this, cdbp`mem, cdbp`fsize, cdbp`dend
    {
      && cdbp.Valid() && |key| <= U32_MAX && hval == Hash(key)
      && (httodo == 0 ==> rest == [])
      && (httodo != 0 ==> InTable())
    }

    ghost predicate InTable()
      requires cdbp.Valid()
      reads this, cdbp`mem, cdbp`fsize, cdbp`dend
    {
      && d < n && htab + 8 * n <= cdbp.fsize && htend == htab + 8 * n
      && httodo == 8 * (n - d) && htp == htab + 8 * Wrap(Home(hval, n), d, n)
      && var run := Prefix(Rot(ReadTable(cdbp.mem, htab, n), Home(hval, n)));
      d <= |run| && rest == Hits(cdbp.mem, run[d..], key)
    }

    /** The probe, if any, goes through the bucket of an open database of `es`. */
    ghost predicate Over(es: seq<Entry>)
      reads this, cdbp`mem, cdbp`fsize, cdbp`dend
    {
      cdbp.Open(es) && (httodo != 0 ==> htab == TablePos(es, hval % 256) && n == TableSize(es, hval % 256))
    }

    /** cdb_findinit. On a finished database of `es` all values of the key are still to come. */
    method Init(key: seq<byte>, ghost es: seq<Entry>) returns (r: int)
      requires cdbp.Valid() && |key| <= U32_MAX
      modifies this
      ensures this.key == key && (r == -1 || r == 0 || r == 1)
      ensures r == -1 <==> !Accepts(cdbp.mem, cdbp.dend, Hash(key) % 256)
      ensures r != -1 ==> Valid() && rest == cdbp.Lookup(key)
      ensures r == 0 ==> rest == []
      ensures cdbp.Open(es) ==> r != -1 && rest == Vals(es, key) && Over(es)
    {
      hide Finished, Prefix, Rot, Hits, Vals, ReadTable, TablePos, TableSize, Word, Total, Probe, Add32, InTable, Hash,
           Cdb.Open, Accepts;
      if cdbp.Open(es) {
        cdbp.OpenBucket(key, es);
      }
      this.key := key;
      hval := Hash(key);
      htp := 8 * (hval % 256);
      var num := Word(cdbp.mem, htp + 4);
      httodo := Add32(8 * num, 0);
      var pos := Word(cdbp.mem, htp);
      Refusal(cdbp.mem, cdbp.dend, hval % 256, pos, num, httodo);
      rest, d, n := [], 0, num;
      if num == 0 {
        return 0;
      }
      if num > cdbp.fsize / 8 || pos < cdbp.dend || pos > cdbp.fsize || httodo > cdbp.fsize - pos {
        return -1;
      }
      Begin(pos, num);
      return 1;
    }

    /** Sets the probe to the home slot of the key in the `num` slots at `pos`. */
    method Begin(pos: u32, num: u32)
      requires cdbp.Valid() && |key| <= U32_MAX && hval == Hash(key) && httodo == 8 * num
      requires 0 < num && pos + 8 * num <= cdbp.fsize
      modifies this`htab, this`htend, this`htp, this`rest, this`d, this`n
      ensures Valid() && htab == pos && n == num && rest == Probe(cdbp.mem, pos, num, key)
    {
      hide Prefix, Rot, Hits, ReadTable;
      htab := pos;
      htend := htab + httodo;
      htp := htab + 8 * (hval / 256 % num);
      d, n := 0, num;
      rest := Probe(cdbp.mem, htab, n, key);
      FirstOfRun(Prefix(Rot(ReadTable(cdbp.mem, htab, n), Home(hval, n))));
    }

    /** The slot at hand, after which the probe moves on unless the slot is empty. */
    method Pass(ghost es: seq<Entry>) returns (hv: u32, pos: u32)
      requires Valid() && httodo != 0
      modifies this`htp, this`httodo, this`rest, this`d
      ensures Valid() && (pos == 0 ==> rest == old(rest) == [])
      ensures pos != 0 ==> httodo < old(httodo)
      ensures pos != 0 ==> old(rest) == OwnHit(cdbp.mem, Slot(hv, pos), key) + rest
      ensures old(Over(es)) ==> Over(es) && (pos != 0 ==> IsRecord(cdbp.mem, pos, cdbp.dend))
    {
      hide Finished, Prefix, Rot, Hits, ReadTable, TablePos, TableSize, Word, Total, Wrap, Home, OwnHit, IsRecord, Hash,
           Cdb.Open;
      ghost var home := Home(hval, n);
      ghost var run, i := Prefix(Rot(ReadTable(cdbp.mem, htab, n), home)), Wrap(home, d, n);
      SlotRead(cdbp.mem, htab, n, i);
      ScanStep(cdbp.mem, ReadTable(cdbp.mem, htab, n), home, d, run, key);
      ScanEnd(cdbp.mem, run, n, key);
      NextWrap(home, d, n);
      if Over(es) {
        cdbp.OpenSlot(es, key, i);
      }
      hv, pos := Word(cdbp.mem, htp), Word(cdbp.mem, htp + 4);
      if pos == 0 {
        return;
      }
      htp := htp + 8;
      if htp >= htend {
        htp := htab;
      }
      httodo := httodo - 8;
      d := d + 1;
      rest := Hits(cdbp.mem, run[d..], key);
    }

    /**
     * cdb_findnext: the next value of the key, and 0 once all were given. It never reports a
     * malformed file on a finished one.
     */
    method Next(ghost es: seq<Entry>) returns (r: int)
      requires Valid() && (|key| <= cdbp.fsize || Over(es))
      modifies this`htp, this`httodo, this`rest, this`d
      modifies cdbp`vpos, cdbp`vlen, cdbp`kpos, cdbp`klen
      ensures Valid() && (r == -1 || r == 0 || r == 1)
      ensures r == 0 ==> old(rest) == [] == rest
      ensures r == 1 ==> old(rest) != [] && rest == old(rest)[1..]
                         && cdbp.Located(key, old(rest)[0], cdbp.fsize)
      ensures old(Over(es)) ==> Over(es) && r == if old(rest) == [] then 0 else 1
    {
      hide Finished, InTable, RecordAt, IsRecord, Word, ValAt, Total;
      ghost var over := Over(es);
      while httodo != 0
        invariant Valid() && rest == old(rest)
        invariant over ==> Over(es)
        decreases httodo
      {
        var hv, pos := Pass(es);
        if pos == 0 {
          return 0;
        }
        if hv == hval {
          if over {
            ShortKey(cdbp.mem, pos, |key|, cdbp.dend);
          }
          r := cdbp.Examine(pos, key, cdbp.fsize);
          if r != 0 {
            return;
          }
        }
        assert [] + rest == rest;
      }
      return 0;
    }
  }

  lemma FirstOfRun(run: seq<Slot>)
    ensures run[0..] == run
  {
  }

  /** The checks in 32 bits are those of Accepts. */
  lemma Refusal(mem: seq<byte>, dend: nat, t: nat, pos: u32, num: u32, todo: u32)
    requires DATA_START <= dend <= |mem| <= U32_MAX && t < TABLES
    requires pos == Word(mem, 8 * t) && num == Word(mem, 8 * t + 4) && todo == Add32(8 * num, 0)
    ensures num == 0 ==> Accepts(mem, dend, t) && todo == 0
    ensures num > 0 ==>
              (Accepts(mem, dend, t) <==> !(num > |mem| / 8 || pos < dend || pos > |mem| || todo > |mem| - pos))
    ensures num > 0 && Accepts(mem, dend, t) ==> todo == 8 * num && pos + 8 * num <= |mem|
  {
    hide Word;
  }

  lemma NextWrap(a: nat, d: nat, n: nat)
    requires a < n && d < n
    ensures Wrap(a, d + 1, n) == if Wrap(a, d, n) + 1 == n then 0 else Wrap(a, d, n) + 1
  {
  }

  /** There is a record at `pos` that ends before `dend`. */
  ghost predicate IsRecord(image: seq<byte>, pos: nat, dend: nat) {
    exists e :: Written(image, e, pos) && pos + Size(e) <= dend
  }

  /** A record inside the data section has a key shorter than the section. */
  lemma ShortKey(image: seq<byte>, pos: nat, klen: nat, dend: nat)
    requires IsRecord(image, pos, dend)
    ensures pos + 8 <= |image| && (klen > dend ==> Word(image, pos) != klen)
    ensures pos + 8 <= dend
    ensures forall limit: nat :: dend <= limit ==> IsRecord(image, pos, limit)
  {
    var e :| Written(image, e, pos) && pos + Size(e) <= dend;
  }

  lemma SlotRead(image: seq<byte>, pos: nat, n: nat, i: nat)
    requires pos + 8 * n <= |image| && i < n
    ensures ReadTable(image, pos, n)[i] == Slot(Word(image, pos + 8 * i), Word(image, pos + 8 * i + 4))
  {
  }

  lemma PosBounds(es: seq<Entry>, t: nat)
    requires t < TABLES
    ensures DATA_START + Total(es) <= TablePos(es, t)
    ensures TablePos(es, t) + 8 * TableSize(es, t) <= TablePos(es, TABLES)
  {
    PosMonotone(es, 0, t);
    PosMonotone(es, t + 1, TABLES);
  }

  /** What the table of contents of an open database says about bucket `t`. */
  lemma HeaderOf(image: seq<byte>, es: seq<Entry>, t: nat)
    requires t < TABLES && Finished(image, es) && TablePos(es, TABLES) <= U32_MAX
    requires TablePos(es, TABLES) <= |image|
    ensures Word(image, 8 * t) == TablePos(es, t) && Word(image, 8 * t + 4) == TableSize(es, t)
    ensures DATA_START + Total(es) <= TablePos(es, t)
    ensures TablePos(es, t) + 8 * TableSize(es, t) <= |image|
  {
    hide Holds, TableAt, Word, TablePos, TableSize, Total;
    PosBounds(es, t);
    assert TocEntry(image, es, t);
  }

  lemma {:induction false} KeyFits(es: seq<Entry>, key: seq<byte>)
    ensures Vals(es, key) != [] ==> |key| + 8 <= Total(es)
  {
    if es != [] {
      KeyFits(es[1..], key);
    }
  }

  /** An open database has a record behind every slot that a probe meets. */
  lemma SlotGood(image: seq<byte>, es: seq<Entry>, key: seq<byte>, i: nat, dend: nat)
    requires Finished(image, es) && TablePos(es, TABLES) <= |image| && TablePos(es, TABLES) <= U32_MAX
    requires dend == DATA_START + Total(es)
    requires i < TableSize(es, Hash(key) % 256)
    ensures TablePos(es, Hash(key) % 256) + 8 * i + 8 <= |image|
    ensures var pos := Word(image, TablePos(es, Hash(key) % 256) + 8 * i + 4);
      pos != 0 ==> IsRecord(image, pos, dend)
  {
    hide Finished, Written;
    var t := Hash(key) % 256;
    HeaderOf(image, es, t);
    ProbeFindsVals(image, es, key);
    SlotRead(image, TablePos(es, t), TableSize(es, t), i);
    if Table(es, t)[i].rpos != 0 {
      var e := RecordOf(image, es, t, i);
    }
  }

  lemma FirstTable(image: seq<byte>, es: seq<Entry>)
    requires Finished(image, es) && TablePos(es, TABLES) <= U32_MAX
    ensures Word(image, 0) == DATA_START + Total(es)
  {
    hide Holds, TableAt, Table, TableSize, Total, Word;
    PosMonotone(es, 0, TABLES);
    assert TocEntry(image, es, 0);
  }

  /** Cutting stale bytes behind the last table off a finished file leaves a finished file. */
  lemma FinishedWithin(data: seq<byte>, es: seq<Entry>, n: nat)
    requires Finished(data, es) && TablePos(es, TABLES) <= n <= |data|
    ensures Finished(data[..n], es)
  {
    hide Holds, Table, TableAt, Agree, Word, TablePos;
    var image := data[..n];
    FirstPosOf(es);
    AgreeEach(image, DATA_START, data, DATA_START, Total(es));
    HoldsMoved(data, image, es, DATA_START, DATA_START, Total(es));
    forall t | 0 <= t < TABLES ensures TableAt(image, TablePos(es, t), Table(es, t)) {
      EndsBefore(data, es, t);
      AgreeEach(image, TablePos(es, t), data, TablePos(es, t), 8 * |Table(es, t)|);
      TableMoved(data, image, TablePos(es, t), Table(es, t), 8 * |Table(es, t)|);
    }
    forall t | 0 <= t < TABLES ensures TocEntry(image, es, t) {
      assert TocEntry(data, es, t);
      AgreeEach(image, 8 * t, data, 8 * t, 4);
      AgreeEach(image, 8 * t + 4, data, 8 * t + 4, 4);
      WordMoved(image, 8 * t, data, 8 * t);
      WordMoved(image, 8 * t + 4, data, 8 * t + 4);
    }
  }

  lemma FileEnd(data: seq<byte>, es: seq<Entry>)
    requires Finished(data, es)
    ensures TablePos(es, TABLES) <= |data|
  {
    var t := TABLES - 1;
    TableWithin(data, TablePos(es, t), Table(es, t));
    TableLength(es, t);
  }

  lemma FirstPosOf(es: seq<Entry>)
    ensures DATA_START + Total(es) <= TablePos(es, TABLES)
  {
    PosMonotone(es, 0, TABLES);
  }

  lemma EndsBefore(image: seq<byte>, es: seq<Entry>, t: nat)
    requires t < TABLES && TableAt(image, TablePos(es, t), Table(es, t))
    ensures TablePos(es, t) + 8 * |Table(es, t)| <= TablePos(es, TABLES)
  {
    PosMonotone(es, t + 1, TABLES);
    TableLength(es, t);
  }

  lemma TableLength(es: seq<Entry>, t: nat)
    ensures |Table(es, t)| == TableSize(es, t)
  {
  }
}
