/** The writer of tinycdb: a file behind a 4096-byte buffer, and the index kept in memory. */
module CdbWriter {
  import opened Bytes
  import opened Files
  import opened ProbeTable
  import opened Records
  import opened Updates
  import opened Chains
  import opened Deletion
  import opened Layout
  import opened HashTables
  import opened Seqs

  const BUF_SIZE := 4096

  class CdbMake {
    const fd: File
    const buf: array<byte>
    var bpos: nat
    var dpos: u32
    var rcnt: u32
    var recs: seq<Chain>
    /** What the data section holds, as entries. */
    ghost var es: seq<Entry>

    ghost predicate Buffered()
      reads this`bpos, fd
    {
      buf.Length == BUF_SIZE && bpos <= BUF_SIZE && fd.off <= |fd.data|
    }

    /** Everything written so far, on disk or in the buffer. */
    ghost function Stream(): seq<byte>
      requires Buffered()
      reads this`bpos, fd, buf
    {
      fd.data[..fd.off] + buf[..bpos]
    }

    ghost predicate Indexed()
      reads this
    {
      && |recs| == 256
      && (forall b :: 0 <= b < 256 ==> Flat(recs[b]) == Index(es, b, DATA_START))
      && (forall b, i :: 0 <= b < 256 && 0 <= i < |recs[b]| ==> |recs[b][i]| <= BLOCK_SIZE)
      && rcnt == Live(es)
      && dpos == DATA_START + Total(es)
    }

    ghost predicate Valid()
      reads this, fd, buf
    {
      && Buffered() && Indexed()
      && |Stream()| == dpos
      && Holds(Stream(), es, DATA_START)
    }

    /** The whole data section is on disk; the buffer is free for other uses. */
    ghost predicate OnDisk()
      reads this, fd
    {
      buf.Length == BUF_SIZE && bpos == 0 && Holds(fd.data, es, DATA_START)
    }

    constructor Start(fd: File)
      requires fd.off == 0
      ensures Valid() && es == [] && |Stream()| == 2048 && this.fd == fd && fresh(buf)
    {
      this.fd := fd;
      buf := new byte[BUF_SIZE](_ => 0);
      bpos := DATA_START;
      dpos := DATA_START;
      rcnt := 0;
      recs := seq(256, _ => []);
      es := [];
    }

    method Flush()
      requires Buffered()
      modifies this`bpos, fd
      ensures Buffered() && bpos == 0 && Stream() == old(Stream())
    {
      if bpos != 0 {
        fd.Write(buf[..bpos]);
        bpos := 0;
        assert fd.data[..fd.off] == old(Stream());
      }
    }

    method MemCpy(ptr: seq<byte>)
      requires Buffered() && bpos + |ptr| <= BUF_SIZE
      modifies this`bpos, buf
      ensures Buffered() && bpos == old(bpos) + |ptr| && Stream() == old(Stream()) + ptr
    {
      forall i | 0 <= i < |ptr| {
        buf[bpos + i] := ptr[i];
      }
      bpos := bpos + |ptr|;
    }

    /** _cdb_make_fullwrite, past the empty buffer. */
    method WriteThrough(ptr: seq<byte>)
      requires Buffered() && bpos == 0
      modifies fd
      ensures Buffered() && Stream() == old(Stream()) + ptr
    {
      fd.Write(ptr);
      assert fd.data[..fd.off] == old(fd.data[..fd.off]) + ptr;
    }

    /** _cdb_make_write: appends to the stream; the 32-bit position wraps. */
    method Write(data: seq<byte>)
      requires Buffered()
      modifies this`bpos, this`dpos, fd, buf
      ensures Buffered() && Stream() == old(Stream()) + data
      ensures dpos == Add32(old(dpos), |data|)
    {
      hide CdbMake.Stream, Add32;
      var done, l := 0, BUF_SIZE - bpos;
      dpos := Add32(dpos, |data|);
      assert data[..0] == [] && old(Stream()) + [] == old(Stream());
      if |data| > l {
        MemCpy(data[..l]);
        Flush();
        done := l;
        l := (|data| - done) / BUF_SIZE * BUF_SIZE;
        if l != 0 {
          WriteThrough(data[done..done + l]);
          Grown(old(Stream()), data, done, done + l);
          done := done + l;
        }
      }
      if done < |data| {
        MemCpy(data[done..]);
      }
      Grown(old(Stream()), data, done, |data|);
    }

    /** All entries are written, and the position is that of the stream in 32 bits. */
    ghost predicate InStream()
      reads this, fd, buf
    {
      && Buffered() && |Stream()| == DATA_START + Total(es) && Holds(Stream(), es, DATA_START)
      && InStep(Stream(), dpos)
    }

    /**
     * _cdb_make_add: appends a record and indexes it, unless the guard rejects it. The position is right
     * afterwards if and only if the data section still ends within 32 bits.
     */
    method AddRecord(hval: u32, key: seq<byte>, val: seq<byte>) returns (r: int)
      requires Valid() && hval == Hash(key) && |key| <= U32_MAX && |val| <= U32_MAX
      modifies this, fd, buf
      ensures r == if Rejects(old(dpos), |key|, |val|) then -1 else 0
      ensures es == if r < 0 then old(es) else old(es) + [Entry(key, val, true)]
      ensures InStream() && (Valid() <==> DATA_START + Total(es) <= U32_MAX)
    {
      hide Holds, Index, Flat, Total, Live, Hash, Rejects;
      if Rejects(dpos, |key|, |val|) {
        return -1;
      }
      ghost var e := Entry(key, val, true);
      var i := hval % 256;
      AppendSlot(i, Slot(hval, dpos));
      LiveBound(es);
      IndexGrow(es, e, i);
      rcnt := rcnt + 1;
      WriteRecord(key, val, e);
      return 0;
    }

    /** The three writes of _cdb_make_add. */
    method WriteRecord(key: seq<byte>, val: seq<byte>, ghost e: Entry)
      requires InStream() && |key| <= U32_MAX && |val| <= U32_MAX && e.key == key && e.val == val
      modifies this`bpos, this`dpos, this`es, fd, buf
      ensures InStream() && es == old(es) + [e]
      ensures Live(es) == Live(old(es)) + if e.live then 1 else 0
    {
      hide CdbMake.Stream, Holds, Pack, Total, Live, Add32, InStep;
      ghost var s0 := Stream();
      StaysInStep(s0, dpos, Pack(|key|) + Pack(|val|));
      Write(Pack(|key|) + Pack(|val|));
      ghost var s1 := Stream();
      StaysInStep(s1, dpos, key);
      Write(key);
      ghost var s2 := Stream();
      StaysInStep(s2, dpos, val);
      Write(val);
      RecordWritten(s0, s1, s2, Stream(), e);
      RecordKept(s0, Stream(), es, e);
      Sums(es, e);
      es := es + [e];
    }

    /** The newest block takes one more slot; a full one gets a new block in front of it. */
    method AppendSlot(i: nat, s: Slot)
      requires i < |recs| == 256
      requires forall b, k :: 0 <= b < 256 && 0 <= k < |recs[b]| ==> |recs[b][k]| <= BLOCK_SIZE
      modifies this`recs
      ensures |recs| == 256 && Flat(recs[i]) == Flat(old(recs)[i]) + [s]
      ensures forall b :: 0 <= b < 256 && b != i ==> recs[b] == old(recs)[b]
      ensures forall b, k :: 0 <= b < 256 && 0 <= k < |recs[b]| ==> |recs[b][k]| <= BLOCK_SIZE
    {
      var chain := recs[i];
      if chain == [] || |chain[0]| >= BLOCK_SIZE {
        chain := [[]] + chain;
        assert chain[1..] == recs[i];
      }
      Assoc(Flat(chain[1..]), chain[0], [s]);
      recs := recs[i := chain[0 := chain[0] + [s]]];
      assert recs[i][1..] == chain[1..];
    }

    /** The loop of fixup_rpos over one chain, newest slot first, up to the first one in front. */
    static method FixupChain(chain: Chain, rpos: u32, rlen: u32) returns (fixed: Chain)
      requires Ascending(Flat(chain), 0, U32_MAX + 1)
      ensures fixed == MovedChain(chain, rpos, rlen)
    {
      fixed := chain;
      var bi := 0;
      while bi < |chain|
        invariant 0 <= bi <= |chain| == |fixed|
        invariant forall i :: 0 <= i < bi ==> fixed[i] == MovedAll(chain[i], rpos, rlen)
        invariant forall i :: bi <= i < |chain| ==> fixed[i] == chain[i]
      {
        var block, ri := chain[bi], |chain[bi]|;
        while ri > 0
          invariant 0 <= ri <= |block| == |chain[bi]|
          invariant forall k :: ri <= k < |block| ==> block[k] == Moved(chain[bi][k], rpos, rlen)
          invariant forall k :: 0 <= k < ri ==> block[k] == chain[bi][k]
        {
          ri := ri - 1;
          if block[ri].rpos <= rpos {
            OlderBefore(chain, bi, ri, rpos, U32_MAX + 1);
            assert block == MovedAll(chain[bi], rpos, rlen);
            forall i | bi < i < |chain| ensures chain[i] == MovedAll(chain[i], rpos, rlen) {
              MovedBefore(chain[i], rpos, rlen);
            }
            return fixed[bi := block];
          }
          SlotFits(chain, bi, ri);
          block := block[ri := Slot(block[ri].hval, Sub32(block[ri].rpos, rlen))];
        }
        fixed := fixed[bi := block];
        bi := bi + 1;
      }
    }

    /** fixup_rpos. */
    method FixupRpos(rpos: u32, rlen: u32)
      requires |recs| == 256
      requires forall b :: 0 <= b < 256 ==> Ascending(Flat(recs[b]), 0, U32_MAX + 1)
      modifies this`recs
      ensures |recs| == 256
      ensures forall b :: 0 <= b < 256 ==> recs[b] == MovedChain(old(recs)[b], rpos, rlen)
    {
      for i := 0 to 256
        invariant |recs| == 256
        invariant forall b :: 0 <= b < i ==> recs[b] == MovedChain(old(recs)[b], rpos, rlen)
        invariant forall b :: i <= b < 256 ==> recs[b] == old(recs)[b]
      {
        var fixed := FixupChain(recs[i], rpos, rlen);
        recs := recs[i := fixed];
      }
    }

    /** _cdb_make_fullwrite of the first `n` bytes of the buffer, inside the file. */
    method WriteChunk(n: nat)
      requires n <= buf.Length && fd.off + n <= |fd.data|
      modifies fd
      ensures fd.off == old(fd.off) + n && |fd.data| == |old(fd.data)|
      ensures fd.data == Overwrite(old(fd.data), old(fd.off), buf[..n])
      ensures forall k :: old(fd.off) <= k < fd.off ==> fd.data[k] == buf[k - old(fd.off)]
      ensures forall k :: 0 <= k < old(fd.off) || fd.off <= k < |fd.data| ==> fd.data[k] == old(fd.data)[k]
    {
      hide Overwrite;
      OverwriteWithin(fd.data, fd.off, buf[..n]);
      fd.Write(buf[..n]);
    }

    /** read of the next `n` bytes into the buffer. */
    method ReadChunk(n: nat)
      requires n <= buf.Length && fd.off + n <= |fd.data|
      modifies fd`off, buf
      ensures fd.off == old(fd.off) + n
      ensures buf[..n] == fd.data[old(fd.off)..fd.off]
      ensures forall k :: 0 <= k < n ==> buf[k] == fd.data[old(fd.off) + k]
    {
      ghost var pos := fd.off;
      var r := fd.Read(buf, n);
      forall k | 0 <= k < n ensures buf[k] == fd.data[pos + k] {
        assert buf[..n][k] == fd.data[pos..pos + n][k];
      }
    }

    /** The chunked copy of remove_record: the `length` bytes behind the hole move down over it. */
    method ShiftDown(rpos: nat, rlen: nat, length: nat)
      requires buf.Length == BUF_SIZE && rpos + rlen + length <= |fd.data|
      modifies fd, buf
      ensures |fd.data| == |old(fd.data)|
      ensures Agree(fd.data, 0, old(fd.data), 0, rpos)
      ensures Agree(fd.data, rpos, old(fd.data), rpos + rlen, length)
    {
      hide Agree, MovedDown, PieceMoved;
      ghost var d := fd.data;
      var pos, len := rpos, length;
      NothingMoved(d, rpos, rlen);
      while len > 0
        invariant pos + len == rpos + length && rpos <= pos && 0 <= len && |fd.data| == |d|
        invariant MovedDown(fd.data, d, rpos, rlen, pos)
      {
        var r := Min(len, BUF_SIZE);
        ghost var before := fd.data;
        MoveChunk(pos, rlen, r);
        ShiftMore(before, fd.data, d, rpos, rlen, pos, r);
        pos := pos + r;
        len := len - r;
      }
      AllMovedDown(fd.data, d, rpos, rlen, length);
    }

    /** One piece of the copy, through the buffer. */
    method MoveChunk(pos: nat, rlen: nat, r: nat)
      requires buf.Length == BUF_SIZE && r <= BUF_SIZE && pos + rlen + r <= |fd.data|
      modifies fd, buf
      ensures |fd.data| == |old(fd.data)| && PieceMoved(old(fd.data), fd.data, pos, rlen, r)
    {
      hide Overwrite, PieceMoved;
      ghost var before := fd.data;
      fd.Seek(pos + rlen);
      ReadChunk(r);
      ghost var chunk := buf[..r];
      fd.Seek(pos);
      WriteChunk(r);
      assert fd.data == Overwrite(before, pos, chunk);
      ThroughBuffer(before, pos, rlen, r);
    }

    /**
     * remove_record: cuts the entry `e` out of the data section on disk and moves the index
     * along; the slot of `e` itself stays in the index.
     */
    method RemoveRecord(rpos: u32, rlen: u32, ghost older: seq<Entry>, ghost e: Entry, ghost newer: seq<Entry>)
      requires OnDisk() && Indexed() && es == Join(older, e, newer)
      requires rpos == DATA_START + Total(older) && rlen == Size(e)
      modifies this`dpos, this`recs, fd, buf
      ensures buf.Length == BUF_SIZE && bpos == 0
      ensures Holds(fd.data, older + newer, DATA_START)
      ensures dpos == old(dpos) - rlen && |recs| == 256
      ensures forall b :: 0 <= b < 256 ==> recs[b] == MovedChain(old(recs)[b], rpos, rlen)
    {
      JoinSums(older, e, newer);
      HoldsWithin(fd.data, es, DATA_START);
      IndexesAscend();
      var len := dpos - rpos - rlen;
      ghost var d := fd.data;
      dpos := dpos - rlen;
      ShiftDown(rpos, rlen, len);
      AgreePart(fd.data, 0, d, 0, rpos, DATA_START, Total(older));
      HoldsCut(d, fd.data, older, e, newer, DATA_START, rpos);
      if len != 0 {
        FixupRpos(rpos, rlen);
      } else {
        forall b | 0 <= b < 256 ensures recs[b] == MovedChain(recs[b], rpos, rlen) {
          NothingBehind(recs[b], b, older, e, newer, rpos, rlen);
        }
      }
    }

    lemma IndexesAscend()
      requires Indexed()
      ensures forall b :: 0 <= b < 256 ==> Ascending(Flat(recs[b]), 0, U32_MAX + 1)
    {
      forall b | 0 <= b < 256 ensures Ascending(Flat(recs[b]), 0, U32_MAX + 1) {
        IndexAscending(es, b, DATA_START);
      }
    }

    /** zerofill_record: cuts the last record off, and turns any other one into a gap. */
    method ZerofillRecord(rpos: u32, rlen: u32, ghost older: seq<Entry>, ghost e: Entry, ghost newer: seq<Entry>)
      requires OnDisk() && Indexed() && es == Join(older, e, newer)
      requires rpos == DATA_START + Total(older) && rlen == Size(e) == Size(Gap(e))
      modifies this`dpos, fd, buf
      ensures buf.Length == BUF_SIZE && bpos == 0
      ensures newer == [] ==> dpos == rpos && Holds(fd.data, older, DATA_START)
      ensures newer != [] ==> dpos == old(dpos) && Holds(fd.data, Join(older, Gap(e), newer), DATA_START)
    {
      hide Holds, Written, Agree, Index, Live, Total, Flat, Gap;
      JoinSums(older, e, newer);
      HoldsWithin(fd.data, es, DATA_START);
      HoldsParts(fd.data, older, e, newer, DATA_START, rpos);
      NoBytes(newer);
      if rpos + rlen == dpos {
        dpos := rpos;
        return;
      }
      WriteGap(rpos, rlen);
      GapHeld(old(fd.data), fd.data, rpos, rlen, older, e, newer);
    }

    /** The chunks of zerofill_record: a head with no key and all the rest as value, then zeros. */
    method WriteGap(rpos: nat, rlen: u32)
      requires buf.Length == BUF_SIZE && 8 <= rlen && rpos + rlen <= |fd.data|
      modifies fd, buf
      ensures |fd.data| == |old(fd.data)|
      ensures forall k :: 0 <= k < rpos || rpos + rlen <= k < |fd.data| ==> fd.data[k] == old(fd.data)[k]
      ensures forall k :: rpos <= k < rpos + rlen ==> fd.data[k] == GapByte(rlen, k - rpos)
    {
      hide GapByte, Overwrite;
      ghost var d := fd.data;
      GapHead(rlen);
      fd.Seek(rpos);
      forall i | 0 <= i < BUF_SIZE {
        buf[i] := 0;
      }
      forall i | 0 <= i < 4 {
        buf[4 + i] := Pack(rlen - 8)[i];
      }
      var left: nat := rlen;
      while true
        invariant 0 < left <= rlen && fd.off == rpos + (rlen - left)
        invariant |fd.data| == |d| && buf.Length == BUF_SIZE
        invariant left == rlen || left <= rlen - BUF_SIZE
        invariant forall k :: 0 <= k < BUF_SIZE ==> buf[k] == GapByte(rlen, k + (rlen - left))
        invariant forall k :: 0 <= k < rpos || fd.off <= k < |d| ==> fd.data[k] == d[k]
        invariant forall k :: rpos <= k < fd.off ==> fd.data[k] == GapByte(rlen, k - rpos)
        decreases left
      {
        var n := Min(left, BUF_SIZE);
        WriteChunk(n);
        left := left - n;
        if left == 0 {
          break;
        }
        forall i | 0 <= i < 4 {
          buf[4 + i] := 0;
        }
      }
    }

    /** match: the length of the record at `pos` if it is one of `key`, and 0 if it is not. */
    method MatchRecord(pos: u32, key: seq<byte>, ghost older: seq<Entry>, ghost e: Entry, ghost newer: seq<Entry>)
      returns (r: u32)
      requires OnDisk() && dpos == DATA_START + Total(es) && es == Join(older, e, newer)
      requires pos == DATA_START + Total(older) && |key| <= U32_MAX
      modifies fd`off, buf
      ensures r == if e.key == key then Size(e) else 0
    {
      hide Holds, Total, Agree, Unpack, Live, Join;
      JoinSums(older, e, newer);
      HoldsWithin(fd.data, es, DATA_START);
      HoldsParts(fd.data, older, e, newer, DATA_START, pos);
      KeyBytes(fd.data, e, pos);
      fd.Seek(pos);
      ReadChunk(8);
      if Unpack([buf[0], buf[1], buf[2], buf[3]]) != |key| {
        return 0;
      }
      var rlen := Unpack([buf[4], buf[5], buf[6], buf[7]]);
      if rlen > Sub32(Sub32(Sub32(dpos, pos), |key|), 8) {
        assert false;  // the source's EPROTO: nobody else changes the file
      }
      var same := SameKey(key, e.key);
      return if same then rlen + |key| + 8 else 0;
    }

    /** The compare loop of match: do the next bytes of the file, those of `stored`, read `key`? */
    method SameKey(key: seq<byte>, ghost stored: seq<byte>) returns (same: bool)
      requires buf.Length == BUF_SIZE && |stored| == |key| && fd.off + |key| <= |fd.data|
      requires forall k :: fd.off <= k < fd.off + |key| ==> fd.data[k] == stored[k - fd.off]
      modifies fd`off, buf
      ensures same <==> key == stored
    {
      var done := 0;
      ghost var start := fd.off;
      while done < |key|
        invariant 0 <= done <= |key| && fd.off == start + done
        invariant key[..done] == stored[..done]
      {
        var len := Min(|key| - done, BUF_SIZE);
        ReadChunk(len);
        assert buf[..len] == stored[done..done + len];
        if buf[..len] != key[done..done + len] {
          return false;
        }
        assert key[..done + len] == key[..done] + key[done..done + len];
        assert stored[..done + len] == stored[..done] + stored[done..done + len];
        done := done + len;
      }
      assert key == key[..done] && stored == stored[..done];
      return true;
    }

    /** Takes the record `e`, indexed by slot `ri` of block `bi`, out of the file and out of the index. */
    method Delete(b: nat, bi: nat, ri: nat, rlen: u32, mode: Mode,
                  ghost older: seq<Entry>, ghost e: Entry, ghost newer: seq<Entry>)
      requires OnDisk() && Indexed() && es == Join(older, e, newer) && Sweeps(mode)
      requires b < 256 && bi < |recs[b]| && ri < |recs[b][bi]| && InBucket(e, b)
      requires recs[b][bi][ri] == Slot(Hash(e.key), DATA_START + Total(older)) && rlen == Size(e)
      requires Index(older, b, DATA_START) == Flat(recs[b][bi + 1..]) + recs[b][bi][..ri]
      modifies this, fd, buf
      ensures OnDisk() && Indexed() && es == Deleted(older, e, newer, mode)
      ensures bi < |recs[b]| == |old(recs)[b]| && ri <= |recs[b][bi]| && dpos <= old(dpos)
      ensures Index(older, b, DATA_START) == Flat(recs[b][bi + 1..]) + recs[b][bi][..ri]
    {
      hide Holds, Total, Agree, Live, Index, Flat, MovedChain, MovedAll, OwnSlot;
      JoinSums(older, e, newer);
      HoldsWithin(fd.data, es, DATA_START);
      DeletedSums(older, e, newer, mode);
      var rpos := recs[b][bi][ri].rpos;
      ghost var chains := recs;
      if mode == Replace {
        RemoveRecord(rpos, rlen, older, e, newer);
      } else {
        ZerofillRecord(rpos, rlen, older, e, newer);
      }
      var chain := recs[b];
      OwnChain(chains[b], chain, bi, ri, older, e, newer, mode, b, rpos);
      recs := recs[b := chain[bi := Without(chain[bi], ri)]];
      rcnt := rcnt - 1;
      es := Deleted(older, e, newer, mode);
      assert older + [] == older;
      forall k | 0 <= k < 256 ensures Flat(recs[k]) == Index(es, k, DATA_START)
      {
        if k != b {
          OtherChain(chains[k], recs[k], older, e, newer, mode, k, rpos);
        }
      }
      assert recs[b][bi + 1..] == chain[bi + 1..] && recs[b][bi][..ri] == chain[bi][..ri];
    }

    /** The state of a pass of findrec, before or after it had to flush the buffer. */
    ghost predicate Midway(seeked: bool)
      reads this, fd, buf
    {
      if seeked then OnDisk() && Indexed() else Valid()
    }

    /** The explicit flush of findrec. */
    method FlushOnce(seeked: bool)
      requires Midway(seeked)
      modifies this`bpos, fd
      ensures OnDisk() && Indexed()
    {
      if !seeked {
        ghost var s := Stream();
        Flush();
        assert fd.data[..fd.off] == s + [] == s;
        HoldsWithin(s, es, DATA_START);
        StillHeld(s, fd.data, es);
      }
    }

    /** One slot of the loop of findrec: is it one of `key`, and if the mode says so, delete it. */
    method VisitSlot(b: nat, bi: nat, ri: nat, seeked: bool, key: seq<byte>, hval: u32, mode: Mode,
                     ghost older: seq<Entry>, ghost seen: seq<Entry>)
      returns (hit: bool, seeked': bool, ghost older': seq<Entry>, ghost seen': seq<Entry>)
      requires Midway(seeked) && hval == Hash(key) && b == hval % 256 && |key| <= U32_MAX
      requires bi < |recs[b]| && ri < |recs[b][bi]|
      requires es == older + Swept(seen, key, mode)
      requires Index(older, b, DATA_START) == Flat(recs[b][bi + 1..]) + recs[b][bi][..ri + 1]
      modifies this, fd, buf
      ensures Midway(seeked') && bi < |recs[b]| == |old(recs)[b]| && ri <= |recs[b][bi]| && dpos <= old(dpos)
      ensures older' + seen' == older + seen && es == older' + Swept(seen', key, mode)
      ensures Index(older', b, DATA_START) == Flat(recs[b][bi + 1..]) + recs[b][bi][..ri]
      ensures Vals(seen', key) != [] <==> hit || Vals(seen, key) != []
    {
      hide Holds, Total, Agree, Live, Index, Flat, Vals, Swept, Join, Deleted, Match, InBucket, Hash;
      var s := recs[b][bi][ri];
      ghost var e, between;
      older', e, between := StepBack(older, b, Flat(recs[b][bi + 1..]) + recs[b][bi][..ri + 1], key, mode, seen);
      LastSlot(Flat(recs[b][bi + 1..]), recs[b][bi], ri);
      MatchMeans(e, key, b);
      ghost var newer := between + Swept(seen, key, mode);
      seen' := [e] + (between + seen);
      JoinSums(older', e, newer);
      DeletedFrom(older', e, newer, mode);
      hit, seeked' := false, seeked;
      if s.hval == hval {
        FlushOnce(seeked);
        seeked' := true;
        var r := MatchRecord(s.rpos, key, older', e, newer);
        if r != 0 {
          hit := true;
          if Sweeps(mode) {
            Delete(b, bi, ri, r, mode, older', e, newer);
          }
        }
      }
    }

    /**
     * findrec: goes through the bucket of `hval` from the newest slot to the oldest. It deletes
     * every record of `key` in the modes that replace, and stops at the first one in the others.
     */
    method FindRec(key: seq<byte>, hval: u32, mode: Mode) returns (ret: int)
      requires Valid() && hval == Hash(key) && |key| <= U32_MAX
      modifies this, fd, buf
      ensures Valid() && es == Swept(old(es), key, mode)
      ensures ret == if Vals(old(es), key) != [] then 1 else 0
      ensures dpos <= old(dpos)
    {
      hide Holds, Total, Agree, Live, Index, Flat, Vals, Swept, Match, InBucket, Hash;
      ghost var es0 := es;
      var b, bi, seeked := hval % 256, 0, false;
      ret := 0;
      ghost var older, seen, stopped := es, [], false;
      Unseen(es, recs[b], key, mode);
      label finish:
      while bi < |recs[b]|
        invariant Midway(seeked) && bi <= |recs[b]| && dpos <= old(dpos)
        invariant es0 == older + seen && es == older + Swept(seen, key, mode)
        invariant Index(older, b, DATA_START) == Flat(recs[b][bi..])
        invariant ret == (if Vals(seen, key) != [] then 1 else 0) && !stopped
        decreases |recs[b]| - bi
      {
        var ri := |recs[b][bi]|;
        ghost var n := |recs[b]|;
        NextBlock(recs[b], bi);
        while ri > 0
          invariant Midway(seeked) && bi < |recs[b]| == n && 0 <= ri <= |recs[b][bi]| && dpos <= old(dpos)
          invariant es0 == older + seen && es == older + Swept(seen, key, mode)
          invariant Index(older, b, DATA_START) == Flat(recs[b][bi + 1..]) + recs[b][bi][..ri]
          invariant ret == (if Vals(seen, key) != [] then 1 else 0) && !stopped
        {
          ri := ri - 1;
          var hit;
          hit, seeked, older, seen := VisitSlot(b, bi, ri, seeked, key, hval, mode, older, seen);
          if hit {
            ret := 1;
            if !Sweeps(mode) {
              Stopped(older, seen, key, mode);
              stopped := true;
              break finish;
            }
          }
        }
        assert recs[b][bi][..0] == [] && Flat(recs[b][bi + 1..]) + [] == Flat(recs[b][bi + 1..]);
        bi := bi + 1;
      }
      if !stopped {
        NoMoreBlocks(recs[b]);
        Exhausted(older, seen, key, mode, b);
      }
      if seeked {
        HoldsWithin(fd.data, es, DATA_START);
        fd.Seek(dpos);
        Synced(fd.data, dpos, es);
      }
    }

    /** cdb_make_put. A record that the guard lets pass although it ends beyond 32 bits leaves a wrong position. */
    method Put(key: seq<byte>, val: seq<byte>, mode: Mode) returns (r: int)
      requires Valid() && |key| <= U32_MAX && |val| <= U32_MAX
      modifies this, fd, buf
      ensures Outcome(es, r) == PutSpec(old(es), mode, key, val)
      ensures InStream() && (Valid() <==> DATA_START + Total(es) <= U32_MAX)
    {
      hide CdbMake.Valid, CdbMake.InStream, Vals, Sweep, Total, Index, Holds, Live, Rejects;
      var hval := Hash(key);
      match mode {
        case Add =>
          r := 0;
        case _ =>
          r := FindRec(key, hval, mode);
          if r != 0 && mode == Insert {
            ValidIsInStream();
            return 1;
          }
      }
      ValidIsInStream();
      var added := AddRecord(hval, key, val);
      if added < 0 {
        return -1;
      }
    }

    lemma ValidIsInStream()
      requires Valid()
      ensures InStream() && dpos == DATA_START + Total(es)
    {
    }

    /** The first loop of cdb_make_finish_internal: turn the chains around and size the tables. */
    method SizeTables(hcnt: array<u32>) returns (hsize: u32)
      requires Indexed() && hcnt.Length == TABLES && 8 * rcnt <= U32_MAX
      modifies this`recs, hcnt
      ensures |recs| == TABLES
      ensures forall t :: 0 <= t < TABLES ==> Cat(recs[t]) == Index(es, t, DATA_START)
      ensures forall t :: 0 <= t < TABLES ==> hcnt[t] == TableSize(es, t) <= hsize
    {
      hide Index, Flat, Cat, Live;
      hsize := 0;
      for t := 0 to TABLES
        invariant |recs| == TABLES
        invariant forall u :: 0 <= u < t ==> Cat(recs[u]) == Index(es, u, DATA_START)
        invariant forall u :: 0 <= u < t ==> hcnt[u] == TableSize(es, u) <= hsize
        invariant forall u :: t <= u < TABLES ==> Flat(recs[u]) == Index(es, u, DATA_START)
      {
        var reversed, i := ReverseChain(recs[t]);
        SizeBound(es, t);
        recs := recs[t := reversed];
        hcnt[t] := 2 * i;
        if hsize < hcnt[t] {
          hsize := hcnt[t];
        }
      }
    }

    /** The second loop: build each table, and append its bytes to the file. */
    method WriteTables(hcnt: array<u32>, hpos: array<u32>, hsize: u32)
      requires Buffered() && |recs| == TABLES && DATA_START + Total(es) <= U32_MAX
      requires hcnt.Length == TABLES == hpos.Length && hcnt != hpos
      requires hcnt as object != buf && hpos as object != buf
      requires forall t :: 0 <= t < TABLES ==> Cat(recs[t]) == Index(es, t, DATA_START)
      requires forall t :: 0 <= t < TABLES ==> hcnt[t] == TableSize(es, t) <= hsize
      requires Partial(Stream(), es, 0) && dpos == TablePos(es, 0) && 16 * Live(es) <= U32_MAX
      modifies this`bpos, this`dpos, fd, buf, hpos
      ensures Buffered() && Partial(Stream(), es, TABLES)
      ensures forall t :: 0 <= t < TABLES ==> hpos[t] == TablePos(es, t) % 0x1_0000_0000
    {
      hide Index, Partial, Cat, Table, Build, Total, TablePos, Add32, TableSize, Stream, Live;
      SmallPos(es);
      var htab := new Cell[hsize + AHEAD](_ => Native(EMPTY));
      for t := 0 to TABLES
        invariant Buffered() && Partial(Stream(), es, t)
        invariant dpos == TablePos(es, t) % 0x1_0000_0000
        invariant forall u :: 0 <= u < t ==> hpos[u] == TablePos(es, u) % 0x1_0000_0000
      {
        hpos[t] := dpos;
        var len := hcnt[t];
        PartialNext(Stream(), es, t);
        NextPos(es, t);
        SizeBound(es, t);
        WrapStep(TablePos(es, t), 8 * len);
        TableOf(es, t);
        if len != 0 {
          WriteTable(htab, len, t);
        } else {
          assert Stream() + [] == Stream();
        }
        ghost var next := t + 1;
        assert hpos[t] == TablePos(es, t) % 0x1_0000_0000;
        assert dpos == TablePos(es, next) % 0x1_0000_0000;
      }
    }

    /** One round of that loop. */
    method WriteTable(htab: array<Cell>, len: u32, t: nat)
      requires Buffered() && t < |recs| && htab as object != buf
      requires Cat(recs[t]) == Index(es, t, DATA_START)
      requires 0 < len == TableSize(es, t) && len + AHEAD <= htab.Length
      modifies this`bpos, this`dpos, fd, buf, htab
      ensures Buffered() && Stream() == old(Stream()) + TableBytes(Table(es, t))
      ensures dpos == Add32(old(dpos), 8 * len)
    {
      hide Index, Cat, Build, Holding, Add32, TableBytes;
      ghost var list := Index(es, t, DATA_START);
      AllOccupied(es, t);
      FillTable(htab, len, recs[t], list);
      var bytes := PackTable(htab, len, Build(list, len, |list|));
      Write(bytes);
    }

    /** The table of contents, packed into the buffer and written over the start of the file. */
    method WriteToc(hcnt: array<u32>, hpos: array<u32>)
      requires Buffered() && bpos == 0 && DATA_START <= |fd.data| && hcnt.Length == TABLES == hpos.Length
      requires hcnt as object != buf && hpos as object != buf
      modifies fd, buf
      ensures |fd.data| == |old(fd.data)|
      ensures forall t :: 0 <= t < TABLES ==> Word(fd.data, 8 * t) == hpos[t] && Word(fd.data, 8 * t + 4) == hcnt[t]
      ensures forall k :: DATA_START <= k < |fd.data| ==> fd.data[k] == old(fd.data)[k]
    {
      hide Overwrite, Pack, Word;
      for t := 0 to TABLES
        invariant fd.data == old(fd.data)
        invariant forall u :: 0 <= u < t ==> InBuffer(8 * u, hpos[u]) && InBuffer(8 * u + 4, hcnt[u])
      {
        PackAt(8 * t, hpos[t]);
        PackAt(8 * t + 4, hcnt[t]);
      }
      fd.Seek(0);
      WriteChunk(DATA_START);
      forall t | 0 <= t < TABLES
        ensures Word(fd.data, 8 * t) == hpos[t] && Word(fd.data, 8 * t + 4) == hcnt[t]
      {
        WordFromBuffer(8 * t, hpos[t]);
        WordFromBuffer(8 * t + 4, hcnt[t]);
      }
    }

    ghost predicate InBuffer(at: nat, n: nat)
      reads buf
    {
      at + 4 <= buf.Length && forall k :: at <= k < at + 4 ==> buf[k] == Pack(n)[k - at]
    }

    lemma WordFromBuffer(at: nat, n: u32)
      requires InBuffer(at, n) && at + 4 <= |fd.data|
      requires forall k :: at <= k < at + 4 ==> fd.data[k] == buf[k]
      ensures Word(fd.data, at) == n
    {
      ReadsPart(fd.data, at, Pack(n));
      WordPacked(fd.data, at, n);
    }

    /** cdb_pack into the buffer. */
    method PackAt(at: nat, n: u32)
      requires at + 4 <= buf.Length
      modifies buf
      ensures InBuffer(at, n)
      ensures forall k :: 0 <= k < buf.Length && !(at <= k < at + 4) ==> buf[k] == old(buf[k])
    {
      forall k | 0 <= k < 4 {
        buf[at + k] := Pack(n)[k];
      }
    }

    /** cdb_make_finish. Its guard counts 8 bytes a record, although the tables take 16. */
    method Finish() returns (r: int)
      requires Valid()
      modifies this, fd, buf
      ensures r == if (U32_MAX - old(dpos)) / 8 < old(rcnt) then -1 else 0
      ensures es == old(es)
      ensures r == 0 ==> Finished(fd.data, es)
    {
      hide Index, Partial, Holds, Total, Live, Cat, TablePos, TableSize, Finished, Word, Flat;
      if (U32_MAX - dpos) / 8 < rcnt {
        return -1;
      }
      LiveBound(es);
      var hcnt, hpos := new u32[TABLES], new u32[TABLES];
      PartialStart(Stream(), es);
      FirstPos(es);
      var hsize := SizeTables(hcnt);
      WriteTables(hcnt, hpos, hsize);
      ghost var stream := Stream();
      Flush();
      assert fd.data[..fd.off] == stream + [] == stream;
      LastPos(es);
      ghost var before := fd.data;
      assert |stream| == TablePos(es, TABLES) by { PartialSize(stream, es, TABLES); }
      WriteToc(hcnt, hpos);
      assert TocAt(fd.data, es) by {
        forall t | 0 <= t < TABLES ensures TocEntry(fd.data, es, t) {
          assert Word(fd.data, 8 * t) == hpos[t] == TablePos(es, t) % 0x1_0000_0000;
          assert Word(fd.data, 8 * t + 4) == hcnt[t];
          assert hcnt[t] == TableSize(es, t);
        }
      }
      FinishedFrom(stream, fd.data, es);
      return 0;
    }
  }

  lemma PartialSize(stream: seq<byte>, es: seq<Entry>, t: nat)
    requires Partial(stream, es, t)
    ensures |stream| == TablePos(es, t)
  {
  }

  lemma FirstPos(es: seq<Entry>)
    ensures TablePos(es, 0) == DATA_START + Total(es)
  {
  }

  lemma LastPos(es: seq<Entry>)
    ensures DATA_START + Total(es) <= TablePos(es, TABLES)
  {
    PosMonotone(es, 0, TABLES);
  }

  lemma SmallPos(es: seq<Entry>)
    requires DATA_START + Total(es) <= U32_MAX
    ensures TablePos(es, 0) % 0x1_0000_0000 == TablePos(es, 0)
  {
  }

  lemma NextPos(es: seq<Entry>, t: nat)
    ensures TablePos(es, t + 1) == TablePos(es, t) + 8 * TableSize(es, t)
  {
  }

  lemma TableOf(es: seq<Entry>, t: nat)
    ensures TableSize(es, t) == 2 * |Index(es, t, DATA_START)|
    ensures var list := Index(es, t, DATA_START);
      Table(es, t) == if list == [] then [] else Build(list, TableSize(es, t), |list|)
    ensures TableBytes([]) == []
  {
  }

  lemma AllOccupied(es: seq<Entry>, t: nat)
    ensures Occupied(Index(es, t, DATA_START))
  {
    IndexAscending(es, t, DATA_START);
  }

  lemma Unseen(es: seq<Entry>, chain: Chain, key: seq<byte>, mode: Mode)
    ensures es + [] == es && es + Swept([], key, mode) == es
    ensures Flat(chain[0..]) == Flat(chain)
    ensures Vals([], key) == []
  {
    assert chain[0..] == chain;
  }

  lemma NextBlock(chain: Chain, bi: nat)
    requires bi < |chain|
    ensures Flat(chain[bi..]) == Flat(chain[bi + 1..]) + chain[bi][..|chain[bi]|]
  {
    assert chain[bi..][1..] == chain[bi + 1..];
  }

  lemma NoMoreBlocks(chain: Chain)
    ensures Flat(chain[|chain|..]) == []
  {
  }

  lemma LastSlot(older: seq<Slot>, block: seq<Slot>, ri: nat)
    requires ri < |block|
    ensures var slots := older + block[..ri + 1];
      slots[|slots| - 1] == block[ri] && slots[..|slots| - 1] == older + block[..ri]
  {
  }

  lemma MatchMeans(e: Entry, key: seq<byte>, b: nat)
    requires InBucket(e, b)
    ensures Match(e, key) <==> e.key == key
    ensures Match(e, key) ==> OwnVal(e, key) != []
    ensures !Match(e, key) ==> OwnVal(e, key) == []
  {
  }

  lemma DeletedFrom(older: seq<Entry>, e: Entry, newer: seq<Entry>, mode: Mode)
    ensures Deleted(older, e, newer, mode) == older + Deleted([], e, newer, mode)
    ensures Join(older, e, newer) == older + ([e] + newer)
  {
    assert [] + newer == newer;
    assert [] + ([Gap(e)] + newer) == [Gap(e)] + newer;
  }

  lemma Stopped(older: seq<Entry>, seen: seq<Entry>, key: seq<byte>, mode: Mode)
    requires !Sweeps(mode) && Vals(seen, key) != []
    ensures Swept(older + seen, key, mode) == older + Swept(seen, key, mode)
    ensures Vals(older + seen, key) != []
  {
    ValsConcat(older, seen, key);
  }

  /** With no slot of the bucket left, the entries not gone through hold no record of the key. */
  lemma Exhausted(older: seq<Entry>, seen: seq<Entry>, key: seq<byte>, mode: Mode, b: nat)
    requires b == Hash(key) % 256 && Index(older, b, DATA_START) == []
    ensures Swept(older + seen, key, mode) == older + Swept(seen, key, mode)
    ensures Vals(older + seen, key) == Vals(seen, key)
  {
    NotIndexed(older, b, DATA_START);
    NoVals(older, key);
    ValsConcat(older, seen, key);
    assert [] + Vals(seen, key) == Vals(seen, key);
    SweepSkip(older, seen, key, mode);
  }

  lemma Synced(image: seq<byte>, end: nat, es: seq<Entry>)
    requires Holds(image, es, DATA_START) && DATA_START + Total(es) == end <= |image|
    ensures Holds(image[..end] + [], es, DATA_START)
  {
    AgreeEach(image[..end] + [], DATA_START, image, DATA_START, Total(es));
    HoldsMoved(image, image[..end] + [], es, DATA_START, DATA_START, Total(es));
  }

  lemma StillHeld(s: seq<byte>, image: seq<byte>, es: seq<Entry>)
    requires |s| <= |image| && image[..|s|] == s
    requires Holds(s, es, DATA_START) && DATA_START + Total(es) <= |s|
    ensures Holds(image, es, DATA_START)
  {
    AgreeEach(image, DATA_START, s, DATA_START, Total(es));
    HoldsMoved(s, image, es, DATA_START, DATA_START, Total(es));
  }

  lemma KeyBytes(image: seq<byte>, e: Entry, pos: nat)
    requires Written(image, e, pos)
    ensures forall k :: pos + 8 <= k < pos + 8 + |e.key| ==> image[k] == e.key[k - (pos + 8)]
  {
    forall k | pos + 8 <= k < pos + 8 + |e.key| ensures image[k] == e.key[k - (pos + 8)] {
      AgreeAt(image, pos + 8, e.key, 0, |e.key|, k - (pos + 8));
    }
  }

  /** Byte `k` of a gap of `rlen` bytes. */
  function GapByte(rlen: nat, k: int): byte
    requires 8 <= rlen
  {
    if 4 <= k < 8 then Pack(rlen - 8)[k - 4] else 0
  }

  lemma GapHead(rlen: nat)
    requires 8 <= rlen
    ensures forall k :: 4 <= k < 8 ==> GapByte(rlen, k) == Pack(rlen - 8)[k - 4]
    ensures forall k :: k < 4 || 8 <= k ==> GapByte(rlen, k) == 0
  {
  }

  /** What the bytes left by WriteGap amount to. */
  lemma GapWritten(image: seq<byte>, rpos: nat, rlen: u32, e: Entry)
    requires rlen == Size(e) && rpos + rlen <= |image|
    requires forall k :: rpos <= k < rpos + rlen ==> image[k] == GapByte(rlen, k - rpos)
    ensures Written(image, Gap(e), rpos)
  {
    hide Pack;
    var zeros := Gap(e).val;
    ReadsPart(image, rpos + 4, Pack(rlen - 8));
    WordPacked(image, rpos + 4, rlen - 8);
    ReadsPart(image, rpos + 8, zeros);
    assert Word(image, rpos) == 0;
  }

  lemma GapHeld(d: seq<byte>, image: seq<byte>, rpos: nat, rlen: u32, older: seq<Entry>, e: Entry, newer: seq<Entry>)
    requires rpos == DATA_START + Total(older) && rlen == Size(e) == Size(Gap(e))
    requires Holds(d, Join(older, e, newer), DATA_START)
    requires rpos + rlen + Total(newer) <= |d| == |image|
    requires forall k :: 0 <= k < rpos || rpos + rlen <= k < |d| ==> image[k] == d[k]
    requires forall k :: rpos <= k < rpos + rlen ==> image[k] == GapByte(rlen, k - rpos)
    ensures Holds(image, Join(older, Gap(e), newer), DATA_START)
  {
    hide Holds, Written, Agree, Total, Gap, GapByte, Join;
    AgreeSame(image, d, DATA_START, Total(older));
    AgreeSame(image, d, rpos + rlen, Total(newer));
    GapWritten(image, rpos, rlen, e);
    HoldsReplace(d, image, older, e, newer, DATA_START, rpos, Gap(e));
  }

  lemma ReadsPart(image: seq<byte>, i: nat, t: seq<byte>)
    requires i + |t| <= |image|
    requires forall k :: i <= k < i + |t| ==> image[k] == t[k - i]
    ensures Reads(image, i, t)
  {
    AgreeEach(image, i, t, 0, |t|);
  }

  lemma NothingBehind(chain: Chain, b: nat, older: seq<Entry>, e: Entry, newer: seq<Entry>, rpos: nat, rlen: u32)
    requires Flat(chain) == Index(Join(older, e, newer), b, DATA_START)
    requires rpos == DATA_START + Total(older) && newer == []
    ensures chain == MovedChain(chain, rpos, rlen)
  {
    hide Index, Flat, Total;
    forall i, k | 0 <= i < |chain| && 0 <= k < |chain[i]| ensures chain[i][k].rpos <= rpos {
      FlatSplit(chain, i);
      var p := |Flat(chain[i + 1..])| + k;
      assert Flat(chain)[p] == chain[i][k];
      SlotsBefore(older, e, b, rpos, p);
    }
    forall i | 0 <= i < |chain| ensures chain[i] == MovedAll(chain[i], rpos, rlen) {
      MovedBefore(chain[i], rpos, rlen);
    }
  }

  lemma NoBytes(es: seq<Entry>)
    ensures Total(es) == 0 <==> es == []
  {
  }

  lemma SlotFits(chain: Chain, bi: nat, ri: nat)
    requires bi < |chain| && ri < |chain[bi]| && Ascending(Flat(chain), 0, U32_MAX + 1)
    ensures chain[bi][ri].rpos <= U32_MAX
  {
    FlatSplit(chain, bi);
    var older := Flat(chain[bi + 1..]);
    assert Flat(chain)[|older| + ri] == chain[bi][ri];
  }

  lemma SlotsBefore(older: seq<Entry>, e: Entry, b: nat, rpos: nat, p: nat)
    requires rpos == DATA_START + Total(older) && p < |Index(Join(older, e, []), b, DATA_START)|
    ensures Index(Join(older, e, []), b, DATA_START)[p].rpos <= rpos
  {
    JoinIndex(older, e, [], b, DATA_START);
    IndexAscending(older, b, DATA_START);
  }

  /** The bytes that WriteRecord writes are a record. */
  /** The position is that of the stream, in 32 bits. */
  ghost predicate InStep(stream: seq<byte>, dpos: u32) {
    dpos == |stream| % 0x1_0000_0000
  }

  lemma StaysInStep(stream: seq<byte>, dpos: u32, data: seq<byte>)
    requires InStep(stream, dpos)
    ensures InStep(stream + data, Add32(dpos, |data|))
  {
    WrapStep(|stream|, |data|);
  }

  lemma OverwriteWithin(data: seq<byte>, off: nat, bytes: seq<byte>)
    requires off + |bytes| <= |data|
    ensures var after := Overwrite(data, off, bytes);
      && |after| == |data| && (forall k :: off <= k < off + |bytes| ==> after[k] == bytes[k - off])
      && (forall k :: 0 <= k < off || off + |bytes| <= k < |data| ==> after[k] == data[k])
  {
  }

  lemma RecordWritten(s0: seq<byte>, s1: seq<byte>, s2: seq<byte>, s3: seq<byte>, e: Entry)
    requires s1 == s0 + (Pack(|e.key|) + Pack(|e.val|)) && s2 == s1 + e.key && s3 == s2 + e.val
    requires |e.key| <= U32_MAX && |e.val| <= U32_MAX
    ensures Written(s3, e, |s0|)
    ensures Agree(s3, 0, s0, 0, |s0|)
  {
    hide Reads, Agree, Pack, Word;
    var k, v, p := Pack(|e.key|), Pack(|e.val|), |s0|;
    ReadsEnd(s0, k + v);
    ReadsBoth(s1, p, k, v);
    ReadsGrown(s1, e.key, p, k);
    ReadsGrown(s2, e.val, p, k);
    ReadsGrown(s1, e.key, p + 4, v);
    ReadsGrown(s2, e.val, p + 4, v);
    ReadsEnd(s1, e.key);
    ReadsGrown(s2, e.val, p + 8, e.key);
    ReadsEnd(s2, e.val);
    WordPacked(s3, p, |e.key|);
    WordPacked(s3, p + 4, |e.val|);
    AgreePrefix(s0, k + v, 0, p);
    AgreePrefix(s1, e.key, 0, p);
    AgreePrefix(s2, e.val, 0, p);
    AgreeTrans(s2, 0, s1, 0, s0, 0, p);
    AgreeTrans(s3, 0, s2, 0, s0, 0, p);
  }

  lemma RecordKept(before: seq<byte>, after: seq<byte>, es: seq<Entry>, e: Entry)
    requires Holds(before, es, DATA_START) && |before| == DATA_START + Total(es)
    requires Agree(after, 0, before, 0, |before|) && Written(after, e, |before|)
    ensures Holds(after, es + [e], DATA_START)
  {
    AgreePart(after, 0, before, 0, |before|, DATA_START, Total(es));
    HoldsGrow(before, after, es, DATA_START, |before|, e);
  }

  /** The bytes from `rpos` up to `pos` are those `rlen` behind them; everything else is as it was. */
  ghost predicate MovedDown(data: seq<byte>, d: seq<byte>, rpos: nat, rlen: nat, pos: nat) {
    |data| == |d| && rpos <= pos && pos + rlen <= |d|
    && forall k :: 0 <= k < |d| ==> data[k] == d[if rpos <= k < pos then k + rlen else k]
  }

  lemma NothingMoved(d: seq<byte>, rpos: nat, rlen: nat)
    requires rpos + rlen <= |d|
    ensures MovedDown(d, d, rpos, rlen, rpos)
  {
  }

  lemma ShiftMore(data: seq<byte>, data': seq<byte>, d: seq<byte>, rpos: nat, rlen: nat, pos: nat, r: nat)
    requires MovedDown(data, d, rpos, rlen, pos) && pos + rlen + r <= |d| && PieceMoved(data, data', pos, rlen, r)
    ensures MovedDown(data', d, rpos, rlen, pos + r)
  {
  }

  /** The `r` bytes at `pos` are those `rlen` behind them. */
  ghost predicate PieceMoved(data: seq<byte>, data': seq<byte>, pos: nat, rlen: nat, r: nat) {
    |data'| == |data| && pos + rlen + r <= |data|
    && forall k :: 0 <= k < |data'| ==> data'[k] == data[if pos <= k < pos + r then k + rlen else k]
  }

  lemma ThroughBuffer(data: seq<byte>, pos: nat, rlen: nat, r: nat)
    requires pos + rlen + r <= |data|
    ensures var data' := Overwrite(data, pos, data[pos + rlen..pos + rlen + r]);
      |data'| == |data| && PieceMoved(data, data', pos, rlen, r)
  {
    var chunk := data[pos + rlen..pos + rlen + r];
    OverwriteWithin(data, pos, chunk);
    hide Overwrite;
  }

  lemma AllMovedDown(data: seq<byte>, d: seq<byte>, rpos: nat, rlen: nat, length: nat)
    requires MovedDown(data, d, rpos, rlen, rpos + length)
    ensures Agree(data, 0, d, 0, rpos) && Agree(data, rpos, d, rpos + rlen, length)
  {
    hide Agree;
    AgreeSame(data, d, 0, rpos);
    AgreeEach(data, rpos, d, rpos + rlen, length);
  }

  lemma IndexGrow(es: seq<Entry>, e: Entry, i: nat)
    requires e.live && i == Hash(e.key) % 256
    ensures Index(es + [e], i, DATA_START) == Index(es, i, DATA_START) + [Slot(Hash(e.key), DATA_START + Total(es))]
    ensures forall b: nat :: b != i ==> Index(es + [e], b, DATA_START) == Index(es, b, DATA_START)
  {
    IndexConcat(es, [e], i, DATA_START);
    assert [e][1..] == [];
    forall b: nat | b != i ensures Index(es + [e], b, DATA_START) == Index(es, b, DATA_START) {
      IndexConcat(es, [e], b, DATA_START);
    }
  }

  lemma Sums(es: seq<Entry>, e: Entry)
    ensures Total(es + [e]) == Total(es) + Size(e)
    ensures Live(es + [e]) == Live(es) + if e.live then 1 else 0
  {
    TotalConcat(es, [e]);
    LiveConcat(es, [e]);
    assert [e][1..] == [];
  }

  lemma Grown(s: seq<byte>, data: seq<byte>, k: nat, m: nat)
    requires k <= m <= |data|
    ensures s + data[..k] + data[k..m] == s + data[..m]
    ensures m == |data| ==> s + data[..k] + data[k..] == s + data
  {
    assert data[..k] + data[k..m] == data[..m];
    assert s + data[..k] + data[k..m] == s + (data[..k] + data[k..m]);
  }
}
