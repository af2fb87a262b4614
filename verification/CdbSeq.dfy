/** The sequential walk over the records of a database. */
module CdbSeq {
  import opened Bytes
  import opened Seqs
  import opened Records
  import opened Layout
  import opened CdbReader
  import opened Dump

  /** The result fields of a Cdb describe the record `e` at `pos`. */
  ghost predicate Describes(c: Cdb, e: Entry, pos: nat)
    reads c
  {
    && c.kpos == pos + 8 && c.klen == |e.key| && c.vpos == c.kpos + c.klen && c.vlen == |e.val|
    && c.vpos + c.vlen <= |c.mem|
    && c.mem[c.kpos..c.kpos + c.klen] == e.key && c.mem[c.vpos..c.vpos + c.vlen] == e.val
  }

  /** The data section from `pos` on holds `rest`, up to where the tables begin. */
  ghost predicate Ahead(c: Cdb, pos: nat, rest: seq<Entry>)
    reads c`mem, c`fsize, c`dend
  {
    c.Valid() && Holds(c.mem, rest, pos) && pos + Total(rest) == c.dend
  }

  /** cdb_seqnext. Where a data section of `rest` is ahead, it locates the next record, or ends with 0. */
  method SeqNext(c: Cdb, cptr: u32, ghost rest: seq<Entry>) returns (r: int, cptr': u32)
    requires c.Valid()
    modifies c`kpos, c`klen, c`vpos, c`vlen
    ensures r == 0 <==> cptr > c.dend - 8
    ensures r == 0 || r == 1 || r == -1
    ensures r != 1 ==> cptr' == cptr
    ensures Ahead(c, cptr, rest) ==> r == if rest == [] then 0 else 1
    ensures Ahead(c, cptr, rest) && rest != [] ==>
              Describes(c, rest[0], cptr) && cptr' == cptr + Size(rest[0]) && Ahead(c, cptr', rest[1..])
  {
    hide Word, Total, Holds, Written, Describes;
    var pos, dend := cptr, c.dend;
    if Ahead(c, cptr, rest) {
      NextIs(c, cptr, rest);
    }
    cptr' := cptr;
    if pos > Sub32(dend, 8) {
      return 0, cptr';
    }
    var klen, vlen := Word(c.mem, pos), Word(c.mem, pos + 4);
    pos := Add32(pos, 8);
    if Sub32(dend, klen) < pos || Sub32(dend, vlen) < Add32(pos, klen) {
      return -1, cptr';
    }
    c.kpos, c.klen := pos, klen;
    c.vpos, c.vlen := Add32(pos, klen), vlen;
    cptr' := Add32(Add32(pos, klen), vlen);
    if Ahead(c, cptr, rest) {
      NoWrap(pos, klen);
      NoWrap(pos + klen, vlen);
      Located(c, cptr, rest[0]);
    }
    r := 1;
  }

  lemma NextIs(c: Cdb, cptr: u32, rest: seq<Entry>)
    requires Ahead(c, cptr, rest)
    ensures rest == [] <==> cptr > c.dend - 8
    ensures rest != [] ==> Written(c.mem, rest[0], cptr) && Ahead(c, cptr + Size(rest[0]), rest[1..])
    ensures rest != [] ==> Word(c.mem, cptr) == |rest[0].key| && Word(c.mem, cptr + 4) == |rest[0].val|
                           && cptr + Size(rest[0]) <= c.dend
  {
    hide Word, Total;
    TotalNext(rest);
    HoldsNext(c.mem, rest, cptr);
  }

  lemma Located(c: Cdb, pos: nat, e: Entry)
    requires Written(c.mem, e, pos) && c.kpos == pos + 8 && c.klen == |e.key|
    requires c.vpos == pos + 8 + |e.key| && c.vlen == |e.val|
    ensures Describes(c, e, pos)
  {
    hide Word;
    WrittenSlices(c.mem, e, pos);
  }

  lemma TotalNext(rest: seq<Entry>)
    ensures Total(rest) == if rest == [] then 0 else Size(rest[0]) + Total(rest[1..])
    ensures Total([]) == 0
  {
  }

  lemma HoldsNext(image: seq<byte>, rest: seq<Entry>, pos: nat)
    requires Holds(image, rest, pos)
    ensures Holds(image, [], pos)
    ensures rest != [] ==> Written(image, rest[0], pos) && Holds(image, rest[1..], pos + Size(rest[0]))
  {
    HoldsWithin(image, rest, pos);
  }

  /** Repeated cdb_seqnext yields the record sequence that dumping and parsing yields. */
  method AllRecords(c: Cdb, ghost es: seq<Entry>) returns (recs: seq<Rec>)
    requires c.Open(es)
    modifies c
    ensures recs == RecsOf(es)
    ensures c.mem == old(c.mem)
  {
    hide Holds, Total, Finished, TablePos, Word;
    recs := [];
    var cptr: u32 := DATA_START;
    ghost var rest := es;
    OpenAhead(c, es);
    while true
      invariant Ahead(c, cptr, rest) && c.mem == old(c.mem) && recs + RecsOf(rest) == RecsOf(es)
      decreases |rest|
    {
      var r;
      r, cptr := SeqNext(c, cptr, rest);
      if r <= 0 {
        assert recs + [] == recs;
        return;
      }
      Assoc(recs, [Rec(rest[0].key, rest[0].val)], RecsOf(rest[1..]));
      recs := recs + [Rec(c.mem[c.kpos..c.kpos + c.klen], c.mem[c.vpos..c.vpos + c.vlen])];
      rest := rest[1..];
    }
  }

  lemma OpenAhead(c: Cdb, es: seq<Entry>)
    requires c.Open(es)
    ensures Ahead(c, DATA_START, es)
  {
  }
}
