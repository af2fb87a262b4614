/** How the data section and its index change when one record is cut out or zero-filled. */
module Deletion {
  import opened Bytes
  import opened Seqs
  import opened ProbeTable
  import opened Records
  import opened Updates
  import opened Chains

  /** Cutting the record's bytes out of the image cuts the entry out of the section. */
  lemma HoldsCut(image: seq<byte>, image': seq<byte>, a: seq<Entry>, e: Entry, c: seq<Entry>,
                 off: nat, rpos: nat)
    requires rpos == off + Total(a)
    requires Holds(image, Join(a, e, c), off)
    requires Agree(image', off, image, off, Total(a))
    requires Agree(image', rpos, image, rpos + Size(e), Total(c))
    ensures Holds(image', a + c, off)
  {
    HoldsParts(image, a, e, c, off, rpos);
    HoldsMoved(image, image', a, off, off, Total(a));
    HoldsMoved(image, image', c, rpos + Size(e), rpos, Total(c));
    HoldsConcat(image', a, c, off, rpos);
  }

  /** Writing an entry of the same size over another one replaces just that entry. */
  lemma HoldsReplace(image: seq<byte>, image': seq<byte>, a: seq<Entry>, e: Entry, c: seq<Entry>,
                     off: nat, rpos: nat, e': Entry)
    requires rpos == off + Total(a) && Size(e) == Size(e')
    requires Holds(image, Join(a, e, c), off)
    requires Agree(image', off, image, off, Total(a))
    requires Agree(image', rpos + Size(e), image, rpos + Size(e), Total(c))
    requires Written(image', e', rpos)
    ensures Holds(image', Join(a, e', c), off)
  {
    hide Holds, Agree, Written, Total, Size;
    HoldsParts(image, a, e, c, off, rpos);
    HoldsMoved(image, image', a, off, off, Total(a));
    HoldsMoved(image, image', c, rpos + Size(e), rpos + Size(e), Total(c));
    HoldsParts(image', a, e', c, off, rpos);
  }

  lemma HoldsGrow(image: seq<byte>, image': seq<byte>, es: seq<Entry>, off: nat, end: nat, e: Entry)
    requires end == off + Total(es) && end <= |image| && end <= |image'|
    requires Holds(image, es, off)
    requires Agree(image', off, image, off, Total(es))
    requires Written(image', e, end)
    ensures Holds(image', es + [e], off)
  {
    HoldsMoved(image, image', es, off, off, Total(es));
    HoldsConcat(image', es, [e], off, end);
  }

  /** The index after fixup_rpos, for any bucket: only the removed record still shows. */
  lemma IndexCut(a: seq<Entry>, e: Entry, c: seq<Entry>, b: nat, off: nat)
    requires off + Total(a) + Size(e) + Total(c) <= U32_MAX
    ensures MovedAll(Index(Join(a, e, c), b, off), off + Total(a), Size(e))
         == Index(a, b, off) + (OwnSlot(e, b, off + Total(a)) + Index(c, b, off + Total(a)))
    ensures Index(a + c, b, off) == Index(a, b, off) + Index(c, b, off + Total(a))
  {
    var rpos, n := off + Total(a), Size(e);
    var before, own, after := Index(a, b, off), OwnSlot(e, b, rpos), Index(c, b, rpos + n);
    JoinIndex(a, e, c, b, off);
    IndexConcat(a, c, b, off);
    MovedConcat(before, own + after, rpos, n);
    MovedConcat(own, after, rpos, n);
    IndexAscending(a, b, off);
    MovedBefore(before, rpos, n);
    MovedBefore(own, rpos, n);
    MovedAfter(c, b, rpos, rpos, n);
  }

  /** The memmove that drops one slot of a block drops one slot of the chain. */
  lemma FlatRemove(chain: Chain, bi: nat, ri: nat, x: seq<Slot>, s: Slot, y: seq<Slot>)
    requires bi < |chain| && ri < |chain[bi]|
    requires Flat(chain) == x + ([s] + y)
    requires |x| == |Flat(chain[bi + 1..])| + ri
    ensures Flat(chain[bi := Without(chain[bi], ri)]) == x + y
    ensures x == Flat(chain[bi + 1..]) + chain[bi][..ri]
    ensures s == chain[bi][ri]
  {
    FlatSplit(chain, bi);
    FlatUpdate(chain, bi, Without(chain[bi], ri));
    var older, block, newer := Flat(chain[bi + 1..]), chain[bi], Flat(chain[..bi]);
    hide Flat;
    AroundSlot(older, block, ri, newer);
    Cancel(x, s, y, older + block[..ri], block[ri], block[ri + 1..] + newer);
  }

  lemma AroundSlot(older: seq<Slot>, block: seq<Slot>, ri: nat, newer: seq<Slot>)
    requires ri < |block|
    ensures older + block + newer == (older + block[..ri]) + ([block[ri]] + (block[ri + 1..] + newer))
    ensures older + Without(block, ri) + newer == (older + block[..ri]) + (block[ri + 1..] + newer)
  {
    assert block == block[..ri] + ([block[ri]] + block[ri + 1..]);
  }

  /** The section after the deletion of `e`. */
  function Deleted(older: seq<Entry>, e: Entry, newer: seq<Entry>, mode: Mode): seq<Entry> {
    if mode == Replace0 && newer != [] then Join(older, Gap(e), newer) else older + newer
  }

  lemma DeletedSums(older: seq<Entry>, e: Entry, newer: seq<Entry>, mode: Mode)
    requires e.live && Sweeps(mode)
    ensures Live(Deleted(older, e, newer, mode)) == Live(Join(older, e, newer)) - 1
    ensures Total(Deleted(older, e, newer, mode))
         == Total(older) + Total(newer) + if mode == Replace0 && newer != [] then Size(e) else 0
  {
    JoinSums(older, e, newer);
    JoinSums(older, Gap(e), newer);
  }

  /** Where the records newer than a deleted one start. */
  function Resume(e: Entry, mode: Mode, rpos: nat): nat {
    if mode == Replace0 then rpos + Size(e) else rpos
  }

  lemma IndexDeleted(older: seq<Entry>, e: Entry, newer: seq<Entry>, mode: Mode, b: nat, rpos: nat)
    requires rpos == DATA_START + Total(older) && Sweeps(mode)
    ensures Index(Deleted(older, e, newer, mode), b, DATA_START)
         == Index(older, b, DATA_START) + Index(newer, b, Resume(e, mode, rpos))
  {
    hide Index, Total, Size;
    if mode == Replace0 && newer != [] {
      JoinIndex(older, Gap(e), newer, b, DATA_START);
      assert OwnSlot(Gap(e), b, rpos) == [];
      var behind := Index(newer, b, rpos + Size(e));
      assert [] + behind == behind;
    } else {
      IndexConcat(older, newer, b, DATA_START);
      if newer == [] {
        NothingListed(b, rpos, Resume(e, mode, rpos));
      }
    }
  }

  lemma NothingListed(b: nat, off: nat, off': nat)
    ensures Index([], b, off) == Index([], b, off') == []
  {
  }

  /** A chain once the bytes of `e` are gone, before its slot is. */
  ghost predicate Shifted(chain: Chain, chain': Chain, mode: Mode, rpos: nat, rlen: u32) {
    chain' == if mode == Replace0 then chain else MovedChain(chain, rpos, rlen)
  }

  lemma FlatShifted(chain: Chain, chain': Chain, older: seq<Entry>, e: Entry, newer: seq<Entry>,
                    mode: Mode, b: nat, rpos: nat)
    requires rpos == DATA_START + Total(older) && Sweeps(mode)
    requires rpos + Size(e) + Total(newer) <= U32_MAX
    requires Shifted(chain, chain', mode, rpos, Size(e))
    requires Flat(chain) == Index(Join(older, e, newer), b, DATA_START)
    ensures Flat(chain')
         == Index(older, b, DATA_START) + (OwnSlot(e, b, rpos) + Index(newer, b, Resume(e, mode, rpos)))
  {
    hide Index, Flat, MovedAll, OwnSlot, MovedChain, Total;
    if mode == Replace0 {
      JoinIndex(older, e, newer, b, DATA_START);
    } else {
      FlatMoved(chain, rpos, Size(e));
      IndexCut(older, e, newer, b, DATA_START);
    }
  }

  lemma OtherChain(chain: Chain, chain': Chain, older: seq<Entry>, e: Entry, newer: seq<Entry>,
                   mode: Mode, b: nat, rpos: nat)
    requires rpos == DATA_START + Total(older) && Sweeps(mode)
    requires rpos + Size(e) + Total(newer) <= U32_MAX
    requires Shifted(chain, chain', mode, rpos, Size(e)) && !InBucket(e, b)
    requires Flat(chain) == Index(Join(older, e, newer), b, DATA_START)
    ensures Flat(chain') == Index(Deleted(older, e, newer, mode), b, DATA_START)
  {
    FlatShifted(chain, chain', older, e, newer, mode, b, rpos);
    IndexDeleted(older, e, newer, mode, b, rpos);
    assert [] + Index(newer, b, Resume(e, mode, rpos)) == Index(newer, b, Resume(e, mode, rpos));
  }

  lemma OwnChain(chain: Chain, chain': Chain, bi: nat, ri: nat, older: seq<Entry>, e: Entry, newer: seq<Entry>,
                 mode: Mode, b: nat, rpos: nat)
    requires rpos == DATA_START + Total(older) && Sweeps(mode)
    requires rpos + Size(e) + Total(newer) <= U32_MAX
    requires Shifted(chain, chain', mode, rpos, Size(e)) && InBucket(e, b)
    requires Flat(chain) == Index(Join(older, e, newer), b, DATA_START)
    requires bi < |chain| && ri < |chain[bi]|
    requires Index(older, b, DATA_START) == Flat(chain[bi + 1..]) + chain[bi][..ri]
    ensures |chain'| == |chain| && |chain'[bi]| == |chain[bi]|
    ensures Flat(chain'[bi := Without(chain'[bi], ri)]) == Index(Deleted(older, e, newer, mode), b, DATA_START)
    ensures Index(older, b, DATA_START) == Flat(chain'[bi + 1..]) + chain'[bi][..ri]
  {
    hide Index, Flat, MovedAll, Total, Deleted;
    var s := Slot(Hash(e.key), rpos);
    FlatShifted(chain, chain', older, e, newer, mode, b, rpos);
    IndexDeleted(older, e, newer, mode, b, rpos);
    if mode == Replace {
      FlatMoved(chain[bi + 1..], rpos, Size(e));
      assert chain'[bi + 1..] == MovedChain(chain[bi + 1..], rpos, Size(e));
    }
    FlatRemove(chain', bi, ri, Index(older, b, DATA_START), s, Index(newer, b, Resume(e, mode, rpos)));
  }

  lemma {:induction false} NotIndexed(es: seq<Entry>, b: nat, off: nat)
    requires Index(es, b, off) == []
    ensures forall i :: 0 <= i < |es| ==> !InBucket(es[i], b)
  {
    if es != [] {
      NotIndexed(es[1..], b, off + Size(es[0]));
    }
  }

  /**
   * findrec goes from one slot to the next older one: the entry of that slot, and the entries
   * behind it that are not in this bucket, join those already gone through.
   */
  lemma StepBack(older: seq<Entry>, b: nat, slots: seq<Slot>, key: seq<byte>, mode: Mode, seen: seq<Entry>)
    returns (older': seq<Entry>, e: Entry, between: seq<Entry>)
    requires b == Hash(key) % 256 && slots != [] && Index(older, b, DATA_START) == slots
    ensures older == Join(older', e, between) && InBucket(e, b)
    ensures slots[|slots| - 1] == Slot(Hash(e.key), DATA_START + Total(older'))
    ensures Index(older', b, DATA_START) == slots[..|slots| - 1]
    ensures older + seen == older' + ([e] + (between + seen))
    ensures older + Swept(seen, key, mode) == Join(older', e, between + Swept(seen, key, mode))
    ensures Swept([e] + (between + seen), key, mode)
         == if Match(e, key) && Sweeps(mode) then Deleted([], e, between + Swept(seen, key, mode), mode)
            else [e] + (between + Swept(seen, key, mode))
    ensures Vals([e] + (between + seen), key) == OwnVal(e, key) + Vals(seen, key)
  {
    hide Index, Swept, Sweeps, Vals, Total, Deleted;
    older', e, between := SplitAt(older, b, DATA_START, |slots| - 1);
    assert slots[|slots|..] == [];
    NotIndexed(between, b, DATA_START + Total(older') + Size(e));
    assert forall i :: 0 <= i < |between| ==> !Match(between[i], key);
    BackSwept(e, between, seen, key, mode);
    BackVals(e, between, seen, key);
    Assoc(older', [e] + between, seen);
    Assoc(older', [e] + between, Swept(seen, key, mode));
    Assoc([e], between, seen);
    Assoc([e], between, Swept(seen, key, mode));
  }

  /** A pass over an entry and entries of other keys behind it. */
  lemma BackSwept(e: Entry, between: seq<Entry>, seen: seq<Entry>, key: seq<byte>, mode: Mode)
    requires forall i :: 0 <= i < |between| ==> !Match(between[i], key)
    ensures Swept([e] + (between + seen), key, mode)
         == if Match(e, key) && Sweeps(mode) then Deleted([], e, between + Swept(seen, key, mode), mode)
            else [e] + (between + Swept(seen, key, mode))
  {
    hide Match, Gap;
    ConsTail(e, between + seen);
    SweepSkip(between, seen, key, mode);
    var rest := between + Swept(seen, key, mode);
    assert [] + rest == rest && [] + ([Gap(e)] + rest) == [Gap(e)] + rest;
  }

  lemma BackVals(e: Entry, between: seq<Entry>, seen: seq<Entry>, key: seq<byte>)
    requires forall i :: 0 <= i < |between| ==> !Match(between[i], key)
    ensures Vals([e] + (between + seen), key) == OwnVal(e, key) + Vals(seen, key)
  {
    hide Match;
    NoVals(between, key);
    ValsConcat(between, seen, key);
    ConsTail(e, between + seen);
    assert [] + Vals(seen, key) == Vals(seen, key);
  }

  lemma {:induction false} LiveBound(es: seq<Entry>)
    ensures 8 * Live(es) <= Total(es)
  {
    if es != [] {
      LiveBound(es[1..]);
    }
  }
}
