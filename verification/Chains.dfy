/** The writer's index in memory: per bucket a chain of blocks, the newest block first. */
module Chains {
  import opened Bytes
  import opened ProbeTable
  import opened Records

  const BLOCK_SIZE := 254

  type Chain = seq<seq<Slot>>

  /** The slots of a chain, oldest first. */
  function Flat(chain: Chain): seq<Slot>
  {
    if chain == [] then [] else Flat(chain[1..]) + chain[0]
  }

  lemma {:induction false} FlatSplit(chain: Chain, i: nat)
    requires i < |chain|
    ensures Flat(chain) == Flat(chain[i + 1..]) + chain[i] + Flat(chain[..i])
  {
    if i > 0 {
      FlatSplit(chain[1..], i - 1);
      assert chain[1..][i..] == chain[i + 1..];
      assert chain[..i][1..] == chain[1..][..i - 1];
      var older, block, newer := Flat(chain[i + 1..]), chain[i], Flat(chain[1..][..i - 1]);
      assert older + block + newer + chain[0] == older + block + (newer + chain[0]);
    } else {
      assert Flat(chain[..0]) == [];
      assert Flat(chain) == Flat(chain[1..]) + chain[0] + [];
    }
  }

  lemma FlatUpdate(chain: Chain, i: nat, block: seq<Slot>)
    requires i < |chain|
    ensures Flat(chain[i := block]) == Flat(chain[i + 1..]) + block + Flat(chain[..i])
  {
    FlatSplit(chain[i := block], i);
    assert chain[i := block][i + 1..] == chain[i + 1..];
    assert chain[i := block][..i] == chain[..i];
  }

  /** Where a slot points after the `rlen` bytes at `rpos` are gone. */
  function Moved(s: Slot, rpos: nat, rlen: u32): Slot {
    if s.rpos > rpos && s.rpos <= U32_MAX then Slot(s.hval, Sub32(s.rpos, rlen)) else s
  }

  function MovedAll(slots: seq<Slot>, rpos: nat, rlen: u32): (moved: seq<Slot>)
    ensures |moved| == |slots|
  {
    seq(|slots|, i requires 0 <= i < |slots| => Moved(slots[i], rpos, rlen))
  }

  function MovedChain(chain: Chain, rpos: nat, rlen: u32): (moved: Chain)
    ensures |moved| == |chain|
    ensures forall i :: 0 <= i < |chain| ==> |moved[i]| == |chain[i]|
  {
    seq(|chain|, i requires 0 <= i < |chain| => MovedAll(chain[i], rpos, rlen))
  }

  lemma MovedConcat(a: seq<Slot>, b: seq<Slot>, rpos: nat, rlen: u32)
    ensures MovedAll(a + b, rpos, rlen) == MovedAll(a, rpos, rlen) + MovedAll(b, rpos, rlen)
  {
  }

  lemma {:induction false} FlatMoved(chain: Chain, rpos: nat, rlen: u32)
    ensures Flat(MovedChain(chain, rpos, rlen)) == MovedAll(Flat(chain), rpos, rlen)
  {
    if chain != [] {
      FlatMoved(chain[1..], rpos, rlen);
      assert MovedChain(chain, rpos, rlen)[1..] == MovedChain(chain[1..], rpos, rlen);
      MovedConcat(Flat(chain[1..]), chain[0], rpos, rlen);
    }
  }

  /** Records in front of the hole stay where they are. */
  lemma MovedBefore(slots: seq<Slot>, rpos: nat, rlen: u32)
    requires forall i :: 0 <= i < |slots| ==> slots[i].rpos <= rpos
    ensures MovedAll(slots, rpos, rlen) == slots
  {
  }

  /** Records behind the hole are found where the index of the closed-up section has them. */
  lemma {:induction false} MovedAfter(c: seq<Entry>, b: nat, off: nat, rpos: nat, rlen: u32)
    requires rpos < off + rlen && off + rlen + Total(c) <= U32_MAX
    ensures MovedAll(Index(c, b, off + rlen), rpos, rlen) == Index(c, b, off)
  {
    if c != [] {
      var off' := off + Size(c[0]);
      MovedAfter(c[1..], b, off', rpos, rlen);
      MovedConcat(OwnSlot(c[0], b, off + rlen), Index(c[1..], b, off' + rlen), rpos, rlen);
      assert MovedAll(OwnSlot(c[0], b, off + rlen), rpos, rlen) == OwnSlot(c[0], b, off);
    }
  }

  /** Everything older than a slot at or before the hole is at or before the hole as well. */
  lemma OlderBefore(chain: Chain, bi: nat, ri: nat, rpos: nat, hi: nat)
    requires bi < |chain| && ri < |chain[bi]| && chain[bi][ri].rpos <= rpos
    requires Ascending(Flat(chain), 0, hi)
    ensures forall k :: 0 <= k <= ri ==> chain[bi][k].rpos <= rpos
    ensures forall i, k :: bi < i < |chain| && 0 <= k < |chain[i]| ==> chain[i][k].rpos <= rpos
  {
    hide Flat, Ascending;
    FlatSplit(chain, bi);
    var older, all := Flat(chain[bi + 1..]), Flat(chain);
    assert all[|older| + ri] == chain[bi][ri];
    forall k | 0 <= k <= ri ensures chain[bi][k].rpos <= rpos {
      assert all[|older| + k] == chain[bi][k];
      Earlier(all, |older| + k, |older| + ri, hi);
    }
    forall i, k | bi < i < |chain| && 0 <= k < |chain[i]| ensures chain[i][k].rpos <= rpos {
      var p := InOlder(chain[bi + 1..], i - bi - 1, k);
      assert chain[bi + 1..][i - bi - 1] == chain[i] && all[p] == older[p];
      Earlier(all, p, |older| + ri, hi);
    }
  }

  lemma Earlier(all: seq<Slot>, p: nat, q: nat, hi: nat)
    requires p <= q < |all| && Ascending(all, 0, hi)
    ensures all[p].rpos <= all[q].rpos
  {
  }

  /** Where a slot of a block stands among all slots. */
  lemma InOlder(chain: Chain, i: nat, k: nat) returns (p: nat)
    requires i < |chain| && k < |chain[i]|
    ensures p < |Flat(chain)| && Flat(chain)[p] == chain[i][k]
  {
    hide Flat;
    FlatSplit(chain, i);
    p := |Flat(chain[i + 1..])| + k;
  }
}
