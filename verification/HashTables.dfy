/**
 * The table building of cdb_make_finish in its one block of memory: tables are filled in slots
 * that start two cells into the block and packed from its first cell on.
 */
module HashTables {
  import opened Bytes
  import opened Seqs
  import opened ProbeTable
  import opened Layout
  import opened Chains

  /** Eight bytes of the block: a native record, or two packed words (the second one written later). */
  datatype Cell = Native(slot: Slot) | Packed(lo: seq<byte>, hi: seq<byte>)

  /** `htab` starts two cells behind the start `p` of the block. */
  const AHEAD := 2

  ghost predicate Holding(mem: array<Cell>, tab: seq<Slot>)
    reads mem
  {
    && |tab| + AHEAD <= mem.Length
    && forall i :: AHEAD <= i < |tab| + AHEAD ==> mem[i] == Native(tab[i - AHEAD])
  }

  function CellBytes(cells: seq<Cell>): seq<byte>
  {
    if cells == [] then []
    else (if cells[0].Packed? then cells[0].lo + cells[0].hi else []) + CellBytes(cells[1..])
  }

  lemma {:induction false} CellsAreTable(cells: seq<Cell>, tab: seq<Slot>)
    requires |cells| == |tab|
    requires forall i :: 0 <= i < |tab| ==> cells[i] == Packed(Pack(tab[i].hval), Pack(tab[i].rpos))
    ensures CellBytes(cells) == TableBytes(tab)
  {
    if tab != [] {
      CellsAreTable(cells[1..], tab[1..]);
    }
  }

  /** The blocks of a reversed chain, oldest first. */
  function Cat(blocks: seq<seq<Slot>>): seq<Slot>
  {
    if blocks == [] then [] else blocks[0] + Cat(blocks[1..])
  }

  lemma {:induction false} CatConcat(a: seq<seq<Slot>>, b: seq<seq<Slot>>)
    ensures Cat(a + b) == Cat(a) + Cat(b)
  {
    if a == [] {
      assert a + b == b;
    } else {
      ConcatTail(a, b);
      CatConcat(a[1..], b);
      Assoc(a[0], Cat(a[1..]), Cat(b));
    }
  }

  /** The list reversal of cdb_make_finish, and the record count of the chain on the way. */
  method ReverseChain(chain: Chain) returns (reversed: seq<seq<Slot>>, n: nat)
    ensures Cat(reversed) == Flat(chain) && n == |Flat(chain)|
  {
    var rl := chain;
    reversed, n := [], 0;
    ghost var k := 0;
    while rl != []
      invariant k <= |chain| && rl == chain[k..]
      invariant Flat(chain) == Flat(rl) + Cat(reversed)
      invariant n == |Cat(reversed)|
      decreases |rl|
    {
      CatConcat([rl[0]], reversed);
      assert Cat([rl[0]]) == rl[0] + [] == rl[0];
      Assoc(Flat(rl[1..]), rl[0], Cat(reversed));
      reversed := [rl[0]] + reversed;
      n := n + |rl[0]|;
      rl := rl[1..];
      k := k + 1;
    }
    assert [] + Cat(reversed) == Cat(reversed);
  }

  /** What slot a probe looks at after `d` steps, and when it stops. */
  lemma ProbeAt(tab: seq<Slot>, home: nat, d: nat, n: nat)
    requires home < |tab| && d < |tab| && n == |Prefix(Rot(tab, home))|
    ensures d < n ==> tab[Wrap(home, d, |tab|)].rpos != 0
    ensures d == n ==> tab[Wrap(home, d, |tab|)].rpos == 0
  {
    RotSlices(tab, home);
    SeenAt(tab, home, d);
    RunAt(Rot(tab, home), d);
  }

  lemma SeenAt(tab: seq<Slot>, home: nat, d: nat)
    requires home < |tab| && d < |tab|
    ensures (tab[home..] + tab[..home])[d] == tab[Wrap(home, d, |tab|)]
  {
  }

  lemma RunAt(view: seq<Slot>, d: nat)
    requires d < |view|
    ensures d < |Prefix(view)| ==> view[d].rpos != 0
    ensures d == |Prefix(view)| ==> view[d].rpos == 0
  {
    assert d < |Prefix(view)| ==> Prefix(view)[d] == view[d];
  }

  lemma PlacedAt(tab: seq<Slot>, s: Slot, home: nat, hi: nat, n: nat)
    requires 0 < |tab| && home == Home(s.hval, |tab|) && n == |Prefix(Rot(tab, home))| < |tab|
    requires hi == Wrap(home, n, |tab|)
    ensures Place(tab, s) == tab[hi := s]
  {
  }

  /** Puts one record in the first empty slot from its home on. */
  method PlaceSlot(mem: array<Cell>, len: nat, s: Slot, ghost tab: seq<Slot>)
    requires Holding(mem, tab) && |tab| == len && |Bag(tab)| < len
    modifies mem
    ensures Holding(mem, Place(tab, s))
  {
    hide Place, Prefix, Rot, Bag, FreeAt;
    ghost var home := Home(s.hval, len);
    ProbeStops(tab, home);
    ghost var n := |Prefix(Rot(tab, home))|;
    var hi := s.hval / 256 % len;
    ghost var d := 0;
    while mem[hi + AHEAD].slot.rpos != 0
      invariant d <= n && hi == Wrap(home, d, len)
      invariant Holding(mem, tab) && hi < len && mem[hi + AHEAD] == Native(tab[hi])
      decreases n - d
    {
      ProbeAt(tab, home, d, n);
      hi := hi + 1;
      if hi == len {
        hi := 0;
      }
      d := d + 1;
    }
    ProbeAt(tab, home, d, n);
    PlacedAt(tab, s, home, hi, n);
    mem[hi + AHEAD] := Native(s);
  }

  /** Clears `len` slots and enters the records of the reversed chain, oldest first. */
  method FillTable(mem: array<Cell>, len: nat, blocks: seq<seq<Slot>>, ghost list: seq<Slot>)
    requires Cat(blocks) == list && 0 < len == 2 * |list| && len + AHEAD <= mem.Length
    requires Occupied(list)
    modifies mem
    ensures Holding(mem, Build(list, len, |list|))
  {
    hide Build, Place, Bag, Occupied, Cat;
    for i := 0 to len
      invariant forall k :: AHEAD <= k < i + AHEAD ==> mem[k] == Native(EMPTY)
    {
      mem[i + AHEAD] := Native(EMPTY);
    }
    BuildStart(list, len);
    ghost var k := 0;
    for j := 0 to |blocks|
      invariant k <= |list| && Holding(mem, Build(list, len, k))
      invariant list[k..] == Cat(blocks[j..])
    {
      var block := blocks[j];
      NextOf(blocks, j);
      ghost var start := k;
      for i := 0 to |block|
        invariant start + |block| <= |list| && k == start + i
        invariant list[start..] == block + Cat(blocks[j + 1..])
        invariant Holding(mem, Build(list, len, k))
      {
        BuildCounts(list, len, k);
        assert list[k] == list[start..][i] == block[i];
        PlaceSlot(mem, len, block[i], Build(list, len, k));
        BuildNext(list, len, k);
        k := k + 1;
      }
      assert list[k..] == list[start..][|block|..];
    }
    NoneLeft(blocks);
  }

  lemma BuildStart(list: seq<Slot>, n: nat)
    requires 0 < n
    ensures Build(list, n, 0) == NoSlots(n)
  {
  }

  lemma BuildNext(list: seq<Slot>, n: nat, k: nat)
    requires 0 < n && k < |list|
    ensures Build(list, n, k + 1) == Place(Build(list, n, k), list[k])
  {
  }

  lemma NextOf(blocks: seq<seq<Slot>>, j: nat)
    requires j < |blocks|
    ensures Cat(blocks[j..]) == blocks[j] + Cat(blocks[j + 1..])
  {
    assert blocks[j..][1..] == blocks[j + 1..];
  }

  lemma NoneLeft(blocks: seq<seq<Slot>>)
    ensures Cat(blocks[|blocks|..]) == [] && blocks[0..] == blocks
  {
  }

  /**
   * Packs the table from the start of the block on. Cell `i` is written after slot `i` was read,
   * and slots still to be read lie at least two cells ahead.
   */
  method PackTable(mem: array<Cell>, len: nat, ghost tab: seq<Slot>) returns (bytes: seq<byte>)
    requires Holding(mem, tab) && |tab| == len
    modifies mem
    ensures bytes == TableBytes(tab)
  {
    for i := 0 to len
      invariant forall k :: 0 <= k < i ==> mem[k] == Packed(Pack(tab[k].hval), Pack(tab[k].rpos))
      invariant forall k :: i + AHEAD <= k < len + AHEAD ==> mem[k] == Native(tab[k - AHEAD])
    {
      mem[i] := Packed(Pack(mem[i + AHEAD].slot.hval), []);
      mem[i] := Packed(mem[i].lo, Pack(mem[i + AHEAD].slot.rpos));
    }
    CellsAreTable(mem[..len], tab);
    bytes := CellBytes(mem[..len]);
  }
}
