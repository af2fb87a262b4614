/**
 * The data section of a cdb file as a sequence of entries, the index that the writer keeps over
 * it, and the multimap it stands for.
 */
module Records {
  import opened Bytes
  import opened Seqs
  import opened ProbeTable

  /** The data section starts behind the table of contents. */
  const DATA_START := 2048

  /** One stretch of the data section; a zero-filled gap has the form of a record but is not live. */
  datatype Entry = Entry(key: seq<byte>, val: seq<byte>, live: bool)

  function Size(e: Entry): nat {
    8 + |e.key| + |e.val|
  }

  function Total(es: seq<Entry>): nat {
    if es == [] then 0 else Size(es[0]) + Total(es[1..])
  }

  predicate InBucket(e: Entry, b: nat) {
    e.live && Hash(e.key) % 256 == b
  }

  function OwnSlot(e: Entry, b: nat, off: nat): seq<Slot> {
    if InBucket(e, b) then [Slot(Hash(e.key), off)] else []
  }

  /** The index of bucket `b`, oldest record first, for entries that start at offset `off`. */
  function Index(es: seq<Entry>, b: nat, off: nat): seq<Slot>
  {
    if es == [] then [] else OwnSlot(es[0], b, off) + Index(es[1..], b, off + Size(es[0]))
  }

  function Live(es: seq<Entry>): nat {
    if es == [] then 0 else (if es[0].live then 1 else 0) + Live(es[1..])
  }

  predicate Match(e: Entry, key: seq<byte>) {
    e.live && e.key == key
  }

  function OwnVal(e: Entry, key: seq<byte>): seq<seq<byte>> {
    if Match(e, key) then [e.val] else []
  }

  /** The values stored under `key`, oldest first. */
  function Vals(es: seq<Entry>, key: seq<byte>): seq<seq<byte>>
  {
    if es == [] then [] else OwnVal(es[0], key) + Vals(es[1..], key)
  }

  lemma {:induction false} TotalConcat(a: seq<Entry>, b: seq<Entry>)
    ensures Total(a + b) == Total(a) + Total(b)
  {
    if a == [] {
      assert a + b == b;
    } else {
      ConcatTail(a, b);
      TotalConcat(a[1..], b);
    }
  }

  lemma {:induction false} Sizes(es: seq<Entry>)
    ensures Total(es) >= 8 * |es|
  {
    if es != [] {
      Sizes(es[1..]);
    }
  }

  lemma {:induction false} IndexConcat(a: seq<Entry>, c: seq<Entry>, b: nat, off: nat)
    ensures Index(a + c, b, off) == Index(a, b, off) + Index(c, b, off + Total(a))
  {
    if a == [] {
      assert a + c == c;
    } else {
      ConcatTail(a, c);
      var off' := off + Size(a[0]);
      IndexConcat(a[1..], c, b, off');
      Assoc(OwnSlot(a[0], b, off), Index(a[1..], b, off'), Index(c, b, off + Total(a)));
    }
  }

  lemma {:induction false} LiveConcat(a: seq<Entry>, b: seq<Entry>)
    ensures Live(a + b) == Live(a) + Live(b)
  {
    if a == [] {
      assert a + b == b;
    } else {
      ConcatTail(a, b);
      LiveConcat(a[1..], b);
    }
  }

  lemma {:induction false} ValsConcat(a: seq<Entry>, b: seq<Entry>, key: seq<byte>)
    ensures Vals(a + b, key) == Vals(a, key) + Vals(b, key)
  {
    if a == [] {
      assert a + b == b;
    } else {
      ConcatTail(a, b);
      ValsConcat(a[1..], b, key);
      Assoc(OwnVal(a[0], key), Vals(a[1..], key), Vals(b, key));
    }
  }

  /** Slots in the order of their positions, each at or behind `lo` and before `hi`. */
  ghost predicate Ascending(slots: seq<Slot>, lo: nat, hi: nat) {
    && (forall i :: 0 <= i < |slots| ==> lo <= slots[i].rpos < hi)
    && (forall i, j :: 0 <= i < j < |slots| ==> slots[i].rpos < slots[j].rpos)
  }

  lemma {:induction false} IndexAscending(es: seq<Entry>, b: nat, off: nat)
    ensures Ascending(Index(es, b, off), off, off + Total(es))
    ensures forall i :: 0 <= i < |Index(es, b, off)| ==> Index(es, b, off)[i].hval % 256 == b
  {
    if es != [] {
      IndexAscending(es[1..], b, off + Size(es[0]));
    }
  }

  /** A section split around one of its entries. */
  function Join(a: seq<Entry>, e: Entry, c: seq<Entry>): seq<Entry> {
    a + ([e] + c)
  }

  lemma JoinSums(a: seq<Entry>, e: Entry, c: seq<Entry>)
    ensures Total(Join(a, e, c)) == Total(a) + Size(e) + Total(c)
    ensures Live(Join(a, e, c)) == Live(a) + (if e.live then 1 else 0) + Live(c)
    ensures Total(a + c) == Total(a) + Total(c) && Live(a + c) == Live(a) + Live(c)
  {
    TotalConcat(a, [e] + c);
    LiveConcat(a, [e] + c);
    ConsTail(e, c);
    TotalConcat(a, c);
    LiveConcat(a, c);
  }

  lemma JoinIndex(a: seq<Entry>, e: Entry, c: seq<Entry>, b: nat, off: nat)
    ensures Index(Join(a, e, c), b, off)
         == Index(a, b, off) + (OwnSlot(e, b, off + Total(a)) + Index(c, b, off + Total(a) + Size(e)))
  {
    IndexConcat(a, [e] + c, b, off);
    ConsTail(e, c);
  }

  /** Every indexed slot belongs to one entry, which splits the section around it. */
  lemma {:induction false} SplitAt(es: seq<Entry>, b: nat, off: nat, i: nat)
    returns (a: seq<Entry>, e: Entry, c: seq<Entry>)
    requires i < |Index(es, b, off)|
    ensures es == Join(a, e, c) && InBucket(e, b)
    ensures Index(es, b, off)[i] == Slot(Hash(e.key), off + Total(a))
    ensures Index(a, b, off) == Index(es, b, off)[..i]
    ensures Index(c, b, off + Total(a) + Size(e)) == Index(es, b, off)[i + 1..]
  {
    var own, off' := OwnSlot(es[0], b, off), off + Size(es[0]);
    var rest := Index(es[1..], b, off');
    if i < |own| {
      a, e, c := [], es[0], es[1..];
      SplitFirst(es, b, off);
    } else {
      assert Index(es, b, off) == own + rest;
      var a';
      a', e, c := SplitAt(es[1..], b, off', i - |own|);
      a := [es[0]] + a';
      SplitMore(es, b, off, a', e, c, own, rest);
      hide *;
      SlotsBehind(own, rest, i);
    }
  }

  lemma SplitFirst(es: seq<Entry>, b: nat, off: nat)
    requires es != [] && InBucket(es[0], b)
    ensures es == Join([], es[0], es[1..])
    ensures var slots := Index(es, b, off);
      && slots != [] && slots[0] == Slot(Hash(es[0].key), off + Total([]))
      && Index([], b, off) == slots[..0] && Index(es[1..], b, off + Total([]) + Size(es[0])) == slots[1..]
  {
    ConsTail(Slot(Hash(es[0].key), off), Index(es[1..], b, off + Size(es[0])));
    assert es == [] + ([es[0]] + es[1..]);
  }

  lemma SlotsBehind(own: seq<Slot>, rest: seq<Slot>, i: nat)
    requires |own| <= i < |own| + |rest|
    ensures (own + rest)[i] == rest[i - |own|]
    ensures (own + rest)[..i] == own + rest[..i - |own|] && (own + rest)[i + 1..] == rest[i - |own| + 1..]
  {
  }

  /** An entry in front of a split section. */
  lemma SplitMore(es: seq<Entry>, b: nat, off: nat, a: seq<Entry>, e: Entry, c: seq<Entry>, own: seq<Slot>,
                  rest: seq<Slot>)
    requires es != [] && own == OwnSlot(es[0], b, off) && es[1..] == Join(a, e, c)
    ensures es == Join([es[0]] + a, e, c) && Total([es[0]] + a) == Size(es[0]) + Total(a)
    ensures Index([es[0]] + a, b, off) == own + Index(a, b, off + Size(es[0]))
  {
    ConsTail(es[0], a);
    assert es == [es[0]] + es[1..];
    Assoc([es[0]], a, [e] + c);
  }

  // Reading records back from an image.

  ghost predicate RecordAt(image: seq<byte>, pos: nat, key: seq<byte>) {
    && pos + 8 + |key| <= |image|
    && Word(image, pos) == |key|
    && Reads(image, pos + 8, key)
    && pos + 8 + |key| + Word(image, pos + 4) <= |image|
  }

  ghost function ValAt(image: seq<byte>, pos: nat, key: seq<byte>): seq<byte>
    requires RecordAt(image, pos, key)
  {
    var vpos := pos + 8 + |key|;
    image[vpos..vpos + Word(image, pos + 4)]
  }

  ghost predicate Hit(image: seq<byte>, s: Slot, key: seq<byte>) {
    s.hval == Hash(key) && RecordAt(image, s.rpos, key)
  }

  ghost function OwnHit(image: seq<byte>, s: Slot, key: seq<byte>): seq<seq<byte>> {
    if Hit(image, s, key) then [ValAt(image, s.rpos, key)] else []
  }

  /** The values that a reader of `image` finds for `key` when it goes through `slots`. */
  ghost function Hits(image: seq<byte>, slots: seq<Slot>, key: seq<byte>): seq<seq<byte>>
  {
    if slots == [] then [] else OwnHit(image, slots[0], key) + Hits(image, slots[1..], key)
  }

  /** The record form of `e` lies in `image` at `off`: two length words, the key, the value. */
  ghost predicate Written(image: seq<byte>, e: Entry, off: nat) {
    && off + Size(e) <= |image|
    && Word(image, off) == |e.key|
    && Word(image, off + 4) == |e.val|
    && Reads(image, off + 8, e.key)
    && Reads(image, off + 8 + |e.key|, e.val)
  }

  /** The entries `es` lie in `image` from offset `off` on. */
  ghost predicate Holds(image: seq<byte>, es: seq<Entry>, off: nat)
    decreases |es|
  {
    if es == [] then off <= |image|
    else Written(image, es[0], off) && Holds(image, es[1..], off + Size(es[0]))
  }

  lemma {:induction false} HoldsWithin(image: seq<byte>, es: seq<Entry>, off: nat)
    requires Holds(image, es, off)
    ensures off + Total(es) <= |image|
    decreases |es|
  {
    if es != [] {
      HoldsWithin(image, es[1..], off + Size(es[0]));
    }
  }

  lemma {:induction false} HoldsConcat(image: seq<byte>, a: seq<Entry>, b: seq<Entry>, off: nat, mid: nat)
    requires mid == off + Total(a)
    ensures Holds(image, a + b, off) <==> Holds(image, a, off) && Holds(image, b, mid)
    decreases |a|
  {
    if a == [] {
      assert a + b == b;
      if Holds(image, b, off) {
        HoldsWithin(image, b, off);
      }
    } else {
      ConcatTail(a, b);
      HoldsConcat(image, a[1..], b, off + Size(a[0]), mid);
    }
  }

  lemma WrittenMoved(image: seq<byte>, image': seq<byte>, e: Entry, off: nat, off': nat)
    requires Written(image, e, off) && Agree(image', off', image, off, Size(e))
    ensures Written(image', e, off')
  {
    var k, v, n := |e.key|, |e.val|, Size(e);
    AgreePart(image', off', image, off, n, 0, 4);
    WordMoved(image', off', image, off);
    AgreePart(image', off', image, off, n, 4, 4);
    WordMoved(image', off' + 4, image, off + 4);
    AgreePart(image', off', image, off, n, 8, k);
    AgreeTrans(image', off' + 8, image, off + 8, e.key, 0, k);
    AgreePart(image', off', image, off, n, 8 + k, v);
    AgreeTrans(image', off' + 8 + k, image, off + 8 + k, e.val, 0, v);
  }

  /** A data section of `t` bytes moves along with its bytes. */
  lemma {:induction false} HoldsMoved(image: seq<byte>, image': seq<byte>, es: seq<Entry>,
                                      off: nat, off': nat, t: nat)
    requires t == Total(es)
    requires Holds(image, es, off) && Agree(image', off', image, off, t)
    ensures Holds(image', es, off')
    decreases |es|
  {
    if es != [] {
      var n := Size(es[0]);
      AgreePart(image', off', image, off, t, 0, n);
      AgreePart(image', off', image, off, t, n, t - n);
      WrittenMoved(image, image', es[0], off, off');
      HoldsMoved(image, image', es[1..], off + n, off' + n, t - n);
    }
  }

  /** An image holds a section if and only if it holds its three parts. */
  lemma HoldsParts(image: seq<byte>, a: seq<Entry>, e: Entry, c: seq<Entry>, off: nat, rpos: nat)
    requires rpos == off + Total(a)
    ensures Holds(image, Join(a, e, c), off)
       <==> Holds(image, a, off) && Written(image, e, rpos) && Holds(image, c, rpos + Size(e))
  {
    HoldsConcat(image, a, [e] + c, off, rpos);
    ConsTail(e, c);
  }

  lemma {:induction false} HitsConcat(image: seq<byte>, a: seq<Slot>, b: seq<Slot>, key: seq<byte>)
    ensures Hits(image, a + b, key) == Hits(image, a, key) + Hits(image, b, key)
  {
    if a == [] {
      assert a + b == b;
    } else {
      ConcatTail(a, b);
      HitsConcat(image, a[1..], b, key);
      Assoc(OwnHit(image, a[0], key), Hits(image, a[1..], key), Hits(image, b, key));
    }
  }

  lemma {:induction false} HitsOfHash(image: seq<byte>, slots: seq<Slot>, key: seq<byte>)
    ensures Hits(image, slots, key) == Hits(image, OfHash(slots, Hash(key)), key)
  {
    if slots != [] {
      HitsOfHash(image, slots[1..], key);
      var rest := OfHash(slots[1..], Hash(key));
      if slots[0].hval == Hash(key) {
        assert ([slots[0]] + rest)[1..] == rest;
      } else {
        assert [] + rest == rest;
        assert OwnHit(image, slots[0], key) + Hits(image, slots[1..], key) == Hits(image, slots[1..], key);
      }
    }
  }

  lemma RecordIsEntry(image: seq<byte>, e: Entry, off: nat, key: seq<byte>)
    requires Written(image, e, off)
    ensures RecordAt(image, off, key) <==> e.key == key
    ensures e.key == key ==> ValAt(image, off, key) == e.val
  {
    ReadsSlice(image, off + 8, key);
    ReadsSlice(image, off + 8, e.key);
    ReadsSlice(image, off + 8 + |e.key|, e.val);
  }

  /** Going through the index of a key's bucket finds exactly the values of that key. */
  lemma {:induction false} HitsAreVals(image: seq<byte>, es: seq<Entry>, off: nat, key: seq<byte>)
    requires Holds(image, es, off)
    ensures Hits(image, Index(es, Hash(key) % 256, off), key) == Vals(es, key)
    decreases |es|
  {
    hide Hash, RecordAt, ValAt, OwnSlot, OwnVal, OwnHit, Written;
    if es != [] {
      var e, b := es[0], Hash(key) % 256;
      var own, rest := OwnSlot(e, b, off), Index(es[1..], b, off + Size(e));
      OwnHitIsVal(image, es, off, key);
      assert Index(es, b, off) == own + rest by {
        hide Hits, Holds, Vals, Size;
      }
      assert Vals(es, key) == OwnVal(e, key) + Vals(es[1..], key) by {
        hide Hits, Holds, Index, Size;
      }
      hide Index, Vals, Hits, Size;
      HitsAreVals(image, es[1..], off + Size(e), key);
      HitsConcat(image, own, rest, key);
    }
  }

  lemma OwnHitIsVal(image: seq<byte>, es: seq<Entry>, off: nat, key: seq<byte>)
    requires es != [] && Holds(image, es, off)
    ensures Hits(image, OwnSlot(es[0], Hash(key) % 256, off), key) == OwnVal(es[0], key)
  {
    RecordIsEntry(image, es[0], off, key);
  }
}
