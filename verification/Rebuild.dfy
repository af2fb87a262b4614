/** Dumping a database and building it again from the dump, record by record with ADD. */
module Rebuild {
  import opened Bytes
  import opened CdbRun
  import opened Dump
  import opened Layout
  import opened Records
  import opened Updates

  /** The calls that a parsed dump leads to. */
  function AddCalls(recs: seq<Rec>): (calls: seq<Call>)
    ensures |calls| == |recs|
  {
    seq(|recs|, i requires 0 <= i < |recs| => Call(Add, recs[i].key, recs[i].val))
  }

  /** The entries with every gap turned into a record. */
  function Alive(es: seq<Entry>): (alive: seq<Entry>)
    ensures |alive| == |es|
  {
    if es == [] then [] else [es[0].(live := true)] + Alive(es[1..])
  }

  lemma {:induction false} AliveConcat(a: seq<Entry>, b: seq<Entry>)
    ensures Alive(a + b) == Alive(a) + Alive(b)
  {
    if a == [] {
      assert a + b == b;
    } else {
      assert (a + b)[1..] == a[1..] + b;
      AliveConcat(a[1..], b);
    }
  }

  lemma {:induction false} AliveSums(es: seq<Entry>)
    ensures Total(Alive(es)) == Total(es) && Live(Alive(es)) == |es|
  {
    if es != [] {
      AliveSums(es[1..]);
      assert Alive(es)[1..] == Alive(es[1..]);
    }
  }

  lemma {:induction false} RecAt(es: seq<Entry>, i: nat)
    requires i < |es|
    ensures |RecsOf(es)| == |es| && RecsOf(es)[i] == Rec(es[i].key, es[i].val)
  {
    if |es| > 1 {
      RecAt(es[1..], if i == 0 then 0 else i - 1);
    }
  }

  lemma RecsSize(es: seq<Entry>)
    ensures |RecsOf(es)| == |es|
  {
    if es != [] {
      RecAt(es, 0);
    }
  }

  lemma CallAt(es: seq<Entry>, k: nat)
    requires k < |es|
    ensures |RecsOf(es)| == |es| && AddCalls(RecsOf(es))[k] == Call(Add, es[k].key, es[k].val)
  {
    RecAt(es, k);
  }

  /** Adding the first `k` records again puts the first `k` entries in place, gaps as records. */
  lemma {:induction false} AddsAgain(es: seq<Entry>, k: nat)
    requires k <= |es| && DATA_START + Total(es) <= U32_MAX
    ensures |RecsOf(es)| == |es| && Run(AddCalls(RecsOf(es))[..k]).es == Alive(es[..k])
    ensures Total(Alive(es[..k])) + 8 * (|es| - k) <= Total(es)
  {
    hide Total, PutSpec, Vals, Size, RecsOf, AddCalls;
    RecsSize(es);
    AliveSums(es[..k]);
    assert es == es[..k] + es[k..];
    TotalConcat(es[..k], es[k..]);
    Sizes(es[k..]);
    if k == 0 {
      assert Run(AddCalls(RecsOf(es))[..0]).es == [] == Alive([]);
    } else {
      var calls, e := AddCalls(RecsOf(es)), es[k - 1];
      AddsAgain(es, k - 1);
      CallAt(es, k - 1);
      assert es[..k] == es[..k - 1] + [e];
      AliveConcat(es[..k - 1], [e]);
      AliveSums(es[..k - 1]);
      TotalConcat(es[..k - 1], [e]);
      OneAlive(e);
      AddFits(Alive(es[..k - 1]), e);
      assert calls[..k] == calls[..k - 1] + [calls[k - 1]];
      hide Run, Alive;
      RunMore(calls[..k - 1], calls[k - 1]);
    }
  }

  lemma AddFits(es: seq<Entry>, e: Entry)
    requires DATA_START + Total(es) + Size(e) <= U32_MAX
    ensures PutSpec(es, Add, e.key, e.val).es == es + [Entry(e.key, e.val, true)]
  {
    hide Total, PutSpec;
    PutFits(es, Add, e.key, e.val);
  }

  lemma OneAlive(e: Entry)
    ensures Total([e]) == Size(e) && Alive([e]) == [Entry(e.key, e.val, true)]
  {
    assert [e][1..] == [];
  }

  ghost predicate NoneLost(es: seq<Entry>, key: seq<byte>) {
    forall i :: 0 <= i < |es| && es[i].key == key ==> es[i].live
  }

  lemma NoneLostCons(es: seq<Entry>, key: seq<byte>)
    requires es != []
    ensures NoneLost(es, key) <==> (es[0].key == key ==> es[0].live) && NoneLost(es[1..], key)
  {
    if NoneLost(es, key) {
      assert forall i :: 0 <= i < |es[1..]| ==> es[1..][i] == es[i + 1];
    }
    assert forall i :: 0 < i < |es| ==> es[i] == es[1..][i - 1];
  }

  lemma Behind(own: seq<seq<byte>>, a: seq<seq<byte>>, b: seq<seq<byte>>)
    ensures own + a == own + b <==> a == b
  {
    assert (own + a)[|own|..] == a && (own + b)[|own|..] == b;
  }

  /** A key has its old values exactly if no gap carries it. */
  lemma {:induction false} AliveVals(es: seq<Entry>, key: seq<byte>)
    ensures |Vals(Alive(es), key)| >= |Vals(es, key)|
    ensures Vals(Alive(es), key) == Vals(es, key) <==> NoneLost(es, key)
  {
    if es != [] {
      AliveVals(es[1..], key);
      NoneLostCons(es, key);
      assert Alive(es)[1..] == Alive(es[1..]);
      Behind(OwnVal(es[0], key), Vals(es[1..], key), Vals(Alive(es[1..]), key));
    }
  }

  ghost predicate NoGap(es: seq<Entry>) {
    forall i :: 0 <= i < |es| ==> es[i].live
  }

  /**
   * The rebuilt database has the values of the old one under every key if and only if the old one has no gaps:
   * a gap left by REPLACE0 comes back as a record of the empty key.
   */
  lemma Rebuilt(es: seq<Entry>)
    requires DATA_START + Total(es) <= U32_MAX
    ensures (forall key :: Vals(Run(AddCalls(RecsOf(es))).es, key) == Vals(es, key)) <==> NoGap(es)
  {
    AddsAgain(es, |es|);
    assert es[..|es|] == es && AddCalls(RecsOf(es))[..|es|] == AddCalls(RecsOf(es));
    forall key ensures Vals(Alive(es), key) == Vals(es, key) <==> NoneLost(es, key) {
      AliveVals(es, key);
    }
    if !NoGap(es) {
      var i :| 0 <= i < |es| && !es[i].live;
      assert Vals(Alive(es), es[i].key) != Vals(es, es[i].key);
    }
  }

  /** Dump, parse, build and query: the values are those of the entries with every gap made a record. */
  method DumpAndRebuild(image: seq<byte>, blen: nat, key: seq<byte>, ghost es: seq<Entry>)
    returns (values: seq<seq<byte>>)
    requires Finished(image, es) && blen > 0 && |key| <= U32_MAX
    requires DATA_START + Total(es) + 16 * |es| <= U32_MAX
    ensures NoGap(es) ==> values == Vals(es, key)
    ensures values == Vals(Alive(es), key)
  {
    hide Finished, DumpFrom, ParseFrom, Vals, Expected, Total;
    DumpStart(image, es);
    DumpParseDatabase(image, es);
    var text := DumpMode(image, blen);
    var recs := ParseFile(text.value);
    var calls := AddCalls(recs.value);
    AddsRoomy(es);
    values := BuildAndQuery(calls, key);
    RunVals(calls, key);
    AliveVals(es, key);
  }

  lemma DumpStart(image: seq<byte>, es: seq<Entry>)
    requires Finished(image, es) && DATA_START + Total(es) <= U32_MAX
    ensures Holds(image, es, DATA_START) && DATA_START <= |image| && Word(image, 0) == DATA_START + Total(es)
  {
    hide Holds, TableAt, Word, Total, Table, TableSize;
    assert TocEntry(image, es, 0);
  }

  lemma {:induction false} AddsRoomy(es: seq<Entry>)
    requires DATA_START + Total(es) + 16 * |es| <= U32_MAX
    ensures var calls := AddCalls(RecsOf(es));
      && Roomy(calls) && Run(calls).es == Alive(es)
      && DATA_START + Total(Run(calls).es) + 16 * Live(Run(calls).es) <= U32_MAX
  {
    var calls := AddCalls(RecsOf(es));
    RecsSize(es);
    AliveSums(es);
    forall k | 0 <= k <= |calls|
      ensures DATA_START + Total(Run(calls[..k]).es) <= U32_MAX
      ensures k < |calls| ==> |calls[k].key| <= U32_MAX && |calls[k].val| <= U32_MAX
    {
      AddsAgain(es, k);
      if k < |calls| {
        RecAt(es, k);
        EntryWithin(es, k);
      }
    }
    AddsAgain(es, |es|);
    assert es[..|es|] == es && calls[..|es|] == calls;
  }

  lemma {:induction false} EntryWithin(es: seq<Entry>, k: nat)
    requires k < |es|
    ensures Size(es[k]) <= Total(es)
  {
    if k > 0 {
      EntryWithin(es[1..], k - 1);
    }
  }

  /** Two keys, and the first one replaced with REPLACE0. */
  function GapCalls(): seq<Call> {
    [Call(Add, [1], []), Call(Add, [2], []), Call(Replace0, [1], [])]
  }

  lemma RunGap(a: Entry, b: Entry, gap: Entry)
    requires a == Entry([1], [], true) && b == Entry([2], [], true) && gap == Entry([], [0], false)
    ensures Run(GapCalls()).es == [gap, b, a]
  {
    SweptGap(a, b, gap);
    GapSums(gap, b, a);
    var first, second, third := Call(Add, [1], []), Call(Add, [2], []), Call(Replace0, [1], []);
    assert [] + [first] == [first] && [first] + [second] == [first, second];
    assert [first, second] + [third] == GapCalls();
    hide *;
    RunMore([], first);
    RunMore([first], second);
    RunMore([first, second], third);
    NothingRun();
    AddFits([], a);
    AddFits([a], b);
    PutFits([a, b], Replace0, [1], []);
    assert [] + [a] == [a] && [a] + [b] == [a, b] && [gap, b] + [a] == [gap, b, a];
  }

  lemma NothingRun()
    ensures Run([]).es == [] && Total([]) == 0
  {
  }

  /** The gap that REPLACE0 leaves is no record, but comes back as one of the empty key. */
  lemma GapComesBack()
    ensures var es := Run(GapCalls()).es;
      && !NoGap(es) && Vals(es, []) == [] && Vals(Run(AddCalls(RecsOf(es))).es, []) == [[0]]
  {
    var a, b, gap := Entry([1], [], true), Entry([2], [], true), Entry([], [0], false);
    var es := [gap, b, a];
    hide Run, Total, Vals, Alive, AddCalls, RecsOf;
    RunGap(a, b, gap);
    RecsSize(es);
    GapSums(gap, b, a);
    AddsAgain(es, |es|);
    assert es[..|es|] == es && AddCalls(RecsOf(es))[..|es|] == AddCalls(RecsOf(es));
    assert !es[0].live;
  }

  lemma SweptGap(a: Entry, b: Entry, gap: Entry)
    requires a == Entry([1], [], true) && b == Entry([2], [], true) && gap == Entry([], [0], false)
    ensures Swept([a, b], [1], Replace0) == [gap, b]
  {
    assert [a, b][1..] == [b] && [b][1..] == [] && Gap(a) == gap;
    assert Sweep([b], [1], Replace0) == [b];
  }

  lemma GapSums(gap: Entry, b: Entry, a: Entry)
    requires a == Entry([1], [], true) && b == Entry([2], [], true) && gap == Entry([], [0], false)
    ensures Total([a]) == Size(a) == Size(b) == 9 && Total([gap, b]) == 18 && Total([gap, b, a]) == 27
    ensures Vals([gap, b, a], []) == [] && Vals(Alive([gap, b, a]), []) == [[0]]
  {
    assert [gap, b][1..] == [b] && [b][1..] == [] && [gap, b, a][1..] == [b, a] && [b, a][1..] == [a] && [a][1..] == [];
    OneAlive(a);
    OneAlive(b);
    assert Total([b, a]) == 18;
    assert Vals([a], []) == [] && Vals([b, a], []) == [];
    assert Alive([a]) == [a] && Alive([b, a]) == [b, a] && Alive([gap, b, a]) == [gap.(live := true), b, a];
    assert [gap.(live := true), b, a][1..] == [b, a];
  }
}
