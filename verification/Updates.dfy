/** What cdb_make_put does to a half-written database, mode by mode, and to the multimap it builds. */
module Updates {
  import opened Bytes
  import opened Seqs
  import opened Records

  datatype Mode = Add | Replace | Insert | Warn | Replace0

  /** What REPLACE0 leaves in place of a record: the form of a record, with no key and zeros. */
  function Gap(e: Entry): (gap: Entry)
    ensures Size(gap) == Size(e) && !gap.live
  {
    Entry([], seq(Size(e) - 8, _ => 0), false)
  }

  /**
   * The data section after every record of `key` was deleted, newest first. A record at the very
   * end is always cut off; elsewhere REPLACE closes the hole and REPLACE0 zero-fills it.
   */
  function Sweep(es: seq<Entry>, key: seq<byte>, mode: Mode): seq<Entry>
  {
    if es == [] then []
    else
      var rest := Sweep(es[1..], key, mode);
      if !Match(es[0], key) then [es[0]] + rest
      else if mode == Replace0 && rest != [] then [Gap(es[0])] + rest
      else rest
  }

  predicate Sweeps(mode: Mode) {
    mode == Replace || mode == Replace0
  }

  /** What a pass of findrec in `mode` leaves of the entries it went through. */
  function Swept(es: seq<Entry>, key: seq<byte>, mode: Mode): seq<Entry> {
    if Sweeps(mode) then Sweep(es, key, mode) else es
  }

  lemma {:induction false} SweepSkip(a: seq<Entry>, c: seq<Entry>, key: seq<byte>, mode: Mode)
    requires forall i :: 0 <= i < |a| ==> !Match(a[i], key)
    ensures Sweep(a + c, key, mode) == a + Sweep(c, key, mode)
  {
    hide Match, Gap;
    if a == [] {
      assert a + c == c;
    } else {
      ConcatTail(a, c);
      assert Sweep(a + c, key, mode) == [a[0]] + Sweep(a[1..] + c, key, mode);
      SweepSkip(a[1..], c, key, mode);
      hide Sweep;
      Assoc([a[0]], a[1..], Sweep(c, key, mode));
    }
  }

  lemma ValsCons(e: Entry, rest: seq<Entry>, other: seq<byte>)
    ensures Vals([e] + rest, other) == OwnVal(e, other) + Vals(rest, other)
  {
    ConsTail(e, rest);
  }

  lemma ValsFirst(es: seq<Entry>, other: seq<byte>)
    requires es != []
    ensures Vals(es, other) == OwnVal(es[0], other) + Vals(es[1..], other)
  {
  }

  lemma NoOwnVal(e: Entry, other: seq<byte>)
    requires !Match(e, other)
    ensures forall vals :: OwnVal(e, other) + vals == vals
  {
  }

  /** Deleting a key leaves every other key's values as they were, in either mode. */
  lemma {:induction false} SweepVals(es: seq<Entry>, key: seq<byte>, mode: Mode, other: seq<byte>)
    ensures Vals(Sweep(es, key, mode), other) == if other == key then [] else Vals(es, other)
  {
    if es != [] {
      SweepVals(es[1..], key, mode, other);
      var e, rest := es[0], Sweep(es[1..], key, mode);
      hide Vals, OwnVal, Gap;
      ValsFirst(es, other);
      ValsCons(e, rest, other);
      ValsCons(Gap(e), rest, other);
      NoOwnVal(Gap(e), other);
      if !Match(e, other) {
        NoOwnVal(e, other);
      }
    } else {
      NothingSwept(key, mode, other);
    }
  }

  lemma NothingSwept(key: seq<byte>, mode: Mode, other: seq<byte>)
    ensures Sweep([], key, mode) == [] && Vals([], other) == []
  {
  }

  /** The records of a data section without its gaps. */
  function LiveOnly(es: seq<Entry>): seq<Entry> {
    if es == [] then [] else (if es[0].live then [es[0]] else []) + LiveOnly(es[1..])
  }

  /** Closing the holes and zero-filling them leave the same records. */
  lemma {:induction false} SweepsAgree(es: seq<Entry>, key: seq<byte>)
    ensures LiveOnly(Sweep(es, key, Replace)) == LiveOnly(Sweep(es, key, Replace0))
    ensures Total(Sweep(es, key, Replace)) <= Total(Sweep(es, key, Replace0)) <= Total(es)
  {
    if es != [] {
      SweepsAgree(es[1..], key);
      var closed, filled := Sweep(es[1..], key, Replace), Sweep(es[1..], key, Replace0);
      ConsTail(es[0], closed);
      ConsTail(es[0], filled);
      ConsTail(Gap(es[0]), filled);
      assert [] + LiveOnly(filled) == LiveOnly(filled);
    }
  }

  lemma {:induction false} NoVals(es: seq<Entry>, key: seq<byte>)
    ensures Vals(es, key) == [] <==> forall i :: 0 <= i < |es| ==> !Match(es[i], key)
  {
    if es != [] {
      NoVals(es[1..], key);
      assert forall i :: 0 < i < |es| ==> es[i] == es[1..][i - 1];
    }
  }

  /** The overflow guard of _cdb_make_add, in its own arithmetic. */
  predicate Rejects(dpos: nat, klen: nat, vlen: nat) {
    || klen > Sub32(U32_MAX, Add32(dpos, 8))
    || vlen > Sub32(U32_MAX, Add32(Add32(dpos, klen), 8))
  }

  /**
   * The guard admits exactly the records that end within 32 bits if and only if the data section
   * itself leaves room for two length words.
   */
  lemma GuardExact(dpos: u32)
    ensures (forall klen: u32, vlen: u32 ::
               !Rejects(dpos, klen, vlen) <==> dpos + 8 + klen + vlen <= U32_MAX)
       <==> dpos <= U32_MAX - 8
  {
    if dpos > U32_MAX - 8 {
      assert !Rejects(dpos, 0, 0);
    } else {
      forall klen: u32, vlen: u32
        ensures !Rejects(dpos, klen, vlen) <==> dpos + 8 + klen + vlen <= U32_MAX
      {
        GuardWithin(dpos, klen, vlen);
      }
    }
  }

  lemma GuardWithin(dpos: nat, klen: nat, vlen: nat)
    requires dpos <= U32_MAX - 8 && klen <= U32_MAX && vlen <= U32_MAX
    ensures !Rejects(dpos, klen, vlen) <==> dpos + 8 + klen + vlen <= U32_MAX
  {
  }

  /** The entries after a call of cdb_make_put, and its return value. */
  datatype Outcome = Outcome(es: seq<Entry>, ret: int)

  function PutSpec(es: seq<Entry>, mode: Mode, key: seq<byte>, val: seq<byte>): Outcome {
    var found := mode != Add && Vals(es, key) != [];
    if mode == Insert && found then Outcome(es, 1)
    else
      var swept := Swept(es, key, mode);
      if Rejects(DATA_START + Total(swept), |key|, |val|) then Outcome(swept, -1)
      else Outcome(swept + [Entry(key, val, true)], if found then 1 else 0)
  }

  /** One call of cdb_make_put. */
  datatype Call = Call(mode: Mode, key: seq<byte>, val: seq<byte>)

  function Run(calls: seq<Call>): (o: Outcome)
  {
    if calls == [] then Outcome([], 0)
    else
      var call := calls[|calls| - 1];
      PutSpec(Run(calls[..|calls| - 1]).es, call.mode, call.key, call.val)
  }

  lemma RunMore(calls: seq<Call>, call: Call)
    ensures Run(calls + [call]) == PutSpec(Run(calls).es, call.mode, call.key, call.val)
  {
    assert (calls + [call])[..|calls|] == calls;
  }

  /** A record that fits is put behind the entries that the mode leaves. */
  lemma PutFits(es: seq<Entry>, mode: Mode, key: seq<byte>, val: seq<byte>)
    requires mode != Insert && DATA_START + Total(Swept(es, key, mode)) + 8 + |key| + |val| <= U32_MAX
    ensures PutSpec(es, mode, key, val).es == Swept(es, key, mode) + [Entry(key, val, true)]
    ensures PutSpec(es, mode, key, val).ret >= 0
  {
    hide Total, Vals, Sweep, Rejects;
    GuardWithin(DATA_START + Total(Swept(es, key, mode)), |key|, |val|);
  }

  /** What a call that returned `ret` makes of the values under its own key. */
  function AfterPut(before: seq<seq<byte>>, mode: Mode, val: seq<byte>, ret: int): seq<seq<byte>>
  {
    if ret < 0 then (if Sweeps(mode) then [] else before)
    else match mode
      case Add => before + [val]
      case Warn => before + [val]
      case Insert => if before == [] then [val] else before
      case Replace => [val]
      case Replace0 => [val]
  }

  /** The values a user expects under `key` after the calls, from the calls and their results alone. */
  function Expected(calls: seq<Call>, key: seq<byte>): seq<seq<byte>>
  {
    if calls == [] then []
    else
      var call := calls[|calls| - 1];
      var before := Expected(calls[..|calls| - 1], key);
      if call.key != key then before else AfterPut(before, call.mode, call.val, Run(calls).ret)
  }

  lemma AddVals(es: seq<Entry>, key: seq<byte>, val: seq<byte>, other: seq<byte>)
    ensures Vals(es + [Entry(key, val, true)], other) == Vals(es, other) + if other == key then [val] else []
  {
    var e := Entry(key, val, true);
    ValsConcat(es, [e], other);
    assert [e][1..] == [];
  }

  lemma PutOther(es: seq<Entry>, mode: Mode, key: seq<byte>, val: seq<byte>, other: seq<byte>)
    requires other != key
    ensures Vals(PutSpec(es, mode, key, val).es, other) == Vals(es, other)
  {
    var swept := Swept(es, key, mode);
    SweepVals(es, key, mode, other);
    AddVals(swept, key, val, other);
  }

  lemma PutVals(es: seq<Entry>, mode: Mode, key: seq<byte>, val: seq<byte>)
    ensures Vals(PutSpec(es, mode, key, val).es, key)
         == AfterPut(Vals(es, key), mode, val, PutSpec(es, mode, key, val).ret)
    ensures PutSpec(es, mode, key, val).ret >= 0 ==>
              (PutSpec(es, mode, key, val).ret == 1 <==> mode != Add && Vals(es, key) != [])
  {
    var swept := Swept(es, key, mode);
    SweepVals(es, key, mode, key);
    AddVals(swept, key, val, key);
  }

  /** Whatever the modes were, the index stands for the multimap the calls were to build. */
  lemma {:induction false} RunVals(calls: seq<Call>, key: seq<byte>)
    ensures Vals(Run(calls).es, key) == Expected(calls, key)
  {
    if calls != [] {
      var init, call := calls[..|calls| - 1], calls[|calls| - 1];
      RunVals(init, key);
      if call.key == key {
        PutVals(Run(init).es, call.mode, key, call.val);
      } else {
        PutOther(Run(init).es, call.mode, call.key, call.val, key);
      }
    }
  }
}
