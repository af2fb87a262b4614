/** The k-way merge of position lists in an OR node. */
module Union {
  import opened Heads
  import opened Turns

  /** The square root of the C library: any function of the number of phrases. */
  const SQRT: nat -> real

  ghost function Weight(info: Info): real {
    info.score * SQRT(info.phrases)
  }

  predicate Heavier(a: Info, b: Info)
    ensures Heavier(a, b) <==> Weight(a) > Weight(b)
  {
    a.score * SQRT(a.phrases) > b.score * SQRT(b.phrases)
  }

  // The order in which the lists are read.

  /** A position that is read, with its entry. */
  datatype Mark = Mark(pos: int, info: Info)

  ghost function MarkOf(lists: seq<PosList>, r: Reader): Mark {
    if r.rest == [] || r.list >= |lists| || |r.rest| > |lists[r.list].info| then Mark(END, Info(0.0, 0, 0.0, ""))
    else Mark(r.rest[0], lists[r.list].info[|lists[r.list].info| - |r.rest|])
  }

  /** The positions in the order in which they are read; `Turns` tells the order of equal ones. */
  ghost function Marks(lists: seq<PosList>, queue: seq<Reader>): seq<Mark>
    decreases Size(queue)
  {
    if queue == [] || queue[0].rest == [] then []
    else
      var r := queue[0];
      SizeEnter(Reader(r.list, r.rest[1..]), queue[1..]);
      [MarkOf(lists, r)] + Marks(lists, Enter(Reader(r.list, r.rest[1..]), queue[1..]))
  }

  ghost function AllMarks(lists: seq<PosList>): seq<Mark>
    requires AllLegal(lists)
  {
    Marks(lists, Line(Poses(lists), 0))
  }

  /** The first of the heaviest entries that are read at its position. */
  ghost predicate FirstHeaviest(marks: seq<Mark>, p: int, info: Info) {
    exists r :: 0 <= r < |marks| && marks[r] == Mark(p, info) && NoneHeavier(marks, r)
  }

  ghost predicate NoneHeavier(marks: seq<Mark>, r: nat)
    requires r < |marks|
  {
    var info := marks[r].info;
    && (forall q :: 0 <= q < |marks| && marks[q].pos == marks[r].pos ==>
          Weight(marks[q].info) <= Weight(info))
    && (forall q :: 0 <= q < r && marks[q].pos == marks[r].pos ==>
          Weight(marks[q].info) < Weight(info))
  }

  ghost predicate Best(marks: seq<Mark>, posList: seq<int>, infoList: seq<Info>) {
    && |posList| == |infoList|
    && (forall e :: 0 <= e < |posList| ==> FirstHeaviest(marks, posList[e], infoList[e]))
    && (forall q :: 0 <= q < |marks| ==> marks[q].pos in posList)
  }

  lemma BestNew(marks: seq<Mark>, posList: seq<int>, infoList: seq<Info>, c: int, info: Info)
    requires Best(marks, posList, infoList) && forall e :: 0 <= e < |posList| ==> posList[e] < c
    ensures Best(marks + [Mark(c, info)], posList + [c], infoList + [info])
  {
    var marks', posList', infoList' := marks + [Mark(c, info)], posList + [c], infoList + [info];
    assert c !in posList;
    forall e | 0 <= e < |posList'| ensures FirstHeaviest(marks', posList'[e], infoList'[e]) {
      if e < |posList| {
        HeaviestMore(marks, posList[e], infoList[e], Mark(c, info));
      } else {
        assert marks'[|marks|] == Mark(c, info) && NoneHeavier(marks', |marks|);
      }
    }
    forall q | 0 <= q < |marks'| ensures marks'[q].pos in posList' {
      if q == |marks| {
        assert posList'[|posList|] == c;
      } else {
        assert marks[q].pos in posList;
      }
    }
  }

  /** A mark elsewhere, or no heavier, changes nothing. */
  lemma HeaviestMore(marks: seq<Mark>, p: int, info: Info, mark: Mark)
    requires FirstHeaviest(marks, p, info) && (mark.pos != p || !Heavier(mark.info, info))
    ensures FirstHeaviest(marks + [mark], p, info)
  {
    hide Weight;
    var r :| 0 <= r < |marks| && marks[r] == Mark(p, info) && NoneHeavier(marks, r);
    var marks' := marks + [mark];
    assert marks'[r] == marks[r] && forall q :: 0 <= q < |marks| ==> marks'[q] == marks[q];
    assert NoneHeavier(marks', r);
  }

  /** A heavier one at the same position takes over. */
  lemma HeaviestNow(marks: seq<Mark>, p: int, info: Info, now: Info)
    requires FirstHeaviest(marks, p, info) && Heavier(now, info)
    ensures FirstHeaviest(marks + [Mark(p, now)], p, now)
  {
    hide Weight;
    var r :| 0 <= r < |marks| && marks[r] == Mark(p, info) && NoneHeavier(marks, r);
    var marks' := marks + [Mark(p, now)];
    assert forall q :: 0 <= q < |marks| ==> marks'[q] == marks[q];
    assert marks'[|marks|] == Mark(p, now) && NoneHeavier(marks', |marks|);
  }

  lemma BestSame(marks: seq<Mark>, posList: seq<int>, infoList: seq<Info>, c: int, info: Info)
    requires Best(marks, posList, infoList) && posList != [] && posList[|posList| - 1] == c
    requires forall d, e :: 0 <= d < e < |posList| ==> posList[d] < posList[e]
    ensures var n := |posList| - 1;
      Best(marks + [Mark(c, info)], posList,
           if Heavier(info, infoList[n]) then infoList[..n] + [info] else infoList)
  {
    hide FirstHeaviest, Heavier;
    var n := |posList| - 1;
    var marks', infoList' := marks + [Mark(c, info)],
                             if Heavier(info, infoList[n]) then infoList[..n] + [info] else infoList;
    forall e | 0 <= e < |posList| ensures FirstHeaviest(marks', posList[e], infoList'[e]) {
      if e < n || !Heavier(info, infoList[n]) {
        HeaviestMore(marks, posList[e], infoList[e], Mark(c, info));
      } else {
        HeaviestNow(marks, c, infoList[n], info);
      }
    }
    forall q | 0 <= q < |marks'| ensures marks'[q].pos in posList {
      if q < |marks| {
        assert marks'[q] == marks[q];
      }
    }
  }

  /** What was read, and what is still to come. */
  ghost predicate InTurn(lists: seq<PosList>, idx: seq<nat>, s: seq<nat>, marks: seq<Mark>)
    requires AllLegal(lists) && Read(lists, idx) && Within(s, |lists|)
  {
    marks + Marks(lists, Readers(lists, idx, s)) == AllMarks(lists)
  }

  lemma TurnStart(lists: seq<PosList>, idx: seq<nat>, s: seq<nat>)
    requires AllLegal(lists) && Read(lists, idx) && Within(s, |lists|)
    requires Readers(lists, idx, s) == Line(Poses(lists), 0)
    ensures InTurn(lists, idx, s, [])
  {
    assert [] + AllMarks(lists) == AllMarks(lists);
  }

  lemma TurnNext(lists: seq<PosList>, idx: seq<nat>, s: seq<nat>, marks: seq<Mark>, s': seq<nat>)
    requires AllLegal(lists) && Read(lists, idx) && Perm(s, |lists|) && Within(s, |lists|)
    requires Head(lists, idx, s[0]) != END && Read(lists, Next(idx, s[0])) && Within(s[1..], |lists|)
    requires idx[s[0]] < |lists[s[0]].info| && InTurn(lists, idx, s, marks) && Within(s', |lists|)
    requires Readers(lists, Next(idx, s[0]), s')
          == Enter(ReaderOf(lists, Next(idx, s[0]), s[0]), Readers(lists, Next(idx, s[0]), s[1..]))
    ensures InTurn(lists, Next(idx, s[0]), s',
                   marks + [Mark(Head(lists, idx, s[0]), lists[s[0]].info[idx[s[0]]])])
  {
    var t0 := s[0];
    assert forall i :: 0 <= i < |s[1..]| ==> s[1..][i] != t0;
    hide AllLegal, Perm, Read, Next, ReaderOf, Enter, MarkOf, Head, Marks, Within;
    FirstMark(lists, idx, t0);
    ReadersNext(lists, idx, t0, s[1..]);
    FirstReader(lists, idx, t0);
    var q, r := Readers(lists, idx, s[1..]), ReaderOf(lists, idx, t0);
    assert Readers(lists, idx, s) == [r] + q;
    hide Readers, AllMarks;
    MarksFirst(lists, r, q);
    Seqs.Assoc(marks, [MarkOf(lists, r)], Marks(lists, Readers(lists, Next(idx, t0), s')));
  }

  lemma MarksFirst(lists: seq<PosList>, r: Reader, q: seq<Reader>)
    requires r.rest != []
    ensures Marks(lists, [r] + q) == [MarkOf(lists, r)] + Marks(lists, Enter(Reader(r.list, r.rest[1..]), q))
  {
    hide Enter, MarkOf;
    Seqs.ConsTail(r, q);
  }

  lemma FirstMark(lists: seq<PosList>, idx: seq<nat>, t0: nat)
    requires AllLegal(lists) && Read(lists, idx) && t0 < |lists| && idx[t0] < |lists[t0].info|
    ensures MarkOf(lists, ReaderOf(lists, idx, t0)) == Mark(Head(lists, idx, t0), lists[t0].info[idx[t0]])
  {
    assert Legal(lists[t0]);
  }

  lemma TurnEnd(lists: seq<PosList>, idx: seq<nat>, s: seq<nat>, marks: seq<Mark>)
    requires AllLegal(lists) && Read(lists, idx) && Perm(s, |lists|) && InOrder(lists, idx, s, 0) && Within(s, |lists|)
    requires Head(lists, idx, s[0]) == END && InTurn(lists, idx, s, marks)
    ensures marks == AllMarks(lists)
  {
    assert forall i :: 0 <= i < |s| ==> i > 0 ==> Before(Head(lists, idx, s[0]), Head(lists, idx, s[i]));
    AllEnded(lists, idx, s);
    assert marks + [] == marks;
  }

  /** The scores that are kept for a term. */
  ghost function SumFor(infos: seq<Info>, term: string): real {
    if infos == [] then 0.0
    else
      var last := infos[|infos| - 1];
      SumFor(infos[..|infos| - 1], term) + if last.term == term then last.score else 0.0
  }

  /** Every position read is kept once, with an entry of the largest weight. */
  ghost predicate Kept(lists: seq<PosList>, idx: seq<nat>, posList: seq<int>, infoList: seq<Info>)
    requires AllLegal(lists) && Read(lists, idx)
  {
    && |posList| == |infoList|
    && (forall d, e :: 0 <= d < e < |posList| ==> posList[d] < posList[e])
    && (forall t, k :: 0 <= t < |lists| && 0 <= k < idx[t] && k < |lists[t].info| ==>
          Stored(posList, infoList, lists[t].pos[k], lists[t].info[k]))
    && (forall e :: 0 <= e < |posList| ==> Origin(lists, idx, posList[e], infoList[e]))
  }

  ghost predicate Stored(posList: seq<int>, infoList: seq<Info>, p: int, info: Info)
    requires |posList| == |infoList|
  {
    exists e :: 0 <= e < |posList| && posList[e] == p && Weight(info) <= Weight(infoList[e])
  }

  ghost predicate Sums(term2score: map<string, real>, infoList: seq<Info>) {
    && (forall e :: 0 <= e < |infoList| ==> infoList[e].term in term2score)
    && (forall term :: term in term2score ==> term2score[term] == SumFor(infoList, term))
  }

  function Add(term2score: map<string, real>, term: string, score: real): map<string, real> {
    term2score[term := if term in term2score then term2score[term] + score else score]
  }

  function Sub(term2score: map<string, real>, term: string, score: real): map<string, real>
    requires term in term2score
  {
    term2score[term := term2score[term] - score]
  }

  lemma {:induction false} NoneFor(infoList: seq<Info>, term: string)
    requires forall e :: 0 <= e < |infoList| ==> infoList[e].term != term
    ensures SumFor(infoList, term) == 0.0
  {
    if infoList != [] {
      NoneFor(infoList[..|infoList| - 1], term);
    }
  }

  lemma SumAdd(term2score: map<string, real>, infoList: seq<Info>, info: Info)
    requires Sums(term2score, infoList)
    ensures Sums(Add(term2score, info.term, info.score), infoList + [info])
  {
    var after := Add(term2score, info.term, info.score);
    assert (infoList + [info])[..|infoList|] == infoList;
    if info.term !in term2score {
      NoneFor(infoList, info.term);
    }
    forall term | term in after ensures after[term] == SumFor(infoList + [info], term) {}
  }

  /** The entry kept last gives way to another one. */
  lemma SumReplace(term2score: map<string, real>, infoList: seq<Info>, info: Info)
    requires Sums(term2score, infoList) && infoList != []
    ensures var last := infoList[|infoList| - 1];
      && last.term in term2score
      && Sums(Add(Sub(term2score, last.term, last.score), info.term, info.score),
              infoList[..|infoList| - 1] + [info])
  {
    var most, last := infoList[..|infoList| - 1], infoList[|infoList| - 1];
    var less := Sub(term2score, last.term, last.score);
    forall term | term in less ensures less[term] == SumFor(most, term) {}
    assert Sums(less, most);
    SumAdd(less, most, info);
  }

  lemma KeepNew(lists: seq<PosList>, idx: seq<nat>, t0: nat, posList: seq<int>, infoList: seq<Info>)
    requires AllLegal(lists) && Read(lists, idx) && t0 < |lists| && Read(lists, Next(idx, t0))
    requires idx[t0] < |lists[t0].info| && Kept(lists, idx, posList, infoList)
    requires forall e :: 0 <= e < |posList| ==> posList[e] < lists[t0].pos[idx[t0]]
    ensures Kept(lists, Next(idx, t0), posList + [lists[t0].pos[idx[t0]]], infoList + [lists[t0].info[idx[t0]]])
  {
    hide Stored, Origin;
    var idx', c, info := Next(idx, t0), lists[t0].pos[idx[t0]], lists[t0].info[idx[t0]];
    var posList', infoList' := posList + [c], infoList + [info];
    forall t, k | 0 <= t < |lists| && 0 <= k < idx'[t] && k < |lists[t].info|
      ensures Stored(posList', infoList', lists[t].pos[k], lists[t].info[k])
    {
      if k < idx[t] {
        StoredMore(posList, infoList, c, info, lists[t].pos[k], lists[t].info[k]);
      } else {
        StoredLast(posList, infoList, c, info);
      }
    }
    forall e | 0 <= e < |posList'| ensures Origin(lists, idx', posList'[e], infoList'[e]) {
      if e < |posList| {
        OriginMore(lists, idx, t0, posList[e], infoList[e]);
      } else {
        OriginNow(lists, idx, t0);
      }
    }
  }

  lemma StoredLast(posList: seq<int>, infoList: seq<Info>, c: int, info: Info)
    requires |posList| == |infoList|
    ensures Stored(posList + [c], infoList + [info], c, info)
  {
    assert (posList + [c])[|posList|] == c && (infoList + [info])[|posList|] == info;
  }

  lemma StoredMore(posList: seq<int>, infoList: seq<Info>, c: int, i: Info, p: int, info: Info)
    requires |posList| == |infoList| && Stored(posList, infoList, p, info)
    ensures Stored(posList + [c], infoList + [i], p, info)
  {
    var e :| 0 <= e < |posList| && posList[e] == p && Weight(info) <= Weight(infoList[e]);
    assert (posList + [c])[e] == p && (infoList + [i])[e] == infoList[e];
  }

  /** A position that was kept before: its entry is replaced if the new one is heavier. */
  lemma KeepSame(lists: seq<PosList>, idx: seq<nat>, t0: nat, posList: seq<int>, infoList: seq<Info>)
    requires AllLegal(lists) && Read(lists, idx) && t0 < |lists| && Read(lists, Next(idx, t0))
    requires idx[t0] < |lists[t0].info| && Kept(lists, idx, posList, infoList)
    requires posList != [] && posList[|posList| - 1] == lists[t0].pos[idx[t0]]
    ensures var info, n := lists[t0].info[idx[t0]], |posList| - 1;
      Kept(lists, Next(idx, t0), posList, if Heavier(info, infoList[n]) then infoList[..n] + [info] else infoList)
  {
    hide Stored, Origin, Weight;
    var idx', c, info, n := Next(idx, t0), lists[t0].pos[idx[t0]], lists[t0].info[idx[t0]], |posList| - 1;
    var infoList' := if Heavier(info, infoList[n]) then infoList[..n] + [info] else infoList;
    forall t, k | 0 <= t < |lists| && 0 <= k < idx'[t] && k < |lists[t].info|
      ensures Stored(posList, infoList', lists[t].pos[k], lists[t].info[k])
    {
      if k < idx[t] {
        StoredHeavier(posList, infoList, info, lists[t].pos[k], lists[t].info[k]);
      } else {
        StoredAgain(posList, infoList, info);
      }
    }
    forall e | 0 <= e < |posList| ensures Origin(lists, idx', posList[e], infoList'[e]) {
      if infoList'[e] == infoList[e] {
        OriginMore(lists, idx, t0, posList[e], infoList[e]);
      } else {
        OriginNow(lists, idx, t0);
      }
    }
  }

  lemma StoredHeavier(posList: seq<int>, infoList: seq<Info>, i: Info, p: int, info: Info)
    requires |posList| == |infoList| > 0 && Stored(posList, infoList, p, info)
    ensures var n := |posList| - 1;
      Stored(posList, if Heavier(i, infoList[n]) then infoList[..n] + [i] else infoList, p, info)
  {
    hide Weight;
    var n := |posList| - 1;
    var after := if Heavier(i, infoList[n]) then infoList[..n] + [i] else infoList;
    var e :| 0 <= e < |posList| && posList[e] == p && Weight(info) <= Weight(infoList[e]);
    assert Weight(infoList[e]) <= Weight(after[e]);
  }

  lemma StoredAgain(posList: seq<int>, infoList: seq<Info>, i: Info)
    requires |posList| == |infoList| > 0
    ensures var n := |posList| - 1;
      Stored(posList, if Heavier(i, infoList[n]) then infoList[..n] + [i] else infoList, posList[n], i)
  {
    hide Weight;
    var n := |posList| - 1;
    var after := if Heavier(i, infoList[n]) then infoList[..n] + [i] else infoList;
  }

  /** What the merged list says about the lists: each of their positions once, with a heaviest entry. */
  ghost predicate IsUnion(lists: seq<PosList>, list: PosList)
    requires AllLegal(lists)
  {
    && Legal(list)
    && (forall d, e :: 0 <= d < e < |list.info| ==> list.pos[d] < list.pos[e])
    && (forall t, k :: 0 <= t < |lists| && 0 <= k < |lists[t].info| ==>
          Stored(list.pos[..|list.info|], list.info, lists[t].pos[k], lists[t].info[k]))
    && (forall e :: 0 <= e < |list.info| ==>
          exists t, k :: 0 <= t < |lists| && 0 <= k < |lists[t].info|
                         && lists[t].pos[k] == list.pos[e] && lists[t].info[k] == list.info[e])
  }

  /** The first list moves on, and the heads are put in order again. */
  method MoveOn(sortedInt: array<nat>, tid2idx: array<nat>, lists: seq<PosList>)
    requires AllLegal(lists) && Read(lists, tid2idx[..]) && sortedInt != tid2idx && sortedInt.Length == |lists|
    requires sortedInt[0] < |lists| && Read(lists, Next(tid2idx[..], sortedInt[0])) && Perm(sortedInt[..], |lists|)
    requires InOrder(lists, Next(tid2idx[..], sortedInt[0]), sortedInt[..], 1)
    modifies sortedInt, tid2idx
    ensures tid2idx[..] == Next(old(tid2idx[..]), old(sortedInt[0]))
    ensures Read(lists, tid2idx[..])
    ensures Perm(sortedInt[..], |lists|) && InOrder(lists, tid2idx[..], sortedInt[..], 0)
    ensures Within(sortedInt[..], |lists|) && Within(old(sortedInt[..])[1..], |lists|)
    ensures Readers(lists, tid2idx[..], sortedInt[..])
         == Enter(ReaderOf(lists, tid2idx[..], old(sortedInt[0])), Readers(lists, tid2idx[..], old(sortedInt[..])[1..]))
  {
    ghost var idx := tid2idx[..];
    var t0 := sortedInt[0];
    tid2idx[t0] := tid2idx[t0] + 1;
    assert tid2idx[..] == Next(idx, t0);
    hide *;
    UpdateSortedInt(sortedInt, tid2idx, lists);
  }

  /** What the merge makes of the lists. */
  ghost predicate IsMerge(lists: seq<PosList>, posList: seq<int>, infoList: seq<Info>, bestPos: int,
                          term2score: map<string, real>)
    requires AllLegal(lists)
  {
    && IsUnion(lists, PosList(posList + [END], infoList)) && Sums(term2score, infoList)
    && |posList| == |infoList| && bestPos == (if posList == [] then -1 else posList[|posList| - 1])
    && Best(AllMarks(lists), posList, infoList)
  }

  /** The merge of walk_or, with the bookkeeping of scores by term. */
  method WalkOr(lists: seq<PosList>) returns (list: PosList, bestPos: int, term2score: map<string, real>)
    requires AllLegal(lists)
    ensures IsUnion(lists, list) && |list.pos| == |list.info| + 1 && list.pos[|list.info|] == -1
    ensures forall t, k :: 0 <= t < |lists| && 0 <= k < |lists[t].info| ==>
              exists e :: 0 <= e < |list.info| && list.pos[e] == lists[t].pos[k]
                          && lists[t].info[k].score * SQRT(lists[t].info[k].phrases)
                             <= list.info[e].score * SQRT(list.info[e].phrases)
    ensures forall e :: 0 <= e < |list.info| ==> FirstHeaviest(AllMarks(lists), list.pos[e], list.info[e])
    ensures Sums(term2score, list.info)
    ensures bestPos == if list.info == [] then -1 else list.pos[|list.info| - 1]
  {
    hide AllLegal, IsUnion, Sums, AllMarks, FirstHeaviest;
    var posList, infoList;
    posList, infoList, bestPos, term2score := MergeLists(lists);
    list := PosList(posList + [END], infoList);
    UnionSizes(lists, list);
    forall t, k | 0 <= t < |lists| && 0 <= k < |lists[t].info|
      ensures exists e :: 0 <= e < |list.info| && list.pos[e] == lists[t].pos[k]
                          && lists[t].info[k].score * SQRT(lists[t].info[k].phrases)
                             <= list.info[e].score * SQRT(list.info[e].phrases)
    {
      HeaviestKept(lists, list, t, k);
    }
    assert list.pos[|list.info|] == -1;
  }

  /** Weights are the scores times the roots of the numbers of phrases. */
  lemma HeaviestKept(lists: seq<PosList>, list: PosList, t: nat, k: nat)
    requires AllLegal(lists) && IsUnion(lists, list) && t < |lists| && k < |lists[t].info|
    ensures |lists[t].pos| == |lists[t].info| + 1 && |list.pos| == |list.info| + 1
    ensures exists e :: 0 <= e < |list.info| && list.pos[e] == lists[t].pos[k]
                        && lists[t].info[k].score * SQRT(lists[t].info[k].phrases)
                           <= list.info[e].score * SQRT(list.info[e].phrases)
  {
    UnionSizes(lists, list);
    var e := StoredAt(lists, list, t, k);
    Product(lists[t].info[k], list.info[e]);
    hide *;
  }

  lemma UnionSizes(lists: seq<PosList>, list: PosList)
    requires AllLegal(lists) && IsUnion(lists, list)
    ensures |list.pos| == |list.info| + 1 && forall t :: 0 <= t < |lists| ==> |lists[t].pos| == |lists[t].info| + 1
  {
    assert forall t :: 0 <= t < |lists| ==> Legal(lists[t]);
  }

  lemma StoredAt(lists: seq<PosList>, list: PosList, t: nat, k: nat) returns (e: nat)
    requires AllLegal(lists) && IsUnion(lists, list) && t < |lists| && k < |lists[t].info|
    ensures k < |lists[t].pos| && e < |list.info| < |list.pos| && list.pos[e] == lists[t].pos[k]
    ensures Weight(lists[t].info[k]) <= Weight(list.info[e])
  {
    hide Weight;
    assert Legal(lists[t]);
    assert Stored(list.pos[..|list.info|], list.info, lists[t].pos[k], lists[t].info[k]);
    e :| 0 <= e < |list.info| && list.pos[..|list.info|][e] == lists[t].pos[k]
         && Weight(lists[t].info[k]) <= Weight(list.info[e]);
  }

  lemma Product(a: Info, b: Info)
    requires Weight(a) <= Weight(b)
    ensures a.score * SQRT(a.phrases) <= b.score * SQRT(b.phrases)
  {
  }

  method MergeLists(lists: seq<PosList>)
    returns (posList: seq<int>, infoList: seq<Info>, bestPos: int, term2score: map<string, real>)
    requires AllLegal(lists)
    ensures IsMerge(lists, posList, infoList, bestPos, term2score)
  {
    var n := |lists|;
    assert n > 0;
    hide Legal, AllLegal, Read, Head, Perm, InOrder, Within, Left, Next, Heavier, Add, Sub, Readers, Line, Poses,
         Gathered, Regathered, IsMerge, Best, InTurn, AllMarks;
    var sortedInt, tid2idx := new nat[n], new nat[n](i => 0);
    SortHeads(sortedInt, lists);
    assert tid2idx[..] == Starts(lists);
    bestPos, term2score := -1, map[];
    var prevPos := -1;
    posList, infoList := [], [];
    ghost var marks: seq<Mark> := [];
    MergeStart(lists, tid2idx[..]);
    TurnStart(lists, tid2idx[..], sortedInt[..]);
    NothingBest();
    while true
      invariant Read(lists, tid2idx[..]) && Perm(sortedInt[..], n) && InOrder(lists, tid2idx[..], sortedInt[..], 0)
      invariant Gathered(lists, tid2idx[..], prevPos, posList, infoList, term2score) && bestPos == prevPos
      invariant Within(sortedInt[..], n) && InTurn(lists, tid2idx[..], sortedInt[..], marks)
      invariant Best(marks, posList, infoList)
      decreases Left(lists, tid2idx[..], n)
    {
      ghost var idx := tid2idx[..];
      FirstHead(lists, idx, sortedInt[..]);
      var t0 := sortedInt[0];
      var curPos := lists[t0].pos[tid2idx[t0]];
      if curPos == END {
        TurnEnd(lists, idx, sortedInt[..], marks);
        MergeEnd(lists, idx, sortedInt[..], prevPos, posList, infoList, term2score);
        break;
      }
      var cur := lists[t0].info[tid2idx[t0]];
      bestPos := curPos;
      ghost var s := sortedInt[..];
      MergeRound(lists, idx, s, prevPos, posList, infoList, term2score, t0, curPos, cur);
      BestRound(lists, idx, prevPos, posList, infoList, term2score, marks, curPos, cur);
      if curPos > prevPos {
        posList, infoList := posList + [curPos], infoList + [cur];
        term2score := Add(term2score, cur.term, cur.score);
        prevPos := curPos;
      } else if curPos == prevPos {
        var last := infoList[|infoList| - 1];
        if Heavier(cur, last) {
          infoList := infoList[..|infoList| - 1] + [cur];
          term2score := Add(Sub(term2score, last.term, last.score), cur.term, cur.score);
        }
      }
      MoveOn(sortedInt, tid2idx, lists);
      TurnNext(lists, idx, s, marks, sortedInt[..]);
      marks := marks + [Mark(curPos, cur)];
    }
  }

  lemma NothingBest()
    ensures Best([], [], [])
  {
  }

  lemma BestRound(lists: seq<PosList>, idx: seq<nat>, prevPos: int, posList: seq<int>, infoList: seq<Info>,
                  term2score: map<string, real>, marks: seq<Mark>, c: int, info: Info)
    requires AllLegal(lists) && Read(lists, idx) && Gathered(lists, idx, prevPos, posList, infoList, term2score)
    requires Best(marks, posList, infoList) && c >= 0
    ensures c > prevPos ==> Best(marks + [Mark(c, info)], posList + [c], infoList + [info])
    ensures c == prevPos ==>
              infoList != []
              && Best(marks + [Mark(c, info)], posList,
                      if Heavier(info, infoList[|infoList| - 1])
                      then infoList[..|infoList| - 1] + [info] else infoList)
  {
    hide Best, Heavier, Sums, Frontier, Weight, Kept;
    KeptSize(lists, idx, posList, infoList);
    if c > prevPos {
      BestNew(marks, posList, infoList, c, info);
    } else if c == prevPos {
      BestSame(marks, posList, infoList, c, info);
    }
  }

  /** The state of the merge: what was kept of the positions read, with the sums of its scores. */
  ghost predicate Gathered(lists: seq<PosList>, idx: seq<nat>, prevPos: int, posList: seq<int>, infoList: seq<Info>,
                           term2score: map<string, real>)
    requires AllLegal(lists) && Read(lists, idx)
  {
    && Frontier(lists, idx, prevPos) && Kept(lists, idx, posList, infoList) && Sums(term2score, infoList)
    && prevPos == if posList == [] then -1 else posList[|posList| - 1]
  }

  lemma MergeStart(lists: seq<PosList>, idx: seq<nat>)
    requires AllLegal(lists) && idx == Starts(lists) && Read(lists, idx)
    ensures Gathered(lists, idx, -1, [], [], map[])
  {
    forall t, k | 0 <= t < |lists| && idx[t] <= k < |lists[t].info| ensures -1 <= lists[t].pos[k] {
      assert Legal(lists[t]);
    }
  }

  /** One position more: it is new, or heavier than the entry kept for it, or dropped. */
  lemma MergeRound(lists: seq<PosList>, idx: seq<nat>, s: seq<nat>, prevPos: int, posList: seq<int>,
                   infoList: seq<Info>, term2score: map<string, real>, t0: nat, c: int, info: Info)
    requires AllLegal(lists) && Read(lists, idx) && Perm(s, |lists|) && InOrder(lists, idx, s, 0)
    requires Gathered(lists, idx, prevPos, posList, infoList, term2score)
    requires t0 == s[0] && idx[t0] < |lists[t0].info| && c == lists[t0].pos[idx[t0]] && info == lists[t0].info[idx[t0]]
    requires c != END
    ensures Read(lists, Next(idx, t0)) && InOrder(lists, Next(idx, t0), s, 1) && prevPos <= c
    ensures Left(lists, Next(idx, t0), |lists|) < Left(lists, idx, |lists|)
    ensures c > prevPos ==> Gathered(lists, Next(idx, t0), c, posList + [c], infoList + [info],
                                     Add(term2score, info.term, info.score))
    ensures c == prevPos ==> infoList != []
                             && Regathered(lists, Next(idx, t0), c, posList, infoList, term2score, info)
  {
    hide Frontier, Perm, InOrder, Left, Next, Weight, Heavier, Kept, Sums, Add, Sub;
    PermAt(s, |lists|, 0);
    assert c >= 0 by {
      assert Legal(lists[t0]);
    }
    Advance(lists, idx, s, prevPos);
    LeftNext(lists, idx, t0, |lists|);
    KeptSize(lists, idx, posList, infoList);
    if c > prevPos {
      KeepNew(lists, idx, t0, posList, infoList);
      SumAdd(term2score, infoList, info);
    } else {
      KeepSame(lists, idx, t0, posList, infoList);
      SumReplace(term2score, infoList, info);
    }
  }

  /** The state after a position that was kept before. */
  ghost predicate Regathered(lists: seq<PosList>, idx: seq<nat>, prevPos: int, posList: seq<int>, infoList: seq<Info>,
                             term2score: map<string, real>, info: Info)
    requires AllLegal(lists) && Read(lists, idx) && infoList != []
  {
    var last := infoList[|infoList| - 1];
    && last.term in term2score
    && if Heavier(info, last)
       then Gathered(lists, idx, prevPos, posList, infoList[..|infoList| - 1] + [info],
                     Add(Sub(term2score, last.term, last.score), info.term, info.score))
       else Gathered(lists, idx, prevPos, posList, infoList, term2score)
  }

  lemma KeptSize(lists: seq<PosList>, idx: seq<nat>, posList: seq<int>, infoList: seq<Info>)
    requires AllLegal(lists) && Read(lists, idx) && Kept(lists, idx, posList, infoList)
    ensures |posList| == |infoList|
    ensures forall d, e :: 0 <= d < e < |posList| ==> posList[d] < posList[e]
  {
  }

  lemma MergeEnd(lists: seq<PosList>, idx: seq<nat>, s: seq<nat>, prevPos: int, posList: seq<int>, infoList: seq<Info>,
                 term2score: map<string, real>)
    requires AllLegal(lists) && Read(lists, idx) && Perm(s, |lists|) && InOrder(lists, idx, s, 0)
    requires Best(AllMarks(lists), posList, infoList)
    requires lists[s[0]].pos[idx[s[0]]] == END && Gathered(lists, idx, prevPos, posList, infoList, term2score)
    ensures IsMerge(lists, posList, infoList, prevPos, term2score)
  {
    hide Frontier, Perm, InOrder, Sums, IsUnion, Kept, Best, AllMarks;
    KeptSize(lists, idx, posList, infoList);
    KeptUnion(lists, idx, s, posList, infoList);
  }

  lemma KeptUnion(lists: seq<PosList>, idx: seq<nat>, s: seq<nat>, posList: seq<int>, infoList: seq<Info>)
    requires AllLegal(lists) && Read(lists, idx) && Perm(s, |lists|) && InOrder(lists, idx, s, 0)
    requires Head(lists, idx, s[0]) == END && Kept(lists, idx, posList, infoList)
    ensures IsUnion(lists, PosList(posList + [END], infoList))
  {
    hide Stored, InOrder;
    var list := PosList(posList + [END], infoList);
    assert list.pos[..|list.info|] == posList;
    forall t | 0 <= t < |lists| ensures idx[t] == |lists[t].info| {
      AllRead(lists, idx, s, t);
    }
    forall e | 0 <= e < |posList|
      ensures posList[e] >= 0
      ensures exists t, k :: 0 <= t < |lists| && 0 <= k < |lists[t].info|
                             && lists[t].pos[k] == list.pos[e] && lists[t].info[k] == list.info[e]
    {
      assert Origin(lists, idx, posList[e], infoList[e]);
      var t, k :| 0 <= t < |lists| && 0 <= k < idx[t] && k < |lists[t].info|
                  && lists[t].pos[k] == posList[e] && lists[t].info[k] == infoList[e];
      assert Legal(lists[t]);
    }
    assert Legal(list);
    assert forall t, k :: 0 <= t < |lists| && 0 <= k < |lists[t].info| ==>
          Stored(list.pos[..|list.info|], list.info, lists[t].pos[k], lists[t].info[k]);
    assert (forall d, e :: 0 <= d < e < |list.info| ==> list.pos[d] < list.pos[e]);
  }
}
