/** The proximity search of an AND or PROX node in one document. */
module Proximity {
  import opened Heads
  import opened Turns

  const MAX_LENGTH_OF_DOCUMENT := 10000

  /** A position of every list, out of those read so far. */
  ghost predicate Choice(lists: seq<PosList>, idx: seq<nat>, k: seq<nat>)
    requires Read(lists, idx)
  {
    |k| == |lists| && forall t :: 0 <= t < |lists| ==> k[t] < idx[t]
  }

  ghost function At(lists: seq<PosList>, k: seq<nat>, t: nat): int
    requires |k| == |lists| && t < |lists| && k[t] < |lists[t].pos|
  {
    lists[t].pos[k[t]]
  }

  ghost predicate InLists(lists: seq<PosList>, k: seq<nat>) {
    |k| == |lists| && forall t :: 0 <= t < |lists| ==> k[t] < |lists[t].pos|
  }

  /** The chosen positions are at most `dist` apart. */
  ghost predicate Close(lists: seq<PosList>, k: seq<nat>, dist: int)
    requires InLists(lists, k)
  {
    forall a, b :: 0 <= a < |lists| && 0 <= b < |lists| ==> At(lists, k, a) - At(lists, k, b) <= dist
  }

  ghost function Ends(lists: seq<PosList>): (e: seq<nat>)
    requires AllLegal(lists)
    ensures Read(lists, e)
  {
    var e := seq(|lists|, t requires 0 <= t < |lists| => |lists[t].info|);
    assert forall t :: 0 <= t < |lists| ==> Legal(lists[t]);
    e
  }

  /** One position can be chosen from each list with all of them within `dist`. */
  ghost predicate Near(lists: seq<PosList>, dist: int)
    requires AllLegal(lists)
  {
    exists k :: Choice(lists, Ends(lists), k) && Close(lists, k, dist)
  }

  datatype Window = Window(begin: int, end: int)

  // The windows of a walk, told from the positions alone.

  function Least(rec: seq<int>): int
    requires rec != []
  {
    if |rec| == 1 || rec[0] <= Least(rec[1..]) then rec[0] else Least(rec[1..])
  }

  predicate Started(rec: seq<int>) {
    forall t :: 0 <= t < |rec| ==> rec[t] >= 0
  }

  /**
   * Every position read closes a window, which reaches back to the least of the positions that the lists
   * read last: it counts once all lists are under way, if it is small enough.
   */
  function Windows(queue: seq<Reader>, rec: seq<int>, dist: int): seq<Window>
    decreases Size(queue)
  {
    if queue == [] || queue[0].rest == [] || queue[0].list >= |rec| then []
    else
      var r := queue[0];
      var rec' := rec[r.list := r.rest[0]];
      var w := Window(Least(rec'), r.rest[0]);
      SizeEnter(Reader(r.list, r.rest[1..]), queue[1..]);
      (if Started(rec') && w.end - w.begin <= dist then [w] else [])
      + Windows(Enter(Reader(r.list, r.rest[1..]), queue[1..]), rec', dist)
  }

  function AllWindows(ps: seq<seq<int>>, dist: int): seq<Window> {
    Windows(Line(ps, 0), seq(|ps|, i => -2), dist)
  }

  lemma {:induction false} LeastIs(rec: seq<int>, b: nat)
    requires b < |rec| && forall t :: 0 <= t < |rec| ==> rec[b] <= rec[t]
    ensures Least(rec) == rec[b]
  {
    if |rec| > 1 {
      LeastIn(rec[1..]);
      if b > 0 {
        LeastIs(rec[1..], b - 1);
      }
    }
  }

  lemma {:induction false} LeastIn(rec: seq<int>)
    requires rec != []
    ensures Least(rec) in rec
  {
    if |rec| > 1 {
      LeastIn(rec[1..]);
      assert rec == [rec[0]] + rec[1..];
    }
  }

  lemma ScanLeast(rec: seq<int>, flag: bool, begin: int, end: int)
    requires rec != [] && ScanIs(rec, flag, begin, end)
    ensures flag <==> Started(rec)
    ensures flag ==> begin == Least(rec)
  {
    if flag {
      var b :| 0 <= b < |rec| && rec[b] == begin;
      LeastIs(rec, b);
    }
  }

  lemma WindowsNext(lists: seq<PosList>, idx: seq<nat>, s: seq<nat>, rec: seq<int>, flag: bool, begin: int, end: int,
                    dist: int)
    requires AllLegal(lists) && Read(lists, idx) && Perm(s, |lists|) && Within(s, |lists|) && |rec| == |lists|
    requires Head(lists, idx, s[0]) != END && Read(lists, Next(idx, s[0])) && Within(s[1..], |lists|)
    requires ScanIs(rec[s[0] := Head(lists, idx, s[0])], flag, begin, end)
    requires flag ==> end == Head(lists, idx, s[0])
    ensures var t0, idx', rec' := s[0], Next(idx, s[0]), rec[s[0] := Head(lists, idx, s[0])];
      Windows(Readers(lists, idx, s), rec, dist)
      == (if flag && end - begin <= dist then [Window(begin, end)] else [])
         + Windows(Enter(ReaderOf(lists, idx', t0), Readers(lists, idx', s[1..])), rec', dist)
  {
    var t0 := s[0];
    assert forall i :: 0 <= i < |s[1..]| ==> s[1..][i] != t0;
    hide AllLegal, Perm, Read, Next, ReaderOf, ScanIs, Enter, Least, Started;
    ReadersNext(lists, idx, t0, s[1..]);
    FirstReader(lists, idx, t0);
    ScanLeast(rec[t0 := Head(lists, idx, t0)], flag, begin, end);
    var q, r := Readers(lists, idx, s[1..]), ReaderOf(lists, idx, t0);
    assert Readers(lists, idx, s) == [r] + q;
    Seqs.ConsTail(r, q);
  }

  /** The windows found so far and those to come. */
  ghost predicate Coming(lists: seq<PosList>, idx: seq<nat>, s: seq<nat>, rec: seq<int>, windows: seq<Window>,
                         dist: int)
    requires AllLegal(lists) && Read(lists, idx) && Within(s, |lists|)
  {
    windows + Windows(Readers(lists, idx, s), rec, dist) == AllWindows(Poses(lists), dist)
  }

  lemma ComingStart(lists: seq<PosList>, idx: seq<nat>, s: seq<nat>, rec: seq<int>, dist: int)
    requires AllLegal(lists) && idx == Starts(lists) && Read(lists, idx) && Within(s, |lists|)
    requires rec == seq(|lists|, i => -2) && Readers(lists, idx, s) == Line(Poses(lists), 0)
    ensures Coming(lists, idx, s, rec, [], dist)
  {
    assert rec == seq(|Poses(lists)|, i => -2);
  }

  lemma ComingNext(lists: seq<PosList>, idx: seq<nat>, s: seq<nat>, rec: seq<int>, windows: seq<Window>,
                   flag: bool, begin: int, end: int, s': seq<nat>, dist: int)
    requires AllLegal(lists) && Read(lists, idx) && Perm(s, |lists|) && Within(s, |lists|) && |rec| == |lists|
    requires Head(lists, idx, s[0]) != END && Read(lists, Next(idx, s[0])) && Within(s[1..], |lists|)
    requires ScanIs(rec[s[0] := Head(lists, idx, s[0])], flag, begin, end)
    requires flag ==> end == Head(lists, idx, s[0])
    requires Coming(lists, idx, s, rec, windows, dist) && Within(s', |lists|)
    requires Readers(lists, Next(idx, s[0]), s')
          == Enter(ReaderOf(lists, Next(idx, s[0]), s[0]), Readers(lists, Next(idx, s[0]), s[1..]))
    ensures Coming(lists, Next(idx, s[0]), s', rec[s[0] := Head(lists, idx, s[0])],
                   if flag && end - begin <= dist then windows + [Window(begin, end)] else windows, dist)
  {
    var idx', rec' := Next(idx, s[0]), rec[s[0] := Head(lists, idx, s[0])];
    hide AllLegal, Perm, Read, Next, ReaderOf, Readers, ScanIs, Enter, Windows, AllWindows, Head, Within, Poses;
    WindowsNext(lists, idx, s, rec, flag, begin, end, dist);
    OneWindow(windows, Window(begin, end), flag && end - begin <= dist, Windows(Readers(lists, idx', s'), rec', dist));
  }

  lemma OneWindow(windows: seq<Window>, w: Window, found: bool, later: seq<Window>)
    ensures windows + ((if found then [w] else []) + later) == (if found then windows + [w] else windows) + later
  {
  }

  lemma ComingEnd(lists: seq<PosList>, idx: seq<nat>, s: seq<nat>, rec: seq<int>, windows: seq<Window>, dist: int)
    requires AllLegal(lists) && Read(lists, idx) && Perm(s, |lists|) && InOrder(lists, idx, s, 0) && Within(s, |lists|)
    requires Head(lists, idx, s[0]) == END && Coming(lists, idx, s, rec, windows, dist)
    ensures windows == AllWindows(Poses(lists), dist)
  {
    assert forall i :: 0 <= i < |s| ==> i > 0 ==> Before(Head(lists, idx, s[0]), Head(lists, idx, s[i]));
    AllEnded(lists, idx, s);
    assert windows + [] == windows;
  }

  ghost predicate Spans(lists: seq<PosList>, k: seq<nat>, w: Window)
    requires InLists(lists, k)
  {
    && (forall t :: 0 <= t < |lists| ==> w.begin <= At(lists, k, t) <= w.end)
    && (exists t :: 0 <= t < |lists| && At(lists, k, t) == w.begin)
    && (exists t :: 0 <= t < |lists| && At(lists, k, t) == w.end)
  }

  /** The window reaches from the least to the largest of some choice. */
  ghost predicate Real(lists: seq<PosList>, w: Window)
    requires AllLegal(lists)
  {
    exists k :: Choice(lists, Ends(lists), k) && Spans(lists, k, w)
  }

  /** A window ends where the choice ends, and begins no earlier. */
  ghost predicate Covers(w: Window, lists: seq<PosList>, k: seq<nat>)
    requires InLists(lists, k)
  {
    && (forall t :: 0 <= t < |lists| ==> At(lists, k, t) <= w.end)
    && (exists t :: 0 <= t < |lists| && At(lists, k, t) == w.end)
    && (exists t :: 0 <= t < |lists| && At(lists, k, t) <= w.begin)
  }

  ghost predicate Covered(windows: seq<Window>, lists: seq<PosList>, k: seq<nat>)
    requires InLists(lists, k)
  {
    exists e :: 0 <= e < |windows| && Covers(windows[e], lists, k)
  }

  ghost predicate Complete(lists: seq<PosList>, idx: seq<nat>, windows: seq<Window>, dist: int)
    requires AllLegal(lists) && Read(lists, idx)
  {
    forall k :: Choice(lists, idx, k) && Close(lists, k, dist) ==> Covered(windows, lists, k)
  }

  /** The last position read from every list, or -2. */
  ghost predicate Latest(lists: seq<PosList>, idx: seq<nat>, rec: seq<int>)
    requires Read(lists, idx)
  {
    && |rec| == |lists|
    && forall t :: 0 <= t < |lists| ==> rec[t] == if idx[t] == 0 then -2 else lists[t].pos[idx[t] - 1]
  }

  /** What is known of the windows found so far. */
  ghost predicate Found(lists: seq<PosList>, rec: seq<int>, cur: int, windows: seq<Window>, dist: int)
    requires AllLegal(lists)
  {
    && (forall e :: 0 <= e < |windows| ==> Real(lists, windows[e]) && 0 <= windows[e].begin <= windows[e].end <= cur)
    && (forall e :: 0 <= e < |windows| ==> windows[e].end - windows[e].begin <= dist)
    && (forall d, e :: 0 <= d < e < |windows| ==>
          windows[d].begin <= windows[e].begin && windows[d].end <= windows[e].end)
    && (forall e, t :: 0 <= e < |windows| && 0 <= t < |rec| ==> windows[e].begin <= rec[t])
  }

  /** The scan over pos_record: are all lists under way, and how far apart are they? */
  method Scan(posRecord: array<int>) returns (flag: bool, begin: int, end: int)
    requires posRecord.Length > 0
    ensures flag <==> forall t :: 0 <= t < posRecord.Length ==> posRecord[t] >= 0
    ensures flag ==> forall t :: 0 <= t < posRecord.Length ==> begin <= posRecord[t] <= end
    ensures flag ==> (exists t :: 0 <= t < posRecord.Length && posRecord[t] == begin)
                     && exists t :: 0 <= t < posRecord.Length && posRecord[t] == end
  {
    flag, begin, end := true, posRecord[0], 0;
    ghost var low, high := 0, 0;
    for i := 0 to posRecord.Length
      invariant forall t :: 0 <= t < i ==> posRecord[t] >= 0 && begin <= posRecord[t] <= end
      invariant 0 <= low < posRecord.Length && posRecord[low] == begin
      invariant 0 <= high < posRecord.Length && if i == 0 then end == 0 else posRecord[high] == end
    {
      if posRecord[i] < 0 {
        return false, begin, end;
      }
      if begin > posRecord[i] {
        begin, low := posRecord[i], i;
      }
      high := if end <= posRecord[i] then i else high;
      if end < posRecord[i] {
        end := posRecord[i];
      }
    }
  }

  ghost function Chosen(idx: seq<nat>): (k: seq<nat>)
    requires forall t :: 0 <= t < |idx| ==> idx[t] > 0
    ensures |k| == |idx| && forall t :: 0 <= t < |idx| ==> k[t] == idx[t] - 1
  {
    seq(|idx|, t requires 0 <= t < |idx| => idx[t] - 1)
  }

  /** The positions read last make up a window. */
  lemma WindowReal(lists: seq<PosList>, idx: seq<nat>, rec: seq<int>, w: Window)
    requires AllLegal(lists) && Read(lists, idx) && Latest(lists, idx, rec)
    requires forall t :: 0 <= t < |rec| ==> rec[t] >= 0 && w.begin <= rec[t] <= w.end
    requires exists t :: 0 <= t < |rec| && rec[t] == w.begin
    requires exists t :: 0 <= t < |rec| && rec[t] == w.end
    ensures Real(lists, w)
  {
    var k := Chosen(idx);
    assert forall t :: 0 <= t < |lists| ==> Legal(lists[t]);
    assert InLists(lists, k);
    assert forall t :: 0 <= t < |lists| ==> At(lists, k, t) == rec[t];
    assert Choice(lists, Ends(lists), k);
    var a :| 0 <= a < |rec| && rec[a] == w.begin;
    var b :| 0 <= b < |rec| && rec[b] == w.end;
    assert At(lists, k, a) == w.begin && At(lists, k, b) == w.end;
    assert Spans(lists, k, w);
  }

  /** A close choice with the position just read makes the scan succeed, and the window covers it. */
  lemma ChoiceSeen(lists: seq<PosList>, idx: seq<nat>, rec: seq<int>, k: seq<nat>, cur: int, t0: nat, w: Window,
                   dist: int)
    requires AllLegal(lists) && Read(lists, idx) && Frontier(lists, idx, cur) && Latest(lists, idx, rec)
    requires Choice(lists, idx, k) && Close(lists, k, dist)
    requires t0 < |lists| && idx[t0] > 0 && k[t0] == idx[t0] - 1 && rec[t0] == cur
    ensures forall t :: 0 <= t < |rec| ==> rec[t] >= 0
    ensures (forall t :: 0 <= t < |rec| ==> w.begin <= rec[t] <= w.end)
            && (exists t :: 0 <= t < |rec| && rec[t] == w.begin) && (exists t :: 0 <= t < |rec| && rec[t] == w.end)
        ==> w.end - w.begin <= dist && Covers(w, lists, k)
  {
    forall t | 0 <= t < |lists| ensures 0 <= At(lists, k, t) <= rec[t] <= cur {
      assert Legal(lists[t]);
    }
    assert At(lists, k, t0) == cur;
    if (forall t :: 0 <= t < |rec| ==> w.begin <= rec[t] <= w.end)
      && (exists t :: 0 <= t < |rec| && rec[t] == w.begin) && (exists t :: 0 <= t < |rec| && rec[t] == w.end)
    {
      var b :| 0 <= b < |rec| && rec[b] == w.begin;
      assert At(lists, k, t0) - At(lists, k, b) <= dist;
      assert w.end == cur;
    }
  }

  ghost predicate ScanIs(rec: seq<int>, flag: bool, begin: int, end: int) {
    && (flag <==> forall t :: 0 <= t < |rec| ==> rec[t] >= 0)
    && (flag ==> (forall t :: 0 <= t < |rec| ==> begin <= rec[t] <= end)
                 && (exists t :: 0 <= t < |rec| && rec[t] == begin)
                 && (exists t :: 0 <= t < |rec| && rec[t] == end))
  }

  /** One round: the windows stay complete, whether one is added or not. */
  lemma RoundComplete(lists: seq<PosList>, idx: seq<nat>, t0: nat, rec: seq<int>, cur: int, windows: seq<Window>,
                      flag: bool, begin: int, end: int, dist: int)
    requires AllLegal(lists) && Read(lists, idx) && t0 < |lists| && Read(lists, Next(idx, t0))
    requires Frontier(lists, Next(idx, t0), cur) && Latest(lists, Next(idx, t0), rec) && rec[t0] == cur
    requires Complete(lists, idx, windows, dist) && ScanIs(rec, flag, begin, end)
    ensures Complete(lists, Next(idx, t0),
                     if flag && end - begin <= dist then windows + [Window(begin, end)] else windows, dist)
  {
    hide Frontier, Latest, Legal;
    var idx' := Next(idx, t0);
    var w := Window(begin, end);
    var after := if flag && end - begin <= dist then windows + [w] else windows;
    forall k | Choice(lists, idx', k) && Close(lists, k, dist) ensures Covered(after, lists, k) {
      if k[t0] < idx[t0] {
        assert Choice(lists, idx, k);
        var e :| 0 <= e < |windows| && Covers(windows[e], lists, k);
        assert after[e] == windows[e];
      } else {
        ChoiceSeen(lists, idx', rec, k, cur, t0, w, dist);
        assert after[|windows|] == w;
      }
    }
  }

  /** The last positions read only grow, up to the frontier. */
  lemma RecGrows(lists: seq<PosList>, idx: seq<nat>, t0: nat, rec0: seq<int>, rec: seq<int>, cur: int)
    requires AllLegal(lists) && Read(lists, idx) && t0 < |lists| && Read(lists, Next(idx, t0))
    requires Frontier(lists, Next(idx, t0), cur) && Latest(lists, idx, rec0) && Latest(lists, Next(idx, t0), rec)
    requires rec == rec0[t0 := cur] && cur >= 0
    ensures forall t :: 0 <= t < |rec| ==> rec[t] <= cur && rec0[t] <= rec[t]
  {
    forall t | 0 <= t < |rec| ensures rec[t] <= cur && rec0[t] <= rec[t] {
      assert Legal(lists[t]);
    }
  }

  lemma FoundOne(lists: seq<PosList>, rec0: seq<int>, rec: seq<int>, cur0: int, cur: int, windows: seq<Window>,
                 w: Window, dist: int)
    requires AllLegal(lists) && |rec| == |rec0| > 0 && cur0 <= cur
    requires forall t :: 0 <= t < |rec| ==> rec[t] <= cur && rec0[t] <= rec[t]
    requires Found(lists, rec0, cur0, windows, dist) && ScanIs(rec, true, w.begin, w.end)
    requires Real(lists, w) && w.end - w.begin <= dist && cur in rec
    ensures Found(lists, rec, cur, windows + [w], dist)
  {
    hide Real;
    var b :| 0 <= b < |rec| && rec[b] == w.begin;
    var m :| 0 <= m < |rec| && rec[m] == cur;
    assert w.begin == rec[b] >= 0 && w.end == cur;
    assert forall e :: 0 <= e < |windows| ==> windows[e].begin <= rec0[b] <= w.begin;
  }

  lemma RoundFound(lists: seq<PosList>, idx: seq<nat>, t0: nat, rec0: seq<int>, rec: seq<int>, cur0: int, cur: int,
                   windows: seq<Window>, flag: bool, begin: int, end: int, dist: int)
    requires AllLegal(lists) && Read(lists, idx) && t0 < |lists| && Read(lists, Next(idx, t0))
    requires Frontier(lists, Next(idx, t0), cur) && Latest(lists, idx, rec0) && Latest(lists, Next(idx, t0), rec)
    requires rec == rec0[t0 := cur] && 0 <= cur && cur0 <= cur
    requires Found(lists, rec0, cur0, windows, dist) && ScanIs(rec, flag, begin, end)
    ensures Found(lists, rec, cur,
                  if flag && end - begin <= dist then windows + [Window(begin, end)] else windows, dist)
  {
    hide Real, Frontier, Legal, Next;
    RecGrows(lists, idx, t0, rec0, rec, cur);
    if flag && end - begin <= dist {
      hide Found;
      WindowReal(lists, Next(idx, t0), rec, Window(begin, end));
      assert rec[t0] == cur;
      FoundOne(lists, rec0, rec, cur0, cur, windows, Window(begin, end), dist);
    }
  }

  /** A node's result in a document. */
  datatype Walk = Walk(kept: bool, list: PosList, bestPos: int, bestBegin: int, region: int)

  /** The state of the loop of walk_and: the order of the heads, and the windows found and to come. */
  ghost predicate Underway(lists: seq<PosList>, idx: seq<nat>, s: seq<nat>, rec: seq<int>, last: int,
                           windows: seq<Window>, dist: int)
    requires AllLegal(lists)
  {
    && Read(lists, idx) && Perm(s, |lists|) && InOrder(lists, idx, s, 0) && Within(s, |lists|)
    && Walking(lists, idx, rec, last, windows, dist) && Coming(lists, idx, s, rec, windows, dist)
  }

  /** The least head is read and recorded, and the heads are put in order again. */
  method ReadHead(sortedInt: array<nat>, tid2idx: array<nat>, posRecord: array<int>, lists: seq<PosList>, dist: int,
                  ghost last: int, ghost windows: seq<Window>)
    returns (flag: bool, begin: int, end: int)
    requires sortedInt != tid2idx && posRecord as object != sortedInt && posRecord as object != tid2idx
    requires AllLegal(lists) && Underway(lists, tid2idx[..], sortedInt[..], posRecord[..], last, windows, dist)
    requires sortedInt.Length == tid2idx.Length == posRecord.Length == |lists|
    requires sortedInt[0] < |lists| && Read(lists, tid2idx[..]) && Head(lists, tid2idx[..], sortedInt[0]) != END
    modifies sortedInt, tid2idx, posRecord
    ensures tid2idx[..] == Next(old(tid2idx[..]), old(sortedInt[0]))
    ensures flag ==> end == old(Head(lists, tid2idx[..], sortedInt[0]))
    ensures Underway(lists, tid2idx[..], sortedInt[..], posRecord[..], old(Head(lists, tid2idx[..], sortedInt[0])),
                     if flag && end - begin <= dist then windows + [Window(begin, end)] else windows, dist)
    ensures Read(lists, tid2idx[..]) && Left(lists, tid2idx[..], |lists|) < old(Left(lists, tid2idx[..], |lists|))
  {
    assert |lists| > 0;
    hide AllLegal, Perm, InOrder, Walking, Complete, Real, ScanIs, Left, Next, Coming, Readers, ReaderOf, Enter;
    ghost var idx, rec, s := tid2idx[..], posRecord[..], sortedInt[..];
    var t0 := sortedInt[0];
    var curPos := lists[t0].pos[tid2idx[t0]];
    tid2idx[t0] := tid2idx[t0] + 1;
    posRecord[t0] := curPos;
    NextIs(idx, t0);
    assert tid2idx[..] == Next(idx, t0) && posRecord[..] == rec[t0 := curPos];
    flag, begin, end := Scan(posRecord);
    ScanDone(posRecord, posRecord[..], flag, begin, end);
    Round(lists, idx, s, rec, last, windows, flag, begin, end, dist);
    UpdateSortedInt(sortedInt, tid2idx, lists);
    ComingNext(lists, idx, s, rec, windows, flag, begin, end, sortedInt[..], dist);
  }

  /**
   * What walk_and makes of the lists of a node: it emits the middles of all windows. The windows are those of
   * close choices, no close choice is missed, the entries come from the lists, and the last window decides.
   */
  ghost predicate IsWalk(lists: seq<PosList>, prox: bool, dist: int, r: Walk)
    requires AllLegal(lists)
  {
    var windows := AllWindows(Poses(lists), dist);
    && (r.kept <==> !prox || r.region != MAX_LENGTH_OF_DOCUMENT)
    && Legal(r.list) && Positions(r.list) == Middles(windows)
    && Complete(lists, Ends(lists), windows, dist)
    && (forall e :: 0 <= e < |windows| ==> Real(lists, windows[e]) && windows[e].end - windows[e].begin <= dist)
    && (forall e :: 0 <= e < |windows| ==> Origin(lists, Ends(lists), windows[e].end, r.list.info[e]))
    && Best(windows, r.region, r.bestBegin, r.bestPos)
  }

  function Middles(windows: seq<Window>): (r: seq<int>)
    ensures |r| == |windows|
  {
    seq(|windows|, e requires 0 <= e < |windows| => (windows[e].begin + windows[e].end) / 2)
  }

  /** walk_and below the root, for AND and PROX nodes: `prox` tells which. */
  method WalkAnd(lists: seq<PosList>, prox: bool, dist: int) returns (r: Walk)
    requires AllLegal(lists)
    ensures IsWalk(lists, prox, dist, r)
  {
    var n := |lists|;
    assert n > 0;
    hide AllLegal, Legal, Perm, InOrder, Read, Underway, Left, Next, Emitted, Best, Origin, Readers,
         Line, IsWalk, Poses;
    var sortedInt, tid2idx, posRecord := new nat[n], new nat[n](i => 0), new int[n](i => -2);
    SortHeads(sortedInt, lists);
    assert tid2idx[..] == Starts(lists) && posRecord[..] == seq(n, i => -2);
    var bestPos, bestBegin, region := -1, -1, MAX_LENGTH_OF_DOCUMENT;
    var posList: seq<int>, infoList: seq<Info> := [], [];
    ghost var windows: seq<Window>, last := [], 0;
    WalkStart(lists, tid2idx[..], sortedInt[..], posRecord[..], dist);
    while true
      invariant Underway(lists, tid2idx[..], sortedInt[..], posRecord[..], last, windows, dist)
      invariant Read(lists, tid2idx[..])
      invariant Emitted(lists, tid2idx[..], windows, posList, infoList) && Best(windows, region, bestBegin, bestPos)
      decreases Left(lists, tid2idx[..], n)
    {
      FirstIs(lists, tid2idx[..], sortedInt[..], posRecord[..], last, windows, dist);
      var t0 := sortedInt[0];
      var curPos := lists[t0].pos[tid2idx[t0]];
      if curPos == END {
        break;
      }
      var curInfo := lists[t0].info[tid2idx[t0]];
      ghost var idx := tid2idx[..];
      var flag, begin, end := ReadHead(sortedInt, tid2idx, posRecord, lists, dist, last, windows);
      NotEmitted(lists, idx, t0, windows, posList, infoList);
      if flag && end - begin <= dist {
        bestBegin := begin;
        region := end - begin;
        var ave := (end + begin) / 2;
        bestPos := ave;
        Emit(lists, idx, t0, windows, posList, infoList, begin, end, ave, region, curInfo);
        posList, infoList := posList + [ave], infoList + [curInfo];
        windows := windows + [Window(begin, end)];
      }
      last := curPos;
    }
    r := Walk(!prox || region != MAX_LENGTH_OF_DOCUMENT, PosList(posList + [END], infoList),
              bestPos, bestBegin, region);
    WalkDone(lists, tid2idx[..], sortedInt[..], posRecord[..], last, windows, posList, prox, dist, r);
  }

  lemma FirstIs(lists: seq<PosList>, idx: seq<nat>, s: seq<nat>, rec: seq<int>, last: int, windows: seq<Window>,
                dist: int)
    requires AllLegal(lists) && Underway(lists, idx, s, rec, last, windows, dist)
    ensures Read(lists, idx) && |s| == |idx| == |rec| == |lists| > 0
    ensures s[0] < |lists| && idx[s[0]] < |lists[s[0]].pos|
    ensures lists[s[0]].pos[idx[s[0]]] != END ==> idx[s[0]] < |lists[s[0]].info|
  {
    FirstHead(lists, idx, s);
  }

  ghost predicate Walking(lists: seq<PosList>, idx: seq<nat>, rec: seq<int>, last: int, windows: seq<Window>, dist: int)
    requires AllLegal(lists) && Read(lists, idx)
  {
    && Frontier(lists, idx, last) && Latest(lists, idx, rec) && last >= 0
    && Found(lists, rec, last, windows, dist) && Complete(lists, idx, windows, dist)
  }

  /** One round of the walk: the least head is read, and the window it closes is taken if it is small enough. */
  lemma Round(lists: seq<PosList>, idx: seq<nat>, s: seq<nat>, rec: seq<int>, last: int, windows: seq<Window>,
              flag: bool, begin: int, end: int, dist: int)
    requires AllLegal(lists) && Read(lists, idx) && Perm(s, |lists|) && InOrder(lists, idx, s, 0)
    requires Walking(lists, idx, rec, last, windows, dist) && |rec| == |lists| && Head(lists, idx, s[0]) != END
    requires ScanIs(rec[s[0] := Head(lists, idx, s[0])], flag, begin, end)
    ensures Read(lists, Next(idx, s[0])) && InOrder(lists, Next(idx, s[0]), s, 1)
    ensures Walking(lists, Next(idx, s[0]), rec[s[0] := Head(lists, idx, s[0])], Head(lists, idx, s[0]),
                    if flag && end - begin <= dist then windows + [Window(begin, end)] else windows, dist)
    ensures Left(lists, Next(idx, s[0]), |lists|) < Left(lists, idx, |lists|)
    ensures flag ==> end == Head(lists, idx, s[0])
  {
    hide Legal, Frontier, Perm, InOrder, Latest, Found, Complete, ScanIs, Left, Next;
    PermAt(s, |lists|, 0);
    var t0, cur := s[0], Head(lists, idx, s[0]);
    Advance(lists, idx, s, last);
    LatestNext(lists, idx, rec, t0);
    LeftNext(lists, idx, t0, |lists|);
    RoundComplete(lists, idx, t0, rec[t0 := cur], cur, windows, flag, begin, end, dist);
    RoundFound(lists, idx, t0, rec, rec[t0 := cur], last, cur, windows, flag, begin, end, dist);
    EndIs(lists, idx, t0, rec, cur, flag, begin, end);
  }

  /** A successful scan ends at the position just read. */
  lemma EndIs(lists: seq<PosList>, idx: seq<nat>, t0: nat, rec: seq<int>, cur: int, flag: bool, begin: int, end: int)
    requires AllLegal(lists) && Read(lists, idx) && t0 < |lists| == |rec| && Read(lists, Next(idx, t0))
    requires Frontier(lists, Next(idx, t0), cur) && Latest(lists, idx, rec)
    requires Latest(lists, Next(idx, t0), rec[t0 := cur]) && cur >= 0
    requires ScanIs(rec[t0 := cur], flag, begin, end)
    ensures flag ==> end == cur
  {
    hide Frontier, Latest, Legal;
    RecGrows(lists, idx, t0, rec, rec[t0 := cur], cur);
    assert rec[t0 := cur][t0] == cur;
  }

  /** What was emitted so far: with every window its middle and the entry that closed it. */
  ghost predicate Emitted(lists: seq<PosList>, idx: seq<nat>, windows: seq<Window>, posList: seq<int>,
                          infoList: seq<Info>)
    requires AllLegal(lists) && Read(lists, idx)
  {
    && posList == Middles(windows) && |infoList| == |windows|
    && forall e :: 0 <= e < |windows| ==> Origin(lists, idx, windows[e].end, infoList[e])
  }

  /** The last window is the best one. */
  ghost predicate Best(windows: seq<Window>, region: int, bestBegin: int, bestPos: int) {
    if windows == [] then region == MAX_LENGTH_OF_DOCUMENT && bestPos == bestBegin == -1
    else
      var w := windows[|windows| - 1];
      region == w.end - w.begin && bestBegin == w.begin && bestPos == (w.begin + w.end) / 2
  }

  lemma NotEmitted(lists: seq<PosList>, idx: seq<nat>, t0: nat, windows: seq<Window>, posList: seq<int>,
                   infoList: seq<Info>)
    requires AllLegal(lists) && Read(lists, idx) && t0 < |lists| && idx[t0] < |lists[t0].info|
    requires Emitted(lists, idx, windows, posList, infoList)
    ensures Read(lists, Next(idx, t0)) && Emitted(lists, Next(idx, t0), windows, posList, infoList)
  {
    hide Origin;
    assert Legal(lists[t0]);
    forall e | 0 <= e < |windows| ensures Origin(lists, Next(idx, t0), windows[e].end, infoList[e]) {
      OriginMore(lists, idx, t0, windows[e].end, infoList[e]);
    }
  }

  /** The position just read closes a window that is taken. */
  lemma Emit(lists: seq<PosList>, idx: seq<nat>, t0: nat, windows: seq<Window>, posList: seq<int>,
             infoList: seq<Info>, begin: int, end: int, ave: int, region: int, info: Info)
    requires AllLegal(lists) && Read(lists, idx) && t0 < |lists| && idx[t0] < |lists[t0].info|
    requires Read(lists, Next(idx, t0)) && idx[t0] < |lists[t0].pos|
    requires Emitted(lists, Next(idx, t0), windows, posList, infoList)
    requires end == lists[t0].pos[idx[t0]] && info == lists[t0].info[idx[t0]]
    requires ave == (end + begin) / 2 && region == end - begin
    ensures Emitted(lists, Next(idx, t0), windows + [Window(begin, end)], posList + [ave], infoList + [info])
    ensures Best(windows + [Window(begin, end)], region, begin, ave)
  {
    hide Origin;
    OriginNow(lists, idx, t0);
    var w := Window(begin, end);
    assert Middles(windows + [w]) == Middles(windows) + [(w.begin + w.end) / 2];
  }

  lemma ScanDone(posRecord: array<int>, rec: seq<int>, flag: bool, begin: int, end: int)
    requires rec == posRecord[..]
    requires flag <==> forall t :: 0 <= t < posRecord.Length ==> posRecord[t] >= 0
    requires flag ==> forall t :: 0 <= t < posRecord.Length ==> begin <= posRecord[t] <= end
    requires flag ==> (exists t :: 0 <= t < posRecord.Length && posRecord[t] == begin)
                      && exists t :: 0 <= t < posRecord.Length && posRecord[t] == end
    ensures ScanIs(rec, flag, begin, end)
  {
    assert forall t :: 0 <= t < posRecord.Length ==> rec[t] == posRecord[t];
  }

  lemma LatestNext(lists: seq<PosList>, idx: seq<nat>, rec: seq<int>, t: nat)
    requires Read(lists, idx) && Latest(lists, idx, rec) && t < |lists| && Read(lists, Next(idx, t))
    ensures Latest(lists, Next(idx, t), rec[t := Head(lists, idx, t)])
  {
  }

  lemma WalkStart(lists: seq<PosList>, idx: seq<nat>, s: seq<nat>, rec: seq<int>, dist: int)
    requires AllLegal(lists) && idx == Starts(lists) && rec == seq(|lists|, i => -2) && Read(lists, idx)
    requires Perm(s, |lists|) && InOrder(lists, idx, s, 0) && Within(s, |lists|)
    requires Readers(lists, idx, s) == Line(Poses(lists), 0)
    ensures Underway(lists, idx, s, rec, 0, [], dist)
    ensures Emitted(lists, idx, [], [], []) && Best([], MAX_LENGTH_OF_DOCUMENT, -1, -1)
  {
    hide Perm, InOrder, Readers, Line, Coming;
    ComingStart(lists, idx, s, rec, dist);
    WalkingStart(lists, idx, rec, dist);
  }

  lemma WalkingStart(lists: seq<PosList>, idx: seq<nat>, rec: seq<int>, dist: int)
    requires AllLegal(lists) && idx == Starts(lists) && rec == seq(|lists|, i => -2) && Read(lists, idx)
    ensures Walking(lists, idx, rec, 0, [], dist)
  {
    forall t, k | 0 <= t < |lists| && idx[t] <= k < |lists[t].info| ensures 0 <= lists[t].pos[k] {
      assert Legal(lists[t]);
    }
    forall k ensures !Choice(lists, idx, k) {
      if |k| == |lists| {
        assert k[0] >= 0 == idx[0];
      }
    }
  }

  lemma WalkEnd(lists: seq<PosList>, idx: seq<nat>, s: seq<nat>, rec: seq<int>, cur: int, windows: seq<Window>,
                dist: int)
    requires AllLegal(lists) && Read(lists, idx) && Perm(s, |lists|) && InOrder(lists, idx, s, 0)
    requires Head(lists, idx, s[0]) == END
    requires Walking(lists, idx, rec, cur, windows, dist)
    ensures Complete(lists, Ends(lists), windows, dist)
    ensures forall e :: 0 <= e < |windows| ==> 0 <= windows[e].begin <= windows[e].end
    ensures forall e :: 0 <= e < |windows| ==> Real(lists, windows[e]) && windows[e].end - windows[e].begin <= dist
    ensures forall d, e :: 0 <= d < e < |windows| ==>
              windows[d].begin <= windows[e].begin && windows[d].end <= windows[e].end
    ensures idx == Ends(lists)
  {
    forall t | 0 <= t < |lists| ensures idx[t] == Ends(lists)[t] {
      AllRead(lists, idx, s, t);
    }
    assert idx == Ends(lists);
  }

  /** The middles are in order, and terminated: a legal input for the parent node. */
  lemma MiddlesLegal(list: PosList, windows: seq<Window>)
    requires |list.info| == |windows| && list.pos == Middles(windows) + [END]
    requires forall e :: 0 <= e < |windows| ==> 0 <= windows[e].begin <= windows[e].end
    requires forall d, e :: 0 <= d < e < |windows| ==>
               windows[d].begin <= windows[e].begin && windows[d].end <= windows[e].end
    ensures Legal(list) && Positions(list) == Middles(windows)
  {
    assert forall e :: 0 <= e < |windows| ==> list.pos[e] == (windows[e].begin + windows[e].end) / 2;
  }

  lemma WalkDone(lists: seq<PosList>, idx: seq<nat>, s: seq<nat>, rec: seq<int>, last: int, windows: seq<Window>,
                 posList: seq<int>, prox: bool, dist: int, r: Walk)
    requires AllLegal(lists) && Underway(lists, idx, s, rec, last, windows, dist) && Read(lists, idx)
    requires |s| > 0 && s[0] < |lists| && Head(lists, idx, s[0]) == END
    requires Emitted(lists, idx, windows, posList, r.list.info) && Best(windows, r.region, r.bestBegin, r.bestPos)
    requires r.list.pos == posList + [END] && (r.kept <==> !prox || r.region != MAX_LENGTH_OF_DOCUMENT)
    ensures IsWalk(lists, prox, dist, r)
  {
    hide AllLegal, Perm, InOrder, Within, Read, Walking, Coming, Complete, Real, Middles, Origin, AllWindows, Poses,
         Legal, Head, Positions;
    WalkEnd(lists, idx, s, rec, last, windows, dist);
    ComingEnd(lists, idx, s, rec, windows, dist);
    MiddlesLegal(r.list, windows);
  }

  /** Windows are found exactly when the lists come close. */
  lemma FoundIfNear(lists: seq<PosList>, prox: bool, dist: int, r: Walk)
    requires AllLegal(lists) && IsWalk(lists, prox, dist, r)
    ensures AllWindows(Poses(lists), dist) != [] <==> Near(lists, dist)
  {
    hide AllWindows, Poses, AllLegal, Legal, Positions, Middles, Origin;
    var windows := AllWindows(Poses(lists), dist);
    if windows != [] {
      RealNear(lists, windows[0], dist);
    }
  }

  lemma RealNear(lists: seq<PosList>, w: Window, dist: int)
    requires AllLegal(lists) && Real(lists, w) && w.end - w.begin <= dist
    ensures Near(lists, dist)
  {
    var k :| Choice(lists, Ends(lists), k) && Spans(lists, k, w);
    assert Close(lists, k, dist);
  }

  /** A PROX node keeps a document exactly when its lists come close, for distances below 10000. */
  method WalkProx(lists: seq<PosList>, dist: int) returns (r: Walk)
    requires AllLegal(lists)
    ensures dist < 10_000 ==> (r.kept <==> Near(lists, dist))
    ensures r.kept ==> Near(lists, dist)
    ensures Legal(r.list) && (|r.list.info| > 0 <==> Near(lists, dist))
  {
    hide Complete, Real, Legal, Near, AllWindows, Poses;
    r := WalkAnd(lists, true, dist);
    FoundIfNear(lists, true, dist, r);
  }

  /**
   * From 10000 on the claim is false: the distance 10000 of the last window found looks like no window at
   * all, and the document is removed.
   */
  method WalkTooFar(dist: int) returns (lists: seq<PosList>, r: Walk)
    requires dist >= 10_000
    ensures AllLegal(lists) && Near(lists, dist) && !r.kept
  {
    hide Complete, Real, Near, Legal, AllWindows, Poses;
    var info := Info(0.0, 1, 0.0, "");
    lists := [PosList([0, END], [info]), PosList([MAX_LENGTH_OF_DOCUMENT, END], [info])];
    TooFarNear(lists, dist);
    r := WalkAnd(lists, true, dist);
    ghost var windows := AllWindows(Poses(lists), dist);
    if windows != [] {
      OnlyWindow(lists, windows[|windows| - 1]);
    }
  }

  lemma TooFarNear(lists: seq<PosList>, dist: int)
    requires |lists| == 2 && |lists[0].info| == |lists[1].info| == 1 && dist >= MAX_LENGTH_OF_DOCUMENT
    requires lists[0].pos == [0, END] && lists[1].pos == [MAX_LENGTH_OF_DOCUMENT, END]
    ensures AllLegal(lists) && Near(lists, dist)
  {
    assert Legal(lists[0]) && Legal(lists[1]);
    assert Choice(lists, Ends(lists), [0, 0]) && Close(lists, [0, 0], dist);
  }

  lemma OnlyWindow(lists: seq<PosList>, w: Window)
    requires AllLegal(lists) && |lists| == 2
    requires lists[0].pos == [0, END] && lists[1].pos == [MAX_LENGTH_OF_DOCUMENT, END]
    requires Real(lists, w)
    ensures w == Window(0, MAX_LENGTH_OF_DOCUMENT)
  {
    var k :| Choice(lists, Ends(lists), k) && Spans(lists, k, w);
    assert Legal(lists[0]) && Legal(lists[1]);
    assert At(lists, k, 0) == 0 && At(lists, k, 1) == MAX_LENGTH_OF_DOCUMENT;
  }
}
