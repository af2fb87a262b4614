/** Merging ordered stand-off files: many through a priority queue, or two by hand. */
module Merging {
  import opened SemiXml

  /** A line of a stand-off file, empty lines left out. */
  datatype Line = Malformed | Line(tag: Tag)

  /** The tag at the head of a file, with its place in the tag order. */
  datatype TagSeq = TagSeq(top: Tag, order: nat, fileNo: nat)

  /** The place of a name in the tag order: the last one counts, and 0 stands for an unknown tag. */
  function FindOrder(tagOrder: seq<string>, name: string): (place: nat)
    ensures place <= |tagOrder| && (place == 0 <==> name !in tagOrder)
    ensures place > 0 ==> tagOrder[place - 1] == name
    ensures forall i :: place <= i < |tagOrder| ==> tagOrder[i] != name
  {
    if tagOrder == [] then 0
    else if tagOrder[|tagOrder| - 1] == name then |tagOrder|
    else FindOrder(tagOrder[..|tagOrder| - 1], name)
  }

  /** 1 when s comes before t, -1 when it comes after. */
  function CompSpan(s: Tag, t: Tag): int {
    if s.begin < t.begin then 1
    else if s.begin > t.begin then -1
    else if s.end > t.end then 1
    else if s.end < t.end then -1
    else 0
  }

  /** Comp: t1 comes after t2. */
  predicate After(t1: TagSeq, t2: TagSeq) {
    var spanComp := CompSpan(t1.top, t2.top);
    if spanComp != 0 then spanComp < 0
    else if IsEmpty(t1.top) then t1.fileNo > t2.fileNo
    else if t1.order > t2.order then true
    else if t1.order < t2.order then false
    else t1.fileNo > t2.fileNo
  }

  /** A tag that may not follow another one in the same file. */
  predicate Inverted(tagOrder: seq<string>, t: Tag, next: Tag) {
    CompSpan(t, next) < 0
    || (CompSpan(t, next) == 0 && !IsEmpty(t) && FindOrder(tagOrder, t.name) > FindOrder(tagOrder, next.name))
  }

  /** Comp is a strict order in which only tags of one file can stand side by side. */
  lemma OrderTotal(a: TagSeq, b: TagSeq, c: TagSeq)
    ensures !After(a, a)
    ensures !After(a, b) && !After(b, c) ==> !After(a, c)
    ensures !After(a, b) || !After(b, a)
    ensures !After(a, b) && !After(b, a) ==>
              a.top.begin == b.top.begin && a.top.end == b.top.end && a.fileNo == b.fileNo
              && (a.order == b.order || IsEmpty(a.top))
  {
  }

  /** What may stand in front of what, in the fields of the tags. */
  ghost predicate MayPrecede(a: TagSeq, b: TagSeq) {
    || a.top.begin < b.top.begin
    || (a.top.begin == b.top.begin && a.top.end > b.top.end)
    || (a.top.begin == b.top.begin && a.top.end == b.top.end
        && if a.top.begin == a.top.end then a.fileNo <= b.fileNo
           else a.order < b.order || (a.order == b.order && a.fileNo <= b.fileNo))
  }

  /** What may follow a tag in the same file. */
  ghost predicate MayFollow(tagOrder: seq<string>, t: Tag, next: Tag) {
    || t.begin < next.begin
    || (t.begin == next.begin && t.end > next.end)
    || (t.begin == next.begin && t.end == next.end
        && (t.begin != t.end ==> FindOrder(tagOrder, t.name) <= FindOrder(tagOrder, next.name)))
  }

  /** Comp and the check of goNext say just that. */
  lemma OrderIs(a: TagSeq, b: TagSeq, tagOrder: seq<string>)
    ensures !After(a, b) <==> MayPrecede(a, b)
    ensures !Inverted(tagOrder, a.top, b.top) <==> MayFollow(tagOrder, a.top, b.top)
  {
  }

  /** No malformed line, and no two neighbours inverted, among the first `n` lines. */
  ghost predicate Proper(tagOrder: seq<string>, file: seq<Line>, n: nat)
    requires n <= |file|
  {
    && (forall i :: 0 <= i < n ==> file[i].Line?)
    && (forall i :: 0 < i < n && file[i - 1].Line? && file[i].Line? ==>
          !Inverted(tagOrder, file[i - 1].tag, file[i].tag))
  }

  ghost predicate AllProper(tagOrder: seq<string>, files: seq<seq<Line>>) {
    forall f :: 0 <= f < |files| ==> Proper(tagOrder, files[f], |files[f]|)
  }

  /** The tags of one file in a merged list. */
  ghost function Only(out: seq<TagSeq>, f: nat): seq<Line> {
    if out == [] then []
    else
      var last := out[|out| - 1];
      Only(out[..|out| - 1], f) + if last.fileNo == f then [Line(last.top)] else []
  }

  ghost predicate Ordered(out: seq<TagSeq>) {
    forall i, j :: 0 <= i < j < |out| ==> !After(out[i], out[j])
  }

  // The queue.

  ghost function Entry(tagOrder: seq<string>, files: seq<seq<Line>>, f: nat, at: nat): TagSeq
    requires f < |files| && at < |files[f]| && files[f][at].Line?
  {
    TagSeq(files[f][at].tag, FindOrder(tagOrder, files[f][at].tag.name), f)
  }

  ghost predicate Positions(files: seq<seq<Line>>, pos: seq<nat>) {
    |pos| == |files| && forall f :: 0 <= f < |files| ==> pos[f] <= |files[f]|
  }

  /** The queue holds the head of every file that was not read to its end, and nothing else. */
  ghost predicate Queued(tagOrder: seq<string>, files: seq<seq<Line>>, pos: seq<nat>, queue: seq<TagSeq>)
    requires Positions(files, pos)
  {
    && (forall q :: 0 <= q < |queue| ==> IsHead(tagOrder, files, pos, queue[q]))
    && (forall p, q :: 0 <= p < q < |queue| ==> queue[p].fileNo != queue[q].fileNo)
    && (forall f :: 0 <= f < |files| && pos[f] < |files[f]| ==> exists q :: 0 <= q < |queue| && queue[q].fileNo == f)
  }

  ghost predicate IsHead(tagOrder: seq<string>, files: seq<seq<Line>>, pos: seq<nat>, t: TagSeq)
    requires Positions(files, pos)
  {
    && t.fileNo < |files| && pos[t.fileNo] < |files[t.fileNo]|
    && files[t.fileNo][pos[t.fileNo]].Line? && t == Entry(tagOrder, files, t.fileNo, pos[t.fileNo])
  }

  /** What was written: the files up to their heads, in order, and not after any head. */
  ghost predicate Written(tagOrder: seq<string>, files: seq<seq<Line>>, pos: seq<nat>, queue: seq<TagSeq>,
                          out: seq<TagSeq>)
    requires Positions(files, pos)
  {
    && (forall f :: 0 <= f < |files| ==> Only(out, f) == files[f][..pos[f]])
    && Ordered(out)
    && (forall i, q :: 0 <= i < |out| && 0 <= q < |queue| ==> !After(out[i], queue[q]))
    && Placed(tagOrder, files, out)
  }

  /** Every tag written comes from one of the files, and carries its place in the tag order. */
  ghost predicate Placed(tagOrder: seq<string>, files: seq<seq<Line>>, out: seq<TagSeq>) {
    forall i :: 0 <= i < |out| ==>
      out[i].fileNo < |files| && out[i].order == FindOrder(tagOrder, out[i].top.name)
  }

  /** Every file is proper as far as it was looked at. */
  ghost predicate Seen(tagOrder: seq<string>, files: seq<seq<Line>>, pos: seq<nat>)
    requires Positions(files, pos)
  {
    forall f :: 0 <= f < |files| ==>
      Proper(tagOrder, files[f], if pos[f] < |files[f]| then pos[f] + 1 else pos[f])
  }

  /** std::priority_queue::top: an entry that comes after no other. */
  method Top(queue: seq<TagSeq>) returns (t: nat)
    requires queue != []
    ensures t < |queue| && forall q :: 0 <= q < |queue| ==> !After(queue[t], queue[q])
  {
    t := 0;
    for i := 1 to |queue|
      invariant t < |queue| && forall q :: 0 <= q < i ==> !After(queue[t], queue[q])
    {
      if After(queue[t], queue[i]) {
        forall q | 0 <= q < i + 1 ensures !After(queue[i], queue[q]) {
          OrderTotal(queue[i], queue[t], queue[q]);
        }
        t := i;
      }
    }
  }

  function Without(queue: seq<TagSeq>, t: nat): seq<TagSeq>
    requires t < |queue|
  {
    queue[..t] + queue[t + 1..]
  }

  lemma OnlyOne(out: seq<TagSeq>, t: TagSeq, f: nat)
    ensures Only(out + [t], f) == if t.fileNo == f then Only(out, f) + [Line(t.top)] else Only(out, f)
  {
    assert (out + [t])[..|out|] == out;
    assert Only(out, f) + [] == Only(out, f);
  }

  lemma WithoutHas(queue: seq<TagSeq>, t: nat)
    requires t < |queue|
    ensures forall q :: 0 <= q < |queue| && q != t ==> queue[q] in Without(queue, t)
    ensures forall x :: x in Without(queue, t) ==> exists q :: 0 <= q < |queue| && q != t && queue[q] == x
    ensures forall r :: 0 <= r < |queue| - 1 ==> Without(queue, t)[r] == queue[if r < t then r else r + 1]
  {
    var w := Without(queue, t);
    forall q | 0 <= q < |queue| && q != t ensures queue[q] in w {
      assert w[if q < t then q else q - 1] == queue[q];
    }
  }

  /** The top is written, and the queue goes on without its file. */
  lemma TakeTop(tagOrder: seq<string>, files: seq<seq<Line>>, pos: seq<nat>, queue: seq<TagSeq>, out: seq<TagSeq>,
                t: nat)
    requires Positions(files, pos) && Queued(tagOrder, files, pos, queue) && Written(tagOrder, files, pos, queue, out)
    requires t < |queue| && forall q :: 0 <= q < |queue| ==> !After(queue[t], queue[q])
    ensures var f := queue[t].fileNo;
      && f < |files| && pos[f] < |files[f]| && files[f][pos[f]] == Line(queue[t].top)
      && Positions(files, pos[f := pos[f] + 1])
      && Written(tagOrder, files, pos[f := pos[f] + 1], Without(queue, t), out + [queue[t]])
  {
    hide After;
    var f := queue[t].fileNo;
    var pos', out' := pos[f := pos[f] + 1], out + [queue[t]];
    forall g | 0 <= g < |files| ensures Only(out', g) == files[g][..pos'[g]] {
      OnlyOne(out, queue[t], g);
      if g == f {
        assert files[f][..pos[f] + 1] == files[f][..pos[f]] + [files[f][pos[f]]];
      }
    }
    WithoutHas(queue, t);
  }

  /** The other heads stay heads. */
  lemma RestHeads(tagOrder: seq<string>, files: seq<seq<Line>>, pos: seq<nat>, queue: seq<TagSeq>, t: nat)
    requires Positions(files, pos) && Queued(tagOrder, files, pos, queue) && t < |queue|
    ensures var f := queue[t].fileNo;
      && f < |files| && pos[f] < |files[f]| && Positions(files, pos[f := pos[f] + 1])
      && var rest := Without(queue, t);
         && (forall q :: 0 <= q < |rest| ==>
               IsHead(tagOrder, files, pos[f := pos[f] + 1], rest[q]) && rest[q].fileNo != f)
         && (forall p, q :: 0 <= p < q < |rest| ==> rest[p].fileNo != rest[q].fileNo)
  {
    hide FindOrder;
    WithoutHas(queue, t);
  }

  /** The file of the top goes on with a next head, or is at its end. */
  lemma NextHead(tagOrder: seq<string>, files: seq<seq<Line>>, pos: seq<nat>, queue: seq<TagSeq>, t: nat)
    requires Positions(files, pos) && Queued(tagOrder, files, pos, queue) && t < |queue|
    ensures var f := queue[t].fileNo;
      && f < |files| && pos[f] < |files[f]|
      && var pos' := pos[f := pos[f] + 1];
         && (pos'[f] == |files[f]| ==> Queued(tagOrder, files, pos', Without(queue, t)))
         && (pos'[f] < |files[f]| && files[f][pos'[f]].Line? ==>
               Queued(tagOrder, files, pos', Without(queue, t) + [Entry(tagOrder, files, f, pos'[f])]))
  {
    hide FindOrder, Without, IsHead, Entry;
    var f := queue[t].fileNo;
    RestHeads(tagOrder, files, pos, queue, t);
    var pos', rest := pos[f := pos[f] + 1], Without(queue, t);
    forall g | 0 <= g < |files| && g != f && pos'[g] < |files[g]|
      ensures exists q :: 0 <= q < |rest| && rest[q].fileNo == g
    {
      RestHas(files, queue, t, g);
    }
    if pos'[f] < |files[f]| && files[f][pos'[f]].Line? {
      EntryIsHead(tagOrder, files, pos', f);
      QueuedOne(tagOrder, files, pos', rest, f, Entry(tagOrder, files, f, pos'[f]));
    }
  }

  lemma EntryIsHead(tagOrder: seq<string>, files: seq<seq<Line>>, pos: seq<nat>, f: nat)
    requires Positions(files, pos) && f < |files| && pos[f] < |files[f]| && files[f][pos[f]].Line?
    ensures Entry(tagOrder, files, f, pos[f]).fileNo == f
    ensures IsHead(tagOrder, files, pos, Entry(tagOrder, files, f, pos[f]))
  {
  }

  lemma QueuedOne(tagOrder: seq<string>, files: seq<seq<Line>>, pos: seq<nat>, rest: seq<TagSeq>, f: nat, e: TagSeq)
    requires Positions(files, pos) && f < |files| && e.fileNo == f && IsHead(tagOrder, files, pos, e)
    requires forall q :: 0 <= q < |rest| ==> IsHead(tagOrder, files, pos, rest[q]) && rest[q].fileNo != f
    requires forall p, q :: 0 <= p < q < |rest| ==> rest[p].fileNo != rest[q].fileNo
    requires forall g :: 0 <= g < |files| && g != f && pos[g] < |files[g]| ==>
               exists q :: 0 <= q < |rest| && rest[q].fileNo == g
    ensures Queued(tagOrder, files, pos, rest + [e])
  {
    hide IsHead;
    var queue := rest + [e];
    forall g | 0 <= g < |files| && pos[g] < |files[g]| ensures exists q :: 0 <= q < |queue| && queue[q].fileNo == g {
      if g == f {
        assert queue[|rest|].fileNo == f;
      } else {
        var q :| 0 <= q < |rest| && rest[q].fileNo == g;
        assert queue[q] == rest[q];
      }
    }
  }

  lemma RestHas(files: seq<seq<Line>>, queue: seq<TagSeq>, t: nat, g: nat)
    requires t < |queue| && queue[t].fileNo != g && exists q :: 0 <= q < |queue| && queue[q].fileNo == g
    ensures exists q :: 0 <= q < |Without(queue, t)| && Without(queue, t)[q].fileNo == g
  {
    WithoutHas(queue, t);
    var q :| 0 <= q < |queue| && queue[q].fileNo == g;
    var x := queue[q];
    assert x in Without(queue, t);
  }

  /** A head that may follow the tag just written is not before anything written. */
  lemma PushNext(tagOrder: seq<string>, files: seq<seq<Line>>, pos: seq<nat>, rest: seq<TagSeq>, out: seq<TagSeq>,
                 t: TagSeq, next: TagSeq)
    requires Positions(files, pos) && Written(tagOrder, files, pos, rest, out + [t])
    requires t.fileNo == next.fileNo && t.order == FindOrder(tagOrder, t.top.name)
    requires next.order == FindOrder(tagOrder, next.top.name) && !Inverted(tagOrder, t.top, next.top)
    ensures Written(tagOrder, files, pos, rest + [next], out + [t])
  {
    hide FindOrder, Only;
    var all := out + [t];
    assert !After(t, next);
    forall i | 0 <= i < |all| ensures !After(all[i], next) {
      if i < |out| {
        assert !After(all[i], all[|out|]);
      }
      OrderTotal(all[i], t, next);
    }
  }

  lemma SeenNext(tagOrder: seq<string>, files: seq<seq<Line>>, pos: seq<nat>, f: nat)
    requires Positions(files, pos) && Seen(tagOrder, files, pos) && f < |files| && pos[f] < |files[f]|
    ensures var pos' := pos[f := pos[f] + 1];
      && Positions(files, pos')
      && files[f][pos[f]].Line?
      && (pos'[f] == |files[f]| ==> Seen(tagOrder, files, pos'))
      && (pos'[f] < |files[f]| ==>
            var next := files[f][pos'[f]];
            if next.Line? && !Inverted(tagOrder, files[f][pos[f]].tag, next.tag) then Seen(tagOrder, files, pos')
            else !AllProper(tagOrder, files))
  {
    hide Inverted;
    var pos' := pos[f := pos[f] + 1];
    assert Proper(tagOrder, files[f], pos[f] + 1);
    if pos'[f] < |files[f]| && AllProper(tagOrder, files) {
      assert Proper(tagOrder, files[f], |files[f]|);
    }
  }

  /** The number of lines that were not read yet. */
  ghost function Unread(files: seq<seq<Line>>, pos: seq<nat>, n: nat): nat
    requires Positions(files, pos) && n <= |files|
  {
    if n == 0 then 0 else Unread(files, pos, n - 1) + (|files[n - 1]| - pos[n - 1])
  }

  lemma {:induction false} UnreadLess(files: seq<seq<Line>>, pos: seq<nat>, f: nat, n: nat)
    requires Positions(files, pos) && n <= |files| && f < |files| && pos[f] < |files[f]|
    ensures Unread(files, pos[f := pos[f] + 1], n) == Unread(files, pos, n) - if f < n then 1 else 0
  {
    if n > 0 {
      UnreadLess(files, pos, f, n - 1);
    }
  }

  /** TagSeq::init for every file. */
  method InitQueue(tagOrder: seq<string>, files: seq<seq<Line>>) returns (ok: bool, queue: seq<TagSeq>)
    ensures !ok ==> !AllProper(tagOrder, files)
    ensures ok ==> Positions(files, seq(|files|, f => 0)) && Queued(tagOrder, files, seq(|files|, f => 0), queue)
                   && Seen(tagOrder, files, seq(|files|, f => 0))
  {
    hide FindOrder, FirstOnes;
    queue := [];
    ghost var pos: seq<nat> := seq(|files|, f => 0);
    NoFiles(tagOrder, files);
    for i := 0 to |files|
      invariant FirstOnes(tagOrder, files, i, queue)
    {
      if |files[i]| > 0 {
        if files[i][0].Malformed? {
          assert !Proper(tagOrder, files[i], |files[i]|);
          return false, queue;
        }
        var tag := files[i][0].tag;
        FirstOne(tagOrder, files, i, queue);
        queue := queue + [TagSeq(tag, FindOrder(tagOrder, tag.name), i)];
      } else {
        NotThere(tagOrder, files, i, queue);
      }
    }
    AllFirst(tagOrder, files, queue);
    ok := true;
  }

  /** The queue holds the first tags of the files before `i`. */
  ghost predicate FirstOnes(tagOrder: seq<string>, files: seq<seq<Line>>, i: nat, queue: seq<TagSeq>)
    requires i <= |files|
  {
    && (forall q :: 0 <= q < |queue| ==>
          queue[q].fileNo < i && IsHead(tagOrder, files, seq(|files|, f => 0), queue[q]))
    && (forall p, q :: 0 <= p < q < |queue| ==> queue[p].fileNo != queue[q].fileNo)
    && (forall f :: 0 <= f < i && |files[f]| > 0 ==>
          files[f][0].Line? && exists q :: 0 <= q < |queue| && queue[q].fileNo == f)
  }

  lemma NoFiles(tagOrder: seq<string>, files: seq<seq<Line>>)
    ensures FirstOnes(tagOrder, files, 0, [])
  {
  }

  lemma NotThere(tagOrder: seq<string>, files: seq<seq<Line>>, i: nat, queue: seq<TagSeq>)
    requires i < |files| && files[i] == [] && FirstOnes(tagOrder, files, i, queue)
    ensures FirstOnes(tagOrder, files, i + 1, queue)
  {
  }

  lemma FirstOne(tagOrder: seq<string>, files: seq<seq<Line>>, i: nat, queue: seq<TagSeq>)
    requires i < |files| && |files[i]| > 0 && files[i][0].Line? && FirstOnes(tagOrder, files, i, queue)
    ensures var tag := files[i][0].tag;
      FirstOnes(tagOrder, files, i + 1, queue + [TagSeq(tag, FindOrder(tagOrder, tag.name), i)])
  {
    hide FindOrder;
    var tag := files[i][0].tag;
    var after := queue + [TagSeq(tag, FindOrder(tagOrder, tag.name), i)];
    assert after[|queue|].fileNo == i;
    forall f | 0 <= f < i && |files[f]| > 0 ensures exists q :: 0 <= q < |after| && after[q].fileNo == f {
      var q :| 0 <= q < |queue| && queue[q].fileNo == f;
      assert after[q] == queue[q];
    }
  }

  lemma AllFirst(tagOrder: seq<string>, files: seq<seq<Line>>, queue: seq<TagSeq>)
    requires FirstOnes(tagOrder, files, |files|, queue)
    ensures var pos: seq<nat> := seq(|files|, f => 0);
      Positions(files, pos) && Queued(tagOrder, files, pos, queue) && Seen(tagOrder, files, pos)
  {
    hide FindOrder;
  }

  /**
   * MergeHandler2::merge: fails exactly when some file is malformed or inverted, and otherwise writes
   * every file in its own order, all of them in the order of Comp.
   */
  method Merge(tagOrder: seq<string>, files: seq<seq<Line>>) returns (r: Result<seq<TagSeq>>)
    ensures r.Ok? <==>
            (forall f, i :: 0 <= f < |files| && 0 <= i < |files[f]| ==> files[f][i].Line?)
            && (forall f, i :: 0 <= f < |files| && 0 < i < |files[f]| && files[f][i - 1].Line? && files[f][i].Line? ==>
                  MayFollow(tagOrder, files[f][i - 1].tag, files[f][i].tag))
    ensures r.Ok? ==> forall i, j :: 0 <= i < j < |r.value| ==>
              var a, b := r.value[i], r.value[j];
              || a.top.begin < b.top.begin
              || (a.top.begin == b.top.begin && a.top.end > b.top.end)
              || (a.top.begin == b.top.begin && a.top.end == b.top.end
                  && if a.top.begin == a.top.end then a.fileNo <= b.fileNo
                     else a.order < b.order || (a.order == b.order && a.fileNo <= b.fileNo))
    ensures r.Ok? ==> Placed(tagOrder, files, r.value)
    ensures r.Ok? ==> forall f :: 0 <= f < |files| ==> Only(r.value, f) == files[f]
  {
    ProperIs(tagOrder, files);
    r := MergeQueue(tagOrder, files);
    if r.Ok? {
      forall i, j | 0 <= i < j < |r.value| ensures MayPrecede(r.value[i], r.value[j]) {
        OrderIs(r.value[i], r.value[j], tagOrder);
      }
    }
    hide AllProper, Placed, Only, MayFollow;
  }

  lemma ProperIs(tagOrder: seq<string>, files: seq<seq<Line>>)
    ensures AllProper(tagOrder, files) <==>
            (forall f, i :: 0 <= f < |files| && 0 <= i < |files[f]| ==> files[f][i].Line?)
            && (forall f, i :: 0 <= f < |files| && 0 < i < |files[f]| && files[f][i - 1].Line? && files[f][i].Line? ==>
                  MayFollow(tagOrder, files[f][i - 1].tag, files[f][i].tag))
  {
    forall t: Tag, next: Tag ensures !Inverted(tagOrder, t, next) <==> MayFollow(tagOrder, t, next) {
      OrderIs(TagSeq(t, 0, 0), TagSeq(next, 0, 0), tagOrder);
    }
    hide Inverted, MayFollow;
  }

  method MergeQueue(tagOrder: seq<string>, files: seq<seq<Line>>) returns (r: Result<seq<TagSeq>>)
    ensures r.Ok? <==> AllProper(tagOrder, files)
    ensures r.Ok? ==> Ordered(r.value) && Placed(tagOrder, files, r.value)
    ensures r.Ok? ==> forall f :: 0 <= f < |files| ==> Only(r.value, f) == files[f]
  {
    hide After, FindOrder, Inverted, Queued, Written, Seen, AllProper, Unread, Only;
    var ok, queue := InitQueue(tagOrder, files);
    if !ok {
      return Error;
    }
    var pos: seq<nat> := seq(|files|, f => 0);
    var out: seq<TagSeq> := [];
    NothingWritten(tagOrder, files, pos, queue);
    while queue != []
      invariant Positions(files, pos) && Queued(tagOrder, files, pos, queue) && Seen(tagOrder, files, pos)
      invariant Written(tagOrder, files, pos, queue, out)
      decreases Unread(files, pos, |files|)
    {
      var t := Top(queue);
      var ts := queue[t];
      var f := ts.fileNo;
      HeadAt(tagOrder, files, pos, queue, t);
      TakeTop(tagOrder, files, pos, queue, out, t);
      NextHead(tagOrder, files, pos, queue, t);
      SeenNext(tagOrder, files, pos, f);
      UnreadLess(files, pos, f, |files|);
      queue := Without(queue, t);
      ghost var before := out;
      out := out + [ts];
      pos := pos[f := pos[f] + 1];
      if pos[f] < |files[f]| {
        if files[f][pos[f]].Malformed? {
          return Error;
        }
        var next := files[f][pos[f]].tag;
        if Inverted(tagOrder, ts.top, next) {
          return Error;
        }
        var entry := TagSeq(next, FindOrder(tagOrder, next.name), f);
        PushNext(tagOrder, files, pos, queue, before, ts, entry);
        queue := queue + [entry];
      }
    }
    AllWritten(tagOrder, files, pos, out);
    return Ok(out);
  }

  lemma NothingWritten(tagOrder: seq<string>, files: seq<seq<Line>>, pos: seq<nat>, queue: seq<TagSeq>)
    requires Positions(files, pos) && pos == seq(|files|, f => 0)
    ensures Written(tagOrder, files, pos, queue, [])
  {
  }

  lemma HeadAt(tagOrder: seq<string>, files: seq<seq<Line>>, pos: seq<nat>, queue: seq<TagSeq>, t: nat)
    requires Positions(files, pos) && Queued(tagOrder, files, pos, queue) && t < |queue|
    ensures IsHead(tagOrder, files, pos, queue[t])
  {
  }

  lemma AllWritten(tagOrder: seq<string>, files: seq<seq<Line>>, pos: seq<nat>, out: seq<TagSeq>)
    requires Positions(files, pos) && Queued(tagOrder, files, pos, []) && Written(tagOrder, files, pos, [], out)
    requires Seen(tagOrder, files, pos)
    ensures AllProper(tagOrder, files) && Ordered(out) && Placed(tagOrder, files, out)
    ensures forall f :: 0 <= f < |files| ==> Only(out, f) == files[f]
  {
    forall f | 0 <= f < |files| ensures pos[f] == |files[f]| && Only(out, f) == files[f] {
      assert files[f][..|files[f]|] == files[f];
    }
  }
}
