/** Facts about sequences. */
module Seqs {

  function Without<T>(s: seq<T>, j: nat): seq<T>
    requires j < |s|
  {
    s[..j] + s[j + 1..]
  }

  lemma Assoc<T>(a: seq<T>, b: seq<T>, c: seq<T>)
    ensures a + (b + c) == a + b + c
  {
  }

  lemma ConsTail<T>(x: T, s: seq<T>)
    ensures ([x] + s)[0] == x && ([x] + s)[1..] == s
  {
  }

  lemma MoveHead<T>(a: seq<T>, b: seq<T>)
    requires b != []
    ensures a + b == a + [b[0]] + b[1..]
  {
  }

  lemma ConcatTail<T>(a: seq<T>, b: seq<T>)
    requires a != []
    ensures (a + b)[0] == a[0] && (a + b)[1..] == a[1..] + b
  {
  }

  lemma Cancel<T>(x: seq<T>, s: T, y: seq<T>, x': seq<T>, s': T, y': seq<T>)
    requires x + ([s] + y) == x' + ([s'] + y') && |x| == |x'|
    ensures x == x' && s == s' && y == y'
  {
    var all := x + ([s] + y);
    var all' := x' + ([s'] + y');
    assert all[..|x|] == x && all'[..|x|] == x';
    assert all[|x|] == s && all'[|x|] == s';
    assert all[|x| + 1..] == y && all'[|x| + 1..] == y';
  }

  /** The `n` elements of `s` from `i` on are those of `t` from `j` on. */
  ghost predicate Agree<T>(s: seq<T>, i: nat, t: seq<T>, j: nat, n: nat)
    ensures Agree(s, i, t, j, n) ==> i + n <= |s| && j + n <= |t|
    decreases n
  {
    if n == 0 then i <= |s| && j <= |t|
    else i < |s| && j < |t| && s[i] == t[j] && Agree(s, i + 1, t, j + 1, n - 1)
  }

  lemma {:induction false} AgreeAt<T>(s: seq<T>, i: nat, t: seq<T>, j: nat, n: nat, k: nat)
    requires Agree(s, i, t, j, n) && k < n
    ensures s[i + k] == t[j + k]
    decreases n
  {
    if k > 0 {
      AgreeAt(s, i + 1, t, j + 1, n - 1, k - 1);
    }
  }

  lemma {:induction false} AgreePart<T>(s: seq<T>, i: nat, t: seq<T>, j: nat, n: nat, k: nat, m: nat)
    requires Agree(s, i, t, j, n) && k + m <= n
    ensures Agree(s, i + k, t, j + k, m)
    decreases n
  {
    if k > 0 {
      AgreePart(s, i + 1, t, j + 1, n - 1, k - 1, m);
    } else if m > 0 {
      AgreePart(s, i + 1, t, j + 1, n - 1, 0, m - 1);
    }
  }

  lemma {:induction false} AgreeTrans<T>(s: seq<T>, i: nat, t: seq<T>, j: nat, u: seq<T>, k: nat, n: nat)
    requires Agree(s, i, t, j, n) && Agree(t, j, u, k, n)
    ensures Agree(s, i, u, k, n)
    decreases n
  {
    if n > 0 {
      AgreeTrans(s, i + 1, t, j + 1, u, k + 1, n - 1);
    }
  }

  lemma {:induction false} AgreeEach<T>(s: seq<T>, i: nat, t: seq<T>, j: nat, n: nat)
    requires i + n <= |s| && j + n <= |t|
    requires forall k :: i <= k < i + n ==> s[k] == t[k - i + j]
    ensures Agree(s, i, t, j, n)
    decreases n
  {
    if n > 0 {
      AgreeEach(s, i + 1, t, j + 1, n - 1);
    }
  }

  lemma AgreeSame<T>(s: seq<T>, t: seq<T>, i: nat, n: nat)
    requires i + n <= |s| && i + n <= |t|
    requires forall k :: i <= k < i + n ==> s[k] == t[k]
    ensures Agree(s, i, t, i, n)
  {
    AgreeEach(s, i, t, i, n);
  }

  lemma {:induction false} AgreeAll<T>(s: seq<T>, i: nat, t: seq<T>, j: nat, n: nat)
    requires Agree(s, i, t, j, n)
    ensures s[i..i + n] == t[j..j + n]
    decreases n
  {
    if n > 0 {
      AgreeAll(s, i + 1, t, j + 1, n - 1);
      assert s[i..i + n] == [s[i]] + s[i + 1..i + n];
      assert t[j..j + n] == [t[j]] + t[j + 1..j + n];
    }
  }

  lemma AgreeSlice<T>(s: seq<T>, i: nat, t: seq<T>, j: nat, n: nat)
    ensures Agree(s, i, t, j, n) <==> i + n <= |s| && j + n <= |t| && s[i..i + n] == t[j..j + n]
  {
    if Agree(s, i, t, j, n) {
      AgreeAll(s, i, t, j, n);
    }
    if i + n <= |s| && j + n <= |t| && s[i..i + n] == t[j..j + n] {
      forall k | i <= k < i + n ensures s[k] == t[k - i + j] {
        assert s[i..i + n][k - i] == t[j..j + n][k - i];
      }
      AgreeEach(s, i, t, j, n);
    }
  }

  /** `s` from `i` on reads `t`. */
  ghost predicate Reads<T>(s: seq<T>, i: nat, t: seq<T>) {
    Agree(s, i, t, 0, |t|)
  }

  lemma ReadsSlice<T>(s: seq<T>, i: nat, t: seq<T>)
    ensures Reads(s, i, t) <==> i + |t| <= |s| && s[i..i + |t|] == t
  {
    AgreeSlice(s, i, t, 0, |t|);
    assert t[0..|t|] == t;
  }

  lemma AgreePrefix<T>(s: seq<T>, u: seq<T>, i: nat, n: nat)
    requires i + n <= |s|
    ensures Agree(s + u, i, s, i, n)
  {
    AgreeEach(s + u, i, s, i, n);
  }

  lemma ReadsGrown<T>(s: seq<T>, u: seq<T>, i: nat, t: seq<T>)
    requires Reads(s, i, t)
    ensures Reads(s + u, i, t)
  {
    AgreePrefix(s, u, i, |t|);
    AgreeTrans(s + u, i, s, i, t, 0, |t|);
  }

  lemma ReadsEnd<T>(s: seq<T>, t: seq<T>)
    ensures Reads(s + t, |s|, t)
  {
    AgreeEach(s + t, |s|, t, 0, |t|);
  }

  lemma ReadsBoth<T>(s: seq<T>, i: nat, t: seq<T>, u: seq<T>)
    requires Reads(s, i, t + u)
    ensures Reads(s, i, t) && Reads(s, i + |t|, u)
  {
    AgreePart(s, i, t + u, 0, |t + u|, 0, |t|);
    AgreePart(s, i, t + u, 0, |t + u|, |t|, |u|);
    AgreePrefix(t, u, 0, |t|);
    ReadsEnd(t, u);
    AgreeTrans(s, i, t + u, 0, t, 0, |t|);
    AgreeTrans(s, i + |t|, t + u, |t|, u, 0, |u|);
  }

  lemma ReadsJoined<T>(s: seq<T>, i: nat, t: seq<T>, u: seq<T>)
    requires Reads(s, i, t) && Reads(s, i + |t|, u)
    ensures Reads(s, i, t + u)
  {
    ReadsSlice(s, i, t);
    ReadsSlice(s, i + |t|, u);
    ReadsSlice(s, i, t + u);
    assert s[i..i + |t| + |u|] == s[i..i + |t|] + s[i + |t|..i + |t| + |u|];
  }
}
