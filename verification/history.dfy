/**
 The clip history (the `Clipboard` class of src/Clipboard.ts): an ordered
 sequence of clips, oldest first, grown by appending and shrunk by removing one
 clip or clearing all of them. `getClips` hands out the sequence itself, so it
 needs no function of its own here.
 */
module ClipHistory {
  import opened Clips

  type History = seq<Clip>

  /** `a` is `b` with some entries deleted and the rest kept in order. */
  predicate IsSubsequence<T(==)>(a: seq<T>, b: seq<T>)
    decreases |b|
  {
    || a == []
    || (b != [] && ((a[0] == b[0] && IsSubsequence(a[1..], b[1..])) || IsSubsequence(a, b[1..])))
  }

  lemma {:induction false} SubsequenceOfItself<T>(a: seq<T>)
    ensures IsSubsequence(a, a)
    decreases |a|
  {
    if a != [] {
      SubsequenceOfItself(a[1..]);
    }
  }

  lemma {:induction false} SubsequenceCountsAtMost<T>(a: seq<T>, b: seq<T>, x: T)
    requires IsSubsequence(a, b)
    ensures multiset(a)[x] <= multiset(b)[x]
    decreases |b|
  {
    if a != [] {
      assert b == [b[0]] + b[1..];
      if a[0] == b[0] && IsSubsequence(a[1..], b[1..]) {
        SubsequenceCountsAtMost(a[1..], b[1..], x);
        assert a == [a[0]] + a[1..];
      } else {
        SubsequenceCountsAtMost(a, b[1..], x);
      }
    }
  }

  /** No two clips of `h` share an id, so no clip occurs twice. */
  predicate UniqueIds(h: History) {
    forall i, j :: 0 <= i < j < |h| ==> h[i].id != h[j].id
  }

  /** `addClip`: the new clip goes last and nothing before it changes. */
  function AddClip(h: History, c: Clip): (r: History)
    ensures |r| == |h| + 1
    ensures r[|h|] == c
    ensures r[..|h|] == h
  {
    h + [c]
  }

  /** Array `indexOf`: the position of the first occurrence of `c`, or -1. */
  function IndexOf(h: History, c: Clip): (i: int)
    ensures -1 <= i < |h|
    ensures i == -1 <==> c !in h
    ensures 0 <= i ==> h[i] == c && forall k :: 0 <= k < i ==> h[k] != c
  {
    if h == [] then -1
    else if h[0] == c then 0
    else
      var j := IndexOf(h[1..], c);
      if j == -1 then -1
      else
        j + 1
  }

  /**
   `removeClip`: deletes the first occurrence of `c`, leaving the history as
   it was when `c` is not in it.
   */
  function RemoveClip(h: History, c: Clip): (r: History)
    ensures c !in h ==> r == h
    ensures c in h ==> |r| == |h| - 1
    ensures multiset(r) == multiset(h) - multiset{c}
  {
    var i := IndexOf(h, c);
    if i >= 0 then
      assert h == h[..i] + [c] + h[i + 1..];
      h[..i] + h[i + 1..]
    else
      h
  }

  /** Reference definition: drop the first `c` met walking from the oldest clip. */
  function RemoveFirst(h: History, c: Clip): History {
    if h == [] then []
    else if h[0] == c then h[1..]
    else [h[0]] + RemoveFirst(h[1..], c)
  }

  /** Past a clip other than `c`, removal carries on in the rest of the history. */
  lemma RemoveClipPastHead(h: History, c: Clip)
    requires h != [] && h[0] != c
    ensures RemoveClip(h, c) == [h[0]] + RemoveClip(h[1..], c)
  {
    var t := h[1..];
    var j := IndexOf(t, c);
    assert IndexOf(h, c) == if j == -1 then -1 else j + 1;
    if j >= 0 {
      assert RemoveClip(t, c) == t[..j] + t[j + 1..];
      assert RemoveClip(h, c) == h[..j + 1] + h[j + 2..];
      assert h[..j + 1] == [h[0]] + t[..j];
      assert h[j + 2..] == t[j + 1..];
    } else {
      assert h == [h[0]] + t;
      assert c !in h;
    }
  }

  /** `removeClip` deletes the first occurrence and only that one. */
  lemma {:induction false} RemoveClipIsRemoveFirst(h: History, c: Clip)
    ensures RemoveClip(h, c) == RemoveFirst(h, c)
    decreases |h|
  {
    if h != [] && h[0] != c {
      RemoveClipIsRemoveFirst(h[1..], c);
      RemoveClipPastHead(h, c);
    }
  }

  lemma {:induction false} RemoveFirstKeepsOrder(h: History, c: Clip)
    ensures IsSubsequence(RemoveFirst(h, c), h)
    decreases |h|
  {
    if h != [] {
      if h[0] == c {
        SubsequenceOfItself(h[1..]);
      } else {
        RemoveFirstKeepsOrder(h[1..], c);
        assert RemoveFirst(h, c)[1..] == RemoveFirst(h[1..], c);
      }
    }
  }

  /** The clips `removeClip` leaves keep their relative order. */
  lemma RemoveClipKeepsOrder(h: History, c: Clip)
    ensures IsSubsequence(RemoveClip(h, c), h)
  {
    RemoveClipIsRemoveFirst(h, c);
    RemoveFirstKeepsOrder(h, c);
  }

  /**
   With unique ids, removing a clip takes out exactly that capture: it is
   gone afterwards, every other clip (including ones with equal text, file and
   language) stays, and the ids stay unique.
   */
  lemma RemoveClipDropsExactlyThatClip(h: History, c: Clip)
    requires UniqueIds(h)
    ensures UniqueIds(RemoveClip(h, c))
    ensures forall d :: d in RemoveClip(h, c) <==> d in h && d != c
  {
    var i := IndexOf(h, c);
    if i >= 0 {
      assert RemoveClip(h, c) == h[..i] + h[i + 1..];
      DeleteAtDropsOnlyThatClip(h, i);
    }
  }

  /** Deleting the clip at position `i` of a history with unique ids. */
  lemma DeleteAtDropsOnlyThatClip(h: History, i: int)
    requires UniqueIds(h) && 0 <= i < |h|
    ensures UniqueIds(h[..i] + h[i + 1..])
    ensures forall d :: d in h[..i] + h[i + 1..] <==> d in h && d != h[i]
  {
    var r := h[..i] + h[i + 1..];
    assert forall k :: 0 <= k < |r| ==> r[k] == h[if k < i then k else k + 1];
    forall a, b | 0 <= a < b < |r|
      ensures r[a].id != r[b].id
    {
      var a', b' := if a < i then a else a + 1, if b < i then b else b + 1;
      assert r[a] == h[a'] && r[b] == h[b'] && a' < b';
    }
    forall d | d in h && d != h[i]
      ensures d in r
    {
      var k :| 0 <= k < |h| && h[k] == d;
      assert r[if k < i then k else k - 1] == d;
    }
    forall d | d in r
      ensures d != h[i]
    {
      var k :| 0 <= k < |r| && r[k] == d;
      var k' := if k < i then k else k + 1;
      assert d == h[k'] && k' != i;
    }
  }

  /** Appending a clip that was not there and then removing it restores the history. */
  lemma RemoveUndoesAdd(h: History, c: Clip)
    requires c !in h
    ensures RemoveClip(AddClip(h, c), c) == h
  {
    assert IndexOf(h + [c], c) == |h|;
  }

  /** `clear`: the history afterwards is empty. */
  function Clear(h: History): (r: History)
    ensures |r| == 0
  {
    []
  }

  lemma ClearIsIdempotent(h: History)
    ensures Clear(Clear(h)) == Clear(h)
  {
  }
}
