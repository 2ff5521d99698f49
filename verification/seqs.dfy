/** Generic facts about sequences of sequences and about filtering, used by
    the colour splitter (which lays out one entry per vertex, path after
    path) and by the inset pruning (which keeps the elements that pass a
    test, in order). */
module Seqs {

  /** The concatenation of all inner sequences, in order. */
  function Flatten<T>(xss: seq<seq<T>>): (r: seq<T>)
  {
    if |xss| == 0 then [] else Flatten(xss[..|xss| - 1]) + xss[|xss| - 1]
  }

  /** The total number of inner elements. */
  function TotalLength<T>(xss: seq<seq<T>>): (n: nat)
  {
    if |xss| == 0 then 0 else TotalLength(xss[..|xss| - 1]) + |xss[|xss| - 1]|
  }

  lemma {:induction false} FlattenLength<T>(xss: seq<seq<T>>)
    ensures |Flatten(xss)| == TotalLength(xss)
    decreases |xss|
  {
    if |xss| > 0 {
      FlattenLength(xss[..|xss| - 1]);
    }
  }

  /** Flattening one more inner sequence appends it. */
  lemma FlattenSnoc<T>(xss: seq<seq<T>>, j: nat)
    requires j < |xss|
    ensures Flatten(xss[..j + 1]) == Flatten(xss[..j]) + xss[j]
    ensures TotalLength(xss[..j + 1]) == TotalLength(xss[..j]) + |xss[j]|
  {
    assert xss[..j + 1][..j] == xss[..j];
  }

  /** Element `i` of inner sequence `j` sits right after all elements of the
      inner sequences before `j`. */
  lemma {:induction false} FlattenAt<T>(xss: seq<seq<T>>, j: nat, i: nat)
    requires j < |xss| && i < |xss[j]|
    ensures TotalLength(xss[..j]) + i < TotalLength(xss)
    ensures TotalLength(xss[..j]) + i < |Flatten(xss)|
    ensures Flatten(xss)[TotalLength(xss[..j]) + i] == xss[j][i]
    decreases |xss|
  {
    var n := |xss| - 1;
    var front := xss[..n];
    FlattenLength(front);
    FlattenLength(xss);
    if j == n {
      assert xss[..j] == front;
    } else {
      FlattenAt(front, j, i);
      assert front[..j] == xss[..j];
    }
  }

  /** The total length depends only on the inner lengths. */
  lemma {:induction false} TotalLengthSameShape<T, U>(xss: seq<seq<T>>, yss: seq<seq<U>>)
    requires |xss| == |yss|
    requires forall k :: 0 <= k < |xss| ==> |xss[k]| == |yss[k]|
    ensures TotalLength(xss) == TotalLength(yss)
    decreases |xss|
  {
    if |xss| > 0 {
      TotalLengthSameShape(xss[..|xss| - 1], yss[..|yss| - 1]);
    }
  }

  /** The elements of `s` that pass `keep`, in their original order. */
  function Filter<T>(s: seq<T>, keep: T -> bool): (r: seq<T>)
    ensures |r| <= |s|
    ensures forall i :: 0 <= i < |r| ==> keep(r[i])
    ensures forall i :: 0 <= i < |r| ==> r[i] in s
    ensures forall i :: 0 <= i < |s| && keep(s[i]) ==> s[i] in r
  {
    if |s| == 0 then []
    else Filter(s[..|s| - 1], keep) + (if keep(s[|s| - 1]) then [s[|s| - 1]] else [])
  }

  /** Filtering distributes over concatenation, so survivors keep their
      relative order. */
  lemma {:induction false} FilterConcat<T>(s: seq<T>, t: seq<T>, keep: T -> bool)
    ensures Filter(s + t, keep) == Filter(s, keep) + Filter(t, keep)
    decreases |t|
  {
    if |t| > 0 {
      var n := |t| - 1;
      assert (s + t)[..|s + t| - 1] == s + t[..n];
      FilterConcat(s, t[..n], keep);
    } else {
      assert s + t == s;
    }
  }

  /** Nothing is kept when nothing passes. */
  lemma {:induction false} FilterDropsAll<T>(s: seq<T>, keep: T -> bool)
    requires forall i :: 0 <= i < |s| ==> !keep(s[i])
    ensures Filter(s, keep) == []
    decreases |s|
  {
    if |s| > 0 {
      FilterDropsAll(s[..|s| - 1], keep);
    }
  }

  /** Something is kept exactly when something passes. */
  lemma FilterNonEmpty<T>(s: seq<T>, keep: T -> bool)
    ensures |Filter(s, keep)| > 0 <==> exists i :: 0 <= i < |s| && keep(s[i])
  {
    if exists i :: 0 <= i < |s| && keep(s[i]) {
      var i :| 0 <= i < |s| && keep(s[i]);
      assert s[i] in Filter(s, keep);
    } else {
      FilterDropsAll(s, keep);
    }
  }

  /** One step of filtering in place: with the first `n` elements of `cur`
      being the survivors of the first `done` elements of `orig`, and
      `cur[n]` the next element of `orig`, either keeping `cur[n]` (when it
      passes) or erasing it (when it does not) extends that to `done + 1`. */
  lemma EraseStep<T>(cur: seq<T>, n: nat, orig: seq<T>, done: nat, keep: T -> bool)
    requires n < |cur| && done < |orig|
    requires cur[..n] == Filter(orig[..done], keep) && cur[n] == orig[done]
    ensures keep(cur[n]) ==> cur[..n + 1] == Filter(orig[..done + 1], keep)
    ensures !keep(cur[n]) ==>
              var next := cur[..n] + cur[n + 1..];
              next[..n] == Filter(orig[..done + 1], keep) && next[n..] == cur[n + 1..]
  {
    assert orig[..done + 1][..done] == orig[..done];
    assert cur[..n + 1] == cur[..n] + [cur[n]];
  }

  /** Replacing element `n` leaves the elements around it alone. */
  lemma ReplaceAt<T>(s: seq<T>, n: nat, x: T)
    requires n < |s|
    ensures s[n := x][..n] == s[..n] && s[n := x][n + 1..] == s[n + 1..] && s[n := x][n] == x
  {
  }
}
