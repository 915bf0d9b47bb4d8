/**
 A JavaScript object used as a record (`Record<string, T>`) is modelled by its own
 entries in enumeration order, the sequence `Object.entries` walks. Object keys are
 unique, so every entry sequence that stands for an object literal is `KeysDistinct`.
 */
module Entries {
  import opened Wrappers

  type Entries<T> = seq<(string, T)>

  /** `Object.keys`: the keys, in enumeration order. */
  function Keys<T>(p: Entries<T>): (r: seq<string>)
    ensures |r| == |p|
    ensures forall i :: 0 <= i < |p| ==> r[i] == p[i].0
  {
    seq(|p|, i requires 0 <= i < |p| => p[i].0)
  }

  predicate KeysDistinct<T>(p: Entries<T>)
  {
    forall i, j :: 0 <= i < j < |p| ==> p[i].0 != p[j].0
  }

  predicate HasKey<T>(p: Entries<T>, k: string)
  {
    exists i :: 0 <= i < |p| && p[i].0 == k
  }

  /** The keys of a non-empty entry list: those of all but the last entry, and the last key. */
  lemma HasKeySplit<T>(p: Entries<T>)
    requires |p| > 0
    ensures forall k :: HasKey(p, k) <==> HasKey(p[..|p| - 1], k) || k == p[|p| - 1].0
  {
    var init := p[..|p| - 1];
    assert forall j :: 0 <= j < |init| ==> init[j] == p[j];
  }

  /** Property read `obj[k]` on the object the entries describe: the value of
      the last entry with key `k` (with distinct keys, the only one). */
  function Find<T>(p: Entries<T>, k: string): (r: Option<T>)
    ensures r.None? <==> !HasKey(p, k)
    ensures r.Some? ==> exists i :: 0 <= i < |p| && p[i] == (k, r.value)
                                    && forall j :: i < j < |p| ==> p[j].0 != k
  {
    if |p| == 0 then None
    else if p[|p| - 1].0 == k then Some(p[|p| - 1].1)
    else
      var r := Find(p[..|p| - 1], k);
      assert forall i :: 0 <= i < |p| - 1 ==> p[..|p| - 1][i] == p[i];
      r
  }

  /** With distinct keys, the value found is the one stored at the key's only entry. */
  lemma FindDistinct<T>(p: Entries<T>, i: int)
    requires KeysDistinct(p)
    requires 0 <= i < |p|
    ensures Find(p, p[i].0) == Some(p[i].1)
  {
    var r := Find(p, p[i].0);
    var j :| 0 <= j < |p| && p[j] == (p[i].0, r.value);
    assert i == j;
  }

  /** The entry a read finds: the last entry with the key, whatever comes before it. */
  lemma FindLastEntry<T>(p: Entries<T>, k: string)
    ensures forall i :: 0 <= i < |p| && p[i].0 == k && (forall j :: i < j < |p| ==> p[j].0 != k) ==>
              Find(p, k) == Some(p[i].1)
  {
    forall i | 0 <= i < |p| && p[i].0 == k && (forall j :: i < j < |p| ==> p[j].0 != k)
      ensures Find(p, k) == Some(p[i].1)
    {
      var r := Find(p, k);
      var w :| 0 <= w < |p| && p[w] == (k, r.value) && forall j :: w < j < |p| ==> p[j].0 != k;
      assert i == w;
    }
  }

  /** `a` keeps some of the elements of `b`, in `b`'s order. */
  predicate IsSubsequence<T(==)>(a: seq<T>, b: seq<T>)
    decreases |b|
  {
    if |a| == 0 then true
    else if |b| == 0 then false
    else if a[0] == b[0] then IsSubsequence(a[1..], b[1..])
    else IsSubsequence(a, b[1..])
  }

  lemma {:induction false} SubsequenceDropFirst<T>(a: seq<T>, b: seq<T>)
    requires |a| > 0 && IsSubsequence(a, b)
    ensures IsSubsequence(a[1..], b)
    decreases |b|, 0
  {
    if |a| == 1 {
    } else if a[0] == b[0] {
      SubsequenceDropFirst(a[1..], b[1..]);
      SubsequenceSkip(a[1..][1..], b[1..], b[0]);
      assert [b[0]] + b[1..] == b;
    } else {
      SubsequenceDropFirst(a, b[1..]);
      SubsequenceSkip(a[1..], b[1..], b[0]);
      assert [b[0]] + b[1..] == b;
    }
  }

  /** Putting an element in front of the longer sequence keeps the relation. */
  lemma {:induction false} SubsequenceSkip<T>(a: seq<T>, b: seq<T>, x: T)
    requires IsSubsequence(a, b)
    ensures IsSubsequence(a, [x] + b)
    decreases |b|, 1
  {
    var xb := [x] + b;
    assert xb[1..] == b;
    if |a| == 0 {
    } else if a[0] == x {
      SubsequenceDropFirst(a, b);
    }
  }
}
