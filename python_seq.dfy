/** The pieces of Python's value semantics that the stitching code relies on:
    `x or default` on an optional integer, slicing with clamped and negative
    bounds, `zip` truncating to the shorter operand, and `dict(zip(keys, values))`. */
module PythonSeq {

  datatype Option<T> = None | Some(value: T)

  /** `x or fallback` where `x` is `None` or an integer: `None` and `0` are falsy. */
  function OrElse(x: Option<int>, fallback: int): int
  {
    if x.Some? && x.value != 0 then x.value else fallback
  }

  function Min(a: int, b: int): int { if a <= b then a else b }

  /** Python's normalisation of one slice bound against a length `n`: a negative
      bound counts from the end, and the result is clamped to `[0, n]`. */
  function Bound(i: int, n: nat): nat
  {
    if i < 0 then (if i + n < 0 then 0 else i + n)
    else if i <= n then i else n
  }

  /** A normalised bound is a position of the sequence: an in-range bound is
      kept, a negative one within the length counts back from the end, and
      anything further out is clamped to the nearer end. */
  lemma {:induction false} BoundIsPosition(i: int, n: nat)
    ensures Bound(i, n) <= n
    ensures 0 <= i <= n ==> Bound(i, n) == i
    ensures i < 0 && 0 <= i + n ==> Bound(i, n) == i + n
    ensures i + n < 0 ==> Bound(i, n) == 0
    ensures n < i ==> Bound(i, n) == n
  {
  }

  /** `s[a:b]` for a step of one. */
  function Slice<T>(s: seq<T>, a: int, b: int): (r: seq<T>)
    ensures |r| <= |s|
    ensures 0 <= a <= b <= |s| ==> r == s[a..b]
    ensures 0 <= b <= a ==> r == []
    ensures 0 <= a && |s| <= b ==> r == s[Min(a, |s|)..]
  {
    var lo, hi := Bound(a, |s|), Bound(b, |s|);
    if lo < hi then s[lo..hi] else []
  }

  /** Slicing at `b` and gluing the halves back loses and duplicates nothing. */
  lemma {:induction false} SliceSplit<T>(s: seq<T>, a: int, b: int, c: int)
    requires 0 <= a <= b <= c <= |s|
    ensures Slice(s, a, b) + Slice(s, b, c) == Slice(s, a, c)
  {
    assert s[a..b] + s[b..c] == s[a..c];
  }

  /** `list(zip(a, b))`: pairs up to the shorter of the two. */
  function Zip<A, B>(a: seq<A>, b: seq<B>): (r: seq<(A, B)>)
    ensures |r| == Min(|a|, |b|)
  {
    if a == [] || b == [] then [] else [(a[0], b[0])] + Zip(a[1..], b[1..])
  }

  /** Pair `k` of the zip is element `k` of each operand. */
  lemma {:induction false} ZipPairs<A, B>(a: seq<A>, b: seq<B>)
    ensures forall k :: 0 <= k < |Zip(a, b)| ==> Zip(a, b)[k] == (a[k], b[k])
    decreases |a|
  {
    if a != [] && b != [] {
      ZipPairs(a[1..], b[1..]);
      var r := Zip(a, b);
      forall k | 0 <= k < |r| ensures r[k] == (a[k], b[k]) {
        if k > 0 {
          assert r[k] == Zip(a[1..], b[1..])[k - 1];
        }
      }
    }
  }

  /** Zipping two concatenations whose first parts have equal lengths is
      concatenating the two zips. */
  lemma {:induction false} ZipAppend<A, B>(a1: seq<A>, a2: seq<A>, b1: seq<B>, b2: seq<B>)
    requires |a1| == |b1|
    ensures Zip(a1 + a2, b1 + b2) == Zip(a1, b1) + Zip(a2, b2)
  {
    if a1 != [] {
      assert (a1 + a2)[0] == a1[0] && (a1 + a2)[1..] == a1[1..] + a2;
      assert (b1 + b2)[0] == b1[0] && (b1 + b2)[1..] == b1[1..] + b2;
      ZipAppend(a1[1..], a2, b1[1..], b2);
    } else {
      assert a1 + a2 == a2 && b1 + b2 == b2;
    }
  }

  /** No later pair of `pairs` has the same key as pair `k`. */
  ghost predicate LastWithKey<K, V>(pairs: seq<(K, V)>, k: nat)
    requires k < |pairs|
  {
    forall j :: k < j < |pairs| ==> pairs[j].0 != pairs[k].0
  }

  /** `dict(pairs)`: keys inserted in order, a later key overriding an earlier one. */
  function Dict<K, V>(pairs: seq<(K, V)>): map<K, V>
  {
    if pairs == [] then map[] else Dict(pairs[..|pairs| - 1])[pairs[|pairs| - 1].0 := pairs[|pairs| - 1].1]
  }

  /** Every key of `pairs` is in the dict and nothing else is; a key that no
      later pair repeats maps to its own value. */
  lemma {:induction false} DictLookup<K, V>(pairs: seq<(K, V)>)
    ensures forall k :: 0 <= k < |pairs| ==> pairs[k].0 in Dict(pairs)
    ensures forall x :: x in Dict(pairs) ==> exists k :: 0 <= k < |pairs| && pairs[k].0 == x
    ensures forall k :: 0 <= k < |pairs| && LastWithKey(pairs, k) ==> Dict(pairs)[pairs[k].0] == pairs[k].1
    decreases |pairs|
  {
    if pairs != [] {
      var init, last := pairs[..|pairs| - 1], pairs[|pairs| - 1];
      DictLookup(init);
      assert forall k :: 0 <= k < |init| ==> init[k] == pairs[k];
      forall k | 0 <= k < |pairs| && LastWithKey(pairs, k) ensures Dict(pairs)[pairs[k].0] == pairs[k].1 {
        if k < |init| {
          assert LastWithKey(init, k);
        }
      }
    }
  }
}
