/**
 * Generic sequence operations: the array methods `map` and `filter`, reversal,
 * lookup of the first matching element, and ordering of records by a key.
 */
module Seqs {
  import opened Wrappers

  /** `s.map(f)`. */
  function Map<A, B>(s: seq<A>, f: A -> B): (r: seq<B>)
    ensures |r| == |s|
    ensures forall i :: 0 <= i < |s| ==> r[i] == f(s[i])
  {
    seq(|s|, i requires 0 <= i < |s| => f(s[i]))
  }

  /** Mapping a concatenation maps each part. */
  lemma MapAppend<A, B>(a: seq<A>, b: seq<A>, f: A -> B)
    ensures Map(a + b, f) == Map(a, f) + Map(b, f)
  {
  }

  /** `s.filter(keep)`: the elements that satisfy `keep`, in their original order. */
  function Filter<T>(s: seq<T>, keep: T -> bool): (r: seq<T>)
    ensures |r| <= |s|
    ensures forall i :: 0 <= i < |r| ==> r[i] in s && keep(r[i])
    ensures forall i :: 0 <= i < |s| && keep(s[i]) ==> s[i] in r
  {
    if s == [] then []
    else if keep(s[0]) then [s[0]] + Filter(s[1..], keep)
    else Filter(s[1..], keep)
  }

  /** The number of elements that satisfy `keep` (a `countDocuments` with a filter). */
  function Count<T>(s: seq<T>, keep: T -> bool): nat {
    |Filter(s, keep)|
  }

  /** Filtering a sequence whose every element is kept gives it back unchanged. */
  lemma {:induction false} FilterKeepsAll<T>(s: seq<T>, keep: T -> bool)
    requires forall i :: 0 <= i < |s| ==> keep(s[i])
    ensures Filter(s, keep) == s
  {
    if s != [] {
      FilterKeepsAll(s[1..], keep);
    }
  }

  /** Filtering a sequence none of whose elements is kept gives the empty sequence. */
  lemma {:induction false} FilterKeepsNone<T>(s: seq<T>, keep: T -> bool)
    requires forall i :: 0 <= i < |s| ==> !keep(s[i])
    ensures Filter(s, keep) == []
  {
    if s != [] {
      FilterKeepsNone(s[1..], keep);
    }
  }

  /** Filtering distributes over concatenation, so the kept elements keep their order. */
  lemma {:induction false} FilterAppend<T>(a: seq<T>, b: seq<T>, keep: T -> bool)
    ensures Filter(a + b, keep) == Filter(a, keep) + Filter(b, keep)
  {
    if a == [] {
      assert a + b == b;
    } else {
      assert (a + b)[0] == a[0];
      assert (a + b)[1..] == a[1..] + b;
      FilterAppend(a[1..], b, keep);
    }
  }

  function Reverse<T>(s: seq<T>): (r: seq<T>)
    ensures |r| == |s|
    ensures forall i :: 0 <= i < |s| ==> r[i] == s[|s| - 1 - i]
    ensures forall i :: 0 <= i < |s| ==> s[i] in r
  {
    if s == [] then [] else Reverse(s[1..]) + [s[0]]
  }

  /** The index of the first element that satisfies `hit` (a `findOne`). */
  function IndexOf<T>(s: seq<T>, hit: T -> bool): (r: Option<nat>)
    ensures r.Some? ==> r.value < |s| && hit(s[r.value])
    ensures r.Some? ==> forall j :: 0 <= j < r.value ==> !hit(s[j])
    ensures r.None? <==> forall j :: 0 <= j < |s| ==> !hit(s[j])
  {
    if s == [] then None
    else if hit(s[0]) then Some(0)
    else match IndexOf(s[1..], hit)
      case None => None
      case Some(k) => Some(k + 1)
  }

  /** The keys strictly increase along `s` (records kept in creation order). */
  ghost predicate Ascending<T>(s: seq<T>, key: T -> nat) {
    forall i, j :: 0 <= i < j < |s| ==> key(s[i]) < key(s[j])
  }

  /** The keys strictly decrease along `s` (newest first). */
  ghost predicate Descending<T>(s: seq<T>, key: T -> nat) {
    forall i, j :: 0 <= i < j < |s| ==> key(s[i]) > key(s[j])
  }

  /** A selection from a chronological sequence is still chronological. */
  lemma {:induction false} FilterAscending<T>(s: seq<T>, keep: T -> bool, key: T -> nat)
    requires Ascending(s, key)
    ensures Ascending(Filter(s, keep), key)
  {
    if s != [] {
      var rest := Filter(s[1..], keep);
      FilterAscending(s[1..], keep, key);
      if keep(s[0]) {
        assert forall i :: 0 <= i < |s[1..]| ==> key(s[0]) < key(s[1..][i]) by {
          forall i | 0 <= i < |s[1..]| ensures key(s[0]) < key(s[1..][i]) {
            assert s[1..][i] == s[i + 1];
          }
        }
        FilterKeysAbove(s[1..], keep, key, key(s[0]));
        var r := [s[0]] + rest;
        forall i, j | 0 <= i < j < |r| ensures key(r[i]) < key(r[j]) {
          assert r[j] == rest[j - 1];
          if i > 0 {
            assert r[i] == rest[i - 1];
          }
        }
        assert Filter(s, keep) == r;
      }
    }
  }

  /** Filtering keeps every key above a bound that all keys exceed. */
  lemma {:induction false} FilterKeysAbove<T>(s: seq<T>, keep: T -> bool, key: T -> nat, bound: nat)
    requires forall i :: 0 <= i < |s| ==> bound < key(s[i])
    ensures forall k :: 0 <= k < |Filter(s, keep)| ==> bound < key(Filter(s, keep)[k])
  {
    if s != [] {
      FilterKeysAbove(s[1..], keep, key, bound);
    }
  }

  /** Reversing a chronological sequence lists it newest first. */
  lemma ReverseAscending<T>(s: seq<T>, key: T -> nat)
    requires Ascending(s, key)
    ensures Descending(Reverse(s), key)
  {
  }

  /**
   * Selecting from a chronological sequence and reversing gives the selected
   * elements newest first: every listed element is a kept element of `s`, and
   * every kept element of `s` is listed.
   */
  lemma NewestFirst<T>(s: seq<T>, keep: T -> bool, key: T -> nat)
    requires Ascending(s, key)
    ensures var r := Reverse(Filter(s, keep));
      && Descending(r, key)
      && (forall i :: 0 <= i < |r| ==> r[i] in s && keep(r[i]))
      && (forall i :: 0 <= i < |s| && keep(s[i]) ==> s[i] in r)
  {
    var f := Filter(s, keep);
    FilterAscending(s, keep, key);
    ReverseAscending(f, key);
    var r := Reverse(f);
    forall i | 0 <= i < |r| ensures r[i] in s && keep(r[i]) {
      assert r[i] == f[|f| - 1 - i];
    }
    forall i | 0 <= i < |s| && keep(s[i]) ensures s[i] in r {
      var j :| 0 <= j < |f| && f[j] == s[i];
      assert r[|f| - 1 - j] == f[j];
    }
  }
}
