/**
 * The key order of the bolt database and the prefix scans that the metadata
 * store makes with it: seek to the prefix, then walk while the prefix holds.
 */
module Cursor {
  import opened Common

  /** Lexicographic order, as bytes.Compare gives it. */
  predicate Less(a: string, b: string) {
    b != [] && (a == [] || a[0] < b[0] || (a[0] == b[0] && Less(a[1..], b[1..])))
  }

  /** The keys agree up to a position where the first one ends, or has the smaller byte. */
  predicate DiffersAt(a: string, b: string, n: nat) {
    n <= |a| && n < |b| && a[..n] == b[..n] && (n == |a| || a[n] < b[n])
  }

  lemma FirstByteAgrees(a: string, b: string, n: nat)
    requires DiffersAt(a, b, n)
    ensures n == 0 || (a != [] && b != [] && a[0] == b[0])
  {
    if n > 0 {
      assert a[0] == a[..n][0] == b[..n][0] == b[0];
    }
  }

  /** The order of the keys is that of their bytes at the first difference. */
  lemma {:induction false} LessIff(a: string, b: string)
    ensures Less(a, b) <==> exists n: nat :: DiffersAt(a, b, n)
  {
    if a == [] || b == [] || a[0] != b[0] {
      if Less(a, b) {
        assert DiffersAt(a, b, 0);
      }
      if n: nat :| DiffersAt(a, b, n) {
        FirstByteAgrees(a, b, n);
      }
    } else {
      LessIff(a[1..], b[1..]);
      if n: nat :| DiffersAt(a[1..], b[1..], n) {
        assert a[..n + 1] == [a[0]] + a[1..][..n] && b[..n + 1] == [b[0]] + b[1..][..n];
        assert DiffersAt(a, b, n + 1);
      }
      if n: nat :| DiffersAt(a, b, n) {
        assert a[1..][..n - 1] == a[..n][1..] && b[1..][..n - 1] == b[..n][1..];
        assert DiffersAt(a[1..], b[1..], n - 1);
      }
    }
  }

  lemma {:induction false} LessTransitive(a: string, b: string, c: string)
    requires Less(a, b) && Less(b, c)
    ensures Less(a, c)
  {
    if a != [] && a[0] == b[0] && b[0] == c[0] {
      LessTransitive(a[1..], b[1..], c[1..]);
    }
  }

  lemma {:induction false} LessTotal(a: string, b: string)
    ensures a == b || Less(a, b) || Less(b, a)
  {
    if a != [] && b != [] && a[0] == b[0] {
      LessTotal(a[1..], b[1..]);
      assert a == [a[0]] + a[1..] && b == [b[0]] + b[1..];
    }
  }

  lemma {:induction false} LessIrreflexive(a: string)
    ensures !Less(a, a)
  {
    if a != [] {
      LessIrreflexive(a[1..]);
    }
  }

  predicate Sorted(keys: seq<string>) {
    forall i, j :: 0 <= i < j < |keys| ==> Less(keys[i], keys[j])
  }

  /** A key with the prefix is not below the prefix itself. */
  lemma {:induction false} PrefixNotAbove(p: string, y: string)
    requires HasPrefix(y, p)
    ensures !Less(y, p)
  {
    if p != [] {
      assert y[0] == y[..|p|][0] == p[0];
      assert y[1..][..|p| - 1] == y[..|p|][1..];
      PrefixNotAbove(p[1..], y[1..]);
    }
  }

  /** A key at or above the prefix that lacks it is above every key that has it. */
  lemma {:induction false} PrefixBlock(p: string, x: string, y: string)
    requires !Less(x, p) && !HasPrefix(x, p) && HasPrefix(y, p)
    ensures Less(y, x)
  {
    assert p != [];
    assert y[0] == y[..|p|][0] == p[0];
    if x[0] == p[0] {
      assert y[1..][..|p| - 1] == y[..|p|][1..];
      PrefixBlock(p[1..], x[1..], y[1..]);
    }
  }

  /** Dropping a common prefix keeps the order. */
  lemma {:induction false} StripOrder(p: string, a: string, b: string)
    requires HasPrefix(a, p) && HasPrefix(b, p) && Less(a, b)
    ensures Less(a[|p|..], b[|p|..])
  {
    if p == [] {
      assert a[0..] == a && b[0..] == b;
    } else {
      assert a[0] == a[..|p|][0] == p[0] == b[..|p|][0] == b[0];
      assert a[1..][..|p| - 1] == a[..|p|][1..] && b[1..][..|p| - 1] == b[..|p|][1..];
      StripOrder(p[1..], a[1..], b[1..]);
      assert a[1..][|p| - 1..] == a[|p|..] && b[1..][|p| - 1..] == b[|p|..];
    }
  }

  /** The keys of a bucket in the order in which a cursor visits them. */
  method CursorKeys(bucket: set<string>) returns (keys: seq<string>)
    ensures Sorted(keys)
    ensures ToSet(keys) == bucket
  {
    keys := [];
    var rest := bucket;
    while rest != {}
      invariant rest <= bucket
      invariant Sorted(keys)
      invariant ToSet(keys) == bucket - rest
      decreases rest
    {
      var key :| key in rest;
      rest := rest - {key};
      keys := InsertKey(keys, key);
    }
  }

  method InsertKey(keys: seq<string>, key: string) returns (r: seq<string>)
    requires Sorted(keys) && key !in keys
    ensures Sorted(r)
    ensures ToSet(r) == ToSet(keys) + {key}
  {
    var i := 0;
    while i < |keys| && Less(keys[i], key)
      invariant 0 <= i <= |keys|
      invariant forall k :: 0 <= k < i ==> Less(keys[k], key)
    {
      i := i + 1;
    }
    r := keys[..i] + [key] + keys[i..];
    forall k | i <= k < |keys|
      ensures Less(key, keys[k])
    {
      LessTotal(keys[i], key);
      if k > i {
        LessTransitive(key, keys[i], keys[k]);
      }
    }
  }

  /**
   * The scan loop: Seek(prefix), then Next while the prefix holds. It finds
   * all the keys with the prefix, in order, with the prefix removed.
   */
  method Scan(keys: seq<string>, prefix: string) returns (found: seq<string>)
    requires Sorted(keys)
    ensures Sorted(found)
    ensures forall x :: x in found <==> prefix + x in keys
  {
    var i := 0;
    while i < |keys| && Less(keys[i], prefix)
      invariant 0 <= i <= |keys|
      invariant forall k :: 0 <= k < i ==> Less(keys[k], prefix)
    {
      i := i + 1;
    }
    ghost var first := i;
    found := [];
    while i < |keys| && HasPrefix(keys[i], prefix)
      invariant first <= i <= |keys|
      invariant |found| == i - first
      invariant forall k :: first <= k < i ==> HasPrefix(keys[k], prefix)
      invariant forall k :: first <= k < i ==> found[k - first] == keys[k][|prefix|..]
    {
      found := found + [keys[i][|prefix|..]];
      i := i + 1;
    }
    forall a, b | 0 <= a < b < |found|
      ensures Less(found[a], found[b])
    {
      StripOrder(prefix, keys[first + a], keys[first + b]);
    }
    forall x | prefix + x in keys
      ensures x in found
    {
      var k :| 0 <= k < |keys| && keys[k] == prefix + x;
      ScanReaches(keys, prefix, first, i, k);
      assert found[k - first] == keys[k][|prefix|..] == x;
    }
    forall x | x in found
      ensures prefix + x in keys
    {
      var a :| 0 <= a < |found| && found[a] == x;
      assert keys[first + a] == keys[first + a][..|prefix|] + keys[first + a][|prefix|..] == prefix + x;
    }
  }

  /** A key with the prefix lies between where the seek lands and where the walk stops. */
  lemma ScanReaches(keys: seq<string>, prefix: string, first: nat, last: nat, k: nat)
    requires Sorted(keys) && first <= last <= |keys| && k < |keys|
    requires HasPrefix(keys[k], prefix)
    requires forall i :: 0 <= i < first ==> Less(keys[i], prefix)
    requires first < |keys| ==> !Less(keys[first], prefix)
    requires last < |keys| ==> !HasPrefix(keys[last], prefix)
    ensures first <= k < last
  {
    PrefixNotAbove(prefix, keys[k]);
    if last < |keys| && last <= k {
      if Less(keys[last], prefix) {
        assert first < last;
        LessTransitive(keys[first], keys[last], prefix);
      }
      PrefixBlock(prefix, keys[last], keys[k]);
      if last < k {
        LessTransitive(keys[last], keys[k], keys[last]);
      }
      LessIrreflexive(keys[last]);
    }
  }
}
