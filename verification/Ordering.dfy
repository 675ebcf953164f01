/** Optional values, and the order in which Go's `sort.Strings` puts strings:
    code point by code point, a proper prefix first. */
module Ordering {

  datatype Option<+T> = None | Some(value: T)

  /** Looking a key up in a Go map: the value, or the "not ok" answer. */
  function Get<K, V>(m: map<K, V>, k: K): Option<V> {
    if k in m then Some(m[k]) else None
  }

  /** Two maps that answer every lookup alike are the same map. */
  lemma SameLookups<K(!new), V>(m: map<K, V>, m': map<K, V>)
    requires forall k :: Get(m, k) == Get(m', k)
    ensures m == m'
  {
    forall k ensures k in m <==> k in m' {
      assert Get(m, k) == Get(m', k);
    }
    forall k | k in m ensures m[k] == m'[k] {
      assert Get(m, k) == Get(m', k);
    }
  }

  function Elements<T>(s: seq<T>): set<T> {
    set x | x in s
  }

  lemma HasMember(s: set<int>)
    requires s != {}
    ensures exists x :: x in s
  {
    assert (forall x :: x !in s) ==> s == {};
  }

  predicate Less(a: string, b: string) {
    if b == [] then false
    else if a == [] then true
    else if a[0] != b[0] then a[0] < b[0]
    else Less(a[1..], b[1..])
  }

  lemma {:induction false} LessTotal(a: string, b: string)
    ensures a == b || Less(a, b) || Less(b, a)
  {
    if a != [] && b != [] && a[0] == b[0] {
      LessTotal(a[1..], b[1..]);
      assert a == [a[0]] + a[1..] && b == [b[0]] + b[1..];
    }
  }

  lemma {:induction false} LessTransitive(a: string, b: string, c: string)
    requires Less(a, b) && Less(b, c)
    ensures Less(a, c)
  {
    if a != [] && a[0] == b[0] == c[0] {
      LessTransitive(a[1..], b[1..], c[1..]);
    }
  }

  lemma {:induction false} LessIrreflexive(a: string)
    ensures !Less(a, a)
  {
    if a != [] { LessIrreflexive(a[1..]); }
  }

  /** Both texts have the same first k characters, and then the first one ends, or has the
      smaller character. */
  predicate ComesFirstAt(a: string, b: string, k: nat) {
    && k <= |a| && k < |b| && a[..k] == b[..k]
    && (k == |a| || a[k] < b[k])
  }

  lemma SameStart(a: string, b: string, k: nat)
    requires a != "" && b != ""
    ensures 0 < k <= |a| && k <= |b| && a[..k] == b[..k] ==> a[0] == b[0]
  {
    if 0 < k <= |a| && k <= |b| { assert a[..k][0] == a[0] && b[..k][0] == b[0]; }
  }

  /** The order is that of a dictionary. */
  lemma {:induction false} LessTold(a: string, b: string)
    ensures Less(a, b) <==> exists k: nat :: ComesFirstAt(a, b, k)
  {
    if a == [] || b == [] {
      assert b != [] ==> ComesFirstAt(a, b, 0);
    } else if a[0] != b[0] {
      assert a[0] < b[0] ==> ComesFirstAt(a, b, 0);
      forall k: nat | ComesFirstAt(a, b, k) ensures k == 0 {
        SameStart(a, b, k);
      }
    } else {
      LessTold(a[1..], b[1..]);
      if Less(a, b) {
        var k: nat :| ComesFirstAt(a[1..], b[1..], k);
        assert a[..k + 1] == [a[0]] + a[1..][..k] && b[..k + 1] == [b[0]] + b[1..][..k];
        assert ComesFirstAt(a, b, k + 1);
      }
      if k: nat :| ComesFirstAt(a, b, k) {
        assert k > 0 && a[1..][..k - 1] == a[..k][1..] && b[1..][..k - 1] == b[..k][1..];
        assert ComesFirstAt(a[1..], b[1..], k - 1);
      }
    }
  }

  ghost predicate StrictlySorted(s: seq<string>) {
    forall i, j :: 0 <= i < j < |s| ==> Less(s[i], s[j])
  }

  lemma StrictlySortedDistinct(s: seq<string>)
    requires StrictlySorted(s)
    ensures forall i, j :: 0 <= i < j < |s| ==> s[i] != s[j]
  {
    forall i, j | 0 <= i < j < |s| ensures s[i] != s[j] {
      LessIrreflexive(s[i]);
    }
  }

  /** A strictly sorted list is determined by the set of its elements, so
      sorting the keys of a map hides the order in which the map was walked. */
  lemma {:induction false} SortedUnique(a: seq<string>, b: seq<string>)
    requires StrictlySorted(a) && StrictlySorted(b)
    requires Elements(a) == Elements(b)
    ensures a == b
  {
    assert |b| > 0 ==> b[0] in Elements(b);
    if a != [] {
      var n, m := |a| - 1, |b| - 1;
      assert a[n] in Elements(a);
      assert b != [];
      assert b[m] in Elements(b);
      if a[n] != b[m] {
        var i :| 0 <= i < |b| && b[i] == a[n];
        var j :| 0 <= j < |a| && a[j] == b[m];
        LessTransitive(a[n], b[m], a[n]);
        LessIrreflexive(a[n]);
        assert false;
      }
      StrictlySortedDistinct(a);
      StrictlySortedDistinct(b);
      forall x ensures x in Elements(a[..n]) <==> x in Elements(b[..m]) {
        assert x in Elements(a) <==> x in Elements(a[..n]) || x == a[n];
        assert x in Elements(b) <==> x in Elements(b[..m]) || x == b[m];
      }
      SortedUnique(a[..n], b[..m]);
      assert a == a[..n] + [a[n]] && b == b[..m] + [b[m]];
    }
  }

  /** Puts a new key in its place in a sorted list. */
  function InsertSorted(s: seq<string>, x: string): (r: seq<string>)
    requires StrictlySorted(s) && x !in s
    ensures StrictlySorted(r) && Elements(r) == Elements(s) + {x}
  {
    if s == [] then [x]
    else
      var n := |s| - 1;
      assert s == s[..n] + [s[n]];
      if Less(s[n], x) then
        assert forall i :: 0 <= i < n ==> Less(s[i], x) by {
          forall i | 0 <= i < n ensures Less(s[i], x) { LessTransitive(s[i], s[n], x); }
        }
        s + [x]
      else
        LessTotal(s[n], x);
        var front := InsertSorted(s[..n], x);
        assert forall y :: y in front ==> Less(y, s[n]) by {
          forall y | y in front ensures Less(y, s[n]) {
            assert y in Elements(front);
          }
        }
        front + [s[n]]
  }

  /** The keys of a set in sorted order. */
  ghost function SortedOf(s: set<string>): (r: seq<string>)
    ensures StrictlySorted(r) && Elements(r) == s
  {
    if s == {} then []
    else
      var x :| x in s;
      var front := SortedOf(s - {x});
      assert x !in front by { assert x in front ==> x in Elements(front); }
      InsertSorted(front, x)
  }

  /** Collects the keys of a map in whatever order the iteration yields them,
      and sorts them. */
  method SortKeys(s: set<string>) returns (keys: seq<string>)
    ensures keys == SortedOf(s)
  {
    keys := [];
    var rest := s;
    while rest != {}
      invariant rest <= s && StrictlySorted(keys) && Elements(keys) == s - rest
      decreases rest
    {
      var x :| x in rest;
      assert x !in keys by { assert x in keys ==> x in Elements(keys); }
      keys := InsertSorted(keys, x);
      rest := rest - {x};
    }
    SortedUnique(keys, SortedOf(s));
  }
}
