/** The order of Rust strings, and the key order in which a `BTreeMap` iterates. */
module Ordering {

  /** `str` comparison: by code point, a proper prefix first. */
  predicate Le(a: string, b: string) {
    a == "" || (b != "" && (a[0] < b[0] || (a[0] == b[0] && Le(a[1..], b[1..]))))
  }

  lemma {:induction false} LeTotal(a: string, b: string)
    ensures Le(a, b) || Le(b, a)
  {
    if a != "" && b != "" {
      LeTotal(a[1..], b[1..]);
    }
  }

  lemma {:induction false} LeAntisymmetric(a: string, b: string)
    requires Le(a, b) && Le(b, a)
    ensures a == b
  {
    if a != "" {
      LeAntisymmetric(a[1..], b[1..]);
      assert a == [a[0]] + a[1..] && b == [b[0]] + b[1..];
    }
  }

  lemma {:induction false} LeTransitive(a: string, b: string, c: string)
    requires Le(a, b) && Le(b, c)
    ensures Le(a, c)
  {
    if a != "" && a[0] == b[0] == c[0] {
      LeTransitive(a[1..], b[1..], c[1..]);
    }
  }

  predicate IsLeast(k: string, keys: set<string>) {
    k in keys && forall other :: other in keys ==> Le(k, other)
  }

  lemma {:induction false} LeastExists(keys: set<string>)
    requires keys != {}
    ensures exists k :: IsLeast(k, keys)
  {
    var x :| x in keys;
    if keys == {x} {
      LeTotal(x, x);
      assert IsLeast(x, keys);
    } else {
      var rest := keys - {x};
      assert keys == {x} + rest;
      LeastExists(rest);
      var m :| IsLeast(m, rest);
      LeTotal(x, m);
      LeTotal(x, x);
      if Le(x, m) {
        forall other | other in keys ensures Le(x, other) {
          if other != x {
            LeTransitive(x, m, other);
          }
        }
        assert IsLeast(x, keys);
      } else {
        assert IsLeast(m, keys);
      }
    }
  }

  function Least(keys: set<string>): (k: string)
    requires keys != {}
    ensures IsLeast(k, keys)
  {
    LeastExists(keys);
    assert forall a, b | IsLeast(a, keys) && IsLeast(b, keys) :: a == b by {
      forall a, b | IsLeast(a, keys) && IsLeast(b, keys) ensures a == b {
        LeAntisymmetric(a, b);
      }
    }
    var k :| k in keys && IsLeast(k, keys);
    k
  }

  predicate Distinct<T(==)>(s: seq<T>) {
    forall i, j :: 0 <= i < j < |s| ==> s[i] != s[j]
  }

  /** The keys of a `BTreeMap` in iteration order: ascending, each once. */
  function SortedKeys(keys: set<string>): (s: seq<string>)
    ensures forall k :: k in s <==> k in keys
    ensures Distinct(s)
    ensures forall i, j :: 0 <= i < j < |s| ==> Le(s[i], s[j])
    ensures |s| == |keys|
  {
    if keys == {} then []
    else
      var k := Least(keys);
      [k] + SortedKeys(keys - {k})
  }

  /** The iteration order is forced: no other ascending arrangement of the keys exists. */
  lemma {:induction false} SortedKeysUnique(keys: set<string>, s: seq<string>)
    requires forall k :: k in s <==> k in keys
    requires Distinct(s)
    requires forall i, j :: 0 <= i < j < |s| ==> Le(s[i], s[j])
    ensures s == SortedKeys(keys)
  {
    if s == [] {
      assert keys == {};
    } else {
      assert s[0] in keys;
      var k := Least(keys);
      var i :| 0 <= i < |s| && s[i] == k;
      if i != 0 {
        LeAntisymmetric(s[0], k);
      }
      assert s[0] == k;
      var rest := s[1..];
      forall x ensures x in rest <==> x in keys - {k} {
        if x in keys - {k} {
          var j :| 0 <= j < |s| && s[j] == x;
          assert rest[j - 1] == x;
        }
      }
      SortedKeysUnique(keys - {k}, rest);
      assert s == [k] + rest;
    }
  }

  /** The keys that come before the i-th. */
  lemma FrontKeys(keys: set<string>, i: nat, k: string)
    requires i < |SortedKeys(keys)|
    ensures
      var s := SortedKeys(keys);
      k in s[..i] <==> k in keys && k != s[i] && Le(k, s[i])
  {
    hide SortedKeys, Le;
    var s := SortedKeys(keys);
    if k in s[..i] {
      var j :| 0 <= j < i && s[j] == k;
      assert k in s;
    }
    if k in keys && k != s[i] && Le(k, s[i]) {
      assert k in s;
      var j :| 0 <= j < |s| && s[j] == k;
      if j > i {
        LeAntisymmetric(k, s[i]);
      }
      assert s[..i][j] == k;
    }
  }
}
