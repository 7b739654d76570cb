/** The keys of a map in byte order (sort.Strings). */
module Sorting {
  predicate Before(a: string, b: string) {
    b != "" && (a == "" || a[0] < b[0] || (a[0] == b[0] && Before(a[1..], b[1..])))
  }

  /** `a` and `b` part at `i`, where `a` ends or has the smaller byte. */
  predicate PartAt(a: string, b: string, i: int) {
    && 0 <= i <= |a| && i < |b| && a[..i] == b[..i]
    && (i == |a| || a[i] < b[i])
  }

  lemma DifferAtOnce(a: string, b: string)
    requires a != "" && b != "" && a[0] > b[0]
    ensures !exists i :: PartAt(a, b, i)
  {
    forall i | 0 < i <= |a| && i < |b| ensures a[..i] != b[..i] {
      assert a[..i][0] == a[0] && b[..i][0] == b[0];
    }
  }

  /** The order is that of the first byte in which two texts differ. */
  lemma {:induction false} BeforeIff(a: string, b: string)
    ensures Before(a, b) <==> exists i :: PartAt(a, b, i)
  {
    if a == "" {
      if b != "" {
        assert PartAt(a, b, 0);
      }
    } else if b != "" {
      BeforeIff(a[1..], b[1..]);
      if a[0] < b[0] {
        assert PartAt(a, b, 0);
      } else if a[0] == b[0] {
        if i :| PartAt(a[1..], b[1..], i) {
          assert a[..i + 1] == [a[0]] + a[1..][..i] && b[..i + 1] == [b[0]] + b[1..][..i];
          assert PartAt(a, b, i + 1);
        }
        if i :| PartAt(a, b, i) {
          assert a[..i][1..] == b[..i][1..] && a[..i][1..] == a[1..][..i - 1] && b[..i][1..] == b[1..][..i - 1];
          assert PartAt(a[1..], b[1..], i - 1);
        }
      } else {
        DifferAtOnce(a, b);
      }
    }
  }

  lemma {:induction false} BeforeTransitive(a: string, b: string, c: string)
    requires Before(a, b) && Before(b, c)
    ensures Before(a, c)
  {
    if a != "" && a[0] == b[0] == c[0] {
      BeforeTransitive(a[1..], b[1..], c[1..]);
    }
  }

  lemma {:induction false} BeforeTotal(a: string, b: string)
    ensures a == b || Before(a, b) || Before(b, a)
    ensures !(Before(a, b) && Before(b, a)) && !Before(a, a)
  {
    if a != "" {
      BeforeIrreflexive(a[1..]);
    }
    if a != "" && b != "" {
      BeforeTotal(a[1..], b[1..]);
      if a[0] == b[0] && a[1..] == b[1..] {
        assert a == [a[0]] + a[1..] && b == [b[0]] + b[1..];
      }
    }
  }

  lemma {:induction false} BeforeIrreflexive(a: string)
    ensures !Before(a, a)
  {
    if a != "" {
      BeforeIrreflexive(a[1..]);
    }
  }

  ghost predicate Ascending(keys: seq<string>) {
    forall i, j :: 0 <= i < j < |keys| ==> Before(keys[i], keys[j])
  }

  /** The keys of a map in order, each once. */
  ghost predicate SortedKeysOf<V>(keys: seq<string>, m: map<string, V>) {
    Ascending(keys) && (forall k :: k in keys <==> k in m)
  }

  /** There is one such order. */
  lemma {:induction false} SortedKeysUnique(a: seq<string>, b: seq<string>)
    requires Ascending(a) && Ascending(b) && forall k :: k in a <==> k in b
    ensures a == b
  {
    if a != [] {
      LastIsGreatest(a);
    }
    if b != [] {
      LastIsGreatest(b);
    }
    if a != [] && b != [] {
      var m, n := |a| - 1, |b| - 1;
      assert a[m] in b && b[n] in a;
      BeforeTotal(a[m], b[n]);
      forall k ensures k in a[..m] <==> k in b[..n] {
        LastOnce(a, k);
        LastOnce(b, k);
      }
      SortedKeysUnique(a[..m], b[..n]);
      assert a == a[..m] + [a[m]] && b == b[..n] + [b[n]];
    }
  }

  lemma LastIsGreatest(a: seq<string>)
    requires Ascending(a) && a != []
    ensures a[|a| - 1] in a && forall k :: k in a ==> k == a[|a| - 1] || Before(k, a[|a| - 1])
  {
  }

  lemma LastOnce(a: seq<string>, k: string)
    requires Ascending(a) && a != []
    ensures k in a[..|a| - 1] <==> k in a && k != a[|a| - 1]
  {
    if k in a[..|a| - 1] {
      BeforeIrreflexive(k);
    }
  }

  /** Collects the keys in whatever order the map yields them, and sorts them. */
  method SortedKeys<V>(m: map<string, V>) returns (keys: seq<string>)
    ensures SortedKeysOf(keys, m)
  {
    var rest := m.Keys;
    keys := [];
    while rest != {}
      invariant Ascending(keys) && rest <= m.Keys
      invariant forall k :: k in keys <==> k in m && k !in rest
    {
      var k :| k in rest;
      rest := rest - {k};
      keys := Insert(keys, k);
    }
  }

  method Insert(keys: seq<string>, k: string) returns (out: seq<string>)
    requires Ascending(keys) && k !in keys
    ensures Ascending(out) && forall o :: o in out <==> o in keys || o == k
  {
    var i := |keys|;
    while i > 0 && Before(k, keys[i - 1])
      invariant 0 <= i <= |keys|
      invariant forall j :: i <= j < |keys| ==> Before(k, keys[j])
    {
      i := i - 1;
    }
    forall j | 0 <= j < i ensures Before(keys[j], k) {
      BeforeTotal(keys[i - 1], k);
      if j < i - 1 {
        BeforeTransitive(keys[j], keys[i - 1], k);
      }
    }
    out := keys[..i] + [k] + keys[i..];
    assert forall o :: o in keys <==> o in keys[..i] || o in keys[i..] by {
      assert keys == keys[..i] + keys[i..];
    }
  }
}
