/** Keys in byte order, the order a compacted log lists them in. */
module KvKeys {
  import opened Bytes

  type Key = Bytes

  /** Strict byte-wise order, as `String` compares. */
  predicate Before(a: Key, b: Key)
    decreases |a|
  {
    b != [] && (a == [] || a[0] < b[0] || (a[0] == b[0] && Before(a[1..], b[1..])))
  }

  lemma {:induction false} BeforeTotal(a: Key, b: Key)
    ensures Before(a, b) || Before(b, a) || a == b
    decreases |a|
  {
    if a != [] && b != [] && a[0] == b[0] {
      BeforeTotal(a[1..], b[1..]);
      assert a == [a[0]] + a[1..] && b == [b[0]] + b[1..];
    }
  }

  lemma {:induction false} BeforeAsymmetric(a: Key, b: Key)
    requires Before(a, b)
    ensures !Before(b, a) && a != b
    decreases |a|
  {
    if a != [] && a[0] == b[0] {
      BeforeAsymmetric(a[1..], b[1..]);
    }
  }

  lemma {:induction false} BeforeTransitive(a: Key, b: Key, c: Key)
    requires Before(a, b) && Before(b, c)
    ensures Before(a, c)
    decreases |a|
  {
    if a != [] && a[0] == b[0] && b[0] == c[0] {
      BeforeTransitive(a[1..], b[1..], c[1..]);
    }
  }

  predicate IsLeast(k: Key, s: set<Key>) {
    k in s && forall o :: o in s && o != k ==> Before(k, o)
  }

  lemma {:induction false} LeastExists(s: set<Key>)
    requires s != {}
    ensures exists k :: IsLeast(k, s)
    decreases |s|
  {
    var x :| x in s;
    var rest := s - {x};
    if rest == {} {
      assert s == {x};
      assert IsLeast(x, s);
    } else {
      LeastExists(rest);
      var m :| IsLeast(m, rest);
      BeforeTotal(x, m);
      if Before(m, x) {
        assert IsLeast(m, s);
      } else {
        forall o | o in s && o != x
          ensures Before(x, o)
        {
          if o != m {
            BeforeTransitive(x, m, o);
          }
        }
        assert IsLeast(x, s);
      }
    }
  }

  lemma LeastUnique(s: set<Key>)
    ensures forall j, k :: IsLeast(j, s) && IsLeast(k, s) ==> j == k
  {
    forall j, k | IsLeast(j, s) && IsLeast(k, s)
      ensures j == k
    {
      if j != k {
        BeforeAsymmetric(j, k);
      }
    }
  }

  predicate Sorted(ks: seq<Key>) {
    forall i, j :: 0 <= i < j < |ks| ==> Before(ks[i], ks[j])
  }

  /** The keys of a set, each once, in order. */
  function SortedKeys(s: set<Key>): (r: seq<Key>)
    ensures Sorted(r)
    ensures forall k :: k in r <==> k in s
    decreases |s|
  {
    if s == {} then
      []
    else
      LeastExists(s);
      LeastUnique(s);
      var k :| IsLeast(k, s);
      var rest := SortedKeys(s - {k});
      assert forall i :: 0 <= i < |rest| ==> rest[i] in s - {k};
      [k] + rest
  }

  /** One state, one listing: any strictly ordered listing of a set is this one. */
  lemma {:induction false} SortedListingUnique(s: set<Key>, ks: seq<Key>)
    requires Sorted(ks) && forall k :: k in ks <==> k in s
    ensures ks == SortedKeys(s)
    decreases |ks|
  {
    if ks == [] {
      assert s == {};
    } else {
      assert ks[0] in s;
      assert IsLeast(ks[0], s);
      LeastUnique(s);
      var rest := ks[1..];
      forall k
        ensures k in rest <==> k in s - {ks[0]}
      {
        if k in rest {
          var i :| 0 <= i < |rest| && rest[i] == k;
          assert ks[i + 1] == k;
          BeforeAsymmetric(ks[0], k);
        }
        if k in s - {ks[0]} {
          var i :| 0 <= i < |ks| && ks[i] == k;
          assert rest[i - 1] == k;
        }
      }
      SortedListingUnique(s - {ks[0]}, rest);
    }
  }
}
