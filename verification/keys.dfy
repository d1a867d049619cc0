/** The ascending key order in which the admin map is iterated.
    The store keeps the admin map under the raw bytes of each address and
    walks it in ascending byte order; UTF-8 preserves the order of code
    points, so on address text this is the lexicographic order of characters,
    a proper prefix coming first. */
module KeyOrder {

  /** Strict lexicographic order on strings. */
  predicate Below(a: string, b: string)
  {
    if |a| == 0 then |b| > 0
    else if |b| == 0 then false
    else a[0] < b[0] || (a[0] == b[0] && Below(a[1..], b[1..]))
  }

  lemma {:induction false} BelowIrreflexive(a: string)
    ensures !Below(a, a)
  {
    if |a| > 0 {
      BelowIrreflexive(a[1..]);
    }
  }

  lemma {:induction false} BelowTransitive(a: string, b: string, c: string)
    requires Below(a, b) && Below(b, c)
    ensures Below(a, c)
  {
    if |a| > 0 && a[0] == b[0] && b[0] == c[0] {
      BelowTransitive(a[1..], b[1..], c[1..]);
    }
  }

  lemma {:induction false} BelowTotal(a: string, b: string)
    ensures a == b || Below(a, b) || Below(b, a)
  {
    if |a| > 0 && |b| > 0 && a[0] == b[0] {
      BelowTotal(a[1..], b[1..]);
      if a[1..] == b[1..] {
        assert a == [a[0]] + a[1..] && b == [b[0]] + b[1..];
      }
    }
  }

  lemma BelowAsymmetric(a: string, b: string)
    requires Below(a, b)
    ensures !Below(b, a)
  {
    if Below(b, a) {
      BelowTransitive(a, b, a);
      BelowIrreflexive(a);
    }
  }

  /** Every element of `s` comes before every later one: sorted, without duplicates. */
  predicate StrictlyAscending(s: seq<string>)
  {
    forall i, j :: 0 <= i < j < |s| ==> Below(s[i], s[j])
  }

  lemma AscendingIsDistinct(s: seq<string>)
    requires StrictlyAscending(s)
    ensures forall i, j :: 0 <= i < j < |s| ==> s[i] != s[j]
  {
    forall i, j | 0 <= i < j < |s|
      ensures s[i] != s[j]
    {
      BelowIrreflexive(s[i]);
    }
  }

  /** `m` is the first of `keys` in key order. */
  predicate IsLeast(m: string, keys: set<string>)
  {
    m in keys && forall k :: k in keys && k != m ==> Below(m, k)
  }

  lemma {:induction false} LeastExists(keys: set<string>)
    requires keys != {}
    ensures exists m :: IsLeast(m, keys)
    decreases |keys|
  {
    var x :| x in keys;
    var rest := keys - {x};
    if rest == {} {
      assert keys == {x};
      assert IsLeast(x, keys);
    } else {
      LeastExists(rest);
      var m :| IsLeast(m, rest);
      BelowTotal(x, m);
      if Below(x, m) {
        forall k | k in keys && k != x
          ensures Below(x, k)
        {
          if k != m {
            BelowTransitive(x, m, k);
          }
        }
        assert IsLeast(x, keys);
      } else {
        assert IsLeast(m, keys);
      }
    }
  }

  lemma LeastUnique(keys: set<string>)
    ensures forall m, m' :: IsLeast(m, keys) && IsLeast(m', keys) ==> m == m'
  {
    forall m, m' | IsLeast(m, keys) && IsLeast(m', keys)
      ensures m == m'
    {
      if m != m' {
        BelowAsymmetric(m, m');
      }
    }
  }

  /** The first key of a non-empty set. */
  function Least(keys: set<string>): (m: string)
    requires keys != {}
    ensures IsLeast(m, keys)
  {
    LeastExists(keys);
    LeastUnique(keys);
    var m :| IsLeast(m, keys);
    m
  }

  /** The keys of a finite set listed in ascending order, as the store iterates them. */
  function SortedKeys(keys: set<string>): (r: seq<string>)
    ensures StrictlyAscending(r)
    ensures forall k :: k in r <==> k in keys
    ensures |r| == |keys|
    decreases |keys|
  {
    if keys == {} then []
    else
      var m := Least(keys);
      var rest := SortedKeys(keys - {m});
      assert forall k :: k in rest ==> k in keys && k != m;
      [m] + rest
  }

  /** Ascending order determines the listing: a strictly ascending sequence holding
      exactly the keys of a set is that set's SortedKeys. */
  lemma {:induction false} AscendingIsSortedKeys(s: seq<string>, keys: set<string>)
    requires StrictlyAscending(s)
    requires forall k :: k in s <==> k in keys
    ensures s == SortedKeys(keys)
    decreases |s|
  {
    if keys == {} {
      assert s == [];
    } else {
      var m := Least(keys);
      assert s != [] by { assert m in s; }
      assert s[0] == m by {
        if s[0] != m {
          var j :| 0 <= j < |s| && s[j] == m;
          assert Below(m, s[0]);
          BelowAsymmetric(m, s[0]);
        }
      }
      forall k
        ensures k in s[1..] <==> k in keys - {m}
      {
        if k in s[1..] {
          var j :| 1 <= j < |s| && s[j] == k;
          BelowIrreflexive(s[0]);
        }
        if k in keys - {m} {
          var j :| 0 <= j < |s| && s[j] == k;
          assert s[1..][j - 1] == k;
        }
      }
      AscendingIsSortedKeys(s[1..], keys - {m});
      assert s == [m] + s[1..];
    }
  }
}
