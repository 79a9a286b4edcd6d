/** A `BTreeMap` with string keys: its least key, and its values in key order. */
module OrderedMaps {
  import opened TextOrder

  predicate IsLeast(k: string, keys: set<string>) {
    k in keys && forall j :: j in keys ==> j == k || Less(k, j)
  }

  lemma LeastIsUnique(keys: set<string>, a: string, b: string)
    requires IsLeast(a, keys) && IsLeast(b, keys)
    ensures a == b
  {
    if a != b {
      LessTransitive(a, b, a);
      LessIrreflexive(a);
    }
  }

  lemma {:induction false} LeastExists(keys: set<string>)
    requires keys != {}
    ensures exists k :: IsLeast(k, keys)
  {
    var x :| x in keys;
    if keys == {x} {
      assert IsLeast(x, keys);
    } else {
      var rest := keys - {x};
      assert keys == rest + {x};
      LeastExists(rest);
      var y :| IsLeast(y, rest);
      LessTotal(x, y);
      if Less(x, y) {
        forall j | j in keys && j != x ensures Less(x, j) {
          if j != y {
            LessTransitive(x, y, j);
          }
        }
        assert IsLeast(x, keys);
      } else {
        assert IsLeast(y, keys);
      }
    }
  }

  function LeastKey(keys: set<string>): (k: string)
    requires keys != {}
    ensures IsLeast(k, keys)
  {
    LeastExists(keys);
    assert forall a, b :: IsLeast(a, keys) && IsLeast(b, keys) ==> a == b by {
      forall a, b | IsLeast(a, keys) && IsLeast(b, keys) ensures a == b {
        LeastIsUnique(keys, a, b);
      }
    }
    var k :| IsLeast(k, keys); k
  }

  /** The values of a `BTreeMap`, in key order. */
  function IntoValues<V>(m: map<string, V>): seq<V> {
    if m == map[] then []
    else
      var k := LeastKey(m.Keys);
      [m[k]] + IntoValues(m - {k})
  }
}
