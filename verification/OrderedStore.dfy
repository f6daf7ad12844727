/** An ordered key-value store: the column-family operations the repository uses. */
module OrderedStore {
  import opened ByteOrder

  ghost predicate Ascending(keys: seq<Key>) {
    forall i, j | 0 <= i < j < |keys| :: Less(keys[i], keys[j])
  }

  ghost predicate IsLeast(k: Key, s: set<Key>) {
    k in s && forall o | o in s :: !Less(o, k)
  }

  lemma {:induction false} LeastExists(s: set<Key>)
    requires s != {}
    ensures exists k :: IsLeast(k, s)
  {
    var k :| k in s;
    var rest := s - {k};
    LessTrichotomy(k, k);
    if rest == {} {
      assert s == {k};
      assert IsLeast(k, s);
    } else {
      LeastExists(rest);
      var m :| IsLeast(m, rest);
      LessTrichotomy(k, m);
      if Less(m, k) {
        assert IsLeast(m, s);
      } else {
        forall o | o in rest ensures !Less(o, k) {
          if Less(o, k) { LessTransitive(o, k, m); }
        }
        assert IsLeast(k, s);
      }
    }
  }

  lemma LeastIsUnique(s: set<Key>)
    ensures forall a, b | a in s && b in s && (forall o | o in s :: !Less(o, a)) && (forall o | o in s :: !Less(o, b)) :: a == b
  {
    forall a, b | a in s && b in s && (forall o | o in s :: !Less(o, a)) && (forall o | o in s :: !Less(o, b))
      ensures a == b
    {
      LessTrichotomy(a, b);
    }
  }

  function Least(s: set<Key>): (k: Key)
    requires s != {}
    ensures k in s && forall o | o in s :: !Less(o, k)
  {
    LeastExists(s);
    LeastIsUnique(s);
    assert exists k :: IsLeast(k, s) && k in s;
    var k :| k in s && forall o | o in s :: !Less(o, k);
    k
  }

  /** The order in which an iterator visits the keys. */
  function SortedKeys(s: set<Key>): (keys: seq<Key>)
    ensures Ascending(keys)
    ensures forall k :: k in keys <==> k in s
    decreases |s|
  {
    if s == {} then [] else
      var k := Least(s);
      var rest := SortedKeys(s - {k});
      assert forall o | o in rest :: Less(k, o) by {
        forall o | o in rest ensures Less(k, o) { LessTrichotomy(k, o); }
      }
      [k] + rest
  }

  /** Where a forward seek lands: the first key not below `target`. */
  function Seek(keys: seq<Key>, target: Key): (i: nat)
    requires Ascending(keys)
    ensures i <= |keys|
    ensures forall j | 0 <= j < i :: Less(keys[j], target)
    ensures forall j | i <= j < |keys| :: !Less(keys[j], target)
  {
    if keys == [] then 0
    else if !Less(keys[0], target) then
      assert forall j | 0 <= j < |keys| :: !Less(keys[j], target) by {
        forall j | 0 <= j < |keys| ensures !Less(keys[j], target) {
          if 0 < j && Less(keys[j], target) { LessTransitive(keys[0], keys[j], target); }
        }
      }
      0
    else
      var i := Seek(keys[1..], target);
      assert forall j | 1 <= j < |keys| :: keys[j] == keys[1..][j - 1];
      i + 1
  }

  /** `delete_range_cf`: the end key is exclusive. */
  function DeleteRange<V>(m: map<Key, V>, from: Key, to: Key): map<Key, V> {
    map k | k in m && (Less(k, from) || !Less(k, to)) :: m[k]
  }
}
