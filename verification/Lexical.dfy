/** Byte-wise order on strings, as sort.Strings uses it, and the sorted key list of a map. */
module Lexical {

  predicate Less(a: string, b: string) {
    b != "" && (a == "" || a[0] < b[0] || (a[0] == b[0] && Less(a[1..], b[1..])))
  }

  /** The first byte in which two strings differ decides; a proper prefix comes first. */
  lemma {:induction false} LessIs(front: string, c: char, d: char, x: string, y: string)
    ensures c < d ==> Less(front + [c] + x, front + [d] + y)
    ensures Less(front, front + [c] + x)
  {
    if front == "" {
      assert front + [c] + x == [c] + x && front + [d] + y == [d] + y;
    } else {
      LessIs(front[1..], c, d, x, y);
      assert (front + [c] + x)[1..] == front[1..] + [c] + x && (front + [d] + y)[1..] == front[1..] + [d] + y;
    }
  }

  lemma {:induction false} LessTotal(a: string, b: string)
    ensures Less(a, b) || a == b || Less(b, a)
  {
    if a != "" && b != "" && a[0] == b[0] {
      LessTotal(a[1..], b[1..]);
      assert a == [a[0]] + a[1..] && b == [b[0]] + b[1..];
    }
  }

  lemma {:induction false} LessAntisymmetric(a: string, b: string)
    requires Less(a, b)
    ensures a != b && !Less(b, a)
  {
    if a != "" && a[0] == b[0] {
      LessAntisymmetric(a[1..], b[1..]);
    }
  }

  lemma {:induction false} LessTransitive(a: string, b: string, c: string)
    requires Less(a, b) && Less(b, c)
    ensures Less(a, c)
  {
    if a != "" && a[0] == b[0] == c[0] {
      LessTransitive(a[1..], b[1..], c[1..]);
    }
  }

  ghost predicate StrictlySorted(keys: seq<string>) {
    forall i, j | 0 <= i < j < |keys| :: Less(keys[i], keys[j])
  }

  /** The keys of m, each once, in ascending order. */
  ghost predicate SortedKeysOf<V>(keys: seq<string>, m: map<string, V>) {
    StrictlySorted(keys) && forall k :: k in keys <==> k in m
  }

  function Insert(keys: seq<string>, k: string): seq<string> {
    if keys == [] || Less(k, keys[0]) then [k] + keys
    else if keys[0] == k then keys
    else [keys[0]] + Insert(keys[1..], k)
  }

  lemma {:induction false} InsertSorted(keys: seq<string>, k: string)
    requires StrictlySorted(keys)
    ensures StrictlySorted(Insert(keys, k))
    ensures forall x :: x in Insert(keys, k) <==> x in keys || x == k
  {
    if keys == [] {
    } else if Less(k, keys[0]) {
      forall j | 0 < j < |keys| ensures Less(k, keys[j]) {
        LessTransitive(k, keys[0], keys[j]);
      }
    } else if keys[0] != k {
      InsertSorted(keys[1..], k);
      LessTotal(k, keys[0]);
      var r := Insert(keys[1..], k);
      forall j | 0 <= j < |r| ensures Less(keys[0], r[j]) {
        assert r[j] in r;
        if r[j] != k {
          var i :| 0 <= i < |keys[1..]| && keys[1..][i] == r[j];
          assert keys[i + 1] == r[j];
        }
      }
      assert keys == [keys[0]] + keys[1..];
    }
  }

  /** Collecting the keys in any iteration order and sorting them gives the sorted key list. */
  method SortedKeys<V>(m: map<string, V>) returns (keys: seq<string>)
    ensures SortedKeysOf(keys, m)
  {
    keys := [];
    var todo := m.Keys;
    while todo != {}
      invariant StrictlySorted(keys)
      invariant todo <= m.Keys
      invariant forall k :: k in keys <==> k in m.Keys - todo
      decreases todo
    {
      var k :| k in todo;
      InsertSorted(keys, k);
      keys := Insert(keys, k);
      todo := todo - {k};
    }
  }

  /** The sorted key list is unique, so the iteration order never shows. */
  lemma {:induction false} SortedKeysUnique(a: seq<string>, b: seq<string>)
    requires StrictlySorted(a) && StrictlySorted(b)
    requires forall k :: k in a <==> k in b
    ensures a == b
  {
    if a == [] {
      assert forall j | 0 <= j < |b| :: b[j] in b;
    } else {
      assert a[0] in b && (b == [] || b[0] in a);
      var i :| 0 <= i < |b| && b[i] == a[0];
      var j :| 0 <= j < |a| && a[j] == b[0];
      if i > 0 && j > 0 {
        LessAntisymmetric(a[0], a[j]);
      }
      assert a[0] == b[0];
      TailMembers(a);
      TailMembers(b);
      SortedKeysUnique(a[1..], b[1..]);
      assert a == [a[0]] + a[1..] && b == [b[0]] + b[1..];
    }
  }

  lemma TailMembers(a: seq<string>)
    requires a != [] && StrictlySorted(a)
    ensures forall k :: k in a[1..] <==> k in a && k != a[0]
  {
    forall k | k in a[1..] ensures k != a[0] {
      var i :| 0 <= i < |a[1..]| && a[1..][i] == k;
      assert Less(a[0], a[i + 1]);
      LessAntisymmetric(a[0], k);
    }
    assert a == [a[0]] + a[1..];
  }
}
