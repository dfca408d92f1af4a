/** The order of key names, shared by the SQL statements and by the in-memory tree. */
module Names {

  /** Lexicographic order, the order of SQL's ORDER BY name and of the memory driver's tree. */
  predicate Less(a: string, b: string) {
    if b == "" then false
    else if a == "" then true
    else a[0] < b[0] || (a[0] == b[0] && Less(a[1..], b[1..]))
  }

  lemma {:induction false} Trichotomy(a: string, b: string)
    ensures Less(a, b) || Less(b, a) || a == b
    ensures !(Less(a, b) && Less(b, a))
    ensures a == b ==> !Less(a, b)
  {
    if a != "" && b != "" && a[0] == b[0] {
      Trichotomy(a[1..], b[1..]);
      assert a == [a[0]] + a[1..] && b == [b[0]] + b[1..];
    }
  }

  lemma {:induction false} Transitive(a: string, b: string, c: string)
    requires Less(a, b) && Less(b, c)
    ensures Less(a, c)
  {
    if a != "" && a[0] == b[0] == c[0] {
      Transitive(a[1..], b[1..], c[1..]);
    }
  }

  /** The range of a list or count: one name when end is empty, else key <= name < end. */
  predicate Between(name: string, key: string, end: string) {
    if end == "" then name == key else !Less(name, key) && Less(name, end)
  }

  /** The filter of a watch: every name, a range, or the one name. */
  predicate InRange(name: string, key: string, end: string) {
    key == "" || (end != "" && !Less(name, key) && Less(name, end)) || name == key
  }

  predicate IsLeast(s: set<string>, n: string) {
    n in s && forall m :: m in s ==> !Less(m, n)
  }

  lemma HasLeast(s: set<string>)
    requires s != {}
    ensures exists n :: IsLeast(s, n)
  {
    var x :| x in s;
    var rest := s - {x};
    assert s == rest + {x};
    Trichotomy(x, x);
    if rest == {} {
      assert IsLeast(s, x);
    } else {
      HasLeast(rest);
      var n :| IsLeast(rest, n);
      Trichotomy(x, n);
      var least := if Less(x, n) then x else n;
      forall m | m in s ensures !Less(m, least) {
        if m != x && Less(x, n) && Less(m, x) {
          Transitive(m, x, n);
        }
      }
      assert IsLeast(s, least);
    }
  }

  lemma LeastIsUnique(s: set<string>, a: string, b: string)
    requires IsLeast(s, a) && IsLeast(s, b)
    ensures a == b
  {
    Trichotomy(a, b);
  }

  function Least(s: set<string>): (n: string)
    requires s != {}
    ensures IsLeast(s, n)
  {
    HasLeast(s);
    assert forall a, b :: IsLeast(s, a) && IsLeast(s, b) ==> a == b by {
      forall a, b | IsLeast(s, a) && IsLeast(s, b) ensures a == b { LeastIsUnique(s, a, b); }
    }
    var n :| IsLeast(s, n);
    n
  }

  /** The names of s in ascending order: what walking the tree, or ORDER BY name, visits. */
  function Sorted(s: set<string>): (r: seq<string>)
    ensures forall n :: n in r <==> n in s
    ensures |r| == |s|
  {
    if s == {} then []
    else
      var n := Least(s);
      var rest := Sorted(s - {n});
      assert forall m :: m in [n] + rest <==> m == n || m in rest;
      [n] + rest
  }

  lemma {:induction false} SortedAscends(s: set<string>, i: nat, j: nat)
    requires i < j < |Sorted(s)|
    ensures Less(Sorted(s)[i], Sorted(s)[j])
  {
    var n := Least(s);
    if i == 0 {
      var m := Sorted(s - {n})[j - 1];
      assert m in Sorted(s - {n});
      Trichotomy(n, m);
    } else {
      SortedAscends(s - {n}, i - 1, j - 1);
    }
  }

  /** The values of m, ordered by name. */
  function Ordered<V>(m: map<string, V>): (r: seq<V>)
    ensures |r| == |m|
  {
    var names := Sorted(m.Keys);
    seq(|names|, i requires 0 <= i < |names| => assert names[i] in names; m[names[i]])
  }

  /** A LIMIT clause: no positive limit means everything. */
  function Limit<V>(s: seq<V>, limit: int): (r: seq<V>)
    ensures r <= s
    ensures limit > 0 ==> |r| <= limit
    ensures limit <= 0 || |s| <= limit ==> r == s
  {
    if 0 < limit < |s| then s[..limit] else s
  }
}
