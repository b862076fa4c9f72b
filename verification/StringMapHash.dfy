/** What is hashed of a string map: the list of key and value run together, in the
    order of the keys.  The hash of that list is taken to be free of collisions. */
module StringMapHash {
  import opened Strings

  ghost predicate Lists(keys: seq<string>, m: map<string, string>)
  {
    Distinct(keys) && forall k :: k in keys <==> k in m
  }

  /** Key and value of each key, in the order of `keys`. */
  function Joined(m: map<string, string>, keys: seq<string>): (r: seq<string>)
    requires forall k :: k in keys ==> k in m
    ensures |r| == |keys|
    ensures forall i :: 0 <= i < |keys| ==> r[i] == keys[i] + m[keys[i]]
  {
    seq(|keys|, i requires 0 <= i < |keys| => keys[i] + m[keys[i]])
  }

  method KeyValues(input: map<string, string>, enumeration: seq<string>) returns (keyValues: seq<string>)
    requires Lists(enumeration, input)
    ensures Lists(Sort(enumeration), input)
    ensures keyValues == Joined(input, Sort(enumeration))
  {
    SortedLists(input, enumeration);
    var keys := Sort(enumeration);
    keyValues := [];
    for i := 0 to |keys|
      invariant |keyValues| == i
      invariant forall j :: 0 <= j < i ==> keyValues[j] == keys[j] + input[keys[j]]
    {
      keyValues := keyValues + [keys[i] + input[keys[i]]];
    }
  }

  lemma SortedLists(m: map<string, string>, enumeration: seq<string>)
    requires Lists(enumeration, m)
    ensures Lists(Sort(enumeration), m)
  {
    SortSorts(enumeration);
    DistinctFromMultiset(enumeration, Sort(enumeration));
  }

  /** What is hashed does not depend on the order in which the map is ranged over. */
  lemma EncodingIsCanonical(m: map<string, string>, a: seq<string>, b: seq<string>)
    requires Lists(a, m) && Lists(b, m)
    ensures Sort(a) == Sort(b)
  {
    SameSetSameMultiset(a, b);
    SortUnique(a, b);
  }

  lemma SameKeysSameOrder(m: map<string, string>, n: map<string, string>, a: seq<string>, b: seq<string>)
    requires Lists(a, m) && Lists(b, n) && m.Keys == n.Keys
    ensures Sort(a) == Sort(b)
  {
    EncodingIsCanonical(m, a, b);
  }

  /** Two maps with the same keys are told apart. */
  lemma InjectiveOnEqualKeys(m: map<string, string>, n: map<string, string>, a: seq<string>, b: seq<string>)
    requires Lists(a, m) && Lists(b, n) && m.Keys == n.Keys
    ensures Lists(Sort(a), m) && Lists(Sort(b), n)
    ensures Joined(m, Sort(a)) == Joined(n, Sort(b)) <==> m == n
  {
    SortedLists(m, a);
    SameKeysSameOrder(m, n, a, b);
    var keys := Sort(a);
    if Joined(m, keys) == Joined(n, keys) {
      forall k | k in m ensures m[k] == n[k] {
        assert k in keys;
        var i :| 0 <= i < |keys| && keys[i] == k;
        assert Joined(m, keys)[i] == k + m[k] && Joined(n, keys)[i] == k + n[k];
        assert m[k] == (k + m[k])[|k|..] && n[k] == (k + n[k])[|k|..];
      }
    }
  }

  ghost predicate ValuesOfLength(m: map<string, string>, length: nat)
  {
    forall k :: k in m ==> |m[k]| == length
  }

  lemma CutAt(a: string, b: string, c: string, d: string)
    requires a + b == c + d && |b| == |d|
    ensures a == c && b == d
  {
    assert |a| == |c|;
    assert a == (a + b)[..|a|] && c == (c + d)[..|c|];
    assert b == (a + b)[|a|..] && d == (c + d)[|c|..];
  }

  /** Two maps all of whose values have one length, as hashes do, are told apart. */
  lemma InjectiveOnEqualLengths(m: map<string, string>, n: map<string, string>, a: seq<string>, b: seq<string>, length: nat)
    requires Lists(a, m) && Lists(b, n) && ValuesOfLength(m, length) && ValuesOfLength(n, length)
    ensures Lists(Sort(a), m) && Lists(Sort(b), n)
    ensures Joined(m, Sort(a)) == Joined(n, Sort(b)) <==> m == n
  {
    SortedLists(m, a);
    SortedLists(n, b);
    if m == n { SameKeysSameOrder(m, n, a, b); }
    if Joined(m, Sort(a)) == Joined(n, Sort(b)) {
      SameKeyLists(m, n, Sort(a), Sort(b), length);
      InjectiveOnEqualKeys(m, n, a, b);
    }
  }

  lemma SameKeyLists(m: map<string, string>, n: map<string, string>, p: seq<string>, q: seq<string>, length: nat)
    requires Lists(p, m) && Lists(q, n) && ValuesOfLength(m, length) && ValuesOfLength(n, length)
    requires Joined(m, p) == Joined(n, q)
    ensures p == q && m.Keys == n.Keys
  {
    var x, y := Joined(m, p), Joined(n, q);
    forall i | 0 <= i < |p| ensures p[i] == q[i] {
      assert x[i] == p[i] + m[p[i]] && y[i] == q[i] + n[q[i]];
      CutAt(p[i], m[p[i]], q[i], n[q[i]]);
    }
    assert p == q;
    forall k ensures k in m <==> k in n { assert k in p <==> k in m; assert k in q <==> k in n; }
  }

  /** In general they are not. */
  lemma TwoMapsOneEncoding() returns (m: map<string, string>, n: map<string, string>, a: seq<string>, b: seq<string>)
    ensures m != n && Lists(a, m) && Lists(b, n) && Sort(a) == a && Sort(b) == b
    ensures Joined(m, a) == Joined(n, b)
  {
    m, n, a, b := map["a" := "bc"], map["ab" := "c"], ["a"], ["ab"];
    assert "a" in m && "a" !in n;
    assert Joined(m, a)[0] == "a" + "bc" && Joined(n, b)[0] == "ab" + "c";
    assert "a" + "bc" == "abc" == "ab" + "c";
    assert a[1..] == [] && b[1..] == [];
  }
}
