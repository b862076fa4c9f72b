/** Strings in the order of `sort.Strings`, and decimal numbers. */
module Strings {
  import opened Wrappers

  // ---- sorting --------------------------------------------------------------

  predicate AtMost(a: string, b: string)
  {
    a == [] || (b != [] && (a[0] < b[0] || (a[0] == b[0] && AtMost(a[1..], b[1..]))))
  }

  /** The order is that of the first character in which two strings differ; a prefix
      comes first. */
  lemma {:induction false} AtMostIff(a: string, b: string)
    ensures AtMost(a, b) <==> a <= b || exists i :: FirstLess(a, b, i)
  {
    if a != [] && b != [] && a[0] == b[0] {
      AtMostIff(a[1..], b[1..]);
      assert a[1..] <= b[1..] <==> a <= b by {
        assert a == [a[0]] + a[1..] && b == [b[0]] + b[1..];
      }
      forall i | FirstLess(a[1..], b[1..], i) ensures FirstLess(a, b, i + 1) {
        assert a[..i + 1] == [a[0]] + a[1..][..i] && b[..i + 1] == [b[0]] + b[1..][..i];
      }
      forall i | FirstLess(a, b, i) ensures 0 < i && FirstLess(a[1..], b[1..], i - 1) {
        assert a[1..][..i - 1] == a[..i][1..] && b[1..][..i - 1] == b[..i][1..];
      }
    } else if a != [] && b != [] {
      assert a[0] < b[0] ==> FirstLess(a, b, 0);
      forall i | FirstLess(a, b, i) ensures a[0] < b[0] || a[0] == b[0] { SameHead(a, b, i); }
    }
  }

  lemma SameHead(a: string, b: string, i: int)
    requires FirstLess(a, b, i)
    ensures a[0] < b[0] || a[0] == b[0]
  {
    if 0 < i { assert a[..i][0] == a[0] && b[..i][0] == b[0]; }
  }

  predicate FirstLess(a: string, b: string, i: int) {
    0 <= i < |a| && i < |b| && a[..i] == b[..i] && a[i] < b[i]
  }

  lemma {:induction false} AtMostTotal(a: string, b: string)
    ensures AtMost(a, b) || AtMost(b, a)
    ensures AtMost(a, b) && AtMost(b, a) ==> a == b
  {
    if a != [] && b != [] && a[0] == b[0] {
      AtMostTotal(a[1..], b[1..]);
      assert a == [a[0]] + a[1..] && b == [b[0]] + b[1..];
    }
  }

  lemma {:induction false} AtMostTransitive(a: string, b: string, c: string)
    requires AtMost(a, b) && AtMost(b, c)
    ensures AtMost(a, c)
  {
    if a != [] && b != [] && c != [] && a[0] == b[0] == c[0] {
      AtMostTransitive(a[1..], b[1..], c[1..]);
    }
  }

  ghost predicate Ascending(s: seq<string>)
  {
    forall i, j :: 0 <= i < j < |s| ==> AtMost(s[i], s[j])
  }

  ghost predicate Distinct(s: seq<string>)
  {
    forall i, j :: 0 <= i < j < |s| ==> s[i] != s[j]
  }

  function Insert(x: string, s: seq<string>): (r: seq<string>)
    ensures |r| == |s| + 1
  {
    if s == [] || AtMost(x, s[0]) then [x] + s else [s[0]] + Insert(x, s[1..])
  }

  /** What `sort.Strings` leaves in its argument. */
  function Sort(s: seq<string>): (r: seq<string>)
    ensures |r| == |s|
  {
    if s == [] then [] else Insert(s[0], Sort(s[1..]))
  }

  lemma {:induction false} InsertKeeps(x: string, s: seq<string>)
    ensures multiset(Insert(x, s)) == multiset(s) + multiset{x}
    ensures Ascending(s) ==> Ascending(Insert(x, s))
  {
    if s == [] {
    } else if AtMost(x, s[0]) {
      if Ascending(s) {
        forall i | 0 <= i < |s| ensures AtMost(x, s[i]) {
          if i > 0 { AtMostTransitive(x, s[0], s[i]); }
        }
      }
    } else {
      InsertKeeps(x, s[1..]);
      AtMostTotal(x, s[0]);
      assert s == [s[0]] + s[1..];
      if Ascending(s) {
        var t := Insert(x, s[1..]);
        forall i | 0 <= i < |t| ensures AtMost(s[0], t[i]) {
          assert t[i] in multiset(s[1..]) + multiset{x};
        }
      }
    }
  }

  lemma {:induction false} SortSorts(s: seq<string>)
    ensures multiset(Sort(s)) == multiset(s)
    ensures Ascending(Sort(s))
  {
    if s != [] {
      SortSorts(s[1..]);
      InsertKeeps(s[0], Sort(s[1..]));
      assert s == [s[0]] + s[1..];
    }
  }

  lemma HeadIsLeast(a: seq<string>, x: string)
    requires Ascending(a) && x in multiset(a)
    ensures a != [] && AtMost(a[0], x)
  {
    var i :| 0 <= i < |a| && a[i] == x;
    AtMostTotal(x, x);
  }

  lemma TailMultiset(a: seq<string>)
    requires a != []
    ensures multiset(a[1..]) == multiset(a) - multiset{a[0]}
  {
    assert a == [a[0]] + a[1..];
  }

  /** There is only one ascending arrangement. */
  lemma {:induction false} AscendingUnique(a: seq<string>, b: seq<string>)
    requires Ascending(a) && Ascending(b) && multiset(a) == multiset(b)
    ensures a == b
    decreases |a|
  {
    if a == [] {
      assert |multiset(b)| == 0;
    } else {
      assert a[0] in multiset(b);
      HeadIsLeast(b, a[0]);
      HeadIsLeast(a, b[0]);
      AtMostTotal(a[0], b[0]);
      TailMultiset(a);
      TailMultiset(b);
      AscendingUnique(a[1..], b[1..]);
      assert a == [a[0]] + a[1..] && b == [b[0]] + b[1..];
    }
  }

  lemma SortUnique(a: seq<string>, b: seq<string>)
    requires multiset(a) == multiset(b)
    ensures Sort(a) == Sort(b)
  {
    SortSorts(a);
    SortSorts(b);
    AscendingUnique(Sort(a), Sort(b));
  }

  /** Two duplicate-free listings of the same set are rearrangements of each other. */
  lemma {:induction false} SameSetSameMultiset(a: seq<string>, b: seq<string>)
    requires Distinct(a) && Distinct(b)
    requires forall x :: x in a <==> x in b
    ensures multiset(a) == multiset(b)
  {
    forall x: string ensures multiset(a)[x] == multiset(b)[x] {
      CountInDistinct(a, x);
      CountInDistinct(b, x);
    }
  }

  lemma {:induction false} CountInDistinct(a: seq<string>, x: string)
    requires Distinct(a)
    ensures multiset(a)[x] == if x in a then 1 else 0
  {
    if a != [] {
      assert a == [a[0]] + a[1..];
      CountInDistinct(a[1..], x);
    }
  }

  lemma TwiceCounts(b: seq<string>, i: nat, j: nat)
    requires i < j < |b|
    ensures b[i] == b[j] ==> multiset(b)[b[i]] >= 2
  {
    assert b == b[..i] + [b[i]] + b[i + 1..j] + [b[j]] + b[j + 1..];
  }

  lemma DistinctFromMultiset(a: seq<string>, b: seq<string>)
    requires Distinct(a) && multiset(a) == multiset(b)
    ensures Distinct(b)
    ensures forall x :: x in a <==> x in b
  {
    forall i, j | 0 <= i < j < |b| ensures b[i] != b[j] {
      TwiceCounts(b, i, j);
      CountInDistinct(a, b[i]);
    }
    forall x ensures x in a <==> x in b {
      assert x in a <==> x in multiset(a);
      assert x in b <==> x in multiset(b);
    }
  }

  // ---- decimal numbers ------------------------------------------------------

  const INT64_MAX := 0x7fff_ffff_ffff_ffff

  predicate IsDigit(c: char) { '0' <= c <= '9' }

  function DigitValue(c: char): nat
    requires IsDigit(c)
  {
    c as int - '0' as int
  }

  /** The decimal form of a number. */
  function Decimal(n: nat): (s: string)
    ensures s != [] && forall i :: 0 <= i < |s| ==> IsDigit(s[i])
  {
    if n < 10 then [('0' as int + n) as char] else Decimal(n / 10) + Decimal(n % 10)
  }

  function ParseDigits(s: string): Option<nat> {
    if s == [] then Some(0)
    else if !IsDigit(s[|s| - 1]) then None
    else
      var front := ParseDigits(s[..|s| - 1]);
      if front.None? then None else Some(front.value * 10 + DigitValue(s[|s| - 1]))
  }

  /** `strconv.Atoi`: an optional sign, at least one digit, 64 bits. */
  function Atoi(s: string): Option<int> {
    var negative := s != [] && s[0] == '-';
    var digits := if s != [] && (s[0] == '-' || s[0] == '+') then s[1..] else s;
    if digits == [] then None
    else
      var n := ParseDigits(digits);
      if n.None? || n.value > (if negative then INT64_MAX + 1 else INT64_MAX) then None
      else
        var v: int := if negative then 0 - n.value else n.value;
        Some(v)
  }

  lemma {:induction false} ParseDecimal(n: nat)
    ensures ParseDigits(Decimal(n)) == Some(n)
  {
    var s := Decimal(n);
    if n < 10 {
      assert s[..|s| - 1] == [];
    } else {
      ParseDecimal(n / 10);
      assert Decimal(n % 10) == [('0' as int + n % 10) as char];
      assert s[..|s| - 1] == Decimal(n / 10);
    }
  }

  /** Parsing undoes printing. */
  lemma AtoiDecimal(n: nat)
    ensures Atoi(Decimal(n)) == if n <= INT64_MAX then Some(n) else None
  {
    ParseDecimal(n);
    assert IsDigit(Decimal(n)[0]);
  }

  lemma {:induction false} ParsesDigits(s: string)
    ensures ParseDigits(s).Some? <==> forall i :: 0 <= i < |s| ==> IsDigit(s[i])
  {
    if s != [] {
      ParsesDigits(s[..|s| - 1]);
      assert s == s[..|s| - 1] + [s[|s| - 1]];
    }
  }

  /** Digits parse with either sign or none, within 64 bits. */
  lemma AtoiForms(d: string)
    requires d != "" && forall i :: 0 <= i < |d| ==> IsDigit(d[i])
    ensures ParseDigits(d).Some?
    ensures var n := ParseDigits(d).value;
            && Atoi(d) == Atoi(['+'] + d) == (if n <= INT64_MAX then Some(n) else None)
            && Atoi(['-'] + d) == (if n <= INT64_MAX + 1 then Some(0 - n) else None)
  {
    ParsesDigits(d);
    assert IsDigit(d[0]);
    assert (['+'] + d)[1..] == d && (['-'] + d)[1..] == d;
  }

  /** And nothing else does. */
  lemma AtoiRefuses(s: string)
    ensures Atoi(s).Some? ==> s != "" && (IsDigit(s[0]) || (s[0] in {'+', '-'} && |s| > 1))
    ensures Atoi(s).Some? ==> forall i :: 0 < i < |s| ==> IsDigit(s[i])
  {
    if Atoi(s).Some? {
      var signed := s[0] == '-' || s[0] == '+';
      var digits := if signed then s[1..] else s;
      ParsesDigits(digits);
      forall i | 0 < i < |s| ensures IsDigit(s[i]) { assert s[i] == if signed then digits[i - 1] else digits[i]; }
      if !signed { assert IsDigit(digits[0]); }
    }
  }

  // ---- splitting and searching ----------------------------------------------

  /** The last of the parts `strings.Split(s, "-")` returns. */
  function LastPart(parts: seq<string>): string
    requires parts != []
  {
    parts[|parts| - 1]
  }

  /** `strings.Split` with a separator of one character. */
  function Split(s: string, sep: char): (parts: seq<string>)
    ensures parts != []
  {
    if s == [] then [""]
    else
      var parts := Split(s[1..], sep);
      if s[0] == sep then [""] + parts else [[s[0]] + parts[0]] + parts[1..]
  }

  lemma {:induction false} SplitPlain(s: string, sep: char)
    requires sep !in s
    ensures Split(s, sep) == [s]
  {
    if s != [] {
      assert s[0] in s && s == [s[0]] + s[1..];
      SplitPlain(s[1..], sep);
    }
  }

  /** What follows the last separator is the last part. */
  lemma {:induction false} SplitLast(s: string, sep: char, t: string)
    requires sep !in t
    ensures LastPart(Split(s + [sep] + t, sep)) == t
  {
    var whole := s + [sep] + t;
    if s == [] {
      assert whole[1..] == t;
      SplitPlain(t, sep);
    } else {
      assert whole[1..] == s[1..] + [sep] + t;
      SplitLast(s[1..], sep, t);
      SplitMany(s[1..], sep, t);
    }
  }

  lemma {:induction false} SplitMany(s: string, sep: char, t: string)
    ensures |Split(s + [sep] + t, sep)| >= 2
  {
    var whole := s + [sep] + t;
    if s == [] {
      assert whole[1..] == t;
    } else {
      assert whole[1..] == s[1..] + [sep] + t;
      SplitMany(s[1..], sep, t);
    }
  }

  /** `strings.Contains`. */
  predicate Contains(s: string, t: string)
  {
    t <= s || (s != [] && Contains(s[1..], t))
  }

  lemma {:induction false} ContainsIff(s: string, t: string)
    ensures Contains(s, t) <==> exists i :: 0 <= i <= |s| && t <= s[i..]
  {
    if t <= s {
      assert s[0..] == s;
    } else if s != [] {
      ContainsIff(s[1..], t);
      forall i | 0 <= i <= |s[1..]| ensures s[1..][i..] == s[i + 1..] { }
      if i :| 0 <= i <= |s| && t <= s[i..] {
        assert i > 0;
        assert t <= s[1..][i - 1..];
      }
      if j :| 0 <= j <= |s[1..]| && t <= s[1..][j..] { assert t <= s[j + 1..]; }
    }
  }
}
