/**
 * The ordering std::map<std::string, T> iterates in: std::string's operator<,
 * which compares character codes lexicographically and puts a proper prefix first.
 * JSON strings are UTF-8, whose byte order agrees with code point order, so
 * comparing Dafny characters gives the same order.
 */
module StringOrder {

  /** a < b as std::string compares them. */
  predicate Less(a: string, b: string)
    decreases |a|
  {
    |b| > 0 && (|a| == 0 || a[0] < b[0] || (a[0] == b[0] && Less(a[1..], b[1..])))
  }

  lemma {:induction false} LessIrreflexive(a: string)
    ensures !Less(a, a)
    decreases |a|
  {
    if |a| > 0 {
      LessIrreflexive(a[1..]);
    }
  }

  lemma {:induction false} LessTransitive(a: string, b: string, c: string)
    requires Less(a, b) && Less(b, c)
    ensures Less(a, c)
    decreases |a|
  {
    if |a| > 0 && a[0] == b[0] && b[0] == c[0] {
      LessTransitive(a[1..], b[1..], c[1..]);
    }
  }

  lemma {:induction false} LessTotal(a: string, b: string)
    requires a != b
    ensures Less(a, b) || Less(b, a)
    decreases |a|
  {
    if |a| > 0 && |b| > 0 && a[0] == b[0] {
      assert a == [a[0]] + a[1..] && b == [b[0]] + b[1..];
      LessTotal(a[1..], b[1..]);
    }
  }

  lemma {:induction false} LessAsymmetric(a: string, b: string)
    requires Less(a, b)
    ensures !Less(b, a)
  {
    if Less(b, a) {
      LessTransitive(a, b, a);
      LessIrreflexive(a);
    }
  }

  /** m is the smallest string of s. */
  predicate IsLeast(m: string, s: set<string>) {
    m in s && forall x :: x in s ==> x == m || Less(m, x)
  }

  lemma {:induction false} LeastExists(s: set<string>)
    requires s != {}
    ensures exists m :: IsLeast(m, s)
    decreases s
  {
    var x :| x in s;
    if s == {x} {
      assert IsLeast(x, s);
    } else {
      LeastExists(s - {x});
      var m :| IsLeast(m, s - {x});
      if Less(m, x) {
        assert IsLeast(m, s);
      } else {
        LessTotal(m, x);
        forall y | y in s && y != x
          ensures Less(x, y)
        {
          if y != m {
            LessTransitive(x, m, y);
          }
        }
        assert IsLeast(x, s);
      }
    }
  }

  lemma LeastUnique(s: set<string>)
    ensures forall m, m' :: IsLeast(m, s) && IsLeast(m', s) ==> m == m'
  {
    forall m, m' | IsLeast(m, s) && IsLeast(m', s)
      ensures m == m'
    {
      if m != m' {
        LessAsymmetric(m, m');
      }
    }
  }

  /** Strictly increasing, hence also free of duplicates. */
  predicate StrictlySorted(ks: seq<string>) {
    forall i, j :: 0 <= i < j < |ks| ==> Less(ks[i], ks[j])
  }

  /** The keys of a std::map in the order its iterators visit them. */
  function SortedKeys(s: set<string>): (ks: seq<string>)
    ensures StrictlySorted(ks)
    ensures forall k :: k in ks <==> k in s
    ensures forall i :: 0 <= i < |ks| ==> ks[i] in s
    ensures |ks| == |s|
    decreases s
  {
    if s == {} then []
    else
      LeastExists(s);
      LeastUnique(s);
      var m :| IsLeast(m, s);
      var rest := SortedKeys(s - {m});
      assert |s - {m}| == |s| - 1;
      [m] + rest
  }

  /** A proper prefix comes first. */
  lemma {:induction false} PrefixLess(a: string, b: string)
    requires |a| < |b| && a == b[..|a|]
    ensures Less(a, b)
    decreases |a|
  {
    if |a| > 0 {
      assert a[1..] == b[1..][..|a| - 1];
      PrefixLess(a[1..], b[1..]);
    }
  }

  /** Two strictly sorted sequences with the same elements are the same sequence. */
  lemma {:induction false} SortedUnique(a: seq<string>, b: seq<string>)
    requires StrictlySorted(a) && StrictlySorted(b)
    requires forall k :: k in a <==> k in b
    ensures a == b
    decreases |a|
  {
    assert |b| > 0 ==> b[0] in a;
    if |a| > 0 {
      assert a[0] in b;
      if a[0] != b[0] {
        var j :| 0 <= j < |b| && b[j] == a[0];
        assert b[0] in a;
        var i :| 0 <= i < |a| && a[i] == b[0];
        LessAsymmetric(b[0], a[0]);
      }
      forall k | k in a[1..]
        ensures k in b[1..]
      {
        var i :| 1 <= i < |a| && a[i] == k;
        assert a[i] in a;
        LessIrreflexive(a[0]);
        var j :| 0 <= j < |b| && b[j] == k;
        assert b[1..][j - 1] == k;
      }
      forall k | k in b[1..]
        ensures k in a[1..]
      {
        var j :| 1 <= j < |b| && b[j] == k;
        assert b[j] in b;
        LessIrreflexive(b[0]);
        var i :| 0 <= i < |a| && a[i] == k;
        assert a[1..][i - 1] == k;
      }
      SortedUnique(a[1..], b[1..]);
      assert a == [a[0]] + a[1..] && b == [b[0]] + b[1..];
    }
  }

  /** A strictly sorted sequence of exactly the strings of `s` is the std::map key order of `s`. */
  lemma SortedIsSortedKeys(ks: seq<string>, s: set<string>)
    requires StrictlySorted(ks)
    requires forall k :: k in ks <==> k in s
    ensures ks == SortedKeys(s)
  {
    SortedUnique(ks, SortedKeys(s));
  }

  /** In a strictly sorted sequence, position order and string order agree. */
  lemma IndexOrder(ks: seq<string>, i: int, j: int)
    requires StrictlySorted(ks)
    requires 0 <= i < |ks| && 0 <= j < |ks|
    ensures Less(ks[i], ks[j]) <==> i < j
  {
    if i == j {
      LessIrreflexive(ks[i]);
    } else if j < i {
      LessAsymmetric(ks[j], ks[i]);
    }
  }

  /** No element occurs twice. */
  predicate NoDuplicates(ks: seq<string>) {
    forall i, j :: 0 <= i < |ks| && 0 <= j < |ks| && i != j ==> ks[i] != ks[j]
  }

  /** A strictly sorted sequence has no repeated element. */
  lemma SortedNoDuplicates(ks: seq<string>)
    requires StrictlySorted(ks)
    ensures NoDuplicates(ks)
  {
    forall i, j | 0 <= i < |ks| && 0 <= j < |ks| && i != j
      ensures ks[i] != ks[j]
    {
      if i < j {
        LessIrreflexive(ks[i]);
      } else {
        LessIrreflexive(ks[j]);
      }
    }
  }
}
