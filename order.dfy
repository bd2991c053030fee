/**
 * Python's ordering of strings (code point by code point, a prefix first)
 * and the sorted list of distinct strings that pandas produces for the keys
 * of a `groupby` and the index of a `pivot`.
 */
module Order {

  /** `a <= b` for Python strings. */
  predicate Below(a: string, b: string)
    decreases |a|
  {
    |a| == 0 || (|b| > 0 && (a[0] < b[0] || (a[0] == b[0] && Below(a[1..], b[1..]))))
  }

  /** `a < b` for Python strings. */
  predicate Less(a: string, b: string)
  {
    Below(a, b) && a != b
  }

  lemma {:induction false} BelowTotal(a: string, b: string)
    ensures Below(a, b) || Below(b, a)
    decreases |a|
  {
    if |a| > 0 && |b| > 0 && a[0] == b[0] {
      BelowTotal(a[1..], b[1..]);
    }
  }

  lemma {:induction false} BelowAntisymmetric(a: string, b: string)
    requires Below(a, b) && Below(b, a)
    ensures a == b
    decreases |a|
  {
    if |a| > 0 {
      BelowAntisymmetric(a[1..], b[1..]);
      assert a == [a[0]] + a[1..] && b == [b[0]] + b[1..];
    }
  }

  lemma {:induction false} BelowTransitive(a: string, b: string, c: string)
    requires Below(a, b) && Below(b, c)
    ensures Below(a, c)
    decreases |a|
  {
    if |a| > 0 && a[0] == b[0] && b[0] == c[0] {
      BelowTransitive(a[1..], b[1..], c[1..]);
    }
  }

  lemma LessTransitive(a: string, b: string, c: string)
    requires Less(a, b) && Less(b, c)
    ensures Less(a, c)
  {
    BelowTransitive(a, b, c);
    if a == c {
      BelowAntisymmetric(a, b);
    }
  }

  /** Strictly ascending: sorted, and therefore without repeats. */
  predicate Ascending(s: seq<string>)
  {
    forall i, j :: 0 <= i < j < |s| ==> Less(s[i], s[j])
  }

  /** Every string before the last one of an ascending list is below it. */
  lemma AscendingLastAbove(init: seq<string>, last: string)
    requires Ascending(init + [last])
    ensures forall x :: x in init ==> Less(x, last)
  {
    var s := init + [last];
    forall x | x in init ensures Less(x, last) {
      var k :| 0 <= k < |init| && init[k] == x;
      assert s[k] == x && s[|init|] == last;
    }
  }

  /** An ascending list stays ascending when a string above all its members is appended. */
  lemma AscendingSnoc(s: seq<string>, x: string)
    requires Ascending(s)
    requires forall y :: y in s ==> Less(y, x)
    ensures Ascending(s + [x])
  {
    var t := s + [x];
    forall i, j | 0 <= i < j < |t| ensures Less(t[i], t[j]) {
      assert t[i] == s[i];
      if j == |s| {
        assert s[i] in s;
      } else {
        assert t[j] == s[j];
      }
    }
  }

  /** Inserts `x` at its place in an ascending list, unless it is already there. */
  function Insert(x: string, s: seq<string>): (r: seq<string>)
    requires Ascending(s)
    ensures Ascending(r)
    ensures forall y :: y in r <==> y in s || y == x
    decreases |s|
  {
    if |s| == 0 then [x]
    else if x == s[0] then s
    else if Below(x, s[0]) then
      assert forall j :: 0 < j < |s| ==> Less(x, s[j]) by {
        forall j | 0 < j < |s| ensures Less(x, s[j]) {
          LessTransitive(x, s[0], s[j]);
        }
      }
      [x] + s
    else
      var rest := Insert(x, s[1..]);
      assert Less(s[0], x) by { BelowTotal(x, s[0]); }
      assert forall k :: 0 <= k < |rest| ==> Less(s[0], rest[k]) by {
        forall k | 0 <= k < |rest| ensures Less(s[0], rest[k]) {
          if rest[k] != x {
            assert rest[k] in s[1..];
          }
        }
      }
      [s[0]] + rest
  }

  /** The distinct strings of `xs` in ascending order (`sorted(set(xs))`). */
  function SortedDistinct(xs: seq<string>): (r: seq<string>)
    ensures Ascending(r)
    ensures forall y :: y in r <==> y in xs
  {
    if |xs| == 0 then [] else Insert(Last(xs), SortedDistinct(xs[..|xs| - 1]))
  }

  function Last(xs: seq<string>): string
    requires |xs| > 0
  {
    xs[|xs| - 1]
  }

  /** An ascending list holds each string at most once. */
  lemma AscendingDistinct(s: seq<string>, i: int, j: int)
    requires Ascending(s)
    requires 0 <= i < |s| && 0 <= j < |s| && s[i] == s[j]
    ensures i == j
  {
  }

  /** Two ascending lists with the same elements are the same list: the sorted order is unique. */
  lemma {:induction false} AscendingUnique(s: seq<string>, t: seq<string>)
    requires Ascending(s) && Ascending(t)
    requires forall y :: y in s <==> y in t
    ensures s == t
    decreases |s|
  {
    if |s| > 0 {
      assert s[0] in t;
    }
    if |t| > 0 {
      assert t[0] in s;
    }
    if |s| > 0 {
      if s[0] != t[0] {
        assert t[0] in s && s[0] in t;
        var i :| 0 <= i < |s| && s[i] == t[0];
        var j :| 0 <= j < |t| && t[j] == s[0];
        assert Less(s[0], s[i]) && Less(t[0], t[j]);
        BelowAntisymmetric(s[0], t[0]);
      }
      forall y ensures y in s[1..] <==> y in t[1..] {
        if y in s[1..] {
          var i :| 1 <= i < |s| && s[i] == y;
          assert y in s;
          var k :| 0 <= k < |t| && t[k] == y;
          assert k != 0 by { assert Less(s[0], s[i]); }
          assert t[1..][k - 1] == y;
        }
        if y in t[1..] {
          var j :| 1 <= j < |t| && t[j] == y;
          assert y in t;
          var k :| 0 <= k < |s| && s[k] == y;
          assert k != 0 by { assert Less(t[0], t[j]); }
          assert s[1..][k - 1] == y;
        }
      }
      AscendingUnique(s[1..], t[1..]);
      assert s == [s[0]] + s[1..] && t == [t[0]] + t[1..];
    }
  }
}
