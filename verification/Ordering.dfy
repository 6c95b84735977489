/** The sorted list of a dictionary's keys. */
module Ordering {
  /** Strings compared character by character. */
  predicate Less(a: string, b: string) {
    b != "" && (a == "" || a[0] < b[0] || (a[0] == b[0] && Less(a[1..], b[1..])))
  }

  /** The smaller string is the one with the smaller character where the two first differ, or a proper prefix. */
  lemma {:induction false} LessExact(a: string, b: string)
    ensures Less(a, b) <==>
            exists k :: 0 <= k <= |a| && k < |b| && a[..k] == b[..k] && (k == |a| || a[k] < b[k])
  {
    if a != "" && b != "" && a[0] == b[0] {
      LessExact(a[1..], b[1..]);
      if Less(a, b) {
        var k :| 0 <= k <= |a| - 1 && k < |b| - 1 && a[1..][..k] == b[1..][..k]
                 && (k == |a| - 1 || a[1..][k] < b[1..][k]);
        FirstBehind(a, b, k);
      }
      if k :| 0 <= k <= |a| && k < |b| && a[..k] == b[..k] && (k == |a| || a[k] < b[k]) {
        FirstBefore(a, b, k);
      }
    } else if k :| 0 <= k <= |a| && k < |b| && a[..k] == b[..k] && (k == |a| || a[k] < b[k]) {
      if k > 0 {
        SameHead(a, b, k);
      }
    } else if Less(a, b) {
      assert a[..0] == b[..0];
    }
  }

  lemma SameHead(a: string, b: string, k: nat)
    requires 0 < k <= |a| && k <= |b| && a[..k] == b[..k]
    ensures a[0] == b[0]
  {
    assert a[..k][0] == a[0] && b[..k][0] == b[0];
  }

  lemma FirstBehind(a: string, b: string, k: nat)
    requires a != "" && b != "" && a[0] == b[0] && k <= |a| - 1 && k < |b| - 1
    requires a[1..][..k] == b[1..][..k] && (k == |a| - 1 || a[1..][k] < b[1..][k])
    ensures a[..k + 1] == b[..k + 1] && (k + 1 == |a| || a[k + 1] < b[k + 1])
  {
    assert a[..k + 1] == [a[0]] + a[1..][..k] && b[..k + 1] == [b[0]] + b[1..][..k];
  }

  lemma FirstBefore(a: string, b: string, k: nat)
    requires a != "" && b != "" && a[0] == b[0] && k <= |a| && k < |b|
    requires a[..k] == b[..k] && (k == |a| || a[k] < b[k])
    ensures k > 0 && a[1..][..k - 1] == b[1..][..k - 1] && (k == |a| || a[1..][k - 1] < b[1..][k - 1])
  {
    assert k > 0;
    assert a[1..][..k - 1] == a[..k][1..] && b[1..][..k - 1] == b[..k][1..];
  }

  lemma {:induction false} LessTotal(a: string, b: string)
    ensures a == b || Less(a, b) || Less(b, a)
    ensures !(Less(a, b) && Less(b, a)) && !Less(a, a)
  {
    if a != "" && b != "" {
      LessTotal(a[1..], b[1..]);
      assert a == [a[0]] + a[1..] && b == [b[0]] + b[1..];
    }
    if a != "" {
      LessTotal(a[1..], a[1..]);
    }
  }

  lemma {:induction false} LessTransitive(a: string, b: string, c: string)
    requires Less(a, b) && Less(b, c)
    ensures Less(a, c)
  {
    if a != "" && a[0] == b[0] == c[0] {
      LessTransitive(a[1..], b[1..], c[1..]);
    }
  }

  ghost predicate Ascending(s: seq<string>) {
    forall i, j | 0 <= i < j < |s| :: Less(s[i], s[j])
  }

  method Insert(s: seq<string>, k: string) returns (r: seq<string>)
    requires Ascending(s) && k !in s
    ensures Ascending(r) && forall x :: x in r <==> x in s || x == k
  {
    var n := 0;
    while n < |s| && Less(s[n], k)
      invariant n <= |s| && forall i | 0 <= i < n :: Less(s[i], k)
    {
      n := n + 1;
    }
    forall j | n <= j < |s|
      ensures Less(k, s[j])
    {
      LessTotal(k, s[n]);
      if j > n {
        LessTransitive(k, s[n], s[j]);
      }
    }
    r := s[..n] + [k] + s[n..];
    assert forall x :: x in s <==> x in s[..n] || x in s[n..] by {
      assert s == s[..n] + s[n..];
    }
  }

  /** Every key once, in ascending order. */
  method Sorted(keys: set<string>) returns (s: seq<string>)
    ensures Ascending(s) && forall x :: x in s <==> x in keys
  {
    s := [];
    var left := keys;
    while left != {}
      invariant left <= keys && Ascending(s)
      invariant forall x :: x in s <==> x in keys && x !in left
    {
      var k :| k in left;
      s := Insert(s, k);
      left := left - {k};
    }
  }

  lemma AscendingDistinct(s: seq<string>, i: nat, j: nat)
    requires Ascending(s) && i < j < |s|
    ensures s[i] != s[j]
  {
    LessTotal(s[i], s[j]);
  }

  /** Two ascending lists of the same keys are the same list. */
  lemma {:induction false} AscendingUnique(a: seq<string>, b: seq<string>)
    requires Ascending(a) && Ascending(b) && forall x :: x in a <==> x in b
    ensures a == b
  {
    assert b != [] ==> b[0] in b;
    if a != [] {
      assert a[0] in b && b != [] && b[0] in a;
      LessTotal(a[0], b[0]);
      assert a[0] == b[0];
      forall x
        ensures x in a[1..] <==> x in b[1..]
      {
        Behind(a, x);
        Behind(b, x);
      }
      AscendingUnique(a[1..], b[1..]);
      assert a == [a[0]] + a[1..] && b == [b[0]] + b[1..];
    }
  }

  lemma Behind(s: seq<string>, x: string)
    requires Ascending(s) && s != []
    ensures x in s[1..] <==> x in s && x != s[0]
  {
    if x in s[1..] {
      var i :| 0 <= i < |s| - 1 && s[1..][i] == x;
      AscendingDistinct(s, 0, i + 1);
    }
    assert s == [s[0]] + s[1..];
  }
}
