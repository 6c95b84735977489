/** Variables of the form `$(...)` replaced by texts: one variable after another, or all at once. */
module Rewriting {
  import opened Text

  /** Space and period occur in no variable. */
  predicate Break(c: char) {
    c == ' ' || c == '.'
  }

  /** `$`, then neither `$` nor a break, and `)` at the end only. */
  ghost predicate IsVariable(n: string) {
    && |n| >= 2 && n[0] == '$' && n[|n| - 1] == ')'
    && forall i | 0 <= i < |n| :: !Break(n[i]) && (n[i] == '$' ==> i == 0) && (n[i] == ')' ==> i == |n| - 1)
  }

  datatype Raw = Rule(name: string, text: string)
  type Rule = r: Raw | r.name != "" witness Rule("$", "")

  ghost predicate Variables(rules: seq<Rule>) {
    && (forall i | 0 <= i < |rules| :: IsVariable(rules[i].name))
    && forall i, j | 0 <= i < j < |rules| :: rules[i].name != rules[j].name
  }

  /** str.replace: occurrences from left to right. */
  function Replace(s: string, r: Rule): string {
    if r.name <= s then r.text + Replace(s[|r.name|..], r)
    else if s == "" then ""
    else [s[0]] + Replace(s[1..], r)
  }

  /** The first k rules applied one after another. */
  function Sequential(s: string, rules: seq<Rule>, k: nat): string
    requires k <= |rules|
  {
    if k == 0 then s else Replace(Sequential(s, rules, k - 1), rules[k - 1])
  }

  /** The first of the first k rules whose variable s begins with, or k. */
  function Match(s: string, rules: seq<Rule>, k: nat): (j: nat)
    requires k <= |rules|
    ensures j <= k
    ensures j < k ==> rules[j].name <= s
    ensures forall i | 0 <= i < j :: !(rules[i].name <= s)
  {
    if k == 0 then 0
    else
      var j := Match(s, rules, k - 1);
      if j < k - 1 || rules[k - 1].name <= s then j else k
  }

  /** The first k rules applied at once, in one pass from left to right. */
  function Simultaneous(s: string, rules: seq<Rule>, k: nat): string
    requires k <= |rules|
    decreases |s|
  {
    var j := Match(s, rules, k);
    if s == "" then ""
    else if j < k then rules[j].text + Simultaneous(s[|rules[j].name|..], rules, k)
    else [s[0]] + Simultaneous(s[1..], rules, k)
  }

  // ----- occurrences -----

  lemma HoldsRight(a: string, b: string, pat: string)
    requires Holds(b, pat)
    ensures Holds(a + b, pat)
  {
    var i :| At(b, pat, i);
    assert (a + b)[|a| + i..] == b[i..];
    assert At(a + b, pat, |a| + i);
  }

  lemma HoldsLeft(a: string, b: string, pat: string)
    requires Holds(a, pat)
    ensures Holds(a + b, pat)
  {
    var i :| At(a, pat, i);
    assert (a + b)[i..] == a[i..] + b;
    assert At(a + b, pat, i);
  }

  /** A break lies on one side of the joint of a and b. */
  ghost predicate Apart(a: string, b: string) {
    a == "" || b == "" || Break(a[|a| - 1]) || Break(b[0])
  }

  lemma NotAcross(a: string, b: string, n: string, i: nat)
    requires IsVariable(n) && Apart(a, b) && i < |a| < i + |n| <= |a| + |b|
    ensures !At(a + b, n, i)
  {
    var s := (a + b)[i..];
    assert s[|a| - 1 - i] == a[|a| - 1] && s[|a| - i] == b[0];
    assert !Break(n[|a| - 1 - i]) && !Break(n[|a| - i]);
  }

  /** Across a break no variable is put together. */
  /** Slices of a joined text, by where they begin. */
  lemma JoinedRest(a: string, b: string, i: nat)
    requires i <= |a| + |b|
    ensures (a + b)[i..] == if i < |a| then a[i..] + b else b[i - |a|..]
  {
  }

  lemma HoldsJoined(a: string, b: string, n: string)
    requires IsVariable(n) && Apart(a, b) && Holds(a + b, n)
    ensures Holds(a, n) || Holds(b, n)
  {
    var i :| At(a + b, n, i);
    JoinedRest(a, b, i);
    if i < |a| < i + |n| {
      NotAcross(a, b, n, i);
    }
    hide IsVariable, Apart;
    if i >= |a| {
      assert At(b, n, i - |a|);
    } else {
      assert At(a, n, i);
    }
  }

  lemma HoldsFront(c: char, u: string, pat: string)
    requires Holds([c] + u, pat) && !(pat <= [c] + u)
    ensures Holds(u, pat)
  {
    var s := [c] + u;
    var i :| At(s, pat, i);
    assert s[0..] == s;
    assert i > 0;
    assert s[i..] == u[i - 1..];
    assert At(u, pat, i - 1);
  }

  /** No text begins with two variables. */
  lemma PrefixFree(s: string, m: string, n: string)
    requires IsVariable(m) && IsVariable(n) && m <= s && n <= s
    ensures m == n
  {
    var a, b := |m| - 1, |n| - 1;
    assert m == s[..a + 1] && n == s[..b + 1];
    assert m[a] == s[a] == ')' && n[b] == s[b] == ')';
    assert a == b;
  }

  // ----- one variable -----

  lemma NotAtFront(t: string, u: string, n: string)
    requires IsVariable(n) && !Holds(t, n) && t != "" && Break(t[|t| - 1])
    ensures !(n <= t + u)
  {
    assert t[0..] == t && !At(t, n, 0);
    assert |n| > |t| ==> (t + u)[|t| - 1] == t[|t| - 1] && !Break(n[|t| - 1]);
    assert |n| <= |t| ==> (t + u)[..|n|] == t[..|n|];
  }

  lemma HoldsTail(s: string, pat: string)
    requires s != "" && !Holds(s, pat)
    ensures !Holds(s[1..], pat)
  {
    forall i
      ensures !At(s[1..], pat, i)
    {
      if 0 <= i < |s| {
        assert s[1..][i..] == s[i + 1..];
        assert !At(s, pat, i + 1);
      }
    }
  }

  /** A text without the variable, ending in a break, is passed over. */
  lemma {:induction false} ReplacePasses(t: string, u: string, r: Rule)
    requires IsVariable(r.name) && !Holds(t, r.name) && (t == "" || Break(t[|t| - 1]))
    ensures Replace(t + u, r) == t + Replace(u, r)
  {
    if t == "" {
      assert t + u == u;
    } else {
      NotAtFront(t, u, r.name);
      HoldsTail(t, r.name);
      ReplacePasses(t[1..], u, r);
      assert (t + u)[1..] == t[1..] + u;
    }
  }

  /** A text without the variable is left alone. */
  lemma {:induction false} ReplaceNothing(s: string, r: Rule)
    requires !Holds(s, r.name)
    ensures Replace(s, r) == s
  {
    if s != "" {
      assert s[0..] == s && !At(s, r.name, 0);
      HoldsTail(s, r.name);
      ReplaceNothing(s[1..], r);
    }
  }

  // ----- several variables -----

  /** A break comes before any `)`, so that no variable ends in the text. */
  ghost predicate Spaced(t: string) {
    exists p :: 0 <= p < |t| && Break(t[p]) && forall i | 0 <= i < p :: t[i] != ')'
  }

  /** A text at either end of which no variable can be put together. */
  ghost predicate Closed(t: string) {
    Spaced(t) && Break(t[|t| - 1])
  }

  lemma NoEndIn(t: string, u: string, p: string)
    requires Spaced(t) && p != "" && p[|p| - 1] == ')' && forall i | 0 <= i < |p| :: !Break(p[i])
    ensures !(p <= t + u)
  {
    var q :| 0 <= q < |t| && Break(t[q]) && forall i | 0 <= i < q :: t[i] != ')';
    assert (t + u)[q] == t[q];
    assert |p| <= q ==> (t + u)[|p| - 1] == t[|p| - 1];
  }

  /** An end of a variable at the front of the result was already at the front of s. */
  lemma {:induction false} NotSpliced(s: string, rules: seq<Rule>, k: nat, p: string)
    requires k <= |rules| && forall j | 0 <= j < k :: Spaced(rules[j].text)
    requires p <= Simultaneous(s, rules, k)
    requires p != "" ==> p[|p| - 1] == ')'
    requires forall i | 0 <= i < |p| :: !Break(p[i])
    ensures p <= s
    decreases |s|
  {
    if p != "" && s != "" {
      var j := Match(s, rules, k);
      if j < k {
        NoEndIn(rules[j].text, Simultaneous(s[|rules[j].name|..], rules, k), p);
      } else {
        var rest := Simultaneous(s[1..], rules, k);
        assert ([s[0]] + rest)[1..] == rest;
        NotSpliced(s[1..], rules, k, p[1..]);
        assert p == [p[0]] + p[1..];
      }
    }
  }

  lemma NoDollarNoMatch(s: string, rules: seq<Rule>, k: nat)
    requires k <= |rules| && (forall j | 0 <= j < k :: rules[j].name[0] == '$') && s != "" && s[0] != '$'
    ensures Match(s, rules, k) == k
  {
    forall j | 0 <= j < k
      ensures !(rules[j].name <= s)
    {
      assert rules[j].name[0] == '$';
    }
  }

  lemma CopyChar(s: string, rules: seq<Rule>, k: nat)
    requires k <= |rules| && s != "" && Match(s, rules, k) == k
    ensures Simultaneous(s, rules, k) == [s[0]] + Simultaneous(s[1..], rules, k)
  {
  }

  /** Text without `$` is copied. */
  lemma {:induction false} Copied(w: string, u: string, rules: seq<Rule>, k: nat)
    requires k <= |rules| && forall j | 0 <= j < k :: rules[j].name[0] == '$'
    requires forall i | 0 <= i < |w| :: w[i] != '$'
    ensures Simultaneous(w + u, rules, k) == w + Simultaneous(u, rules, k)
  {
    if w == "" {
      assert w + u == u;
    } else {
      var s, v := w + u, w[1..];
      assert s[0] == w[0] && s[1..] == v + u && w == [w[0]] + v;
      NoDollarNoMatch(s, rules, k);
      CopyChar(s, rules, k);
      Copied(v, u, rules, k);
      Associative([w[0]], v, Simultaneous(u, rules, k));
    }
  }

  lemma NotEarlier(s: string, rules: seq<Rule>, k: nat)
    requires k < |rules| && Variables(rules) && rules[k].name <= s
    ensures Match(s, rules, k) == k
  {
    var j := Match(s, rules, k);
    if j < k {
      PrefixFree(s, rules[j].name, rules[k].name);
    }
  }

  /** A variable that is not yet in turn is copied. */
  lemma LaterCopied(n: string, u: string, rules: seq<Rule>, k: nat)
    requires k <= |rules| && (forall j | 0 <= j < k :: rules[j].name[0] == '$')
    requires n != "" && (forall i | 1 <= i < |n| :: n[i] != '$') && Match(n + u, rules, k) == k
    ensures Simultaneous(n + u, rules, k) == n + Simultaneous(u, rules, k)
  {
    var w, s := n[1..], n + u;
    assert s[0] == n[0] && s[1..] == w + u && n == [n[0]] + w;
    Copied(w, u, rules, k);
    Associative([n[0]], w, Simultaneous(u, rules, k));
  }

  lemma Associative(a: string, b: string, c: string)
    ensures a + (b + c) == (a + b) + c
  {
  }

  lemma MatchNext(s: string, rules: seq<Rule>, k: nat)
    requires k < |rules|
    ensures var j := Match(s, rules, k);
            Match(s, rules, k + 1) == if j < k || rules[k].name <= s then j else k + 1
  {
  }

  /** One more variable: replaced in the result, or together with the others. */
  lemma {:induction false} OneMore(s: string, rules: seq<Rule>, k: nat)
    requires k < |rules| && Variables(rules)
    requires forall j | 0 <= j < k :: Inert(rules[j], rules[k])
    ensures Replace(Simultaneous(s, rules, k), rules[k]) == Simultaneous(s, rules, k + 1)
    decreases |s|
  {
    if s != "" {
      var j, r := Match(s, rules, k), rules[k];
      MatchNext(s, rules, k);
      if j < k {
        var rest := s[|rules[j].name|..];
        ReplacePasses(rules[j].text, Simultaneous(rest, rules, k), r);
        OneMore(rest, rules, k);
      } else if r.name <= s {
        var rest := s[|r.name|..];
        assert s == r.name + rest;
        NotEarlier(s, rules, k);
        LaterCopied(r.name, rest, rules, k);
        ReplaceFirst(Simultaneous(rest, rules, k), r);
        OneMore(rest, rules, k);
      } else {
        StillNone(s, rules, k);
        var rest := Simultaneous(s[1..], rules, k);
        assert ([s[0]] + rest)[1..] == rest;
        OneMore(s[1..], rules, k);
      }
    }
  }

  lemma ReplaceFirst(u: string, r: Rule)
    ensures Replace(r.name + u, r) == r.text + Replace(u, r)
  {
    assert (r.name + u)[|r.name|..] == u;
  }

  lemma StillNone(s: string, rules: seq<Rule>, k: nat)
    requires s != "" && k <= |rules| && forall j | 0 <= j < k :: Spaced(rules[j].text)
    requires Match(s, rules, k) == k
    ensures forall n | IsVariable(n) && !(n <= s) :: !(n <= Simultaneous(s, rules, k))
  {
    forall n | IsVariable(n) && n <= Simultaneous(s, rules, k)
      ensures n <= s
    {
      NotSpliced(s, rules, k, n);
    }
  }

  lemma {:induction false} NoRules(s: string, rules: seq<Rule>)
    ensures Simultaneous(s, rules, 0) == s
    decreases |s|
  {
    if s != "" {
      NoRules(s[1..], rules);
    }
  }

  /** The text of r is closed and holds no variable of q. */
  ghost predicate Inert(r: Rule, q: Rule) {
    Closed(r.text) && !Holds(r.text, q.name)
  }

  /** No text brings in a variable whose turn is still to come. */
  ghost predicate InertBefore(rules: seq<Rule>, k: nat)
    requires k <= |rules|
  {
    forall j, i | 0 <= j < i < k :: Inert(rules[j], rules[i])
  }

  /** Replacing variables one after another is replacing them at once. */
  lemma {:induction false} SequentialIsSimultaneous(s: string, rules: seq<Rule>, k: nat)
    requires k <= |rules| && Variables(rules) && InertBefore(rules, k)
    ensures Sequential(s, rules, k) == Simultaneous(s, rules, k)
  {
    if k == 0 {
      NoRules(s, rules);
    } else {
      SequentialIsSimultaneous(s, rules, k - 1);
      OneMore(s, rules, k - 1);
    }
  }

  ghost predicate NoneLeft(s: string, rules: seq<Rule>) {
    forall i | 0 <= i < |rules| :: !Holds(s, rules[i].name)
  }

  /** Where every text is closed and free of variables, so is every result free of variables. */
  lemma {:induction false} NoneRemains(s: string, rules: seq<Rule>)
    requires Variables(rules) && forall j | 0 <= j < |rules| :: Closed(rules[j].text) && NoneLeft(rules[j].text, rules)
    ensures NoneLeft(Simultaneous(s, rules, |rules|), rules)
    decreases |s|
  {
    var k := |rules|;
    if s != "" {
      var j := Match(s, rules, k);
      var rest := if j < k then s[|rules[j].name|..] else s[1..];
      NoneRemains(rest, rules);
      var u := Simultaneous(rest, rules, k);
      forall i | 0 <= i < k
        ensures !Holds(Simultaneous(s, rules, k), rules[i].name)
      {
        if Holds(Simultaneous(s, rules, k), rules[i].name) {
          if j < k {
            HoldsJoined(rules[j].text, u, rules[i].name);
          } else {
            StillNone(s, rules, k);
            HoldsFront(s[0], u, rules[i].name);
          }
          assert false;
        }
      }
    }
  }

  /** A text without variables is left alone. */
  lemma {:induction false} SequentialNothing(s: string, rules: seq<Rule>, k: nat)
    requires k <= |rules| && forall i | 0 <= i < k :: !Holds(s, rules[i].name)
    ensures Sequential(s, rules, k) == s
  {
    if k > 0 {
      SequentialNothing(s, rules, k - 1);
      ReplaceNothing(s, rules[k - 1]);
    }
  }

  /** A replacement that shows: the text begins with another character than the variable, or is empty. */
  lemma {:induction false} ReplaceShows(s: string, r: Rule)
    requires Holds(s, r.name) && (r.text == "" || r.text[0] != r.name[0])
    ensures Replace(s, r) != s
  {
    if r.name <= s {
      if r.text == "" {
        ReplaceShrinks(s[|r.name|..], r);
      } else {
        assert Replace(s, r)[0] == r.text[0];
      }
    } else {
      assert s == [s[0]] + s[1..];
      HoldsFront(s[0], s[1..], r.name);
      ReplaceShows(s[1..], r);
      assert Replace(s, r)[1..] == Replace(s[1..], r);
    }
  }

  lemma {:induction false} ReplaceShrinks(s: string, r: Rule)
    requires r.text == ""
    ensures |Replace(s, r)| <= |s|
  {
    if r.name <= s {
      ReplaceShrinks(s[|r.name|..], r);
    } else if s != "" {
      ReplaceShrinks(s[1..], r);
    }
  }
}
