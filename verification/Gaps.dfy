/** A variable replaced by nothing lets what stands around it close up. */
module Gaps {
  import opened Text
  import opened Rewriting
  import opened Attributes

  /** Any number of times n, then `>`. */
  predicate Closes(s: string, n: string)
    requires n != ""
  {
    s != "" && (s[0] == '>' || (n <= s && Closes(s[|n|..], n)))
  }

  /** Somewhere `/`, any number of times n, then `>`. */
  predicate Gapped(s: string, n: string)
    requires n != ""
  {
    s != "" && ((s[0] == '/' && Closes(s[1..], n)) || Gapped(s[1..], n))
  }

  // ----- what is left when the variable is gone -----

  lemma {:induction false} ClosedUp(t: string, r: Rule)
    requires IsVariable(r.name) && r.text == ""
    ensures (Replace(t, r) != "" && Replace(t, r)[0] == '>') <==> Closes(t, r.name)
  {
    if r.name <= t {
      assert t[0] == r.name[0];
      assert "" + Replace(t[|r.name|..], r) == Replace(t[|r.name|..], r);
      ClosedUp(t[|r.name|..], r);
    }
  }

  lemma EndFront(c: char, u: string)
    ensures Holds([c] + u, END) <==> (c == '/' && u != "" && u[0] == '>') || Holds(u, END)
  {
    var s := [c] + u;
    if u != "" {
      EndAt(s, 0);
    }
    if Holds(u, END) {
      HoldsRight([c], u, END);
    }
    assert s[0..] == s;
    if Holds(s, END) && !(END <= s) {
      HoldsFront(c, u, END);
    }
    assert c == '/' && u != "" && u[0] == '>' ==> At(s, END, 0);
  }

  lemma {:induction false} GappedBehind(w: string, u: string, n: string)
    requires n != "" && '/' !in w
    ensures Gapped(w + u, n) <==> Gapped(u, n)
  {
    if w == "" {
      assert w + u == u;
    } else {
      assert (w + u)[0] == w[0] && (w + u)[1..] == w[1..] + u;
      GappedBehind(w[1..], u, n);
    }
  }

  /** Replacing a variable by nothing puts `/>` together exactly where there is a gap. */
  lemma {:induction false} EndClosesUp(t: string, r: Rule)
    requires IsVariable(r.name) && '/' !in r.name && r.text == ""
    ensures Holds(Replace(t, r), END) <==> Gapped(t, r.name)
  {
    if r.name <= t {
      var rest := t[|r.name|..];
      assert t == r.name + rest && "" + Replace(rest, r) == Replace(rest, r);
      EndClosesUp(rest, r);
      GappedBehind(r.name, rest, r.name);
    } else if t != "" {
      EndClosesUp(t[1..], r);
      ClosedUp(t[1..], r);
      EndFront(t[0], Replace(t[1..], r));
    } else {
      NoSlash("");
    }
  }

  // ----- gaps across a break -----

  lemma NotPast(x: string, u: string, n: string)
    requires IsVariable(n) && (u == "" || Break(u[0]) || (x != "" && Break(x[|x| - 1])))
    ensures n <= x + u <==> n <= x
    ensures n <= x && x != "" && Break(x[|x| - 1]) ==> |n| < |x|
  {
    assert |n| > |x| > 0 ==> (x + u)[|x| - 1] == x[|x| - 1] && !Break(n[|x| - 1]);
    assert |n| > |x| && u != "" ==> (x + u)[|x|] == u[0] && !Break(n[|x|]);
    assert |n| <= |x| ==> (x + u)[..|n|] == x[..|n|];
    assert |n| == |x| > 0 ==> !Break(n[|x| - 1]);
  }

  lemma {:induction false} ClosesBefore(x: string, u: string, n: string)
    requires IsVariable(n) && (u == "" || Break(u[0]) || (x != "" && Break(x[|x| - 1])))
    ensures Closes(x + u, n) <==> Closes(x, n)
  {
    NotPast(x, u, n);
    if x == "" {
      assert x + u == u;
    } else {
      assert (x + u)[0] == x[0];
      if n <= x {
        assert (x + u)[|n|..] == x[|n|..] + u;
        ClosesBefore(x[|n|..], u, n);
      }
    }
  }

  /** No gap reaches across a break. */
  lemma {:induction false} GappedJoined(a: string, b: string, n: string)
    requires IsVariable(n) && Apart(a, b)
    ensures Gapped(a + b, n) <==> Gapped(a, n) || Gapped(b, n)
  {
    if a == "" {
      assert a + b == b;
    } else if |a| == 1 {
      assert (a + b)[1..] == b && a[1..] == "";
      if !Break(a[0]) {
        ClosesBefore("", b, n);
        assert "" + b == b;
      }
    } else {
      assert (a + b)[0] == a[0] && (a + b)[1..] == a[1..] + b;
      GappedJoined(a[1..], b, n);
      ClosesBefore(a[1..], b, n);
    }
  }

  // ----- gaps and variables in the result of a pass -----

  /** A variable at the front: another one begins behind it. */
  lemma HoldsVariable(w: string, u: string, n: string)
    requires IsVariable(w) && IsVariable(n)
    ensures Holds(w + u, n) <==> n == w || Holds(u, n)
  {
    var s := w + u;
    assert s[0..] == s;
    assert forall i | 0 < i < |w| :: s[i] == w[i];
    if n == w {
      assert At(s, n, 0);
    }
    if Holds(u, n) {
      HoldsRight(w, u, n);
    }
    if i :| At(s, n, i) {
      assert s[i..][0] == s[i] == '$';
      if i == 0 {
        PrefixFree(s, n, w);
      } else {
        assert s[i..] == u[i - |w|..];
        assert At(u, n, i - |w|);
      }
    }
  }

  lemma HoldsBehind(s: string, n: string)
    requires s != "" && !(n <= s)
    ensures Holds(s, n) <==> Holds(s[1..], n)
  {
    assert s == [s[0]] + s[1..];
    if Holds(s, n) {
      HoldsFront(s[0], s[1..], n);
    }
    if Holds(s[1..], n) {
      HoldsRight([s[0]], s[1..], n);
    }
  }

  /** What the first k rules have to be: closed texts that do not begin with `>`, and names without `/`. */
  ghost predicate Plainly(rules: seq<Rule>, k: nat) {
    && k <= |rules| && Variables(rules)
    && forall j | 0 <= j < k :: Closed(rules[j].text) && rules[j].text[0] != '>' && '/' !in rules[j].name
  }

  /** n is a variable of none of the first k rules. */
  ghost predicate Foreign(n: string, rules: seq<Rule>, k: nat)
    requires k <= |rules|
  {
    IsVariable(n) && forall j | 0 <= j < k :: rules[j].name != n
  }

  lemma ForeignNoMatch(s: string, rules: seq<Rule>, k: nat, n: string)
    requires Plainly(rules, k) && Foreign(n, rules, k) && n <= s
    ensures Match(s, rules, k) == k
  {
    forall j | 0 <= j < k
      ensures !(rules[j].name <= s)
    {
      if rules[j].name <= s {
        PrefixFree(s, rules[j].name, n);
      }
    }
  }

  lemma ForeignCopied(n: string, u: string, rules: seq<Rule>, k: nat)
    requires Plainly(rules, k) && Foreign(n, rules, k)
    ensures Simultaneous(n + u, rules, k) == n + Simultaneous(u, rules, k)
  {
    ForeignNoMatch(n + u, rules, k, n);
    LaterCopied(n, u, rules, k);
  }

  /** The pass keeps what closes a gap. */
  lemma {:induction false} ClosesAfter(s: string, rules: seq<Rule>, k: nat, n: string)
    requires Plainly(rules, k) && Foreign(n, rules, k)
    ensures Closes(Simultaneous(s, rules, k), n) <==> Closes(s, n)
    decreases |s|
  {
    if s != "" {
      var j := Match(s, rules, k);
      if n <= s {
        var rest := s[|n|..];
        assert s == n + rest;
        ForeignCopied(n, rest, rules, k);
        ClosesAfter(rest, rules, k, n);
        ClosesSkip(n, rest);
        ClosesSkip(n, Simultaneous(rest, rules, k));
      } else if j < k {
        NoEndIn(rules[j].text, Simultaneous(s[|rules[j].name|..], rules, k), n);
        assert s[0] == rules[j].name[0];
      } else {
        StillNone(s, rules, k);
        CopyChar(s, rules, k);
      }
    }
  }

  lemma ClosesSkip(n: string, u: string)
    requires IsVariable(n)
    ensures Closes(n + u, n) <==> Closes(u, n)
  {
    assert (n + u)[|n|..] == u && (n + u)[0] == '$';
  }

  /** One of the first k variables of s has a text with a gap. */
  ghost predicate BringsGap(s: string, rules: seq<Rule>, k: nat, n: string)
    requires k <= |rules| && n != ""
  {
    exists j :: 0 <= j < k && Holds(s, rules[j].name) && Gapped(rules[j].text, n)
  }

  /** One of the first k variables of s has a text that holds n. */
  ghost predicate Brings(s: string, rules: seq<Rule>, k: nat, n: string)
    requires k <= |rules|
  {
    exists j :: 0 <= j < k && Holds(s, rules[j].name) && Holds(rules[j].text, n)
  }

  lemma {:induction false} GappedAfter(s: string, rules: seq<Rule>, k: nat, n: string)
    requires Plainly(rules, k) && Foreign(n, rules, k)
    ensures Gapped(Simultaneous(s, rules, k), n) <==> Gapped(s, n) || BringsGap(s, rules, k, n)
    decreases |s|
  {
    var j := Match(s, rules, k);
    if s == "" {
      assert forall i | 0 <= i < k :: !Holds("", rules[i].name);
    } else if j < k {
      var w, rest := rules[j].name, s[|rules[j].name|..];
      assert s == w + rest;
      GappedAfter(rest, rules, k, n);
      GappedJoined(rules[j].text, Simultaneous(rest, rules, k), n);
      GappedBehind(w, rest, n);
      BringsMore(rest, rules, k, n, j);
    } else {
      GappedAfter(s[1..], rules, k, n);
      ClosesAfter(s[1..], rules, k, n);
      CopyChar(s, rules, k);
      BringsSame(s, rules, k, n);
      GappedChar(s[0], Simultaneous(s[1..], rules, k), n);
    }
  }

  lemma GappedChar(c: char, u: string, n: string)
    requires n != ""
    ensures Gapped([c] + u, n) <==> (c == '/' && Closes(u, n)) || Gapped(u, n)
  {
    assert ([c] + u)[1..] == u;
  }

  lemma BringsMore(rest: string, rules: seq<Rule>, k: nat, n: string, j: nat)
    requires Plainly(rules, k) && n != "" && j < k
    ensures var s := rules[j].name + rest;
            && (BringsGap(s, rules, k, n) <==> Gapped(rules[j].text, n) || BringsGap(rest, rules, k, n))
            && (Brings(s, rules, k, n) <==> Holds(rules[j].text, n) || Brings(rest, rules, k, n))
  {
    forall i | 0 <= i < k
      ensures Holds(rules[j].name + rest, rules[i].name) <==> i == j || Holds(rest, rules[i].name)
    {
      HoldsVariable(rules[j].name, rest, rules[i].name);
    }
  }

  lemma BringsSame(s: string, rules: seq<Rule>, k: nat, n: string)
    requires k <= |rules| && n != "" && s != "" && Match(s, rules, k) == k
    ensures BringsGap(s, rules, k, n) <==> BringsGap(s[1..], rules, k, n)
    ensures Brings(s, rules, k, n) <==> Brings(s[1..], rules, k, n)
  {
    forall i | 0 <= i < k
      ensures Holds(s, rules[i].name) <==> Holds(s[1..], rules[i].name)
    {
      HoldsBehind(s, rules[i].name);
    }
  }

  lemma HoldsEither(a: string, b: string, n: string)
    requires IsVariable(n) && Apart(a, b)
    ensures Holds(a + b, n) <==> Holds(a, n) || Holds(b, n)
  {
    if Holds(a, n) {
      HoldsLeft(a, b, n);
    }
    if Holds(b, n) {
      HoldsRight(a, b, n);
    }
    if Holds(a + b, n) {
      HoldsJoined(a, b, n);
    }
  }

  /** A variable is in the result exactly if it was in s, or came with the text of a variable of s. */
  lemma {:induction false} HoldsAfter(s: string, rules: seq<Rule>, k: nat, n: string)
    requires Plainly(rules, k) && Foreign(n, rules, k)
    ensures Holds(Simultaneous(s, rules, k), n) <==> Holds(s, n) || Brings(s, rules, k, n)
    decreases |s|
  {
    var j := Match(s, rules, k);
    if s == "" {
      assert forall i | 0 <= i < k :: !Holds("", rules[i].name);
    } else if j < k {
      var w, rest := rules[j].name, s[|rules[j].name|..];
      assert s == w + rest;
      HoldsAfter(rest, rules, k, n);
      HoldsEither(rules[j].text, Simultaneous(rest, rules, k), n);
      HoldsVariable(w, rest, n);
      BringsMore(rest, rules, k, n, j);
    } else if n <= s {
      var rest := s[|n|..];
      assert s == n + rest && s[0..] == s && At(s, n, 0);
      ForeignCopied(n, rest, rules, k);
      HoldsVariable(n, Simultaneous(rest, rules, k), n);
    } else {
      HoldsAfter(s[1..], rules, k, n);
      CopyChar(s, rules, k);
      BringsSame(s, rules, k, n);
      HoldsBehind(s, n);
      StillNone(s, rules, k);
      HoldsBehind(Simultaneous(s, rules, k), n);
      assert Simultaneous(s, rules, k)[1..] == Simultaneous(s[1..], rules, k);
    }
  }
}
