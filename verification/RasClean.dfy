/** Exactly which events have clean values written. */
module RasClean {
  import opened Text
  import opened Rewriting
  import opened ServiceText
  import opened Attributes
  import opened Gaps
  import opened RasEvents

  lemma CleanJoined(a: string, b: string)
    requires Clean(a) && Clean(b) && (a == "" || b == "" || a[|a| - 1] != '/' || b[0] != '>')
    ensures Clean(a + b)
  {
    EndJoined(a, b);
  }

  lemma CleanTail(s: string)
    requires Clean(s) && s != ""
    ensures Clean(s[1..]) && (|s| > 1 && s[0] == '/' ==> s[1] != '>')
  {
    HoldsTail(s, END);
    if |s| > 1 {
      EndAt(s, 0);
      assert !At(s, END, 0);
    }
  }

  lemma CleanRest(s: string, n: nat)
    requires Clean(s) && n <= |s|
    ensures Clean(s[n..])
  {
    forall i
      ensures !At(s[n..], END, i)
    {
      if 0 <= i <= |s| - n {
        assert s[n..][i..] == s[n + i..];
        assert !At(s, END, n + i);
      }
    }
  }

  /** A text that is clean and forms no `/>` with its surroundings. */
  ghost predicate Neutral(t: string) {
    Clean(t) && t != "" && t[0] != '>' && t[|t| - 1] != '/'
  }

  lemma {:induction false} ReplaceClean(s: string, r: Rule)
    requires Clean(s) && Neutral(r.text)
    ensures Clean(Replace(s, r))
    ensures Replace(s, r) != "" && Replace(s, r)[0] == '>' ==> s != "" && s[0] == '>'
  {
    if r.name <= s {
      CleanRest(s, |r.name|);
      ReplaceClean(s[|r.name|..], r);
      CleanJoined(r.text, Replace(s[|r.name|..], r));
    } else if s != "" {
      CleanTail(s);
      ReplaceClean(s[1..], r);
      NoSlashOne(s[0]);
      CleanJoined([s[0]], Replace(s[1..], r));
    }
  }

  lemma NoSlashOne(c: char)
    requires Allowed(c)
    ensures Clean([c])
  {
    assert forall i | 0 <= i <= 1 :: |[c][i..]| <= 1;
  }

  lemma {:induction false} SequentialClean(s: string, rules: seq<Rule>, k: nat)
    requires k <= |rules| && Clean(s) && forall i | 0 <= i < k :: Neutral(rules[i].text)
    ensures Clean(Sequential(s, rules, k))
  {
    if k > 0 {
      SequentialClean(s, rules, k - 1);
      ReplaceClean(Sequential(s, rules, k - 1), rules[k - 1]);
    }
  }

  lemma TameClean(t: string)
    requires forall i | 0 <= i < |t| :: Tame(t[i])
    ensures Clean(t)
  {
    NoSlash(t);
  }

  lemma PlainNeutral(t: string)
    requires Plain(t)
    ensures Neutral(t)
  {
    TameClean(t);
    assert Tame(t[0]);
  }

  lemma DiagnosticsNeutral(diags: string)
    requires Clean(diags)
    ensures Neutral(DiagnosticsText(diags))
  {
    var run, buckets := "Run diagnostics. ", BucketsText();
    TameClean(run);
    if diags == "" {
      assert DiagnosticsText(diags) == run;
    } else {
      TameClean(". ");
      CleanJoined(diags, ". ");
      BucketsClean();
      CleanJoined(buckets, diags + ". ");
      CleanJoined(run, buckets + (diags + ". "));
    }
  }

  lemma BucketsClean()
    ensures Clean(BucketsText()) && BucketsText() != "" && BucketsText()[|BucketsText()| - 1] == ' '
    ensures '/' !in BucketsText()
  {
    var a, b := "The relevant diagnostic bucket(s) ", "to run are: ";
    assert forall i | 0 <= i < |a| :: Allowed(a[i]) && a[i] != '/';
    assert forall i | 0 <= i < |b| :: Allowed(b[i]) && b[i] != '/';
    NoSlash(a + b);
  }

  lemma PeriodClean(period: string)
    requires Clean(period)
    ensures Clean(PeriodText(period)) && PeriodText(period)[|PeriodText(period)| - 1] == ' '
    ensures PeriodText(period)[0] != '>'
  {
    TameClean(". ");
    if period != "" {
      var a, c := " in a period of ", " or less. ";
      TameClean(a);
      TameClean(c);
      CleanJoined(period, c);
      CleanJoined(a, period + c);
    }
  }

  lemma ThresholdNeutral(count: string, period: string)
    requires Clean(count) && Clean(period) && count != ""
    ensures Neutral(ThresholdText(count, period))
  {
    var p, errors := PeriodText(period), " or more errors";
    PeriodClean(period);
    TameClean(errors);
    CleanJoined(errors, p);
    CleanJoined(count, errors + p);
    PolicyPlain();
    TameClean(PolicyText());
    CleanJoined(PolicyText(), count + (errors + p));
    assert Tame(PolicyText()[0]);
  }

  lemma RulesNeutral(x: Supply)
    requires Clean(x.diags) && Clean(x.count) && Clean(x.period)
    ensures forall i | 0 <= i < 6 :: Neutral(Rules(x)[i].text)
    ensures x.count != "" ==> Neutral(Rules(x)[6].text)
  {
    hide Plain, Neutral, Clean, LevelsText, EnvText, FacilitiesText, ConnectionsText, NoServiceText, DiagnosticsText,
         ThresholdText;
    LevelsPlain();
    EnvPlain();
    FacilitiesPlain();
    ConnectionsPlain();
    NoServicePlain();
    PlainNeutral(LevelsText());
    PlainNeutral(EnvText());
    PlainNeutral(FacilitiesText());
    PlainNeutral(ConnectionsText());
    PlainNeutral(NoServiceText());
    DiagnosticsNeutral(x.diags);
    if x.count != "" {
      ThresholdNeutral(x.count, x.period);
    }
  }

  // ----- what replacing does to special characters -----

  /** A name that brings in nothing special. */
  ghost predicate PlainName(n: string) {
    n != "" && forall i | 0 <= i < |n| :: Allowed(n[i]) && n[i] != '/' && n[i] != '>'
  }

  lemma PlainNameClean(n: string)
    requires PlainName(n)
    ensures Clean(n)
  {
    NoSlash(n);
  }

  /** Replacing a variable removes nothing special. */
  lemma {:induction false} CleanBack(s: string, r: Rule)
    requires PlainName(r.name) && Clean(Replace(s, r))
    ensures Clean(s)
  {
    if r.name <= s {
      var rest, done := s[|r.name|..], Replace(s[|r.name|..], r);
      CleanRest(r.text + done, |r.text|);
      assert (r.text + done)[|r.text|..] == done;
      CleanBack(rest, r);
      PlainNameClean(r.name);
      CleanJoined(r.name, rest);
      assert s == r.name + rest;
    } else if s != "" {
      var c, rest, done := s[0], s[1..], Replace(s[1..], r);
      CleanTail([c] + done);
      assert ([c] + done)[0] == c && ([c] + done)[1..] == done;
      CleanBack(rest, r);
      NoSlashOne(c);
      FirstStays(rest, r);
      CleanJoined([c], rest);
      assert s == [c] + rest;
    }
  }

  lemma FirstStays(s: string, r: Rule)
    requires PlainName(r.name)
    ensures s != "" && s[0] == '>' ==> Replace(s, r) != "" && Replace(s, r)[0] == '>'
  {
    assert Allowed(r.name[0]) && r.name[0] != '>';
  }

  lemma {:induction false} SequentialBack(s: string, rules: seq<Rule>, k: nat)
    requires k <= |rules| && (forall i | 0 <= i < k :: PlainName(rules[i].name)) && Clean(Sequential(s, rules, k))
    ensures Clean(s)
  {
    if k > 0 {
      CleanBack(Sequential(s, rules, k - 1), rules[k - 1]);
      SequentialBack(s, rules, k - 1);
    }
  }

  lemma {:induction false} RemovalAllowed(t: string, r: Rule)
    requires r.text == "" && forall i | 0 <= i < |t| :: Allowed(t[i])
    ensures forall i | 0 <= i < |Replace(t, r)| :: Allowed(Replace(t, r)[i])
  {
    if r.name <= t {
      assert "" + Replace(t[|r.name|..], r) == Replace(t[|r.name|..], r);
      RemovalAllowed(t[|r.name|..], r);
    } else if t != "" {
      RemovalAllowed(t[1..], r);
    }
  }

  // ----- the seven rules -----

  lemma NoGap(t: string, n: string)
    requires n != "" && '/' !in t
    ensures !Gapped(t, n)
  {
    GappedBehind(t, "", n);
    assert t + "" == t;
  }

  lemma DiagnosticsGap(diags: string, n: string)
    requires IsVariable(n)
    ensures Gapped(DiagnosticsText(diags), n) <==> Gapped(diags, n)
  {
    var run, buckets := "Run diagnostics. ", BucketsText();
    NoGap(run, n);
    if diags == "" {
      assert DiagnosticsText(diags) == run;
    } else {
      NoGap(". ", n);
      GappedJoined(diags, ". ", n);
      BucketsClean();
      NoGap(buckets, n);
      GappedJoined(buckets, diags + ". ", n);
      GappedJoined(run, buckets + (diags + ". "), n);
    }
  }

  lemma NamePlain(w: string)
    requires Letters(w)
    ensures PlainName(Name(w))
  {
    var n := Name(w);
    forall i | 0 <= i < |n|
      ensures Allowed(n[i]) && n[i] != '/' && n[i] != '>'
    {
      if 2 <= i < |n| - 1 {
        assert n[i] == w[i - 2];
      }
    }
  }

  lemma NamesPlain(x: Supply, i: nat)
    requires i < 7
    ensures PlainName(Rules(x)[i].name)
  {
    RuleNames(x, i);
    WordLetters(i);
    NamePlain(Words()[i]);
  }

  /** What is needed of the seven rules, given that the event's own values are clean. */
  ghost predicate Ready(count: string, diags: string, rules: seq<Rule>) {
    && |rules| == 7 && Variables(rules) && InertBefore(rules, 6)
    && (forall i | 0 <= i < 7 :: PlainName(rules[i].name))
    && (forall i | 0 <= i < 6 :: Closed(rules[i].text) && Neutral(rules[i].text))
    && (forall i | 0 <= i < 5 :: !Gapped(rules[i].text, rules[6].name))
    && (Gapped(rules[5].text, rules[6].name) <==> Gapped(diags, rules[6].name))
    && if count != "" then Neutral(rules[6].text) else rules[6].text == ""
  }

  lemma FixedNoGap(i: nat, n: string)
    requires i < 5 && n != ""
    ensures !Gapped(FixedRules()[i].text, n)
  {
    LevelsPlain();
    EnvPlain();
    FacilitiesPlain();
    ConnectionsPlain();
    NoServicePlain();
    PlainNoGap(FixedRules()[i].text, n);
  }

  lemma PlainNoGap(t: string, n: string)
    requires Plain(t) && n != ""
    ensures !Gapped(t, n)
  {
    NoGap(t, n);
  }

  lemma RulesShape(x: Supply)
    ensures |Rules(x)| == 7 && forall i | 0 <= i < 5 :: Rules(x)[i].text == FixedRules()[i].text
    ensures Rules(x)[5].text == DiagnosticsText(x.diags) && (x.count == "" ==> Rules(x)[6].text == "")
  {
  }

  lemma RulesReady(x: Supply)
    requires Clean(x.diags) && Clean(x.count) && Clean(x.period)
    ensures Ready(x.count, x.diags, Rules(x))
  {
    var rules := Rules(x);
    RulesShape(x);
    hide Rules, FixedRules, Clean, Gapped, Neutral, PlainName, DiagnosticsText;
    RulesDescribed(x);
    RulesNeutral(x);
    forall i | 0 <= i < 7
      ensures PlainName(rules[i].name)
    {
      NamesPlain(x, i);
    }
    forall i | 0 <= i < 5
      ensures !Gapped(rules[i].text, rules[6].name)
    {
      FixedNoGap(i, rules[6].name);
    }
    DiagnosticsGap(x.diags, rules[6].name);
  }

  // ----- exactly when the action is written clean -----

  /** Without a count: the action, or the diagnostics it brings in, has a gap for `/>` to close up in. */
  ghost predicate GapIn(action: string, count: string, diags: string, rules: seq<Rule>)
    requires |rules| == 7
  {
    count == "" &&
    (Gapped(action, rules[6].name) || (Holds(action, rules[5].name) && Gapped(diags, rules[6].name)))
  }

  lemma BroughtGap(s: string, count: string, diags: string, rules: seq<Rule>)
    requires Ready(count, diags, rules)
    ensures BringsGap(s, rules, 6, rules[6].name) <==> Holds(s, rules[5].name) && Gapped(diags, rules[6].name)
  {
    assert Holds(s, rules[5].name) && Gapped(rules[5].text, rules[6].name) ==> BringsGap(s, rules, 6, rules[6].name);
  }

  /** Before the threshold's turn. */
  lemma GapBeforeLast(s: string, count: string, diags: string, rules: seq<Rule>)
    requires Ready(count, diags, rules)
    ensures Gapped(Sequential(s, rules, 6), rules[6].name)
       <==> Gapped(s, rules[6].name) || (Holds(s, rules[5].name) && Gapped(diags, rules[6].name))
  {
    SequentialIsSimultaneous(s, rules, 6);
    GappedAfter(s, rules, 6, rules[6].name);
    BroughtGap(s, count, diags, rules);
  }

  lemma ActionExact(s: string, count: string, diags: string, rules: seq<Rule>)
    requires Ready(count, diags, rules)
    ensures Clean(Sequential(s, rules, 7)) <==> Clean(s) && !GapIn(s, count, diags, rules)
  {
    if Clean(Sequential(s, rules, 7)) {
      SequentialBack(s, rules, 7);
    }
    if Clean(s) {
      var t, r := Sequential(s, rules, 6), rules[6];
      SequentialClean(s, rules, 6);
      if count != "" {
        ReplaceClean(t, r);
      } else {
        GapBeforeLast(s, count, diags, rules);
        EndClosesUp(t, r);
        RemovalAllowed(t, r);
      }
    }
  }

  /** The action that shows what an empty count can do. */
  function Opened(n: string): string {
    "/" + (n + ">")
  }

  lemma OpenedGap(n: string)
    requires IsVariable(n) && PlainName(n)
    ensures Clean(Opened(n)) && Gapped(Opened(n), n)
  {
    NoSlashOne('/');
    NoSlashOne('>');
    PlainNameClean(n);
    CleanJoined(n, ">");
    CleanJoined("/", n + ">");
    ClosesSkip(n, ">");
    GappedChar('/', n + ">", n);
  }

  /** Expansion keeps every clean action clean exactly when there is a count. */
  lemma ExpansionClean(x: Supply)
    requires Clean(x.diags) && Clean(x.count) && Clean(x.period)
    ensures (forall s | Clean(s) :: Clean(Sequential(s, Rules(x), 7))) <==> x.count != ""
  {
    RulesReady(x);
    CleanExactly(x.count, x.diags, Rules(x));
  }

  lemma CleanExactly(count: string, diags: string, rules: seq<Rule>)
    requires Ready(count, diags, rules)
    ensures (forall s | Clean(s) :: Clean(Sequential(s, rules, 7))) <==> count != ""
  {
    if count != "" {
      forall s | Clean(s)
        ensures Clean(Sequential(s, rules, 7))
      {
        ActionExact(s, count, diags, rules);
      }
    } else {
      var o := Opened(rules[6].name);
      OpenedGap(rules[6].name);
      ActionExact(o, count, diags, rules);
      assert Clean(o) && !Clean(Sequential(o, rules, 7));
    }
  }

  lemma TextStarts(x: Supply, i: nat)
    requires i < 6
    ensures Rules(x)[i].text != "" && Rules(x)[i].text[0] != '>'
  {
    LevelsPlain();
    EnvPlain();
    FacilitiesPlain();
    ConnectionsPlain();
    NoServicePlain();
    if i < 5 {
      assert Tame(FixedRules()[i].text[0]);
    } else {
      assert DiagnosticsText(x.diags)[0] == 'R';
    }
  }

  /** The threshold variable stands in the action when its turn comes exactly if it stood there from the start or the
      diagnostics bring it in. */
  lemma AsksThreshold(action: string, x: Supply)
    ensures var rules := Rules(x);
            Holds(Sequential(action, rules, 6), rules[6].name)
            <==> Holds(action, rules[6].name) || (Holds(action, rules[5].name) && Holds(x.diags, rules[6].name))
  {
    RulesDescribed(x);
    forall i | 0 <= i < 6
      ensures Rules(x)[i].text[0] != '>' && '/' !in Rules(x)[i].name
    {
      TextStarts(x, i);
      NamesPlain(x, i);
    }
    AsksOf(action, x, Rules(x));
  }

  lemma AsksOf(action: string, x: Supply, rules: seq<Rule>)
    requires Described(x, rules) && Plainly(rules, 6)
    ensures Holds(Sequential(action, rules, 6), rules[6].name)
       <==> Holds(action, rules[6].name) || (Holds(action, rules[5].name) && Holds(x.diags, rules[6].name))
  {
    var n := rules[6].name;
    SequentialIsSimultaneous(action, rules, 6);
    HoldsAfter(action, rules, 6, n);
    assert Holds(action, rules[5].name) && Holds(rules[5].text, n) ==> Brings(action, rules, 6, n);
  }

  // ----- the event -----

  /** The event's values are clean, its id in upper case, and `/>` does not close up in its service action. */
  ghost predicate CleanInput(e: Details) {
    && Clean(Upper(Get(e, "id")))
    && (forall n | n in Names() && n != "id" :: Clean(Get(e, n)))
    && !GapIn(Get(e, "service_action"), Get(e, "threshold_count"), Get(e, "relevant_diags"), Rules(SupplyOf(e)))
  }

  lemma ActionWritten(e: Details)
    requires Clean(Get(e, "threshold_count")) && Clean(Get(e, "threshold_period")) && Clean(Get(e, "relevant_diags"))
    ensures Clean(Written(e, "service_action")) <==>
            Clean(Get(e, "service_action"))
            && !GapIn(Get(e, "service_action"), Get(e, "threshold_count"), Get(e, "relevant_diags"), Rules(SupplyOf(e)))
  {
    var x := SupplyOf(e);
    hide Clean, Rules, GapIn, Ready, Get;
    RulesReady(x);
    ActionExact(Get(e, "service_action"), x.count, x.diags, Rules(x));
  }

  lemma Supplied()
    ensures "threshold_count" in Names() && "threshold_period" in Names() && "relevant_diags" in Names()
    ensures "id" in Names() && "service_action" in Names()
  {
  }

  /** Exactly these events are written clean. */
  lemma CleanExact(e: Details)
    ensures CleanEvent(e) <==> CleanInput(e)
  {
    if CleanEvent(e) {
      CleanRead(e);
    }
    if CleanInput(e) {
      CleanWritten(e);
    }
  }

  lemma WrittenAs(e: Details, n: string)
    ensures n == "id" ==> Written(e, n) == Upper(Get(e, n))
    ensures n != "id" && n != "service_action" ==> Written(e, n) == Get(e, n)
  {
  }

  lemma CleanRead(e: Details)
    requires CleanEvent(e)
    ensures CleanInput(e)
  {
    hide Written, Clean, Names, GapIn, Rules, Get;
    Supplied();
    forall n | n in Names()
      ensures Clean(Written(e, n))
      ensures n != "id" && n != "service_action" ==> Clean(Get(e, n))
    {
      WrittenAs(e, n);
    }
    WrittenAs(e, "id");
    assert Clean(Written(e, "service_action"));
    ActionWritten(e);
  }

  lemma CleanWritten(e: Details)
    requires CleanInput(e)
    ensures CleanEvent(e)
  {
    hide Written, Clean, Names, GapIn, Rules, Get;
    Supplied();
    ActionWritten(e);
    forall n | n in Names()
      ensures Clean(Written(e, n))
    {
      WrittenAs(e, n);
    }
  }
}
