/** Expansion of the seven variables of a service action. */
module ServiceText {
  import opened Text
  import opened Rewriting

  /** What the event supplies to the texts. */
  datatype Supply = Supply(count: string, period: string, diags: string)

  function LevelsText(): string {
    ("This condition may have been caused by " + "a software error. Check the ") +
    ("software levels and make sure the " + "system fix level is up to date. ")
  }

  function EnvText(): string {
    "Check the environmental " + "monitor data. "
  }

  function FacilitiesText(): string {
    "Check the system facilities such as " + "circuit breakers, air handlers, " + "and air cooling syistems. "
  }

  function ConnectionsText(): string {
    "Check the cables and connections " + "that run external to the system."
  }

  function NoServiceText(): string {
    "A service action is not " + "required for this event."
  }

  function BucketsText(): string {
    "The relevant diagnostic bucket(s) " + "to run are: "
  }

  function PolicyText(): string {
    "The part at this location has " + "threshold count policy of "
  }

  function DiagnosticsText(diags: string): string {
    "Run diagnostics. " + if diags == "" then "" else BucketsText() + (diags + ". ")
  }

  function PeriodText(period: string): string {
    if period == "" then ". " else " in a period of " + (period + " or less. ")
  }

  function ThresholdText(count: string, period: string): string {
    if count == "" then "" else PolicyText() + (count + (" or more errors" + PeriodText(period)))
  }

  /** How a variable is written. */
  function Name(word: string): (n: string)
    ensures n != ""
  {
    "$(" + (word + ")")
  }

  /** The variables whose text does not depend on the event, in the order in which they are replaced. */
  function FixedRules(): (rules: seq<Rule>)
    ensures |rules| == 5
  {
    [ Rule(Name("CheckLevels"), LevelsText()),
      Rule(Name("CheckEnvironmentals"), EnvText()),
      Rule(Name("CheckFacilities"), FacilitiesText()),
      Rule(Name("CheckConnections"), ConnectionsText()),
      Rule(Name("NoService"), NoServiceText()) ]
  }

  /** The seven variables and their texts. */
  function Rules(x: Supply): (rules: seq<Rule>)
    ensures |rules| == 7
  {
    FixedRules() + [ Rule(Name("Diagnostics"), DiagnosticsText(x.diags)),
                     Rule(Name("ThresholdPolicy"), ThresholdText(x.count, x.period)) ]
  }

  // ----- the shape of variables and texts -----

  predicate Tame(c: char) {
    'a' <= c <= 'z' || 'A' <= c <= 'Z' || c == ' ' || c == '.' || c == ','
  }

  /** A piece of fixed text: no special characters, and a break at its end. */
  ghost predicate Plain(t: string) {
    t != "" && Break(t[|t| - 1]) && forall i | 0 <= i < |t| :: Tame(t[i])
  }

  lemma PlainJoined(a: string, b: string)
    requires Plain(a) && Plain(b)
    ensures Plain(a + b)
  {
  }

  lemma NoDollar(t: string, n: string)
    requires (forall i | 0 <= i < |t| :: t[i] != '$') && IsVariable(n)
    ensures !Holds(t, n)
  {
    forall i
      ensures !At(t, n, i)
    {
      if 0 <= i < |t| {
        assert t[i..][0] == t[i];
      }
    }
  }

  lemma ClosedAppend(a: string, b: string)
    requires Plain(a) && (b == "" || Break(b[|b| - 1]))
    ensures Closed(a + b)
  {
    assert Break((a + b)[|a| - 1]);
  }

  lemma LevelsFirst()
    ensures Plain("This condition may have been caused by " + "a software error. Check the ")
  {
    PlainJoined("This condition may have been caused by ", "a software error. Check the ");
  }

  lemma LevelsSecond()
    ensures Plain("software levels and make sure the " + "system fix level is up to date. ")
  {
    PlainJoined("software levels and make sure the ", "system fix level is up to date. ");
  }

  lemma LevelsPlain()
    ensures Plain(LevelsText())
  {
    LevelsFirst();
    LevelsSecond();
    PlainJoined("This condition may have been caused by " + "a software error. Check the ",
                "software levels and make sure the " + "system fix level is up to date. ");
  }

  lemma FacilitiesPlain()
    ensures Plain(FacilitiesText())
  {
    var a, b, c := "Check the system facilities such as ", "circuit breakers, air handlers, ",
                   "and air cooling syistems. ";
    assert Plain(a);
    assert Plain(b);
    assert Plain(c);
    PlainJoined(a, b);
    PlainJoined(a + b, c);
  }

  lemma EnvPlain()
    ensures Plain(EnvText())
  {
    PlainJoined("Check the environmental ", "monitor data. ");
  }

  lemma ConnectionsPlain()
    ensures Plain(ConnectionsText())
  {
    PlainJoined("Check the cables and connections ", "that run external to the system.");
  }

  lemma NoServicePlain()
    ensures Plain(NoServiceText())
  {
    PlainJoined("A service action is not ", "required for this event.");
  }

  lemma PolicyPlain()
    ensures Plain(PolicyText())
  {
    PlainJoined("The part at this location has ", "threshold count policy of ");
  }

  lemma HoldsAround(a: string, mid: string, c: string, n: string)
    requires IsVariable(n) && a != "" && Break(a[|a| - 1]) && c != "" && Break(c[0])
    requires !Holds(a, n)
    ensures Holds(a + (mid + c), n) <==> Holds(mid, n) || Holds(c, n)
  {
    if Holds(a + (mid + c), n) {
      HoldsJoined(a, mid + c, n);
      HoldsJoined(mid, c, n);
    }
    if Holds(mid, n) {
      HoldsLeft(mid, c, n);
      HoldsRight(a, mid + c, n);
    }
    if Holds(c, n) {
      HoldsRight(mid, c, n);
      HoldsRight(a, mid + c, n);
    }
  }

  lemma NotInEmpty(n: string)
    requires n != ""
    ensures !Holds("", n)
  {
  }

  lemma DiagnosticsOccurs(diags: string, n: string)
    requires IsVariable(n)
    ensures Holds(DiagnosticsText(diags), n) <==> Holds(diags, n)
  {
    var run, buckets := "Run diagnostics. ", BucketsText();
    NoDollar(run, n);
    NotInEmpty(n);
    if diags == "" {
      assert DiagnosticsText(diags) == run;
    } else {
      assert buckets == "The relevant diagnostic bucket(s) " + "to run are: ";
      NoDollar(buckets, n);
      NoDollar(". ", n);
      HoldsAround(buckets, diags, ". ", n);
      var rest := buckets + (diags + ". ");
      if Holds(rest, n) {
        HoldsRight(run, rest, n);
      } else if Holds(run + rest, n) {
        HoldsJoined(run, rest, n);
      }
    }
  }

  lemma PeriodOccurs(period: string, n: string)
    requires IsVariable(n)
    ensures Holds(PeriodText(period), n) <==> Holds(period, n)
    ensures Break(PeriodText(period)[0])
  {
    NotInEmpty(n);
    if period == "" {
      NoDollar(". ", n);
    } else {
      NoDollar(" in a period of ", n);
      NoDollar(" or less. ", n);
      HoldsAround(" in a period of ", period, " or less. ", n);
    }
  }

  lemma ThresholdOccurs(count: string, period: string, n: string)
    requires IsVariable(n) && count != ""
    ensures Holds(ThresholdText(count, period), n) <==> Holds(count, n) || Holds(period, n)
  {
    var errors, rest := " or more errors", PeriodText(period);
    PeriodOccurs(period, n);
    NoDollar(errors, n);
    if Holds(rest, n) {
      HoldsRight(errors, rest, n);
    } else if Holds(errors + rest, n) {
      HoldsJoined(errors, rest, n);
    }
    PolicyPlain();
    NoDollar(PolicyText(), n);
    HoldsAround(PolicyText(), count, errors + rest, n);
  }

  lemma DiagnosticsClosed(diags: string)
    ensures Closed(DiagnosticsText(diags))
  {
    var run := "Run diagnostics. ";
    var rest := if diags == "" then "" else BucketsText() + (diags + ". ");
    assert rest == "" || rest[|rest| - 1] == ' ';
    ClosedAppend(run, rest);
  }

  lemma ThresholdClosed(count: string, period: string)
    requires count != ""
    ensures Closed(ThresholdText(count, period)) && ThresholdText(count, period)[0] == 'T'
  {
    var rest := PeriodText(period);
    assert rest[|rest| - 1] == ' ';
    PolicyPlain();
    ClosedAppend(PolicyText(), count + (" or more errors" + rest));
    assert PolicyText()[0] == 'T';
  }

  ghost predicate Letters(w: string) {
    w != "" && forall i | 0 <= i < |w| :: 'A' <= w[i] <= 'z'
  }

  lemma NameVariable(w: string)
    requires Letters(w)
    ensures IsVariable(Name(w))
  {
    var n := Name(w);
    forall i | 0 <= i < |n|
      ensures !Break(n[i]) && (n[i] == '$' ==> i == 0) && (n[i] == ')' ==> i == |n| - 1)
    {
      if 2 <= i < |n| - 1 {
        assert n[i] == w[i - 2];
      }
    }
  }

  lemma NamesDiffer(a: string, b: string)
    requires a != "" && b != "" && (|a| != |b| || a[0] != b[0])
    ensures Name(a) != Name(b)
  {
    assert Name(a)[2] == a[0] && Name(b)[2] == b[0];
  }

  function Words(): seq<string> {
    ["CheckLevels", "CheckEnvironmentals", "CheckFacilities", "CheckConnections", "NoService", "Diagnostics",
     "ThresholdPolicy"]
  }

  lemma WordLetters(i: nat)
    requires i < 7
    ensures Letters(Words()[i])
  {
  }

  lemma WordsDiffer(i: nat, j: nat)
    requires i < j < 7
    ensures Words()[i] != "" && Words()[j] != ""
    ensures |Words()[i]| != |Words()[j]| || Words()[i][0] != Words()[j][0]
  {
  }

  lemma RuleNames(x: Supply, i: nat)
    requires i < 7
    ensures Rules(x)[i].name == Name(Words()[i])
  {
  }

  lemma NamesVariables(x: Supply)
    ensures Variables(Rules(x))
  {
    var rules := Rules(x);
    forall i | 0 <= i < 7
      ensures IsVariable(rules[i].name)
    {
      RuleNames(x, i);
      WordLetters(i);
      NameVariable(Words()[i]);
    }
    forall i, j | 0 <= i < j < 7
      ensures rules[i].name != rules[j].name
    {
      RuleNames(x, i);
      RuleNames(x, j);
      WordsDiffer(i, j);
      NamesDiffer(Words()[i], Words()[j]);
    }
  }

  /** What the proofs need to know of the seven rules. */
  ghost predicate Described(x: Supply, rules: seq<Rule>) {
    && |rules| == 7 && Variables(rules)
    && (forall i | 0 <= i < 6 :: Closed(rules[i].text))
    && (forall i, n | 0 <= i < 5 && IsVariable(n) :: !Holds(rules[i].text, n))
    && (forall n | IsVariable(n) :: Holds(rules[5].text, n) <==> Holds(x.diags, n))
    && DescribedLast(x, rules[6].text)
  }

  ghost predicate DescribedLast(x: Supply, text: string) {
    if x.count == "" then text == ""
    else
      && Closed(text) && text[0] == 'T'
      && forall n | IsVariable(n) :: Holds(text, n) <==> Holds(x.count, n) || Holds(x.period, n)
  }

  lemma FixedText(t: string)
    requires Plain(t)
    ensures Closed(t) && forall n | IsVariable(n) :: !Holds(t, n)
  {
    ClosedAppend(t, "");
    assert t + "" == t;
    forall n | IsVariable(n)
      ensures !Holds(t, n)
    {
      NoDollar(t, n);
    }
  }

  lemma RulesDescribed(x: Supply)
    ensures Described(x, Rules(x))
  {
    NamesVariables(x);
    FixedDescribed();
    DiagnosticsClosed(x.diags);
    forall n | IsVariable(n)
      ensures Holds(DiagnosticsText(x.diags), n) <==> Holds(x.diags, n)
    {
      DiagnosticsOccurs(x.diags, n);
    }
    LastDescribed(x);
  }

  lemma FixedDescribed()
    ensures forall i | 0 <= i < 5 :: Closed(FixedRules()[i].text)
    ensures forall i, n | 0 <= i < 5 && IsVariable(n) :: !Holds(FixedRules()[i].text, n)
  {
    FixedTexts();
    forall i | 0 <= i < 5
      ensures Closed(FixedRules()[i].text) && forall n | IsVariable(n) :: !Holds(FixedRules()[i].text, n)
    {
      assert FixedRules()[i].text in [LevelsText(), EnvText(), FacilitiesText(), ConnectionsText(), NoServiceText()];
    }
  }

  lemma FixedTexts()
    ensures forall t | t in [LevelsText(), EnvText(), FacilitiesText(), ConnectionsText(), NoServiceText()] ::
              Closed(t) && forall n | IsVariable(n) :: !Holds(t, n)
  {
    LevelsPlain();
    EnvPlain();
    FacilitiesPlain();
    ConnectionsPlain();
    NoServicePlain();
    FixedText(LevelsText());
    FixedText(EnvText());
    FixedText(FacilitiesText());
    FixedText(ConnectionsText());
    FixedText(NoServiceText());
  }

  lemma LastDescribed(x: Supply)
    ensures DescribedLast(x, ThresholdText(x.count, x.period))
  {
    if x.count != "" {
      ThresholdClosed(x.count, x.period);
      forall n | IsVariable(n)
        ensures Holds(ThresholdText(x.count, x.period), n) <==> Holds(x.count, n) || Holds(x.period, n)
      {
        ThresholdOccurs(x.count, x.period, n);
      }
    }
  }

  // ----- what the expansion promises, and exactly when it keeps it -----

  /** The expansion of s is the simultaneous one, leaves no variable, and expanding again changes nothing. */
  ghost predicate Kept(s: string, rules: seq<Rule>) {
    var t := Sequential(s, rules, |rules|);
    && t == Simultaneous(s, rules, |rules|)
    && NoneLeft(t, rules)
    && Sequential(t, rules, |rules|) == t
  }

  /** A count is given, and neither it nor the period nor the diagnostics holds a variable. */
  ghost predicate Clear(x: Supply, rules: seq<Rule>) {
    x.count != "" && NoneLeft(x.diags, rules) && NoneLeft(x.count, rules) && NoneLeft(x.period, rules)
  }

  /** A variable alone becomes its text. */
  lemma AloneExpands(rules: seq<Rule>, k: nat, i: nat)
    requires i < k <= |rules| && Variables(rules)
    ensures Simultaneous(rules[i].name, rules, k) == rules[i].text
  {
    var n := rules[i].name;
    var j := Match(n, rules, k);
    if j < k {
      PrefixFree(n, rules[j].name, n);
    }
    assert n[|n|..] == "";
    assert rules[i].text + "" == rules[i].text;
  }

  lemma ClearKept(s: string, x: Supply, rules: seq<Rule>)
    requires Described(x, rules) && Clear(x, rules)
    ensures Kept(s, rules)
  {
    forall j | 0 <= j < 7
      ensures Closed(rules[j].text) && NoneLeft(rules[j].text, rules)
    {
    }
    SequentialIsSimultaneous(s, rules, 7);
    NoneRemains(s, rules);
    SequentialNothing(Sequential(s, rules, 7), rules, 7);
  }

  /** One pass equals seven exactly when the diagnostics do not bring in the variable replaced after them. */
  lemma OrderMatters(x: Supply, rules: seq<Rule>)
    requires Described(x, rules)
    ensures (forall s :: Sequential(s, rules, 7) == Simultaneous(s, rules, 7)) <==> !Holds(x.diags, rules[6].name)
  {
    if Holds(x.diags, rules[6].name) {
      var s := rules[5].name;
      SequentialIsSimultaneous(s, rules, 6);
      AloneExpands(rules, 6, 5);
      AloneExpands(rules, 7, 5);
      ReplaceShows(rules[5].text, rules[6]);
      assert Sequential(s, rules, 7) != Simultaneous(s, rules, 7);
    } else {
      forall s
        ensures Sequential(s, rules, 7) == Simultaneous(s, rules, 7)
      {
        SequentialIsSimultaneous(s, rules, 7);
      }
    }
  }

  lemma TwoDollars(u: string, rules: seq<Rule>)
    requires |rules| == 7 && Variables(rules) && u != "" && u[0] == '$'
    ensures Match("$" + u, rules, 7) == 7
  {
    var s := "$" + u;
    assert s[1] == '$';
    forall j | 0 <= j < 7
      ensures !(rules[j].name <= s)
    {
      assert rules[j].name[1] != '$';
    }
  }

  /** Without a count the threshold variable vanishes, and what stands around it closes up. */
  lemma Spliced(tail: string, rules: seq<Rule>)
    requires |rules| == 7 && Variables(rules) && rules[6].text == ""
    requires forall i | 0 <= i < |tail| :: tail[i] != '$'
    ensures Simultaneous("$" + (rules[6].name + tail), rules, 7) == "$" + tail
  {
    var u := rules[6].name + tail;
    TwoDollars(u, rules);
    LaterCopied("$", u, rules, 7);
    TakenFirst(tail, rules);
    AllCopied(tail, rules);
  }

  lemma AllCopied(w: string, rules: seq<Rule>)
    requires |rules| == 7 && Variables(rules) && forall i | 0 <= i < |w| :: w[i] != '$'
    ensures Simultaneous(w, rules, 7) == w
  {
    Copied(w, "", rules, 7);
    assert w + "" == w;
  }

  lemma TakenFirst(tail: string, rules: seq<Rule>)
    requires |rules| == 7 && Variables(rules) && rules[6].text == ""
    ensures Simultaneous(rules[6].name + tail, rules, 7) == Simultaneous(tail, rules, 7)
  {
    var u := rules[6].name + tail;
    var i := Match(u, rules, 7);
    if i < 7 {
      PrefixFree(u, rules[i].name, rules[6].name);
    }
    assert u[|rules[6].name|..] == tail;
    assert "" + Simultaneous(tail, rules, 7) == Simultaneous(tail, rules, 7);
  }

  lemma OnlyWhenClear(x: Supply, rules: seq<Rule>)
    requires Described(x, rules) && !Clear(x, rules)
    ensures exists s :: !Kept(s, rules)
  {
    OrderMatters(x, rules);
    if !Holds(x.diags, rules[6].name) {
      if x.count == "" {
        var tail := rules[0].name[1..];
        var s := "$" + (rules[6].name + tail);
        Spliced(tail, rules);
        assert "$" + tail == rules[0].name;
        assert At(rules[0].name, rules[0].name, 0);
        assert !Kept(s, rules);
      } else {
        AloneExpands(rules, 7, 5);
        AloneExpands(rules, 7, 6);
        assert !Kept(rules[5].name, rules) || !Kept(rules[6].name, rules);
      }
    } else {
      var s :| Sequential(s, rules, 7) != Simultaneous(s, rules, 7);
      assert !Kept(s, rules);
    }
  }

  /**
   * Expanding one variable after another equals one simultaneous pass, leaves no variable and is
   * idempotent for every service action exactly when a threshold count is given and no variable
   * occurs in the count, the period or the diagnostics.
   */
  lemma ExpansionExact(x: Supply)
    ensures (forall s :: Kept(s, Rules(x))) <==> Clear(x, Rules(x))
  {
    var rules := Rules(x);
    RulesDescribed(x);
    ExactFor(x, rules);
  }

  lemma ExactFor(x: Supply, rules: seq<Rule>)
    requires Described(x, rules)
    ensures (forall s :: Kept(s, rules)) <==> Clear(x, rules)
  {
    if Clear(x, rules) {
      forall s
        ensures Kept(s, rules)
      {
        ClearKept(s, x, rules);
      }
    } else {
      OnlyWhenClear(x, rules);
    }
  }

  // ----- the transformer -----

  /** One guarded replacement, the one of rule k. */
  method Expand(s: string, r: Rule, ghost action: string, ghost rules: seq<Rule>, ghost k: nat) returns (t: string)
    requires k < |rules| && r == rules[k] && s == Sequential(action, rules, k)
    ensures t == Sequential(action, rules, k + 1)
  {
    ContainsHolds(s, r.name);
    if Contains(s, r.name) {
      t := Replace(s, r);
    } else {
      ReplaceNothing(s, r);
      t := s;
    }
  }

  /** A placeholder in the middle of fixed text is filled in. */
  lemma Filled(a: string, c: string, r: Rule)
    requires IsVariable(r.name) && a != "" && Break(a[|a| - 1])
    requires forall i | 0 <= i < |a| :: a[i] != '$'
    requires forall i | 0 <= i < |c| :: c[i] != '$'
    ensures Replace(a + (r.name + c), r) == a + (r.text + c)
  {
    NoDollar(a, r.name);
    NoDollar(c, r.name);
    ReplacePasses(a, r.name + c, r);
    ReplaceFirst(c, r);
    ReplaceNothing(c, r);
  }

  method MakePeriod(period: string) returns (t: string)
    ensures t == PeriodText(period)
  {
    if period != "" {
      var p := Rule(Name("threshold_period"), period);
      NameVariable("threshold_period");
      Filled(" in a period of ", " or less. ", p);
      t := Replace(" in a period of " + (p.name + " or less. "), p);
    } else {
      t := ". ";
    }
  }

  method MakeThreshold(count: string, period: string) returns (t: string)
    ensures t == ThresholdText(count, period)
  {
    t := "";
    if count != "" {
      var c, errors := Rule(Name("threshold_count"), count), " or more errors";
      PolicyPlain();
      NameVariable("threshold_count");
      Filled(PolicyText(), errors, c);
      t := Replace(PolicyText() + (c.name + errors), c);
      var p := MakePeriod(period);
      Regrouped(PolicyText(), count, errors, p);
      t := t + p;
    }
  }

  lemma Regrouped(a: string, b: string, c: string, d: string)
    ensures (a + (b + c)) + d == a + (b + (c + d))
  {
    assert (b + c) + d == b + (c + d);
  }

  method MakeDiagnostics(diags: string) returns (t: string)
    ensures t == DiagnosticsText(diags)
  {
    t := "Run diagnostics. ";
    if diags != "" {
      t := t + BucketsText();
      t := t + diags;
      t := t + ". ";
    }
  }

  method ExpandFixed(action: string, ghost rules: seq<Rule>) returns (t: string)
    requires |rules| == 7 && FixedRules() <= rules
    ensures t == Sequential(action, rules, 5)
  {
    var fixed := FixedRules();
    t := Expand(action, fixed[0], action, rules, 0);
    t := Expand(t, fixed[1], action, rules, 1);
    t := Expand(t, fixed[2], action, rules, 2);
    t := Expand(t, fixed[3], action, rules, 3);
    t := Expand(t, fixed[4], action, rules, 4);
  }

  method Transform(action: string, x: Supply) returns (t: string)
    ensures t == Sequential(action, Rules(x), 7)
  {
    ghost var rules := Rules(x);
    if Find(action, "$") < 0 {
      NamesVariables(x);
      NothingToDo(action, rules);
      return action;
    }
    t := ExpandFixed(action, rules);
    var diagsText := MakeDiagnostics(x.diags);
    t := Expand(t, Rule(Name("Diagnostics"), diagsText), action, rules, 5);
    var threshText := MakeThreshold(x.count, x.period);
    t := Expand(t, Rule(Name("ThresholdPolicy"), threshText), action, rules, 6);
  }

  lemma NothingToDo(s: string, rules: seq<Rule>)
    requires |rules| == 7 && Variables(rules) && Find(s, "$") < 0
    ensures Sequential(s, rules, 7) == s
  {
    forall i | 0 <= i < 7
      ensures !Holds(s, rules[i].name)
    {
      forall k
        ensures !At(s, rules[i].name, k)
      {
        assert !At(s, "$", k);
        assert "$" <= rules[i].name;
      }
    }
    SequentialNothing(s, rules, 7);
  }
}
