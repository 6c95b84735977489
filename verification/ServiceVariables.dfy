/** What each variable of a service action becomes, in the strings of the source. */
module ServiceVariables {
  import opened Text
  import opened Rewriting
  import opened ServiceText

  ghost predicate NoDollars(t: string) {
    forall i | 0 <= i < |t| :: t[i] != '$'
  }

  lemma {:induction false} PassesPlain(a: string, u: string, r: Rule)
    requires IsVariable(r.name) && NoDollars(a)
    ensures Replace(a + u, r) == a + Replace(u, r)
  {
    if a == "" {
      assert a + u == u;
    } else {
      assert (a + u)[0] == a[0] && (a + u)[1..] == a[1..] + u;
      PassesPlain(a[1..], u, r);
    }
  }

  lemma PlainLeft(a: string, r: Rule)
    requires IsVariable(r.name) && NoDollars(a)
    ensures Replace(a, r) == a
  {
    PassesPlain(a, "", r);
    assert a + "" == a;
  }

  /** A variable is left alone when it is another's turn. */
  lemma OtherLeft(a: string, n: string, c: string, r: Rule)
    requires IsVariable(n) && IsVariable(r.name) && r.name != n && NoDollars(a) && NoDollars(c)
    ensures Replace(a + (n + c), r) == a + (n + c)
  {
    NameLeft(n, c, r);
    hide Replace, IsVariable, NoDollars;
    PassesPlain(a, n + c, r);
  }

  lemma NameLeft(n: string, c: string, r: Rule)
    requires IsVariable(n) && IsVariable(r.name) && r.name != n && NoDollars(c)
    ensures Replace(n + c, r) == n + c
  {
    var s, rest := n + c, n[1..] + c;
    assert s[0] == n[0] && s[1..] == rest && s == [n[0]] + rest;
    assert !(r.name <= s) by {
      if r.name <= s {
        PrefixFree(s, n, r.name);
      }
    }
    PlainLeft(rest, r);
  }

  lemma ThisReplaced(a: string, c: string, r: Rule)
    requires IsVariable(r.name) && NoDollars(a) && NoDollars(c)
    ensures Replace(a + (r.name + c), r) == a + (r.text + c)
  {
    PassesPlain(a, r.name + c, r);
    ReplaceFirst(c, r);
    PlainLeft(c, r);
  }

  lemma {:induction false} BeforeTurn(a: string, c: string, rules: seq<Rule>, j: nat, k: nat)
    requires Variables(rules) && k <= j < |rules| && NoDollars(a) && NoDollars(c)
    ensures Sequential(a + (rules[j].name + c), rules, k) == a + (rules[j].name + c)
  {
    if k > 0 {
      BeforeTurn(a, c, rules, j, k - 1);
      OtherLeft(a, rules[j].name, c, rules[k - 1]);
    }
  }

  lemma {:induction false} AfterTurn(s: string, t: string, rules: seq<Rule>, j: nat, k: nat)
    requires j <= k <= |rules| && Sequential(s, rules, j) == t
    requires forall i | j <= i < k :: !Holds(t, rules[i].name)
    ensures Sequential(s, rules, k) == t
  {
    if k > j {
      AfterTurn(s, t, rules, j, k - 1);
      ReplaceNothing(t, rules[k - 1]);
    }
  }

  /** One variable in otherwise plain text becomes its text, if that brings in no variable still to be replaced. */
  lemma OneVariable(a: string, c: string, rules: seq<Rule>, j: nat)
    requires Variables(rules) && j < |rules| && NoDollars(a) && NoDollars(c)
    requires forall i | j < i < |rules| :: !Holds(a + (rules[j].text + c), rules[i].name)
    ensures Sequential(a + (rules[j].name + c), rules, |rules|) == a + (rules[j].text + c)
  {
    var s, t := a + (rules[j].name + c), a + (rules[j].text + c);
    BeforeTurn(a, c, rules, j, j);
    ThisReplaced(a, c, rules[j]);
    AfterTurn(s, t, rules, j + 1, |rules|);
  }

  // ----- the five fixed texts -----

  lemma FixedVariable(a: string, c: string, x: Supply, j: nat, n: string, t: string)
    requires NoDollars(a) && NoDollars(c) && j < 5 && Rules(x)[j] == Rule(n, t) && Plain(t)
    ensures Sequential(a + (n + c), Rules(x), 7) == a + (t + c)
  {
    var rules := Rules(x);
    NamesVariables(x);
    hide Rules;
    forall i | j < i < 7
      ensures !Holds(a + (t + c), rules[i].name)
    {
      NoDollar(a + (t + c), rules[i].name);
    }
    OneVariable(a, c, rules, j);
  }

  lemma FirstRules(x: Supply)
    ensures Rules(x)[0] == Rule("$(CheckLevels)", LevelsText())
    ensures Rules(x)[1] == Rule("$(CheckEnvironmentals)", EnvText())
    ensures Rules(x)[2] == Rule("$(CheckFacilities)", FacilitiesText())
    ensures Rules(x)[3] == Rule("$(CheckConnections)", ConnectionsText())
    ensures Rules(x)[4] == Rule("$(NoService)", NoServiceText())
  {
    hide Name, LevelsText, EnvText, FacilitiesText, ConnectionsText, NoServiceText, DiagnosticsText, ThresholdText;
    ChecksWritten();
    NamesWritten();
  }

  lemma ChecksWritten()
    ensures Name("CheckLevels") == "$(CheckLevels)" && Name("CheckEnvironmentals") == "$(CheckEnvironmentals)"
    ensures Name("CheckFacilities") == "$(CheckFacilities)"
  {
  }

  lemma NamesWritten()
    ensures Name("CheckConnections") == "$(CheckConnections)" && Name("NoService") == "$(NoService)"
    ensures Name("Diagnostics") == "$(Diagnostics)" && Name("ThresholdPolicy") == "$(ThresholdPolicy)"
  {
  }

  lemma CheckLevels(a: string, c: string, x: Supply)
    requires NoDollars(a) && NoDollars(c)
    ensures Sequential(a + ("$(CheckLevels)" + c), Rules(x), 7) ==
            a + ((("This condition may have been caused by " + "a software error. Check the ") +
                  ("software levels and make sure the " + "system fix level is up to date. ")) + c)
  {
    hide Rules, Plain, Sequential, NoDollars;
    FirstRules(x);
    LevelsPlain();
    FixedVariable(a, c, x, 0, "$(CheckLevels)", LevelsText());
  }

  lemma CheckEnvironmentals(a: string, c: string, x: Supply)
    requires NoDollars(a) && NoDollars(c)
    ensures Sequential(a + ("$(CheckEnvironmentals)" + c), Rules(x), 7) ==
            a + (("Check the environmental " + "monitor data. ") + c)
  {
    hide Rules, Plain, Sequential, NoDollars;
    FirstRules(x);
    EnvPlain();
    FixedVariable(a, c, x, 1, "$(CheckEnvironmentals)", EnvText());
  }

  lemma CheckFacilities(a: string, c: string, x: Supply)
    requires NoDollars(a) && NoDollars(c)
    ensures Sequential(a + ("$(CheckFacilities)" + c), Rules(x), 7) ==
            a + (("Check the system facilities such as " + "circuit breakers, air handlers, " +
                  "and air cooling syistems. ") + c)
  {
    hide Rules, Plain, Sequential, NoDollars;
    FirstRules(x);
    FacilitiesPlain();
    FixedVariable(a, c, x, 2, "$(CheckFacilities)", FacilitiesText());
  }

  lemma CheckConnections(a: string, c: string, x: Supply)
    requires NoDollars(a) && NoDollars(c)
    ensures Sequential(a + ("$(CheckConnections)" + c), Rules(x), 7) ==
            a + (("Check the cables and connections " + "that run external to the system.") + c)
  {
    hide Rules, Plain, Sequential, NoDollars;
    FirstRules(x);
    ConnectionsPlain();
    FixedVariable(a, c, x, 3, "$(CheckConnections)", ConnectionsText());
  }

  lemma NoService(a: string, c: string, x: Supply)
    requires NoDollars(a) && NoDollars(c)
    ensures Sequential(a + ("$(NoService)" + c), Rules(x), 7) ==
            a + (("A service action is not " + "required for this event.") + c)
  {
    hide Rules, Plain, Sequential, NoDollars;
    FirstRules(x);
    NoServicePlain();
    FixedVariable(a, c, x, 4, "$(NoService)", NoServiceText());
  }

  // ----- the two texts made from the event -----

  lemma NotBroughtIn(a: string, t: string, c: string, n: string)
    requires IsVariable(n) && NoDollars(a) && NoDollars(c) && t != "" && Break(t[|t| - 1]) && !Holds(t, n)
    ensures !Holds(a + (t + c), n)
  {
    if Holds(t + c, n) {
      HoldsJoined(t, c, n);
      NoDollar(c, n);
    }
    forall i
      ensures !At(a + (t + c), n, i)
    {
      if 0 <= i < |a| {
        assert (a + (t + c))[i..][0] == a[i];
      } else if |a| <= i <= |a| + |t + c| {
        assert (a + (t + c))[i..] == (t + c)[i - |a|..];
        assert !At(t + c, n, i - |a|);
      }
    }
  }

  lemma LastRules(x: Supply)
    ensures Rules(x)[5] == Rule("$(Diagnostics)", DiagnosticsText(x.diags))
    ensures Rules(x)[6] == Rule("$(ThresholdPolicy)", ThresholdText(x.count, x.period))
    ensures Described(x, Rules(x)) && Variables(Rules(x))
  {
    hide LevelsText, EnvText, FacilitiesText, ConnectionsText, NoServiceText, DiagnosticsText, ThresholdText, Described,
         Variables, Name;
    RulesDescribed(x);
    NamesVariables(x);
    NamesWritten();
  }

  lemma DiagnosticsApart(a: string, c: string, x: Supply, rules: seq<Rule>)
    requires NoDollars(a) && NoDollars(c) && Described(x, rules) && !Holds(x.diags, rules[6].name)
    ensures !Holds(a + (rules[5].text + c), rules[6].name)
  {
    hide Holds, NoDollars;
    NotBroughtIn(a, rules[5].text, c, rules[6].name);
  }

  /** The diagnostics, if there are any, stand behind their introduction. */
  lemma Diagnostics(a: string, c: string, x: Supply)
    requires NoDollars(a) && NoDollars(c) && !Holds(x.diags, "$(ThresholdPolicy)")
    ensures Sequential(a + ("$(Diagnostics)" + c), Rules(x), 7) ==
            a + (("Run diagnostics. " + if x.diags == "" then "" else
                  ("The relevant diagnostic bucket(s) " + "to run are: ") + (x.diags + ". ")) + c)
  {
    hide Rules, Sequential, NoDollars, Variables, IsVariable, Holds;
    LastRules(x);
    DiagnosticsApart(a, c, x, Rules(x));
    OneVariable(a, c, Rules(x), 5);
  }

  /** The count stands before "or more errors", the period, if there is one, behind "in a period of". */
  lemma ThresholdPolicy(a: string, c: string, x: Supply)
    requires NoDollars(a) && NoDollars(c)
    ensures Sequential(a + ("$(ThresholdPolicy)" + c), Rules(x), 7) ==
            if x.count == "" then a + ("" + c) else
            a + ((("The part at this location has " + "threshold count policy of ") +
                  (x.count + (" or more errors" +
                   if x.period == "" then ". " else " in a period of " + (x.period + " or less. ")))) + c)
  {
    hide Rules, Sequential, NoDollars, Variables, Described, Holds;
    LastRules(x);
    OneVariable(a, c, Rules(x), 6);
  }
}
