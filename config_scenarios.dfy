/** The behaviour the configuration tests pin down, stated for every configuration of the shape
    each test builds rather than for one fixture file. */
module ConfigScenarios {
  import opened Wrappers
  import opened Seqs
  import opened Json
  import opened Config
  import Decimal

  /** The rule the tests add: a `smiley` rule restricted to the `hub` channel. */
  function ChannelRule(): Object
  {
    [ Field("reactionName", Str("smiley")),
      Field("githubRepository", Str("18F/hubot-slack-github-issues")),
      Field("channelNames", Arr([Str("hub")])) ]
  }

  /** The configuration with `rule` appended as its last rule. */
  function PushRule(o: Object, rule: Object): Object
    requires Get(o, "rules").Some? && Get(o, "rules").value.Arr?
  {
    Put(o, "rules", Arr(Get(o, "rules").value.items + [Obj(rule)]))
  }

  /** Replacing the `rules` array keeps the property names of a configuration that has one. */
  lemma HasAfterRulesPut(o: Object, items: seq<Value>)
    requires Has(o, "rules")
    ensures forall j :: Has(Put(o, "rules", Arr(items)), j) <==> Has(o, j)
  {
    HasPut(o, "rules", Arr(items));
  }

  /** After the `rules` array is replaced, the rules are the new array's elements. */
  lemma RulesAfterPut(o: Object, items: seq<Value>)
    ensures Rules(Put(o, "rules", Arr(items))) == seq(|items|, i requires 0 <= i < |items| => AsObject(items[i]))
  {
    PutGet(o, "rules", Arr(items));
  }

  /** Pushing a rule appends it to the rules and leaves the property names alone. */
  lemma PushRuleEffect(o: Object, rule: Object)
    requires Get(o, "rules").Some? && Get(o, "rules").value.Arr?
    ensures Rules(PushRule(o, rule)) == Rules(o) + [rule]
    ensures forall j :: Has(PushRule(o, rule), j) <==> Has(o, j)
  {
    var items := Get(o, "rules").value.items;
    RulesAfterPut(o, items + [Obj(rule)]);
    Pushed(items, rule);
    HasAfterRulesPut(o, items + [Obj(rule)]);
  }

  /** Elementwise, the rule elements after a rule is pushed. */
  lemma Pushed(items: seq<Value>, pushed: Object)
    ensures var newItems := items + [Obj(pushed)];
      var before := seq(|items|, i requires 0 <= i < |items| => AsObject(items[i]));
      seq(|newItems|, i requires 0 <= i < |newItems| => AsObject(newItems[i])) == before + [pushed]
  {
  }

  lemma ChannelRuleValid()
    ensures IsValidRule(ChannelRule()) && UniqueKeys(ChannelRule())
  {
    assert Keys(ChannelRule()) == KnownRuleFields;
  }

  /** A valid configuration is accepted as it is, and nothing is logged. */
  lemma ValidConfigAccepted(scriptName: string, config: Object, envPath: Option<string>, documentAt: string -> Object)
    requires IsValidConfig(config)
    ensures NewConfig(scriptName, Some(config), envPath, documentAt) == Loaded(Ok(config), [])
  {
  }

  /** Adding a rule restricted to a channel keeps a valid configuration valid: it is accepted as
      it is and nothing is logged. */
  lemma ChannelRuleAccepted(scriptName: string, config: Object, envPath: Option<string>, documentAt: string -> Object)
    requires IsValidConfig(config)
    requires Get(config, "rules").Some? && Get(config, "rules").value.Arr?
    ensures var c := PushRule(config, ChannelRule());
      NewConfig(scriptName, Some(c), envPath, documentAt) == Loaded(Ok(c), [])
  {
    var c := PushRule(config, ChannelRule());
    PushRuleEffect(config, ChannelRule());
    ChannelRuleValid();
    var rules := Rules(c);
    assert forall i :: 0 <= i < |rules| ==> IsValidRule(rules[i]) by {
      forall i | 0 <= i < |rules| ensures IsValidRule(rules[i]) {
        if i < |Rules(config)| {
          assert rules[i] == Rules(config)[i];
        }
      }
    }
    assert IsValidConfig(c);
  }

  /** The message a test expects: the header, then each line after a line break and indentation,
      written as the tests write it. */
  function ExpectedMessage(errors: seq<string>): string
  {
    "Invalid configuration:\n  " + Join(errors, "\n  ")
  }

  /** A report whose lines are `errors` produces the message the tests expect. */
  lemma MessageAsExpected(vs: seq<Violation>, errors: seq<string>)
    requires vs != [] && DescribeAll(vs) == errors
    ensures ErrorMessage(vs) == ExpectedMessage(errors)
  {
    ErrorMessageJoinsLines(vs);
    assert ErrorHeader + LineBreak == "Invalid configuration:\n  ";
  }

  /** The report of an empty configuration, as the tests list it. */
  const EmptyConfigReport: seq<Violation> :=
    [ MissingField("githubUser"), MissingField("githubTimeout"), MissingField("slackTimeout"),
      MissingField("successReaction"), MissingField("rules") ]

  lemma EmptyConfigMissingFields()
    ensures MissingFields([], RequiredTopFields) == RequiredTopFields
  {
    FilterAllOrNone(RequiredTopFields, AbsentFrom([]));
  }

  lemma EmptyConfigMissingTop()
    ensures MissingTopViolations([]) == seq(5, i requires 0 <= i < 5 => MissingField(RequiredTopFields[i]))
  {
    EmptyConfigMissingFields();
  }

  lemma EmptyConfigUnknownTop()
    ensures UnknownTopViolations([]) == []
  {
    FilterAllOrNone(Keys([]), OutsideOf(RequiredTopFields));
  }

  lemma EmptyConfigReportListsRequired()
    ensures seq(5, i requires 0 <= i < 5 => MissingField(RequiredTopFields[i])) == EmptyConfigReport
  {
  }

  lemma EmptyConfigHasNoRules()
    ensures Rules([]) == []
    ensures MissingRulesViolations([]) == [] && UnknownRulesViolations([]) == []
  {
    assert Get([], "rules") == None;
  }

  lemma EmptyConfigViolations()
    ensures Violations([]) == EmptyConfigReport
  {
    EmptyConfigHasNoRules();
    EmptyConfigMissingTop();
    EmptyConfigUnknownTop();
    EmptyConfigReportListsRequired();
  }

  lemma MissingLine(f: string)
    ensures Describe(MissingField(f)) == "missing " + f
  {
  }

  /** Solver help: the report lines for the empty configuration, each as one literal. */
  lemma LiteralConcatMissingLines()
    ensures "missing " + "githubUser" == "missing githubUser"
    ensures "missing " + "githubTimeout" == "missing githubTimeout"
    ensures "missing " + "slackTimeout" == "missing slackTimeout"
    ensures "missing " + "successReaction" == "missing successReaction"
    ensures "missing " + "rules" == "missing rules"
  {
  }

  lemma EmptyConfigLines()
    ensures DescribeAll(EmptyConfigReport) == ["missing githubUser", "missing githubTimeout",
      "missing slackTimeout", "missing successReaction", "missing rules"]
  {
    var vs := EmptyConfigReport;
    var lines := DescribeAll(vs);
    assert lines == [Describe(vs[0]), Describe(vs[1]), Describe(vs[2]), Describe(vs[3]), Describe(vs[4])];
    MissingLine("githubUser");
    MissingLine("githubTimeout");
    MissingLine("slackTimeout");
    MissingLine("successReaction");
    MissingLine("rules");
    LiteralConcatMissingLines();
  }

  /** An empty configuration is rejected with the five missing top-level fields, in declaration
      order, and no rule problem; the message is logged once. */
  lemma EmptyConfigRejected(scriptName: string, envPath: Option<string>, documentAt: string -> Object)
    ensures var message := ExpectedMessage(["missing githubUser", "missing githubTimeout",
      "missing slackTimeout", "missing successReaction", "missing rules"]);
      NewConfig(scriptName, Some([]), envPath, documentAt)
        == Loaded(Err(message), [scriptName + ": " + message])
  {
    EmptyConfigViolations();
    NoViolationsIffValid([]);
    EmptyConfigLines();
    MessageAsExpected(EmptyConfigReport, DescribeAll(EmptyConfigReport));
  }

  /** A configuration whose problems are exactly those of `expected`, listed in report order, is
      rejected with the message made of the lines `errors`, and the message is logged once. */
  lemma RejectedWith(scriptName: string, c: Object, envPath: Option<string>, documentAt: string -> Object,
                     expected: seq<Violation>, errors: seq<string>)
    requires UniqueKeysThroughout(c) && InReportOrder(c, expected)
    requires forall v :: v in expected <==> Problem(c, v)
    requires expected != [] && DescribeAll(expected) == errors
    ensures var message := ExpectedMessage(errors);
      NewConfig(scriptName, Some(c), envPath, documentAt) == Loaded(Err(message), [scriptName + ": " + message])
  {
    ViolationsAre(c, expected);
    NoViolationsIffValid(c);
    MessageAsExpected(expected, errors);
  }

  // ---------------------------------------------------------------------------------------------
  // Missing rule fields.

  /** A configuration whose `rules` is a non-empty array. */
  predicate HasFirstRule(o: Object)
  {
    Get(o, "rules").Some? && Get(o, "rules").value.Arr? && |Get(o, "rules").value.items| > 0
  }

  /** The first rule with both its required fields deleted. */
  function StrippedRule(r: Object): Object
  {
    Delete(Delete(r, "reactionName"), "githubRepository")
  }

  /** The configuration with both required fields removed from its first rule, every other rule
      and property left as it was. */
  function StripFirstRule(o: Object): Object
    requires HasFirstRule(o)
  {
    var items := Get(o, "rules").value.items;
    Put(o, "rules", Arr(items[0 := Obj(StrippedRule(AsObject(items[0])))]))
  }

  lemma StrippedRuleHas(r: Object)
    ensures forall k :: Has(StrippedRule(r), k) <==> Has(r, k) && k !in RequiredRuleFields
    ensures UniqueKeys(r) ==> UniqueKeys(StrippedRule(r))
  {
    var once := Delete(r, "reactionName");
    forall k ensures Has(StrippedRule(r), k) <==> Has(r, k) && k !in RequiredRuleFields {
      if k != "reactionName" && k != "githubRepository" {
        assert Get(StrippedRule(r), k) == Get(once, k) == Get(r, k);
      } else if k == "reactionName" {
        assert Get(StrippedRule(r), k) == Get(once, k);
      }
    }
    if UniqueKeys(r) {
      DeleteUnique(r, "reactionName");
      DeleteUnique(once, "githubRepository");
    }
  }

  lemma StripFirstRuleEffect(o: Object)
    requires HasFirstRule(o)
    ensures var items := Get(o, "rules").value.items;
      Rules(StripFirstRule(o)) == Rules(o)[0 := StrippedRule(AsObject(items[0]))]
    ensures forall j :: Has(StripFirstRule(o), j) <==> Has(o, j)
  {
    var items := Get(o, "rules").value.items;
    var stripped := items[0 := Obj(StrippedRule(AsObject(items[0])))];
    RulesAfterPut(o, stripped);
    HasAfterRulesPut(o, stripped);
  }

  /** The report the test expects once the first rule has lost its required fields. */
  const StrippedReport: seq<Violation> :=
    [MissingRuleField(0, "reactionName"), MissingRuleField(0, "githubRepository")]

  /** A configuration with the property names of a valid one and the same rules apart from
      rule 0 has no top-level problem and no problem in any rule other than rule 0. */
  lemma OnlyFirstRuleChanged(o: Object, c: Object, v: Violation)
    requires IsValidConfig(o)
    requires forall j :: Has(c, j) <==> Has(o, j)
    requires |Rules(c)| == |Rules(o)|
    requires forall i :: 0 < i < |Rules(c)| ==> Rules(c)[i] == Rules(o)[i]
    requires v.MissingField? || v.UnknownProperty? || v.rule != 0
    ensures !Problem(c, v)
  {
    var rules := Rules(c);
    match v
    case MissingField(f) =>
    case UnknownProperty(k) =>
    case MissingRuleField(i, f) =>
      if i < |rules| {
        assert rules[i] == Rules(o)[i] && IsValidRule(Rules(o)[i]);
      }
    case UnknownRuleProperty(i, k) =>
      if i < |rules| {
        assert rules[i] == Rules(o)[i] && IsValidRule(Rules(o)[i]);
      }
  }

  lemma StrippedFirstRuleProblems(o: Object, c: Object, v: Violation)
    requires IsValidConfig(o) && |Rules(o)| > 0
    requires |Rules(c)| == |Rules(o)|
    requires forall k :: Has(Rules(c)[0], k) <==> Has(Rules(o)[0], k) && k !in RequiredRuleFields
    requires (v.MissingRuleField? || v.UnknownRuleProperty?) && v.rule == 0
    ensures v in StrippedReport <==> Problem(c, v)
  {
    assert IsValidRule(Rules(o)[0]);
  }

  lemma StrippedProblems(o: Object)
    requires IsValidConfig(o) && HasFirstRule(o)
    ensures forall v :: v in StrippedReport <==> Problem(StripFirstRule(o), v)
  {
    var c := StripFirstRule(o);
    var items := Get(o, "rules").value.items;
    StripFirstRuleEffect(o);
    StrippedRuleHas(AsObject(items[0]));
    assert Rules(o)[0] == AsObject(items[0]);
    forall v ensures v in StrippedReport <==> Problem(c, v) {
      if v.MissingField? || v.UnknownProperty? || v.rule != 0 {
        OnlyFirstRuleChanged(o, c, v);
      } else {
        StrippedFirstRuleProblems(o, c, v);
      }
    }
  }

  lemma StrippedUnique(o: Object)
    requires UniqueKeysThroughout(o) && HasFirstRule(o)
    ensures UniqueKeysThroughout(StripFirstRule(o))
  {
    var c := StripFirstRule(o);
    var items := Get(o, "rules").value.items;
    StripFirstRuleEffect(o);
    StrippedRuleHas(AsObject(items[0]));
    PutUnique(o, "rules", Arr(items[0 := Obj(StrippedRule(AsObject(items[0])))]));
    var rules := Rules(c);
    forall i | 0 <= i < |rules| ensures UniqueKeys(rules[i]) {
      if i != 0 {
        assert rules[i] == Rules(o)[i];
      }
    }
  }

  lemma StrippedOrder(o: Object)
    ensures InReportOrder(o, StrippedReport)
  {
    assert IndexOf(RequiredRuleFields, "reactionName") == 0;
    assert IndexOf(RequiredRuleFields, "githubRepository") == 1;
  }

  lemma NatZero()
    ensures Decimal.NatToString(0) == "0"
  {
    assert Decimal.DigitChar(0) == '0';
  }

  lemma ReactionNameLine()
    ensures Describe(MissingRuleField(0, "reactionName")) == "rule 0 missing reactionName"
  {
    NatZero();
    assert "rule " + "0" + " missing " + "reactionName" == "rule 0 missing reactionName";
  }

  lemma RepositoryLine()
    ensures Describe(MissingRuleField(0, "githubRepository")) == "rule 0 missing githubRepository"
  {
    NatZero();
    assert "rule " + "0" + " missing " + "githubRepository" == "rule 0 missing githubRepository";
  }

  lemma StrippedLines()
    ensures DescribeAll(StrippedReport) == ["rule 0 missing reactionName", "rule 0 missing githubRepository"]
  {
    var vs := StrippedReport;
    assert DescribeAll(vs) == [Describe(vs[0]), Describe(vs[1])];
    ReactionNameLine();
    RepositoryLine();
  }

  /** Deleting both required fields of the first rule of a valid configuration is reported as the
      two missing fields of rule 0, in declaration order, and nothing else. */
  lemma RuleMissingFieldsReported(scriptName: string, config: Object, envPath: Option<string>, documentAt: string -> Object)
    requires IsValidConfig(config) && UniqueKeysThroughout(config) && HasFirstRule(config)
    ensures var message := ExpectedMessage(["rule 0 missing reactionName", "rule 0 missing githubRepository"]);
      NewConfig(scriptName, Some(StripFirstRule(config)), envPath, documentAt)
        == Loaded(Err(message), [scriptName + ": " + message])
  {
    var c := StripFirstRule(config);
    StrippedProblems(config);
    StrippedUnique(config);
    StrippedOrder(c);
    StrippedLines();
    RejectedWith(scriptName, c, envPath, documentAt, StrippedReport, DescribeAll(StrippedReport));
  }

  // ---------------------------------------------------------------------------------------------
  // Unknown properties.

  /** The rule the tests push to check unknown rule properties: the channel rule and `quux`. */
  function QuuxRule(): Object
  {
    ChannelRule() + [Field("quux", Obj([]))]
  }

  /** The first rule with an extra property `baz`. */
  function BazRule(r: Object): Object
  {
    Put(r, "baz", Obj([]))
  }

  /** The configuration with two unknown top-level properties, `foo` then `bar`, holding empty
      objects; with an unknown property `baz` added to its first rule; and with `QuuxRule` appended
      as its last rule. */
  function AddUnknownProperties(o: Object): Object
    requires HasFirstRule(o)
  {
    var items := Get(o, "rules").value.items;
    var withFooBar := Put(Put(o, "foo", Obj([])), "bar", Obj([]));
    Put(withFooBar, "rules", Arr(items[0 := Obj(BazRule(AsObject(items[0])))] + [Obj(QuuxRule())]))
  }

  lemma QuuxRuleKeys()
    ensures Keys(QuuxRule()) == KnownRuleFields + ["quux"]
    ensures UniqueKeys(QuuxRule())
  {
    assert Keys(QuuxRule()) == ["reactionName", "githubRepository", "channelNames", "quux"];
  }

  /** Adding `foo` and `bar` to a valid configuration appends them to its property names; the
      `rules` property keeps its place and its value. */
  lemma FooBarKeys(o: Object)
    requires IsValidConfig(o)
    ensures var withFooBar := Put(Put(o, "foo", Obj([])), "bar", Obj([]));
      && Keys(withFooBar) == Keys(o) + ["foo", "bar"]
      && Get(withFooBar, "rules") == Get(o, "rules")
      && (UniqueKeys(o) ==> UniqueKeys(withFooBar))
  {
    assert !Has(o, "foo") && !Has(o, "bar");
    FooBarNames(o);
    FooBarRules(o);
    if UniqueKeys(o) {
      var withFoo := Put(o, "foo", Obj([]));
      PutUnique(o, "foo", Obj([]));
      PutUnique(withFoo, "bar", Obj([]));
    }
  }

  lemma FooBarNames(o: Object)
    requires !Has(o, "foo") && !Has(o, "bar")
    ensures Keys(Put(Put(o, "foo", Obj([])), "bar", Obj([]))) == Keys(o) + ["foo", "bar"]
  {
    var withFoo := Put(o, "foo", Obj([]));
    PutKeys(o, "foo", Obj([]));
    assert Keys(withFoo) == Keys(o) + ["foo"];
    assert "bar" !in Keys(withFoo);
    PutKeys(withFoo, "bar", Obj([]));
    assert Keys(o) + ["foo"] + ["bar"] == Keys(o) + ["foo", "bar"];
  }

  lemma FooBarRules(o: Object)
    ensures Get(Put(Put(o, "foo", Obj([])), "bar", Obj([])), "rules") == Get(o, "rules")
  {
    PutGet(o, "foo", Obj([]));
    PutGet(Put(o, "foo", Obj([])), "bar", Obj([]));
  }

  /** Elementwise, the rule elements after the first is replaced and a rule is pushed. */
  lemma ReplacedAndPushed(items: seq<Value>, first: Object, pushed: Object)
    requires |items| > 0
    ensures var newItems := items[0 := Obj(first)] + [Obj(pushed)];
      var before := seq(|items|, i requires 0 <= i < |items| => AsObject(items[i]));
      seq(|newItems|, i requires 0 <= i < |newItems| => AsObject(newItems[i]))
        == before[0 := first] + [pushed]
  {
  }

  lemma AddUnknownRules(o: Object)
    requires IsValidConfig(o) && HasFirstRule(o)
    ensures var items := Get(o, "rules").value.items;
      Rules(AddUnknownProperties(o)) == Rules(o)[0 := BazRule(AsObject(items[0]))] + [QuuxRule()]
  {
    var items := Get(o, "rules").value.items;
    var withFooBar := Put(Put(o, "foo", Obj([])), "bar", Obj([]));
    var newItems := items[0 := Obj(BazRule(AsObject(items[0])))] + [Obj(QuuxRule())];
    FooBarKeys(o);
    RulesAfterPut(withFooBar, newItems);
    ReplacedAndPushed(items, BazRule(AsObject(items[0])), QuuxRule());
  }

  lemma AddUnknownKeys(o: Object)
    requires IsValidConfig(o) && HasFirstRule(o)
    ensures Keys(AddUnknownProperties(o)) == Keys(o) + ["foo", "bar"]
    ensures UniqueKeys(o) ==> UniqueKeys(AddUnknownProperties(o))
  {
    var items := Get(o, "rules").value.items;
    var withFooBar := Put(Put(o, "foo", Obj([])), "bar", Obj([]));
    var newItems := items[0 := Obj(BazRule(AsObject(items[0])))] + [Obj(QuuxRule())];
    FooBarKeys(o);
    assert Has(withFooBar, "rules");
    PutKeys(withFooBar, "rules", Arr(newItems));
    if UniqueKeys(o) {
      PutUnique(withFooBar, "rules", Arr(newItems));
    }
  }

  lemma AddUnknownEffect(o: Object)
    requires IsValidConfig(o) && HasFirstRule(o)
    ensures var items := Get(o, "rules").value.items;
      Rules(AddUnknownProperties(o)) == Rules(o)[0 := BazRule(AsObject(items[0]))] + [QuuxRule()]
    ensures Keys(AddUnknownProperties(o)) == Keys(o) + ["foo", "bar"]
    ensures UniqueKeys(o) ==> UniqueKeys(AddUnknownProperties(o))
  {
    AddUnknownRules(o);
    AddUnknownKeys(o);
  }

  /** The report the test expects, for a configuration that had `n` rules. */
  function UnknownReport(n: nat): seq<Violation>
  {
    [ UnknownProperty("foo"), UnknownProperty("bar"),
      UnknownRuleProperty(0, "baz"), UnknownRuleProperty(n, "quux") ]
  }

  lemma UnknownTopProblems(o: Object, c: Object, v: Violation)
    requires IsValidConfig(o)
    requires Keys(c) == Keys(o) + ["foo", "bar"]
    requires v.MissingField? || v.UnknownProperty?
    ensures v in UnknownReport(|Rules(o)|) <==> Problem(c, v)
  {
    match v
    case MissingField(f) =>
      if f in RequiredTopFields {
        assert Has(o, f);
      }
    case UnknownProperty(k) =>
      assert Has(c, k) <==> Has(o, k) || k == "foo" || k == "bar";
  }

  lemma UnknownRuleProblems(o: Object, c: Object, v: Violation)
    requires IsValidConfig(o) && |Rules(o)| > 0
    requires Rules(c) == Rules(o)[0 := BazRule(Rules(o)[0])] + [QuuxRule()]
    requires v.MissingRuleField? || v.UnknownRuleProperty?
    ensures v in UnknownReport(|Rules(o)|) <==> Problem(c, v)
  {
    var n := |Rules(o)|;
    var rules := Rules(c);
    var i := v.rule;
    if i == 0 {
      HasPut(Rules(o)[0], "baz", Obj([]));
      assert IsValidRule(Rules(o)[0]);
    } else if i < n {
      assert rules[i] == Rules(o)[i] && IsValidRule(Rules(o)[i]);
    } else if i == n {
      QuuxRuleKeys();
      assert rules[i] == QuuxRule();
    }
  }

  lemma UnknownProblems(o: Object)
    requires IsValidConfig(o) && HasFirstRule(o)
    ensures forall v :: v in UnknownReport(|Rules(o)|) <==> Problem(AddUnknownProperties(o), v)
  {
    var c := AddUnknownProperties(o);
    var items := Get(o, "rules").value.items;
    AddUnknownEffect(o);
    assert Rules(o)[0] == AsObject(items[0]);
    forall v ensures v in UnknownReport(|Rules(o)|) <==> Problem(c, v) {
      if v.MissingField? || v.UnknownProperty? {
        UnknownTopProblems(o, c, v);
      } else {
        UnknownRuleProblems(o, c, v);
      }
    }
  }

  lemma UnknownUnique(o: Object)
    requires IsValidConfig(o) && UniqueKeysThroughout(o) && HasFirstRule(o)
    ensures UniqueKeysThroughout(AddUnknownProperties(o))
  {
    var c := AddUnknownProperties(o);
    var items := Get(o, "rules").value.items;
    AddUnknownEffect(o);
    assert Rules(o)[0] == AsObject(items[0]);
    PutUnique(Rules(o)[0], "baz", Obj([]));
    QuuxRuleKeys();
    var rules := Rules(c);
    forall i | 0 <= i < |rules| ensures UniqueKeys(rules[i]) {
      if 0 < i < |Rules(o)| {
        assert rules[i] == Rules(o)[i];
      }
    }
  }

  /** `foo` and `bar`, added last, are reported in the order they were added, before any rule
      problem, and rule 0's problem before that of a later rule. */
  lemma UnknownRanks(c: Object, ks: seq<string>, n: nat)
    requires Keys(c) == ks + ["foo", "bar"] && "foo" !in ks && "bar" !in ks
    ensures var vs := UnknownReport(n);
      && RankIn(c, Rules(c), vs[0]) == Rank(2, 0, |ks|)
      && RankIn(c, Rules(c), vs[1]) == Rank(2, 0, |ks| + 1)
      && RankIn(c, Rules(c), vs[2]).group == 3 && RankIn(c, Rules(c), vs[2]).rule == 0
      && RankIn(c, Rules(c), vs[3]).group == 3 && RankIn(c, Rules(c), vs[3]).rule == n
  {
    IndexOfAppend(ks, ["foo", "bar"], "foo");
    IndexOfAppend(ks, ["foo", "bar"], "bar");
  }

  lemma UnknownOrderFromKeys(c: Object, ks: seq<string>, n: nat)
    requires Keys(c) == ks + ["foo", "bar"] && "foo" !in ks && "bar" !in ks && n > 0
    ensures InReportOrder(c, UnknownReport(n))
  {
    var vs := UnknownReport(n);
    var rules := Rules(c);
    UnknownRanks(c, ks, n);
    var foo, bar := RankIn(c, rules, vs[0]), RankIn(c, rules, vs[1]);
    var baz, quux := RankIn(c, rules, vs[2]), RankIn(c, rules, vs[3]);
    assert Precedes(foo, bar) && Precedes(foo, baz) && Precedes(foo, quux);
    assert Precedes(bar, baz) && Precedes(bar, quux) && Precedes(baz, quux);
    ReportOrderFromRanks(c, vs);
  }

  lemma UnknownOrder(o: Object)
    requires IsValidConfig(o) && HasFirstRule(o)
    ensures InReportOrder(AddUnknownProperties(o), UnknownReport(|Rules(o)|))
  {
    AddUnknownKeys(o);
    assert !Has(o, "foo") && !Has(o, "bar");
    assert |Rules(o)| > 0;
    UnknownOrderFromKeys(AddUnknownProperties(o), Keys(o), |Rules(o)|);
  }

  lemma FooLine()
    ensures Describe(UnknownProperty("foo")) == "unknown property foo"
  {
  }

  lemma BarLine()
    ensures Describe(UnknownProperty("bar")) == "unknown property bar"
  {
  }

  /** Solver help: the report line for `baz`, as one literal. */
  lemma LiteralConcatBazLine()
    ensures "rule " + "0" + " contains unknown property " + "baz" == "rule 0 contains unknown property baz"
  {
  }

  lemma BazLine()
    ensures Describe(UnknownRuleProperty(0, "baz")) == "rule 0 contains unknown property baz"
  {
    NatZero();
    LiteralConcatBazLine();
  }

  lemma QuuxLine(n: nat)
    ensures Describe(UnknownRuleProperty(n, "quux"))
      == "rule " + Decimal.NatToString(n) + " contains unknown property quux"
  {
    assert " contains unknown property " + "quux" == " contains unknown property quux";
  }

  lemma QuuxLineForThree()
    ensures "rule " + Decimal.NatToString(3) + " contains unknown property quux"
      == "rule 3 contains unknown property quux"
  {
    assert Decimal.NatToString(3) == "3" by {
      assert Decimal.DigitChar(3) == '3';
    }
  }

  lemma UnknownLines(n: nat)
    ensures DescribeAll(UnknownReport(n)) ==
      [ "unknown property foo", "unknown property bar", "rule 0 contains unknown property baz",
        "rule " + Decimal.NatToString(n) + " contains unknown property quux" ]
  {
    var vs := UnknownReport(n);
    assert DescribeAll(vs) == [Describe(vs[0]), Describe(vs[1]), Describe(vs[2]), Describe(vs[3])];
    FooLine();
    BarLine();
    BazLine();
    QuuxLine(n);
  }

  /** Unknown properties added to a valid configuration with `n` rules (`foo` and `bar` at the top,
      `baz` in rule 0, `quux` in a pushed rule) are reported in that order, the pushed rule under
      its index `n`, and nothing else is. */
  lemma UnknownPropertiesReported(scriptName: string, config: Object, envPath: Option<string>, documentAt: string -> Object)
    requires IsValidConfig(config) && UniqueKeysThroughout(config) && HasFirstRule(config)
    ensures var n := |Get(config, "rules").value.items|;
      var message := ExpectedMessage([
        "unknown property foo", "unknown property bar", "rule 0 contains unknown property baz",
        "rule " + Decimal.NatToString(n) + " contains unknown property quux" ]);
      NewConfig(scriptName, Some(AddUnknownProperties(config)), envPath, documentAt)
        == Loaded(Err(message), [scriptName + ": " + message])
  {
    var n := |Rules(config)|;
    var c := AddUnknownProperties(config);
    UnknownProblems(config);
    UnknownUnique(config);
    UnknownOrder(config);
    UnknownLines(n);
    RejectedWith(scriptName, c, envPath, documentAt, UnknownReport(n), DescribeAll(UnknownReport(n)));
  }

  /** With the three rules of the test configuration, the pushed rule is rule 3. */
  lemma UnknownPropertiesReportedForThreeRules(scriptName: string, config: Object, envPath: Option<string>, documentAt: string -> Object)
    requires IsValidConfig(config) && UniqueKeysThroughout(config) && HasFirstRule(config)
    requires |Get(config, "rules").value.items| == 3
    ensures var message := ExpectedMessage([
        "unknown property foo", "unknown property bar", "rule 0 contains unknown property baz",
        "rule 3 contains unknown property quux" ]);
      NewConfig(scriptName, Some(AddUnknownProperties(config)), envPath, documentAt)
        == Loaded(Err(message), [scriptName + ": " + message])
  {
    UnknownPropertiesReported(scriptName, config, envPath, documentAt);
    QuuxLineForThree();
  }

  // ---------------------------------------------------------------------------------------------
  // Where the configuration comes from.

  /** Without a configuration passed in, and with the environment variable naming `path`, the
      valid document found at `path` is the configuration, and loading it is logged once. */
  lemma LoadsFromEnvPath(scriptName: string, path: string, documentAt: string -> Object)
    requires IsValidConfig(documentAt(path))
    ensures NewConfig(scriptName, None, Some(path), documentAt)
      == Loaded(Ok(documentAt(path)), [scriptName + ": loading config from " + path])
  {
    LoadingLine(scriptName, path);
  }

  lemma LoadingLine(scriptName: string, path: string)
    ensures LogLine(scriptName, "loading config from " + path) == scriptName + ": loading config from " + path
  {
    assert ": " + "loading config from " == ": loading config from ";
  }

  /** Without a configuration passed in and without the environment variable, the valid document
      found at the default path is the configuration, and loading it from there is logged once. */
  lemma LoadsFromDefaultPath(scriptName: string, documentAt: string -> Object)
    requires IsValidConfig(documentAt("config/slack-github-issues.json"))
    ensures NewConfig(scriptName, None, None, documentAt)
      == Loaded(Ok(documentAt("config/slack-github-issues.json")),
                [scriptName + ": loading config from " + "config/slack-github-issues.json"])
  {
    LoadingLine(scriptName, DefaultConfigPath);
  }

  /** A configuration passed in is used whatever the environment says and whatever the files
      hold, and no file is announced. */
  lemma GivenConfigIgnoresPath(scriptName: string, given: Object,
                               envPath: Option<string>, documentAt: string -> Object,
                               otherEnvPath: Option<string>, otherDocumentAt: string -> Object)
    ensures NewConfig(scriptName, Some(given), envPath, documentAt)
      == NewConfig(scriptName, Some(given), otherEnvPath, otherDocumentAt)
  {
  }
}
