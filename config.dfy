/** The configuration validator: it either accepts a configuration document unchanged or rejects
    it with one aggregated report that lists every problem, grouped and ordered as
    - missing top-level fields, in declaration order;
    - missing rule fields, by rule index and then field order;
    - unknown top-level properties, in the order the document holds them;
    - unknown rule properties, by rule index and then the order the rule holds them. */
module Config {
  import opened Wrappers
  import opened Seqs
  import opened Json
  import Decimal

  /** The top-level fields a configuration must have, in declaration order. They are also the only
      top-level properties a configuration may have. */
  const RequiredTopFields: seq<string> :=
    ["githubUser", "githubTimeout", "slackTimeout", "successReaction", "rules"]

  /** The fields every rule must have, in declaration order. */
  const RequiredRuleFields: seq<string> := ["reactionName", "githubRepository"]

  /** The properties a rule may have: the required ones and the optional channel restriction. */
  const KnownRuleFields: seq<string> := ["reactionName", "githubRepository", "channelNames"]

  /** One problem found in a configuration; `rule` is the index of the offending rule. */
  datatype Violation =
    | MissingField(field: string)
    | MissingRuleField(rule: nat, field: string)
    | UnknownProperty(name: string)
    | UnknownRuleProperty(rule: nat, name: string)

  /** The properties of a rule element; an element that is not an object has none. */
  function AsObject(v: Value): Object
  {
    if v.Obj? then v.fields else []
  }

  /** The rule elements of the `rules` array; a configuration without one has no rules. */
  function Rules(o: Object): seq<Object>
  {
    match Get(o, "rules")
    case Some(Arr(items)) => seq(|items|, i requires 0 <= i < |items| => AsObject(items[i]))
    case _ => []
  }

  /** Selects the names that `o` lacks. */
  function AbsentFrom(o: Object): string -> bool
  {
    f => !Has(o, f)
  }

  /** Selects the names outside `known`. */
  function OutsideOf(known: seq<string>): string -> bool
  {
    k => k !in known
  }

  /** The fields of `fields` that `o` lacks, in the order of `fields`. */
  function MissingFields(o: Object, fields: seq<string>): seq<string>
  {
    Filter(fields, AbsentFrom(o))
  }

  /** The property names of `o` outside `known`, in the order `o` holds them. */
  function UnknownKeys(o: Object, known: seq<string>): seq<string>
  {
    Filter(Keys(o), OutsideOf(known))
  }

  function MissingTopViolations(o: Object): seq<Violation>
  {
    var fs := MissingFields(o, RequiredTopFields);
    seq(|fs|, i requires 0 <= i < |fs| => MissingField(fs[i]))
  }

  function UnknownTopViolations(o: Object): seq<Violation>
  {
    var ks := UnknownKeys(o, RequiredTopFields);
    seq(|ks|, i requires 0 <= i < |ks| => UnknownProperty(ks[i]))
  }

  /** The missing-field problems of rule number `index`. */
  function RuleMissingViolations(index: nat, r: Object): seq<Violation>
  {
    var fs := MissingFields(r, RequiredRuleFields);
    seq(|fs|, i requires 0 <= i < |fs| => MissingRuleField(index, fs[i]))
  }

  /** The unknown-property problems of rule number `index`. */
  function RuleUnknownViolations(index: nat, r: Object): seq<Violation>
  {
    var ks := UnknownKeys(r, KnownRuleFields);
    seq(|ks|, i requires 0 <= i < |ks| => UnknownRuleProperty(index, ks[i]))
  }

  function MissingRulesViolations(rules: seq<Object>): seq<Violation>
  {
    if rules == [] then []
    else
      var n := |rules| - 1;
      MissingRulesViolations(rules[..n]) + RuleMissingViolations(n, rules[n])
  }

  function UnknownRulesViolations(rules: seq<Object>): seq<Violation>
  {
    if rules == [] then []
    else
      var n := |rules| - 1;
      UnknownRulesViolations(rules[..n]) + RuleUnknownViolations(n, rules[n])
  }

  /** Every problem of `o`, in report order. Rule problems are only looked for when `rules` is an
      array, so a configuration without `rules` reports no rule problems. */
  function Violations(o: Object): seq<Violation>
  {
    var rules := Rules(o);
    MissingTopViolations(o) + MissingRulesViolations(rules)
      + UnknownTopViolations(o) + UnknownRulesViolations(rules)
  }

  // ---------------------------------------------------------------------------------------------
  // What a problem is, and what a valid configuration is, stated without the report.

  /** `v` describes a real problem of `o`. */
  ghost predicate Problem(o: Object, v: Violation)
  {
    var rules := Rules(o);
    match v
    case MissingField(f) => f in RequiredTopFields && !Has(o, f)
    case MissingRuleField(i, f) => i < |rules| && f in RequiredRuleFields && !Has(rules[i], f)
    case UnknownProperty(k) => Has(o, k) && k !in RequiredTopFields
    case UnknownRuleProperty(i, k) => i < |rules| && Has(rules[i], k) && k !in KnownRuleFields
  }

  /** A rule with both required fields and no property besides the known ones. */
  ghost predicate IsValidRule(r: Object)
  {
    && (forall f :: f in RequiredRuleFields ==> Has(r, f))
    && (forall k :: Has(r, k) ==> k in KnownRuleFields)
  }

  /** A configuration with every required field, no unknown property and only valid rules. */
  ghost predicate IsValidConfig(o: Object)
  {
    && (forall f :: f in RequiredTopFields ==> Has(o, f))
    && (forall k :: Has(o, k) ==> k in RequiredTopFields)
    && (forall i :: 0 <= i < |Rules(o)| ==> IsValidRule(Rules(o)[i]))
  }

  /** No object in the configuration repeats a property name, as holds for every document built
      by a JavaScript program or a JSON parser. */
  predicate UniqueKeysThroughout(o: Object)
  {
    UniqueKeys(o) && forall i :: 0 <= i < |Rules(o)| ==> UniqueKeys(Rules(o)[i])
  }

  // ---------------------------------------------------------------------------------------------
  // The report lists exactly the problems.

  lemma MissingFieldsExact(o: Object, fields: seq<string>)
    ensures forall f :: f in MissingFields(o, fields) <==> f in fields && !Has(o, f)
  {
    forall f ensures f in MissingFields(o, fields) <==> f in fields && !Has(o, f) {
      assert AbsentFrom(o)(f) == !Has(o, f);
    }
  }

  lemma UnknownKeysExact(o: Object, known: seq<string>)
    ensures forall k :: k in UnknownKeys(o, known) <==> Has(o, k) && k !in known
  {
    forall k ensures k in UnknownKeys(o, known) <==> Has(o, k) && k !in known {
      assert OutsideOf(known)(k) == (k !in known);
    }
  }

  lemma {:induction false} MissingRulesExact(rules: seq<Object>, v: Violation)
    ensures v in MissingRulesViolations(rules) <==>
      v.MissingRuleField? && v.rule < |rules| && v.field in RequiredRuleFields
      && !Has(rules[v.rule], v.field)
  {
    if rules != [] {
      var n := |rules| - 1;
      MissingRulesExact(rules[..n], v);
      MissingFieldsExact(rules[n], RequiredRuleFields);
      var fs := MissingFields(rules[n], RequiredRuleFields);
      if v.MissingRuleField? && v.rule == n && v.field in fs {
        var k :| 0 <= k < |fs| && fs[k] == v.field;
        assert RuleMissingViolations(n, rules[n])[k] == v;
      }
    }
  }

  lemma {:induction false} UnknownRulesExact(rules: seq<Object>, v: Violation)
    ensures v in UnknownRulesViolations(rules) <==>
      v.UnknownRuleProperty? && v.rule < |rules| && Has(rules[v.rule], v.name)
      && v.name !in KnownRuleFields
  {
    if rules != [] {
      var n := |rules| - 1;
      UnknownRulesExact(rules[..n], v);
      UnknownKeysExact(rules[n], KnownRuleFields);
      var ks := UnknownKeys(rules[n], KnownRuleFields);
      if v.UnknownRuleProperty? && v.rule == n && v.name in ks {
        var k :| 0 <= k < |ks| && ks[k] == v.name;
        assert RuleUnknownViolations(n, rules[n])[k] == v;
      }
    }
  }

  lemma MissingTopExact(o: Object, v: Violation)
    ensures v in MissingTopViolations(o) <==>
      v.MissingField? && v.field in RequiredTopFields && !Has(o, v.field)
  {
    MissingFieldsExact(o, RequiredTopFields);
    var fs := MissingFields(o, RequiredTopFields);
    if v.MissingField? && v.field in fs {
      var k :| 0 <= k < |fs| && fs[k] == v.field;
      assert MissingTopViolations(o)[k] == v;
    }
  }

  lemma UnknownTopExact(o: Object, v: Violation)
    ensures v in UnknownTopViolations(o) <==>
      v.UnknownProperty? && Has(o, v.name) && v.name !in RequiredTopFields
  {
    UnknownKeysExact(o, RequiredTopFields);
    var ks := UnknownKeys(o, RequiredTopFields);
    if v.UnknownProperty? && v.name in ks {
      var k :| 0 <= k < |ks| && ks[k] == v.name;
      assert UnknownTopViolations(o)[k] == v;
    }
  }

  /** A violation is reported exactly when it describes a real problem: nothing is missed and
      nothing is invented. */
  lemma ViolationsExact(o: Object, v: Violation)
    ensures v in Violations(o) <==> Problem(o, v)
  {
    var rules := Rules(o);
    MissingTopExact(o, v);
    MissingRulesExact(rules, v);
    UnknownTopExact(o, v);
    UnknownRulesExact(rules, v);
  }

  /** A configuration is valid exactly when it has no problem. */
  lemma ValidIffNoProblem(o: Object)
    ensures IsValidConfig(o) <==> forall v :: !Problem(o, v)
  {
    var rules := Rules(o);
    if !IsValidConfig(o) {
      if f :| f in RequiredTopFields && !Has(o, f) {
        assert Problem(o, MissingField(f));
      } else if k :| Has(o, k) && k !in RequiredTopFields {
        assert Problem(o, UnknownProperty(k));
      } else {
        var i :| 0 <= i < |rules| && !IsValidRule(rules[i]);
        if f :| f in RequiredRuleFields && !Has(rules[i], f) {
          assert Problem(o, MissingRuleField(i, f));
        } else {
          var k :| Has(rules[i], k) && k !in KnownRuleFields;
          assert Problem(o, UnknownRuleProperty(i, k));
        }
      }
    }
  }

  /** The report is empty exactly for a valid configuration. */
  lemma NoViolationsIffValid(o: Object)
    ensures Violations(o) == [] <==> IsValidConfig(o)
  {
    ValidIffNoProblem(o);
    if Violations(o) == [] {
      forall v ensures !Problem(o, v) {
        ViolationsExact(o, v);
      }
    } else {
      ViolationsExact(o, Violations(o)[0]);
    }
  }

  // ---------------------------------------------------------------------------------------------
  // The report is ordered.

  /** Where a violation belongs in the report: its group, its rule index, and its position within
      the field declaration order or within the object's properties. */
  datatype Rank = Rank(group: nat, rule: nat, at: nat)

  predicate Precedes(a: Rank, b: Rank)
  {
    || a.group < b.group
    || (a.group == b.group && a.rule < b.rule)
    || (a.group == b.group && a.rule == b.rule && a.at < b.at)
  }

  function RankIn(o: Object, rules: seq<Object>, v: Violation): Rank
  {
    match v
    case MissingField(f) => Rank(0, 0, IndexOf(RequiredTopFields, f))
    case MissingRuleField(i, f) => Rank(1, i, IndexOf(RequiredRuleFields, f))
    case UnknownProperty(k) => Rank(2, 0, IndexOf(Keys(o), k))
    case UnknownRuleProperty(i, k) =>
      Rank(3, i, if i < |rules| then IndexOf(Keys(rules[i]), k) else 0)
  }

  function RankOf(o: Object, v: Violation): Rank
  {
    RankIn(o, Rules(o), v)
  }

  /** The report order on the violations of `o`. */
  function Before(o: Object): (Violation, Violation) -> bool
  {
    (x, y) => Precedes(RankOf(o, x), RankOf(o, y))
  }

  /** Every violation of `vs` comes strictly before the ones after it. */
  predicate InReportOrder(o: Object, vs: seq<Violation>)
  {
    StrictlyOrdered(vs, Before(o))
  }

  predicate OrderedIn(o: Object, rules: seq<Object>, vs: seq<Violation>)
  {
    forall i, j :: 0 <= i < j < |vs| ==> Precedes(RankIn(o, rules, vs[i]), RankIn(o, rules, vs[j]))
  }

  lemma OrderedConcat(o: Object, rules: seq<Object>, a: seq<Violation>, b: seq<Violation>)
    requires OrderedIn(o, rules, a) && OrderedIn(o, rules, b)
    requires forall x, y :: x in a && y in b ==> Precedes(RankIn(o, rules, x), RankIn(o, rules, y))
    ensures OrderedIn(o, rules, a + b)
  {
    var c := a + b;
    forall i, j | 0 <= i < j < |c| ensures Precedes(RankIn(o, rules, c[i]), RankIn(o, rules, c[j])) {
      if j < |a| {
        assert c[i] == a[i] && c[j] == a[j];
      } else if |a| <= i {
        assert c[i] == b[i - |a|] && c[j] == b[j - |a|];
      } else {
        assert c[i] in a && c[j] in b;
      }
    }
  }

  lemma RequiredFieldsDistinct()
    ensures Distinct(RequiredTopFields) && Distinct(RequiredRuleFields)
  {
  }

  lemma MissingTopOrdered(o: Object, rules: seq<Object>)
    ensures OrderedIn(o, rules, MissingTopViolations(o))
    ensures InGroup(o, rules, MissingTopViolations(o), 0)
  {
    var chunk := MissingTopViolations(o);
    RequiredFieldsDistinct();
    FilterKeepsOrder(RequiredTopFields, AbsentFrom(o));
    forall v | v in chunk ensures RankIn(o, rules, v).group == 0 {
      var i :| 0 <= i < |chunk| && chunk[i] == v;
    }
  }

  lemma UnknownTopOrdered(o: Object, rules: seq<Object>)
    requires UniqueKeys(o)
    ensures OrderedIn(o, rules, UnknownTopViolations(o))
    ensures InGroup(o, rules, UnknownTopViolations(o), 2)
  {
    var chunk := UnknownTopViolations(o);
    FilterKeepsOrder(Keys(o), OutsideOf(RequiredTopFields));
    forall v | v in chunk ensures RankIn(o, rules, v).group == 2 {
      var i :| 0 <= i < |chunk| && chunk[i] == v;
    }
  }

  lemma RuleMissingOrdered(o: Object, rules: seq<Object>, n: nat)
    requires n < |rules|
    ensures OrderedIn(o, rules, RuleMissingViolations(n, rules[n]))
    ensures forall v :: v in RuleMissingViolations(n, rules[n]) ==>
      RankIn(o, rules, v).group == 1 && RankIn(o, rules, v).rule == n
  {
    var chunk := RuleMissingViolations(n, rules[n]);
    var fs := MissingFields(rules[n], RequiredRuleFields);
    RequiredFieldsDistinct();
    FilterKeepsOrder(RequiredRuleFields, AbsentFrom(rules[n]));
    forall i, j | 0 <= i < j < |chunk|
      ensures Precedes(RankIn(o, rules, chunk[i]), RankIn(o, rules, chunk[j]))
    {
      assert RankIn(o, rules, chunk[i]) == Rank(1, n, IndexOf(RequiredRuleFields, fs[i]));
      assert RankIn(o, rules, chunk[j]) == Rank(1, n, IndexOf(RequiredRuleFields, fs[j]));
    }
    forall v | v in chunk ensures RankIn(o, rules, v).group == 1 && RankIn(o, rules, v).rule == n {
      var i :| 0 <= i < |chunk| && chunk[i] == v;
      assert v == MissingRuleField(n, fs[i]);
    }
  }

  lemma RuleUnknownOrdered(o: Object, rules: seq<Object>, n: nat)
    requires n < |rules| && UniqueKeys(rules[n])
    ensures OrderedIn(o, rules, RuleUnknownViolations(n, rules[n]))
    ensures forall v :: v in RuleUnknownViolations(n, rules[n]) ==>
      RankIn(o, rules, v).group == 3 && RankIn(o, rules, v).rule == n
  {
    var chunk := RuleUnknownViolations(n, rules[n]);
    var ks := UnknownKeys(rules[n], KnownRuleFields);
    FilterKeepsOrder(Keys(rules[n]), OutsideOf(KnownRuleFields));
    forall i, j | 0 <= i < j < |chunk|
      ensures Precedes(RankIn(o, rules, chunk[i]), RankIn(o, rules, chunk[j]))
    {
      assert RankIn(o, rules, chunk[i]) == Rank(3, n, IndexOf(Keys(rules[n]), ks[i]));
      assert RankIn(o, rules, chunk[j]) == Rank(3, n, IndexOf(Keys(rules[n]), ks[j]));
    }
    forall v | v in chunk ensures RankIn(o, rules, v).group == 3 && RankIn(o, rules, v).rule == n {
      var i :| 0 <= i < |chunk| && chunk[i] == v;
      assert v == UnknownRuleProperty(n, ks[i]);
    }
  }

  /** The problems of rules before rule `n`, then those of rule `n`, stay in report order. */
  lemma NextRuleChunk(o: Object, rules: seq<Object>, a: seq<Violation>, b: seq<Violation>, n: nat, g: nat)
    requires OrderedIn(o, rules, a) && OrderedIn(o, rules, b)
    requires InGroup(o, rules, a, g) && forall v :: v in a ==> RankIn(o, rules, v).rule < n
    requires forall v :: v in b ==> RankIn(o, rules, v).group == g && RankIn(o, rules, v).rule == n
    ensures OrderedIn(o, rules, a + b) && InGroup(o, rules, a + b, g)
    ensures forall v :: v in a + b ==> RankIn(o, rules, v).rule < n + 1
  {
    OrderedConcat(o, rules, a, b);
  }

  lemma {:induction false} MissingRulesOrdered(o: Object, rules: seq<Object>, prefix: nat)
    requires prefix <= |rules|
    ensures OrderedIn(o, rules, MissingRulesViolations(rules[..prefix]))
    ensures InGroup(o, rules, MissingRulesViolations(rules[..prefix]), 1)
    ensures forall v :: v in MissingRulesViolations(rules[..prefix]) ==> RankIn(o, rules, v).rule < prefix
  {
    if prefix > 0 {
      var n := prefix - 1;
      var front := rules[..prefix];
      assert front[..n] == rules[..n] && front[n] == rules[n];
      assert MissingRulesViolations(front)
        == MissingRulesViolations(rules[..n]) + RuleMissingViolations(n, rules[n]);
      MissingRulesOrdered(o, rules, n);
      RuleMissingOrdered(o, rules, n);
      NextRuleChunk(o, rules, MissingRulesViolations(rules[..n]), RuleMissingViolations(n, rules[n]), n, 1);
    }
  }

  lemma {:induction false} UnknownRulesOrdered(o: Object, rules: seq<Object>, prefix: nat)
    requires prefix <= |rules|
    requires forall i :: 0 <= i < |rules| ==> UniqueKeys(rules[i])
    ensures OrderedIn(o, rules, UnknownRulesViolations(rules[..prefix]))
    ensures InGroup(o, rules, UnknownRulesViolations(rules[..prefix]), 3)
    ensures forall v :: v in UnknownRulesViolations(rules[..prefix]) ==> RankIn(o, rules, v).rule < prefix
  {
    if prefix > 0 {
      var n := prefix - 1;
      var front := rules[..prefix];
      assert front[..n] == rules[..n] && front[n] == rules[n];
      assert UnknownRulesViolations(front)
        == UnknownRulesViolations(rules[..n]) + RuleUnknownViolations(n, rules[n]);
      UnknownRulesOrdered(o, rules, n);
      RuleUnknownOrdered(o, rules, n);
      NextRuleChunk(o, rules, UnknownRulesViolations(rules[..n]), RuleUnknownViolations(n, rules[n]), n, 3);
    }
  }

  /** Every violation of `vs` belongs to group `g` or an earlier one. */
  predicate UpToGroup(o: Object, rules: seq<Object>, vs: seq<Violation>, g: nat)
  {
    forall v :: v in vs ==> RankIn(o, rules, v).group <= g
  }

  /** Every violation of `vs` belongs to group `g`. */
  predicate InGroup(o: Object, rules: seq<Object>, vs: seq<Violation>, g: nat)
  {
    forall v :: v in vs ==> RankIn(o, rules, v).group == g
  }

  lemma OrderedGroups(o: Object, rules: seq<Object>, a: seq<Violation>, b: seq<Violation>, ga: nat, gb: nat)
    requires OrderedIn(o, rules, a) && OrderedIn(o, rules, b)
    requires UpToGroup(o, rules, a, ga) && InGroup(o, rules, b, gb) && ga < gb
    ensures OrderedIn(o, rules, a + b) && UpToGroup(o, rules, a + b, gb)
  {
    OrderedConcat(o, rules, a, b);
  }

  /** In a configuration whose objects do not repeat property names, the report lists its
      problems group by group, each group in the order stated at the top of this module. */
  lemma ViolationsOrdered(o: Object)
    requires UniqueKeysThroughout(o)
    ensures InReportOrder(o, Violations(o))
  {
    var rules := Rules(o);
    var a := MissingTopViolations(o);
    var b := MissingRulesViolations(rules);
    var c := UnknownTopViolations(o);
    var d := UnknownRulesViolations(rules);
    assert rules[..|rules|] == rules;
    MissingTopOrdered(o, rules);
    MissingRulesOrdered(o, rules, |rules|);
    UnknownTopOrdered(o, rules);
    UnknownRulesOrdered(o, rules, |rules|);
    assert UpToGroup(o, rules, a, 0);
    OrderedGroups(o, rules, a, b, 0, 1);
    OrderedGroups(o, rules, a + b, c, 1, 2);
    OrderedGroups(o, rules, a + b + c, d, 2, 3);
    assert Violations(o) == a + b + c + d;
    ReportOrderFromRanks(o, Violations(o));
  }

  lemma ReportOrderFromRanks(o: Object, vs: seq<Violation>)
    requires OrderedIn(o, Rules(o), vs)
    ensures InReportOrder(o, vs)
  {
    forall i, j | 0 <= i < j < |vs| ensures Before(o)(vs[i], vs[j]) {
      assert Precedes(RankIn(o, Rules(o), vs[i]), RankIn(o, Rules(o), vs[j]));
    }
  }

  /** Two lists in report order that hold the same violations are the same list: the problems of a
      configuration determine its report. */
  lemma ReportIsDetermined(o: Object, a: seq<Violation>, b: seq<Violation>)
    requires InReportOrder(o, a) && InReportOrder(o, b)
    requires forall v :: v in a <==> v in b
    ensures a == b
  {
    StrictlyOrderedDetermined(a, b, Before(o));
  }

  /** For a configuration whose objects do not repeat property names, the report is the one list,
      in report order, of exactly its problems. */
  lemma ViolationsAre(o: Object, expected: seq<Violation>)
    requires UniqueKeysThroughout(o)
    requires InReportOrder(o, expected)
    requires forall v :: v in expected <==> Problem(o, v)
    ensures Violations(o) == expected
  {
    ViolationsOrdered(o);
    forall v ensures v in Violations(o) <==> Problem(o, v) {
      ViolationsExact(o, v);
    }
    ReportIsDetermined(o, Violations(o), expected);
  }

  // ---------------------------------------------------------------------------------------------
  // Validation.

  /** Validates a configuration: a valid one comes back unchanged, and an invalid one is rejected
      with the list of all its problems, in report order. Documents are values here, so the
      configuration handed back shares nothing a caller could change. */
  function Validate(o: Object): (r: Result<Object, seq<Violation>>)
    ensures r.Ok? <==> IsValidConfig(o)
    ensures r.Ok? ==> r.value == o
    ensures r.Err? ==> r.error != [] && forall v :: v in r.error <==> Problem(o, v)
    ensures r.Err? && UniqueKeysThroughout(o) ==> InReportOrder(o, r.error)
    ensures r.Err? ==> r.error == Violations(o)
  {
    var vs := Violations(o);
    NoViolationsIffValid(o);
    assert forall v :: v in vs <==> Problem(o, v) by {
      forall v ensures v in vs <==> Problem(o, v) {
        ViolationsExact(o, v);
      }
    }
    if vs == [] then Ok(o)
    else
      assert UniqueKeysThroughout(o) ==> InReportOrder(o, vs) by {
        if UniqueKeysThroughout(o) {
          ViolationsOrdered(o);
        }
      }
      Err(vs)
  }

  // ---------------------------------------------------------------------------------------------
  // The error message and the log.

  /** The report line for one violation. */
  function Describe(v: Violation): string
  {
    match v
    case MissingField(f) => "missing " + f
    case MissingRuleField(i, f) => "rule " + Decimal.NatToString(i) + " missing " + f
    case UnknownProperty(k) => "unknown property " + k
    case UnknownRuleProperty(i, k) => "rule " + Decimal.NatToString(i) + " contains unknown property " + k
  }

  /** Distinct violations are reported on distinct lines: a report line names its violation. */
  lemma DescribeInjective(a: Violation, b: Violation)
    requires Describe(a) == Describe(b)
    ensures a == b
  {
    LineHead(a);
    LineHead(b);
    if (a.MissingRuleField? || a.UnknownRuleProperty?) && (b.MissingRuleField? || b.UnknownRuleProperty?) {
      NumberedLineCancel(a, b);
    } else if a.MissingField? && b.MissingField? {
      PrefixCancel("missing ", a.field, b.field);
    } else if a.UnknownProperty? && b.UnknownProperty? {
      PrefixCancel("unknown property ", a.name, b.name);
    }
  }

  /** The first letter of a report line tells its kind of violation. */
  lemma LineHead(v: Violation)
    ensures |Describe(v)| > 0
    ensures Describe(v)[0] == match v
      case MissingField(_) => 'm'
      case UnknownProperty(_) => 'u'
      case _ => 'r'
  {
  }

  /** What follows the rule index on a rule's report line. */
  function RuleLineTail(v: Violation): string
    requires v.MissingRuleField? || v.UnknownRuleProperty?
  {
    if v.MissingRuleField? then " missing " + v.field else " contains unknown property " + v.name
  }

  lemma RuleLine(v: Violation)
    requires v.MissingRuleField? || v.UnknownRuleProperty?
    ensures Describe(v) == "rule " + (Decimal.NatToString(v.rule) + RuleLineTail(v))
  {
  }

  lemma RuleLineTailCancel(a: Violation, b: Violation)
    requires a.MissingRuleField? || a.UnknownRuleProperty?
    requires b.MissingRuleField? || b.UnknownRuleProperty?
    requires a.rule == b.rule && RuleLineTail(a) == RuleLineTail(b)
    ensures a == b
  {
    TailHead(a);
    TailHead(b);
    if a.MissingRuleField? && b.MissingRuleField? {
      PrefixCancel(" missing ", a.field, b.field);
    } else if a.UnknownRuleProperty? && b.UnknownRuleProperty? {
      PrefixCancel(" contains unknown property ", a.name, b.name);
    }
  }

  lemma TailHead(v: Violation)
    requires v.MissingRuleField? || v.UnknownRuleProperty?
    ensures |RuleLineTail(v)| > 1 && RuleLineTail(v)[1] == if v.MissingRuleField? then 'm' else 'c'
  {
  }

  lemma NumberedLineCancel(a: Violation, b: Violation)
    requires a.MissingRuleField? || a.UnknownRuleProperty?
    requires b.MissingRuleField? || b.UnknownRuleProperty?
    requires Describe(a) == Describe(b)
    ensures a == b
  {
    var ta, tb := RuleLineTail(a), RuleLineTail(b);
    RuleLine(a);
    RuleLine(b);
    PrefixCancel("rule ", Decimal.NatToString(a.rule) + ta, Decimal.NatToString(b.rule) + tb);
    IndexThenTail(a.rule, ta, b.rule, tb);
    RuleLineTailCancel(a, b);
  }

  /** A rule index followed by text starting with a space reads back as that index and text. */
  lemma IndexThenTail(i: nat, x: string, j: nat, y: string)
    requires x != [] && x[0] == ' ' && y != [] && y[0] == ' '
    requires Decimal.NatToString(i) + x == Decimal.NatToString(j) + y
    ensures i == j && x == y
  {
    var s, t := Decimal.NatToString(i), Decimal.NatToString(j);
    assert s == (s + x)[..|s|] && t == (t + y)[..|t|];
    Decimal.NatToStringInjective(i, j);
    PrefixCancel(s, x, y);
  }

  const ErrorHeader: string := "Invalid configuration:"

  /** What precedes each report line. */
  const LineBreak: string := "\n  "

  /** Each violation's line, preceded by a line break and indentation. */
  function IndentedLines(vs: seq<Violation>): string
  {
    if vs == [] then "" else LineBreak + Describe(vs[0]) + IndentedLines(vs[1..])
  }

  /** The message of the error a rejected configuration raises. */
  function ErrorMessage(vs: seq<Violation>): string
  {
    ErrorHeader + IndentedLines(vs)
  }

  /** The number of characters in all of `parts`. */
  function TotalLength(parts: seq<string>): nat
  {
    if parts == [] then 0 else |parts[0]| + TotalLength(parts[1..])
  }

  /** `parts` joined with `sep` between consecutive parts, as `Array.prototype.join` does: the
      parts' characters plus one separator fewer than there are parts. */
  function Join(parts: seq<string>, sep: string): (r: string)
    ensures parts == [] ==> r == ""
    ensures parts != [] ==> |r| == TotalLength(parts) + (|parts| - 1) * |sep|
  {
    if parts == [] then ""
    else if |parts| == 1 then parts[0]
    else parts[0] + sep + Join(parts[1..], sep)
  }

  function DescribeAll(vs: seq<Violation>): (lines: seq<string>)
    ensures |lines| == |vs| && forall i :: 0 <= i < |vs| ==> lines[i] == Describe(vs[i])
  {
    if vs == [] then [] else [Describe(vs[0])] + DescribeAll(vs[1..])
  }

  /** A non-empty report reads as the header, a line break, and the violation lines joined by line
      breaks. */
  lemma {:induction false} ErrorMessageJoinsLines(vs: seq<Violation>)
    requires vs != []
    ensures ErrorMessage(vs) == ErrorHeader + LineBreak + Join(DescribeAll(vs), LineBreak)
  {
    IndentedLinesJoin(vs);
  }

  lemma {:induction false} IndentedLinesJoin(vs: seq<Violation>)
    requires vs != []
    ensures IndentedLines(vs) == LineBreak + Join(DescribeAll(vs), LineBreak)
  {
    var lines := DescribeAll(vs);
    if |vs| == 1 {
      assert IndentedLines(vs[1..]) == "";
      assert Join(lines, LineBreak) == Describe(vs[0]);
    } else {
      IndentedLinesJoin(vs[1..]);
      assert lines[1..] == DescribeAll(vs[1..]);
      assert Join(lines, LineBreak) == Describe(vs[0]) + LineBreak + Join(lines[1..], LineBreak);
    }
  }

  /** Where the configuration is read from when none is passed in. */
  const DefaultConfigPath: string := "config/slack-github-issues.json"

  /** The configuration file: the path named by the environment variable when it is set, the
      default path otherwise. */
  function ConfigPath(envPath: Option<string>): string
  {
    match envPath
    case Some(p) => p
    case None => DefaultConfigPath
  }

  /** A log line, prefixed with the script's name. */
  function LogLine(scriptName: string, text: string): string
  {
    scriptName + ": " + text
  }

  /** What constructing a configuration produces: the configuration or the error it raises, and
      the lines it logs. */
  datatype Loaded = Loaded(config: Result<Object, string>, log: seq<string>)

  /** Constructs a configuration from `given` when one is passed in, otherwise from the document
      `documentAt` finds at `ConfigPath(envPath)` (reading a file is a parameter of the model);
      reading from a file is announced in the log, and a rejection is logged before it is raised. */
  function NewConfig(scriptName: string, given: Option<Object>, envPath: Option<string>,
                     documentAt: string -> Object): (r: Loaded)
    ensures var source := if given.Some? then given.value else documentAt(ConfigPath(envPath));
      && (r.config.Ok? <==> IsValidConfig(source))
      && (r.config.Ok? ==> r.config.value == source)
      && (r.config.Err? ==> r.config.error == ErrorMessage(Violations(source)))
    ensures var announced := if given.Some? then [] else [LogLine(scriptName, "loading config from " + ConfigPath(envPath))];
      r.log == announced + if r.config.Ok? then [] else [LogLine(scriptName, r.config.error)]
  {
    var source := if given.Some? then given.value else documentAt(ConfigPath(envPath));
    var announced := if given.Some? then [] else [LogLine(scriptName, "loading config from " + ConfigPath(envPath))];
    var checked := Validate(source);
    if checked.Ok? then Loaded(Ok(source), announced)
    else
      var message := ErrorMessage(checked.error);
      Loaded(Err(message), announced + [LogLine(scriptName, message)])
  }
}

