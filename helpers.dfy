/** The fixture values and message builders the tests compare the program's logs and requests
    against, and the rule-matching expectation documented on the test configuration. */
module Helpers {
  import opened Wrappers
  import opened Json
  import Config

  const GithubUser: string := "18F"
  const Repository: string := "handbook"
  const Reaction: string := "evergreen_tree"
  const SuccessReaction: string := "heavy_check_mark"
  const UserId: string := "U5150OU812"
  const ChannelId: string := "C5150OU812"
  const Timestamp: string := "1360782804.083113"
  const MsgId: string := "C5150OU812:1360782804.083113"
  const Permalink: string := "https://18f.slack.com/archives/handbook/p1360782804083113"
  const IssueUrl: string := "https://github.com/18F/handbook/issues/1"

  /** The message key is the channel and the message timestamp, joined by a colon. */
  lemma MsgIdIsMessageKey()
    ensures MsgId == ChannelId + ":" + Timestamp
  {
  }

  // ---------------------------------------------------------------------------------------------
  // Prefixes.

  /** What follows `prefix` in `s`, when `s` starts with `prefix`. */
  function StripPrefix(prefix: string, s: string): (r: Option<string>)
    ensures r.Some? <==> |prefix| <= |s| && s[..|prefix|] == prefix
    ensures r.Some? ==> prefix + r.value == s
  {
    if |prefix| <= |s| && s[..|prefix|] == prefix then
      assert s == s[..|prefix|] + s[|prefix|..];
      Some(s[|prefix|..])
    else None
  }

  /** Stripping a prefix undoes prepending it. */
  lemma StripPrepended(prefix: string, rest: string)
    ensures StripPrefix(prefix, prefix + rest) == Some(rest)
  {
    assert (prefix + rest)[..|prefix|] == prefix;
    assert (prefix + rest)[|prefix|..] == rest;
  }

  // ---------------------------------------------------------------------------------------------
  // Log lines.

  /** What every log line about the fixture message starts with: the script name and the
      message key. */
  function LogPrefix(scriptName: string): string
  {
    scriptName + ": " + MsgId + ": "
  }

  /** A log line about the fixture message. */
  function LogMessage(scriptName: string, message: string): (line: string)
    ensures StripPrefix(LogPrefix(scriptName), line) == Some(message)
    ensures |line| == |scriptName| + |MsgId| + 4 + |message|
  {
    var line := LogPrefix(scriptName) + message;
    StripPrepended(LogPrefix(scriptName), message);
    line
  }

  /** The message of a log line is recovered from the line, so distinct messages never log alike. */
  lemma LogMessageInjective(scriptName: string, a: string, b: string)
    requires LogMessage(scriptName, a) == LogMessage(scriptName, b)
    ensures a == b
  {
  }

  /** A line that starts with the log prefix is the log line of what follows the prefix. */
  lemma LogMessageOfStripped(scriptName: string, line: string)
    requires StripPrefix(LogPrefix(scriptName), line).Some?
    ensures LogMessage(scriptName, StripPrefix(LogPrefix(scriptName), line).value) == line
  {
  }

  /** The log line naming the message whose reactions are fetched. */
  function GetReactionsLogMessage(scriptName: string): (line: string)
    ensures StripPrefix(LogPrefix(scriptName), line) == Some("getting reactions for " + Permalink)
  {
    LogMessage(scriptName, "getting reactions for " + Permalink)
  }

  /** The log line naming the message an issue is requested for. */
  function GithubLogMessage(scriptName: string): (line: string)
    ensures StripPrefix(LogPrefix(scriptName), line) == Some("making GitHub request for " + Permalink)
  {
    LogMessage(scriptName, "making GitHub request for " + Permalink)
  }

  /** The log line announcing the success reaction. */
  function AddSuccessReactionLogMessage(scriptName: string): (line: string)
    ensures StripPrefix(LogPrefix(scriptName), line) == Some("adding " + SuccessReaction)
  {
    LogMessage(scriptName, "adding " + SuccessReaction)
  }

  /** The log line naming the rule that matched, given the rule's JSON text. */
  function MatchingRuleLogMessage(scriptName: string, ruleJson: string): (line: string)
    ensures StripPrefix(LogPrefix(scriptName), line) == Some("matches rule: " + ruleJson)
  {
    LogMessage(scriptName, "matches rule: " + ruleJson)
  }

  /** The log line reporting the created issue. */
  function SuccessLogMessage(scriptName: string): (line: string)
    ensures StripPrefix(LogPrefix(scriptName), line) == Some("created: " + IssueUrl)
  {
    LogMessage(scriptName, "created: " + IssueUrl)
  }

  /** What a failure message starts with: the repository the issue was meant for. */
  function FailurePrefix(): string
  {
    "failed to create a GitHub issue in " + GithubUser + "/" + Repository + ": "
  }

  /** The error reported when the issue could not be created, ending with the cause. */
  function FailureMessage(message: string): (r: string)
    ensures StripPrefix(FailurePrefix(), r) == Some(message)
  {
    var r := FailurePrefix() + message;
    StripPrepended(FailurePrefix(), message);
    r
  }

  lemma FailurePrefixText()
    ensures FailurePrefix() == "failed to create a GitHub issue in 18F/handbook: "
  {
  }

  /** The log line of a failure: the log prefix, the failure prefix, then the cause, which is
      recovered from the line. */
  function FailureLogMessage(scriptName: string, message: string): (line: string)
    ensures StripPrefix(LogPrefix(scriptName), line) == Some(FailureMessage(message))
    ensures StripPrefix(LogPrefix(scriptName) + FailurePrefix(), line) == Some(message)
  {
    var line := LogMessage(scriptName, FailureMessage(message));
    assert line == (LogPrefix(scriptName) + FailurePrefix()) + message;
    StripPrepended(LogPrefix(scriptName) + FailurePrefix(), message);
    line
  }

  /** A failure is never logged as a success: after the log prefix, one line reads "created"
      and the other "failed". */
  lemma SuccessIsNotFailure(scriptName: string, message: string)
    ensures SuccessLogMessage(scriptName) != FailureLogMessage(scriptName, message)
  {
    var success := "created: " + IssueUrl;
    var failure := FailureMessage(message);
    assert success[0] == 'c';
    assert failure[0] == FailurePrefix()[0] == 'f';
    if SuccessLogMessage(scriptName) == FailureLogMessage(scriptName, message) {
      LogMessageInjective(scriptName, success, failure);
    }
  }

  // ---------------------------------------------------------------------------------------------
  // The issue request.

  /** What the tests expect to be resolved about the fixture message; its date is left out. */
  datatype Metadata = Metadata(channel: string, timestamp: string, url: string, title: string)

  /** The issue title for a channel and a formatted date. */
  function Title(channel: string, date: string): string
  {
    "Update from #" + channel + " at " + date
  }

  const FixtureDate: string := "Wed, 13 Feb 2013 19:13:24 GMT"

  function FixtureMetadata(): Metadata
  {
    Metadata("handbook", Timestamp, Permalink, "Update from #handbook at Wed, 13 Feb 2013 19:13:24 GMT")
  }

  /** Solver help: the title prefix for the fixture channel, as one literal. */
  lemma LiteralConcatTitlePrefix()
    ensures "Update from #" + "handbook" + " at " == "Update from #handbook at "
  {
  }

  /** Solver help: the fixture's title, as one literal. */
  lemma LiteralConcatTitle()
    ensures "Update from #handbook at " + FixtureDate == "Update from #handbook at Wed, 13 Feb 2013 19:13:24 GMT"
  {
  }

  /** The fixture's title is the title of its channel at the formatted fixture date. */
  lemma FixtureTitle()
    ensures FixtureMetadata().title == Title(FixtureMetadata().channel, FixtureDate)
  {
    LiteralConcatTitlePrefix();
    LiteralConcatTitle();
  }

  /** The parameters of the issue request. */
  datatype IssueParams = IssueParams(title: string, body: string)

  /** The request parameters taken from the resolved metadata: the title, and the permalink as
      the body. */
  function GithubParams(m: Metadata): (r: IssueParams)
    ensures r.title == m.title && r.body == m.url
  {
    IssueParams(m.title, m.url)
  }

  /** For the fixture, the issue body links back to the message. */
  lemma FixtureGithubParams()
    ensures GithubParams(FixtureMetadata())
      == IssueParams(Title("handbook", FixtureDate), Permalink)
  {
    FixtureTitle();
  }

  // ---------------------------------------------------------------------------------------------
  // Rules.

  /** A configured rule: the reaction it reacts to, the repository issues go to, and the channels
      it is restricted to, if any. */
  datatype Rule = Rule(reactionName: string, githubRepository: string, channelNames: Option<seq<string>>)

  /** The extra rule the tests build: the fixture reaction, restricted to the `hub` channel. */
  function ConfigRule(): (r: Object)
    ensures Config.IsValidRule(r) && UniqueKeys(r)
  {
    var r := [ Field("reactionName", Str(Reaction)),
               Field("githubRepository", Str("hubot-slack-github-issues")),
               Field("channelNames", Arr([Str("hub")])) ];
    assert Keys(r[2..]) == ["channelNames"];
    assert Keys(r[1..]) == ["githubRepository"] + Keys(r[2..]);
    assert Keys(r) == Config.KnownRuleFields;
    r
  }

  /** The strings of a JSON array, when every element is a string. */
  function Strings(items: seq<Value>): (r: Option<seq<string>>)
    ensures r.Some? ==> |r.value| == |items| && forall i :: 0 <= i < |items| ==> items[i] == Str(r.value[i])
    ensures r.None? ==> exists i :: 0 <= i < |items| && !items[i].Str?
  {
    if items == [] then Some([])
    else if !items[0].Str? then None
    else match Strings(items[1..])
      case None =>
        var i :| 0 <= i < |items| - 1 && !items[1..][i].Str?;
        assert !items[i + 1].Str?;
        None
      case Some(rest) => Some([items[0].s] + rest)
  }

  lemma StringsOfOne(x: string)
    ensures Strings([Str(x)]) == Some([x])
  {
    assert [Str(x)][1..] == [];
    assert Strings([]) == Some([]);
    assert [x] + [] == [x];
  }

  /** `o` has the shape of a rule: both required fields are strings, and `channelNames`, when
      present, is an array of strings. */
  predicate RuleShaped(o: Object)
  {
    && Get(o, "reactionName").Some? && Get(o, "reactionName").value.Str?
    && Get(o, "githubRepository").Some? && Get(o, "githubRepository").value.Str?
    && (Get(o, "channelNames").None?
        || (Get(o, "channelNames").value.Arr? && Strings(Get(o, "channelNames").value.items).Some?))
  }

  /** Reads a rule object: it succeeds exactly on rule-shaped objects, and carries the object's
      reaction, repository and channel names. */
  function ReadRule(o: Object): (r: Option<Rule>)
    ensures r.Some? <==> RuleShaped(o)
    ensures r.Some? ==> Get(o, "reactionName") == Some(Str(r.value.reactionName))
    ensures r.Some? ==> Get(o, "githubRepository") == Some(Str(r.value.githubRepository))
    ensures r.Some? ==> (r.value.channelNames.None? <==> !Has(o, "channelNames"))
    ensures r.Some? && r.value.channelNames.Some? ==>
      && Get(o, "channelNames").Some? && Get(o, "channelNames").value.Arr?
      && Strings(Get(o, "channelNames").value.items) == r.value.channelNames
  {
    match (Get(o, "reactionName"), Get(o, "githubRepository"), Get(o, "channelNames"))
    case (Some(Str(reaction)), Some(Str(repository)), None) => Some(Rule(reaction, repository, None))
    case (Some(Str(reaction)), Some(Str(repository)), Some(Arr(items))) =>
      (match Strings(items)
       case Some(names) => Some(Rule(reaction, repository, Some(names)))
       case None => None)
    case _ => None
  }

  /** A rule applies to a reaction in a channel when the reaction is its own and it is not
      restricted to other channels; an absent or empty channel list restricts nothing. */
  predicate Matches(rule: Rule, reaction: string, channel: string)
  {
    && rule.reactionName == reaction
    && (rule.channelNames.None? || rule.channelNames.value == [] || channel in rule.channelNames.value)
  }

  /** The rule the tests build reads back as the fixture reaction restricted to `hub`, so it applies
      in `hub` and in no other channel. */
  lemma ConfigRuleApplies(channel: string)
    ensures ReadRule(ConfigRule()) == Some(Rule(Reaction, "hubot-slack-github-issues", Some(["hub"])))
    ensures Matches(ReadRule(ConfigRule()).value, Reaction, channel) <==> channel == "hub"
  {
    var o := ConfigRule();
    GetCons(o[0], o[1..]);
    assert o[1..] == [o[1]] + o[2..];
    GetCons(o[1], o[2..]);
    assert o[2..] == [o[2]] + [];
    GetCons(o[2], []);
    StringsOfOne("hub");
  }

  /** The index of the first rule that applies, in declaration order. */
  function FindMatchingRule(rules: seq<Rule>, reaction: string, channel: string): (r: Option<nat>)
    ensures r.Some? ==> r.value < |rules| && Matches(rules[r.value], reaction, channel)
    ensures r.Some? ==> forall j :: 0 <= j < r.value ==> !Matches(rules[j], reaction, channel)
    ensures r.None? <==> forall j :: 0 <= j < |rules| ==> !Matches(rules[j], reaction, channel)
  {
    if rules == [] then None
    else if Matches(rules[0], reaction, channel) then Some(0)
    else match FindMatchingRule(rules[1..], reaction, channel)
      case None => None
      case Some(k) => Some(k + 1)
  }

  /** The first applicable rule is the one chosen, even when a later rule applies too. */
  lemma FirstMatchWins(rules: seq<Rule>, reaction: string, channel: string, i: nat)
    requires i < |rules| && Matches(rules[i], reaction, channel)
    requires forall j :: 0 <= j < i ==> !Matches(rules[j], reaction, channel)
    ensures FindMatchingRule(rules, reaction, channel) == Some(i)
  {
    var r := FindMatchingRule(rules, reaction, channel);
    assert r.Some?;
    if r.value < i {
    } else if r.value > i {
    }
  }

  /** The test configuration's rules, as documented on it: the first reacts to the fixture
      reaction but only in channels other than `channel`, the second to another reaction, and the
      third to the fixture reaction in any channel. The third is chosen. */
  lemma BaseRulesChooseThird(rules: seq<Rule>, channel: string)
    requires |rules| == 3
    requires rules[0].reactionName == Reaction && rules[0].channelNames.Some?
    requires rules[0].channelNames.value != [] && channel !in rules[0].channelNames.value
    requires !Matches(rules[1], Reaction, channel)
    requires rules[2].reactionName == Reaction
    requires rules[2].channelNames.None? || rules[2].channelNames.value == []
    ensures FindMatchingRule(rules, Reaction, channel) == Some(2)
  {
    FirstMatchWins(rules, Reaction, channel, 2);
  }
}
