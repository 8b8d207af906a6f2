# Configuration validation and test-message builders of hubot-slack-github-issues

This project models two parts of the Slack-to-GitHub issue bot's unit-testing tutorial code.

**The configuration check.** The configuration has five required top-level fields: `githubUser`, `githubTimeout`, `slackTimeout`, `successReaction` and `rules`. `rules` is a list of rules. Each rule has a `reactionName`, a `githubRepository` and an optional `channelNames`. The model states what constructing a `Config` does:

- A valid configuration passed in comes back unchanged and nothing is logged. One read from a file comes back unchanged too, and the log holds the line announcing the path.
- An invalid one raises one error whose message is `Invalid configuration:` followed by one `\n  <problem>` line per problem, and that message is logged once, prefixed with the script name.
- Problems are listed in this order:
  - missing top-level fields, in declaration order;
  - missing rule fields, by rule index and then field order;
  - unknown top-level properties, in the order the object holds them;
  - unknown rule properties, by rule index and then property order.
- When no configuration is passed in, it is read from the path named by the environment, or from `config/slack-github-issues.json`. The log announces which path was used.

Configuration documents are JSON values whose objects keep their properties in the order they were added (module `Json`). The report is a list of `Violation`s rendered to text (module `Config`).

The properties proved:

- The report lists exactly the problems of the configuration (`Config.ViolationsExact`).
- It is in report order (`Config.ViolationsOrdered`), for documents in which no object repeats a property name, as every JavaScript object is.
- It is the only list with both properties (`Config.ViolationsAre`).
- It is empty exactly when the configuration is valid (`Config.NoViolationsIffValid`).

Each test of the configuration suite is a lemma of `ConfigScenarios`. It is stated for every configuration of the shape the test builds, not only for the fixture file.

**The test helpers.** These are the fixture constants and the builders of the log lines, the failure message and the issue request the tests expect (module `Helpers`). Each log-line and failure-message builder is stated through a partner, `StripPrefix`: the message is recovered from the line it builds, so distinct messages never produce the same line. The issue request is stated by its fields. Also stated here is the rule-matching expectation documented on the test configuration: the first applicable rule in declaration order is chosen, and a channel restriction can make the matcher skip an earlier rule.

Source paths below are relative to the repository root.

## Model

| member | source | states |
|---|---|---|
| Json.Get | solutions/complete/test/config-test.js:77-78 | a property is found exactly when the object has it, and what is found is the value stored under that name |
| Json.Put | solutions/complete/test/config-test.js:95-97 | after `o[k] = v` the assigned property is among the object's fields, and the object grows by one property exactly when `k` is new |
| Json.PutGet | solutions/complete/test/config-test.js:95-97 | after `o[k] = v`, `k` holds `v` and every other property keeps its value |
| Json.PutKeys | solutions/complete/test/config-test.js:95-97 | assignment keeps the names and their order, and appends a new name last |
| Json.HasPut | solutions/complete/test/config-test.js:95-96 | after assignment the object has the new name and all the names it had |
| Json.PutUnique | solutions/complete/test/config-test.js:95-97 | assignment never repeats a property name |
| Json.Delete | solutions/complete/test/config-test.js:77-78 | deleting a property removes `k`, keeps every other property's value, and keeps the remaining names in order |
| Json.DeleteUnique | solutions/complete/test/config-test.js:77-78 | deletion never repeats a property name |
| Decimal.NatToString | solutions/complete/test/config-test.js:82-83 | a rule index prints as a non-empty string of decimal digits with no leading zero |
| Decimal.NatToStringRoundTrip | solutions/complete/test/config-test.js:108-109 | reading the printed digits back gives the index |
| Decimal.NatToStringInjective | solutions/complete/test/config-test.js:108-109 | two different rule indices never print alike |
| Config.MissingFieldsExact | solutions/complete/test/config-test.js:59-64 | the missing fields are exactly the listed fields the object lacks |
| Config.UnknownKeysExact | solutions/complete/test/config-test.js:106-107 | the unknown names are exactly the object's names outside the known ones |
| Config.MissingTopExact | solutions/complete/test/config-test.js:59-64 | a missing-field problem is reported exactly for a required top-level field that is absent |
| Config.MissingRulesExact | solutions/complete/test/config-test.js:80-83 | a missing-rule-field problem is reported exactly for an existing rule lacking a required field |
| Config.UnknownTopExact | solutions/complete/test/config-test.js:106-107 | an unknown-property problem is reported exactly for a present top-level name outside the required ones |
| Config.UnknownRulesExact | solutions/complete/test/config-test.js:108-109 | an unknown-rule-property problem is reported exactly for a rule property outside the known rule fields |
| Config.Violations | solutions/complete/test/config-test.js:58-115 | the validator's report: missing top-level fields, missing rule fields, unknown top-level properties, unknown rule properties; what it holds and in what order is proved in `Config.ViolationsExact`, `Config.ViolationsOrdered` and `Config.ViolationsAre` |
| Config.ViolationsExact | solutions/complete/test/config-test.js:58-115 | a violation is in the report if and only if it describes a real problem |
| Config.ValidIffNoProblem | solutions/complete/test/config-test.js:37-56 | a configuration is valid if and only if it has no problem |
| Config.NoViolationsIffValid | solutions/complete/test/config-test.js:37-70 | the report is empty if and only if the configuration is valid |
| Config.MissingTopOrdered | solutions/complete/test/config-test.js:59-64 | missing top-level fields are reported in declaration order |
| Config.UnknownTopOrdered | solutions/complete/test/config-test.js:106-107 | unknown top-level properties are reported in the order the object holds them |
| Config.RuleMissingOrdered | solutions/complete/test/config-test.js:80-83 | one rule's missing fields are reported in field order, under that rule's index |
| Config.RuleUnknownOrdered | solutions/complete/test/config-test.js:108-109 | one rule's unknown properties are reported in property order, under that rule's index |
| Config.MissingRulesOrdered | solutions/complete/test/config-test.js:80-83 | missing rule fields are reported by ascending rule index, then field order |
| Config.UnknownRulesOrdered | solutions/complete/test/config-test.js:108-109 | unknown rule properties are reported by ascending rule index, then property order |
| Config.ViolationsOrdered | solutions/complete/test/config-test.js:58-115 | the report lists missing top-level fields, then missing rule fields, then unknown top-level properties, then unknown rule properties, each group in its own order |
| Config.ReportIsDetermined | solutions/complete/test/config-test.js:58-115 | two lists in report order holding the same violations are equal |
| Config.ViolationsAre | solutions/complete/test/config-test.js:58-115 | the report is the one list in report order of exactly the configuration's problems |
| Config.Validate | solutions/complete/test/config-test.js:37-41 | a configuration is accepted if and only if it is valid, and then returned equal to itself; otherwise it is rejected with a non-empty, ordered list of exactly its problems |
| Config.Describe | solutions/complete/test/config-test.js:60-109 | the report line of one violation: `missing <field>`, `rule <i> missing <field>`, `unknown property <name>` or `rule <i> contains unknown property <name>` |
| Config.DescribeInjective | solutions/complete/test/config-test.js:80-109 | distinct violations give distinct lines: a line names one violation, rule index included |
| Config.Join | solutions/complete/test/config-test.js:66 | `errors.join(sep)`: nothing for no parts, otherwise the parts' characters plus one separator fewer than there are parts; this length is all its own contract says, and where the separators go is stated by `Config.ErrorMessageJoinsLines` for the report's lines |
| Config.DescribeAll | solutions/complete/test/config-test.js:59-64 | each violation has one line, in the report's order |
| Config.ErrorMessage | solutions/complete/test/config-test.js:66 | the message a rejection raises: `Invalid configuration:` followed by each violation's line after a line break and indentation; `Config.ErrorMessageJoinsLines` states it as the tests' `join` |
| Config.ErrorMessageJoinsLines | solutions/complete/test/config-test.js:66 | the message is `Invalid configuration:`, a line break with indentation, then the lines joined by line breaks with indentation |
| Config.ConfigPath | solutions/complete/test/config-test.js:117-142 | the path named by the environment variable when it is set, `config/slack-github-issues.json` otherwise; `ConfigScenarios.LoadsFromEnvPath` and `ConfigScenarios.LoadsFromDefaultPath` state that the document there is the one read |
| Config.LogLine | solutions/complete/test/config-test.js:69 | a log line is the script name, `: `, then the text; `Config.NewConfig` states which lines are logged |
| Config.NewConfig | solutions/complete/test/config-test.js:28-35 | a configuration passed in, or else the document at `ConfigPath` of the environment, is accepted if valid and rejected with the report's message otherwise; reading a file is announced in the log, and a rejection's message is logged once after it |
| ConfigScenarios.ValidConfigAccepted | solutions/complete/test/config-test.js:37-41 | a valid configuration comes back equal to itself and nothing is logged |
| ConfigScenarios.PushRule | solutions/complete/test/config-test.js:47-51 | the configuration with a rule appended last; its effect is stated by `ConfigScenarios.PushRuleEffect` |
| ConfigScenarios.PushRuleEffect | solutions/complete/test/config-test.js:48-52 | pushing a rule appends it to the rules and leaves the property names unchanged |
| ConfigScenarios.ChannelRuleValid | solutions/complete/test/config-test.js:48-52 | a rule with `channelNames` and both required fields is valid |
| ConfigScenarios.ChannelRuleAccepted | solutions/complete/test/config-test.js:43-56 | a valid configuration with the channel rule pushed is accepted unchanged and nothing is logged |
| ConfigScenarios.ExpectedMessage | solutions/complete/test/config-test.js:66 | the message a test expects, written as the test writes it: the header, a line break with indentation, and the lines joined by line breaks with indentation |
| ConfigScenarios.MessageAsExpected | solutions/complete/test/config-test.js:66 | a report whose lines are the test's `errors` yields the test's `errorMessage` |
| ConfigScenarios.EmptyConfigViolations | solutions/complete/test/config-test.js:58-64 | the empty configuration's report is the five missing top-level fields, in declaration order, and nothing about rules |
| ConfigScenarios.EmptyConfigLines | solutions/complete/test/config-test.js:59-64 | those violations read `missing githubUser` through `missing rules` |
| ConfigScenarios.EmptyConfigRejected | solutions/complete/test/config-test.js:58-70 | the empty configuration raises the expected message, and that message is logged once with the script name |
| ConfigScenarios.RejectedWith | solutions/complete/test/config-test.js:68-69 | a configuration whose problems are exactly the expected ones, in report order, raises the expected message and logs it once |
| ConfigScenarios.StripFirstRule | solutions/complete/test/config-test.js:77-78 | the configuration with both required fields removed from rule 0; its effect is stated by `ConfigScenarios.StripFirstRuleEffect` and `ConfigScenarios.StrippedProblems` |
| ConfigScenarios.StrippedProblems | solutions/complete/test/config-test.js:77-83 | after both required fields of rule 0 are deleted, the only problems are those two missing fields |
| ConfigScenarios.StrippedOrder | solutions/complete/test/config-test.js:80-83 | `reactionName` is reported before `githubRepository` |
| ConfigScenarios.StrippedLines | solutions/complete/test/config-test.js:80-83 | the lines read `rule 0 missing reactionName` and `rule 0 missing githubRepository` |
| ConfigScenarios.RuleMissingFieldsReported | solutions/complete/test/config-test.js:72-88 | a valid configuration with rule 0 stripped of its required fields raises the expected message and logs it once |
| ConfigScenarios.AddUnknownProperties | solutions/complete/test/config-test.js:95-103 | the configuration with `foo` and `bar` added, `baz` added to rule 0, and the `quux` rule appended; its effect is stated by `ConfigScenarios.AddUnknownEffect` and `ConfigScenarios.UnknownProblems` |
| ConfigScenarios.UnknownProblems | solutions/complete/test/config-test.js:95-109 | after `foo`, `bar`, `baz` and the `quux` rule are added to a valid configuration, its only problems are those four unknown properties |
| ConfigScenarios.UnknownOrder | solutions/complete/test/config-test.js:105-109 | they are reported as `foo`, `bar`, then rule 0's `baz`, then the pushed rule's `quux` |
| ConfigScenarios.UnknownLines | solutions/complete/test/config-test.js:105-109 | the lines read `unknown property foo`, `unknown property bar`, `rule 0 contains unknown property baz`, and `rule <n> contains unknown property quux` for a configuration that had `n` rules |
| ConfigScenarios.UnknownPropertiesReported | solutions/complete/test/config-test.js:90-115 | such a configuration raises the expected message and logs it once |
| ConfigScenarios.UnknownPropertiesReportedForThreeRules | solutions/complete/test/config-test.js:105-114 | with three rules the last line reads `rule 3 contains unknown property quux` |
| ConfigScenarios.LoadsFromEnvPath | solutions/complete/test/config-test.js:117-130 | without a configuration passed in, the valid document at the environment's path is used, and the one log line is `loading config from <path>` |
| ConfigScenarios.LoadsFromDefaultPath | solutions/complete/test/config-test.js:132-142 | without either, the valid document at `config/slack-github-issues.json` is used, and the log line names that path |
| ConfigScenarios.GivenConfigIgnoresPath | solutions/complete/test/config-test.js:28-35 | a configuration passed in is used whatever the environment says and whatever the files hold |
| Helpers.MsgIdIsMessageKey | solution/test/helpers/index.js:17-19 | the message id is the channel id and the timestamp joined by a colon |
| Helpers.StripPrefix | solution/test/helpers/index.js:99-101 | stripping succeeds exactly when the string starts with the prefix, and prefix plus remainder gives the string back |
| Helpers.StripPrepended | solution/test/helpers/index.js:99-101 | stripping a prefix undoes prepending it |
| Helpers.LogMessage | solution/test/helpers/index.js:99-101 | the line is the script name, `: `, the message id, `: `, then the message, which is recovered from the line |
| Helpers.LogMessageInjective | solution/test/helpers/index.js:99-101 | distinct messages give distinct log lines |
| Helpers.LogMessageOfStripped | solution/test/helpers/index.js:99-101 | every line starting with the log prefix is the log line of what follows the prefix |
| Helpers.GetReactionsLogMessage | solution/test/helpers/index.js:108-110 | the line logs `getting reactions for` and the permalink |
| Helpers.GithubLogMessage | solution/test/helpers/index.js:112-114 | the line logs `making GitHub request for` and the permalink |
| Helpers.AddSuccessReactionLogMessage | solution/test/helpers/index.js:116-118 | the line logs `adding` and the success reaction |
| Helpers.MatchingRuleLogMessage | solution/test/helpers/index.js:103-106 | the line logs `matches rule:` and the rule's JSON text |
| Helpers.SuccessLogMessage | solution/test/helpers/index.js:120-122 | the line logs `created:` and the issue URL |
| Helpers.FailureMessage | solution/test/helpers/index.js:124-127 | the message names the repository the issue was meant for, and its cause is recovered from it |
| Helpers.FailurePrefixText | solution/test/helpers/index.js:124-127 | the failure prefix reads `failed to create a GitHub issue in 18F/handbook: ` |
| Helpers.FailureLogMessage | solution/test/helpers/index.js:129-131 | the line is the log line of the failure message, and the cause follows both prefixes |
| Helpers.SuccessIsNotFailure | solution/test/helpers/index.js:120-131 | a success line is never equal to a failure line |
| Helpers.FixtureMetadata | solution/test/helpers/index.js:82-90 | the fixture metadata without its date: channel `handbook`, the timestamp, the permalink and the title; `Helpers.FixtureTitle` and `Helpers.FixtureGithubParams` state what it holds |
| Helpers.FixtureTitle | solution/test/helpers/index.js:82-90 | the fixture title is `Update from #` + channel + ` at ` + the formatted date |
| Helpers.GithubParams | solution/test/helpers/index.js:92-97 | the request's title is the metadata's title and its body is the message's permalink |
| Helpers.FixtureGithubParams | solution/test/helpers/index.js:82-97 | the fixture request has the channel's title and the permalink as its body |
| Helpers.ConfigRule | solution/test/helpers/index.js:33-39 | the rule the tests build passes the configuration check and repeats no property |
| Helpers.Strings | solution/test/helpers/index.js:33-39 | an array reads as strings exactly when every element is a string, and it keeps them in order |
| Helpers.ReadRule | solution/test/helpers/index.js:33-39 | reading succeeds exactly when both required fields are strings and `channelNames` is absent or an array of strings; the rule carries the object's reaction and repository, and a channel list exactly when the object has one, holding the array's strings in order |
| Helpers.Matches | solution/test/helpers/index.js:24-29 | a rule applies to a reaction in a channel when the reaction is its own and it has no channel list, an empty one, or one naming the channel |
| Helpers.ConfigRuleApplies | solution/test/helpers/index.js:33-39 | that rule reads back as the fixture reaction restricted to `hub`, and applies in a channel if and only if the channel is `hub` |
| Helpers.FindMatchingRule | solution/test/helpers/index.js:24-29 | the chosen rule applies and no earlier rule does; no rule is chosen exactly when none applies |
| Helpers.FirstMatchWins | solution/test/helpers/index.js:24-29 | the first applicable rule is chosen even when later ones apply too |
| Helpers.BaseRulesChooseThird | solution/test/helpers/index.js:24-29 | with the documented base rules, the third rule is chosen, as `matchingRuleLogMessage` expects |

## Left out

- Reading the configuration file and the environment variable are not modelled as I/O. The document found at the chosen path is a parameter of `Config.NewConfig`, and the variable is an `Option`.
- Capturing and restoring the log is not modelled. The log is returned as a list of lines.
- The implementation of `lib/config` is not part of this model. The validator's rules are taken from the assertions and the messages the tests expect.
  - A field counts as present when the object has it as an own property, whatever its value.
  - A `rules` value that is not an array gives no rules.
  - A rule element that is not an object has no properties.
- `test-config.json` and `config/slack-github-issues.json` are not part of this model, so the scenarios hold for every configuration of the shape each test uses. The fixture's three rules are stated as the documented shape in `Helpers.BaseRulesChooseThird`.
- The matcher in the middleware is not part of this model. An absent or empty `channelNames` lets a rule apply in every channel, and channels are compared by name.
- `baseConfig()` returns a deep copy. With values in place of shared objects, the copy is the configuration itself, so sharing is not modelled.
- The metadata date (`new Date(1360782804.083113 * 1000)`) is floating-point and its formatting is platform date code. The formatted date is a string constant, and `Helpers.Metadata` has no date field.
- `matchingRuleLogMessage` renders the rule with `JSON.stringify`. That text is a parameter of `Helpers.MatchingRuleLogMessage`.
- Building Hubot and Slack messages (`reactionAddedMessage`, `messageWithReactions`) is not modelled, because those are library objects.
- Numbers in configuration documents, timeouts included, are modelled as integers; fractional numbers are not modelled.
- Json.Put: JavaScript lists property names that are array indices (`"0"`, `"3"`) first, in ascending order, before all other names; the model keeps every name in the order it was added. No configuration name in the tests is an array index.
- Json.PutKeys: states the order of names as they were added, so for an array-index name it differs from the order JavaScript reports, for the reason above.
- The chai comparison through `JSON.stringify` is not modelled. Structural equality of values stands in for it.
