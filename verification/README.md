# Contact bot ready check, modelled in Dafny

The contact bot runs a "ready check" in a chat channel. A wordkeeper
challenges two or more players, the players answer `!ready`, and the bot
counts down `3...`, `2...`, `1...`, `go!`. Each channel has one `Challenge`
record. Its `state` is a single integer: `-1` means waiting for ready, `0`
means completed or idle, and a positive `n` means `n` countdown steps are
left. The record also holds a time stamp, the challenger, and two
space-joined name lists, `challenged` and `ready`.

The model has three modules:

- `Words` (`words.dfy`) holds the string operations the Python code relies
  on: `split()` with no separator, `' '.join`, the substring test `in`,
  `lower()`, ASCII `isalnum()` and `"%d"`. Each comes with the lemmas the
  other modules need, such as the split/join round trip, transitivity of
  containment, and the decimal round trip.
- `ChallengeModel` (`challenge.dfy`) models `models/contact.py`. `Challenge`
  is a class whose fields are updated in place. `Reset`, `Start`, `SetReady`,
  `StartClock` and `Tick` take the wall-clock reading as a `now` parameter.
  `IsReady` is a pure query. Pure functions (`NextState`, `AddReady`,
  `Quorum`) specify what the methods compute, and the lemmas about them
  cover the countdown length, its termination, the quorum rule, and what
  the substring test lets through.
- `ContactPlugin` (`plugin.dfy`) models `plugins/contact.py`. These parts
  are pure functions:
  - name validation;
  - player extraction;
  - the branch classification;
  - the timeout predicate;
  - the sleep amount;
  - the tick message.

  `OnMessage`, `TickStep` and `ReadyStep` are methods that change the
  checked-out record through its own methods.

A reply is `Silent` (the handler returns `None`), `Say(text)`, or
`Raise(fault)` (the handler raises an exception).

The model follows the code as written:

- **Three calls in the handler always raise.** Each raises before anything
  is changed, so the model returns `Raise` and leaves the record unchanged:
  - `challenge.reset(channel)` passes an argument that `reset` does not take
    (`plugins/contact.py:32`). So `!contactreset` never resets.
  - `challenge.start_challenge(...)` calls a method that `Challenge` does not
    have (`plugins/contact.py:59`). So a challenge that names two or more
    valid players never starts.
  - `re.search(r"!ready")` is called without the text to search
    (`plugins/contact.py:74`). So every message that reaches the ready branch
    raises. The rest of that function (`plugins/contact.py:75-86`) is
    modelled as `ReadyStep`, which takes the outcome of the search as a
    parameter. `OnMessage` never calls it.
- **The countdown takes four ticks.** The countdown constant is 4
  (`models/contact.py:14`). The ticks return 3, 2, 1 and 0, so the bot
  announces `3...`, `2...`, `1...`, `go!`, and every later tick returns 0.
- **Ready membership is a substring test.** `set_ready` checks membership
  with a substring test on the joined `challenged` string
  (`models/contact.py:49`):
  - `"bob"` is accepted when only `"bobby"` was challenged, and lands in
    `ready`.
  - The empty user name is always accepted.

  Such a name, when it is a single word, never counts toward the quorum,
  because `is_ready` intersects the split token sets
  (`models/contact.py:59-62`). A user name that holds whitespace adds each
  of its tokens, so `"bob carol"` alone can reach the quorum. So "every ready name is a
  challenged name" does not hold. What does hold, and is kept by every
  operation, is that every ready name occurs as a substring of the
  challenged list (`ReadyCovered`).
- **Two ready names are enough.** The quorum is two ready names that are
  also challenged names, however many players were challenged.
- **`start` keeps the names as given.** It neither removes duplicates from
  the challenged names nor refreshes the time stamp
  (`models/contact.py:40-45`).
- **The documented usage is rejected.** The usage the module documents,
  `!challenge @player1 @player2`, names no valid player, because `@` is not
  a name character. It only gets the "tag at least two" reply.

## Model

| member | source | states |
|---|---|---|
| `Words.Split` | models/contact.py:60-61 | every token that `split()` yields is non-empty and free of whitespace |
| `Words.Join` | models/contact.py:44 | `' '.join`: the names in order, with one space between neighbours (its round trip is `JoinRoundTrip`) |
| `Words.Tokens` | models/contact.py:60-61 | `set(s.split())`: the set of tokens that `split()` yields |
| `Words.JoinRoundTrip` | models/contact.py:44 | splitting a space-joined list of well-formed names gives back exactly that list, in order |
| `Words.SplitJoin` | models/contact.py:55 | splitting a space-joined list gives the concatenation of the splits of its parts, whatever the parts hold |
| `Words.SplitContained` | models/contact.py:49 | every token of a string occurs in it as a substring |
| `Words.Contains` | models/contact.py:49 | the substring test `t in s`: some position where `t` occurs in `s` (also the `!contactreset` search) |
| `Words.ContainsTransitive` | models/contact.py:49 | a substring of a substring is a substring |
| `Words.MissingCharNotContained` | models/contact.py:49 | a name holding a character that the list lacks fails the substring test |
| `Words.IndexOf` | plugins/contact.py:51 | finds the first occurrence of the pattern, and finds nothing exactly when the pattern does not occur |
| `Words.Lower` | plugins/contact.py:55 | `x.lower()` on ASCII text: each upper-case letter mapped to its lower-case letter, every other character kept |
| `Words.LowerKeepsClasses` | plugins/contact.py:55 | lower-casing keeps the length, whitespace and alphanumeric characters, and leaves no upper-case letter |
| `Words.Decimal` | plugins/contact.py:97 | `"%d"`: a minus sign for a negative number, then the decimal digits of its magnitude; never empty |
| `Words.DigitsRoundTrip` | plugins/contact.py:97 | reading back the digits that `%d` prints gives the number |
| `Words.DecimalInjective` | plugins/contact.py:97 | different integers print as different numerals |
| `ChallengeModel.NextState` | models/contact.py:73-77 | the state after one tick: a positive state drops by 1, any other state stays (its properties are the lemmas below) |
| `ChallengeModel.NextStateBounds` | models/contact.py:70-77 | a non-negative state never goes negative under a tick, and a state from -1 to 4 stays in that range |
| `ChallengeModel.AfterTicksFromNonNegative` | models/contact.py:70-77 | from a state `s >= 0`, `k` ticks reach `max(s - k, 0)`, so the countdown ends after `s` ticks and stays at 0 |
| `ChallengeModel.AfterTicksFromNegative` | models/contact.py:73-74 | a negative state (waiting, or illegal) is never changed by ticks |
| `ChallengeModel.TickValuesFromNonNegative` | models/contact.py:70-77 | the `i`-th of `k` successive ticks from `s >= 0` returns `max(s - 1 - i, 0)` |
| `ChallengeModel.CountdownSequence` | models/contact.py:14 | after `start_clock` the ticks return 3, 2, 1, 0, and 0 on every later tick |
| `ChallengeModel.AddReady` | models/contact.py:52-55 | the new `ready` string: the old ready names as a set, plus the player, space-joined (its token set is stated by `AddReadyTokens`) |
| `ChallengeModel.Distinct` | models/contact.py:52 | the old ready names as a set: the same members, each listed once |
| `ChallengeModel.AddReadyTokens` | models/contact.py:52-55 | the new ready set is the old ready set together with the player's tokens (the player itself for a well-formed name) |
| `ChallengeModel.AddReadyIdempotent` | models/contact.py:52-55 | readying the same player a second time leaves the ready set unchanged |
| `ChallengeModel.Quorum` | models/contact.py:59-62 | the quorum rule: at least two names are in both token sets (characterised by `QuorumWitnesses`) |
| `ChallengeModel.QuorumWitnesses` | models/contact.py:59-62 | the quorum holds if and only if two different names are both ready and challenged |
| `ChallengeModel.NonParticipantNeverCounts` | models/contact.py:60-62 | a well-formed name (non-empty, no whitespace) that passes the substring test but is not a challenged name changes neither the intersection nor the quorum |
| `ChallengeModel.SpacedNameReachesQuorum` | models/contact.py:48-62 | the single user name `"bob carol"` passes the substring test against `"bob carol"`, is not itself a challenged name, and readies both tokens, reaching the quorum alone |
| `ChallengeModel.NoQuorumWhenNobodyReady` | models/contact.py:59-62 | an empty ready list is never a quorum |
| `ChallengeModel.AddReadyCovered` | models/contact.py:48-55 | if every ready name is a substring of the challenged list, that stays so after `set_ready` |
| `Words.ContainsEmpty` | models/contact.py:49 | the empty string is a substring of every string |
| `ChallengeModel.EmptyNameAdmitted` | models/contact.py:48-55 | the empty user name passes the substring test against any challenged list, and readying it leaves the ready set unchanged |
| `ChallengeModel.SubstringAdmitsNonParticipant` | models/contact.py:49 | `"bob"` passes the substring test against `"bobby carol"` and enters the ready set although it is not a challenged name |
| `ChallengeModel.Challenge.constructor` | models/contact.py:27-29 | a new record keeps its channel and is reset: state 0, names empty, time `now` |
| `ChallengeModel.Challenge.Reset` | models/contact.py:32-37 | state becomes 0, challenger, challenged and ready become empty, time becomes `now`, and the channel is kept |
| `ChallengeModel.Challenge.Start` | models/contact.py:40-45 | state becomes -1, the challenger is stored, challenged is the space-join of the names (splitting back to them), ready is empty, time is unchanged, and the record is not ready |
| `ChallengeModel.Challenge.SetReady` | models/contact.py:48-56 | if the player is not a substring of challenged, nothing changes (time included); otherwise the ready set gains the player's tokens and time becomes `now` |
| `ChallengeModel.Challenge.IsReady` | models/contact.py:59-62 | ready if and only if two different names are both ready and challenged |
| `ChallengeModel.Challenge.StartClock` | models/contact.py:65-67 | state becomes 4 and time becomes `now`; the names are untouched |
| `ChallengeModel.Challenge.Tick` | models/contact.py:70-77 | time becomes `now` and the state becomes its one-tick successor `NextState`, which is returned; every other field is kept, a non-negative state stays non-negative and a valid record stays valid |
| `ChallengeModel.ResetTwice` | models/contact.py:32-37 | resetting twice at the same time gives the same record as resetting once |
| `ChallengeModel.CountdownRun` | models/contact.py:65-77 | `start_clock` and five ticks return 3, 2, 1, 0, 0 and leave the record completed |
| `ChallengeModel.ScenarioNames` | models/contact.py:44 | the challenged list `"bob carol"` built from bob and carol names exactly bob and carol |
| `ChallengeModel.ScenarioSubstrings` | models/contact.py:49 | bob and carol pass the substring test against `"bob carol"`, dave does not |
| `ChallengeModel.ScenarioQuorum` | models/contact.py:52-62 | after bob the ready set is {bob} and there is no quorum; after carol it is {bob, carol} and there is one |
| `ChallengeModel.ReadyUpScenario` | models/contact.py:40-62 | alice challenges bob and carol: dave is ignored, bob alone is not ready, bob and carol are |
| `ContactPlugin.NameChar` | plugins/contact.py:70 | `c.isalnum() or c in '-_'`: an ASCII letter or digit, `-` or `_` |
| `ContactPlugin.ValidName` | plugins/contact.py:63-70 | `all` over the characters of the name of `isalnum() or c in '-_'` (characterised by `ValidNameIff`) |
| `ContactPlugin.ValidNameIff` | plugins/contact.py:63-70 | a name is valid if and only if every character is an ASCII letter or digit, `-` or `_`; the empty name is valid and a name starting with `@` is not |
| `ContactPlugin.LowerValidName` | plugins/contact.py:55 | lower-casing a valid name gives a valid name with no upper-case letter |
| `ContactPlugin.KeepValid` | plugins/contact.py:55 | the list comprehension: the valid tokens, lower-cased, in order (its properties are `KeepValidSound` and `KeepValidAppend`) |
| `ContactPlugin.KeepValidSound` | plugins/contact.py:55 | keeps exactly the valid names, lower-cased: every result comes from a valid input name, every valid input name is kept, and there are never more results than inputs |
| `ContactPlugin.KeepValidAppend` | plugins/contact.py:55 | the filter keeps the order of the names: the players of two runs of tokens are those of the first run followed by those of the second |
| `ContactPlugin.Line` | plugins/contact.py:51 | what `.*` matches: the longest prefix without a line break |
| `ContactPlugin.ChallengeArgs` | plugins/contact.py:51-53 | there is no match exactly when the text holds no `"!challenge "`; otherwise the group is the rest of the line after the leftmost `"!challenge "`: it follows that occurrence, holds no line break, and ends at a line break or at the end of the text |
| `ContactPlugin.Players` | plugins/contact.py:55 | the players are the lower-cased valid tokens of the argument; each is non-empty, whitespace-free, valid and lower-case |
| `ContactPlugin.StartReply` | plugins/contact.py:50-59 | silent exactly without a `"!challenge "`; the "tag at least two" text exactly when fewer than two players are named; otherwise the missing-method fault |
| `ContactPlugin.NoValidNameNoPlayers` | plugins/contact.py:55 | without a valid name there are no players |
| `ContactPlugin.TaggedPlayersAreRejected` | plugins/contact.py:55-57 | a challenge whose names all start with `@` yields no players and the "tag at least two" text |
| `ContactPlugin.Classify` | plugins/contact.py:31-47 | a `!contactreset` substring comes first; otherwise state 0 starts, -1 readies, a positive state ticks, and a state below -1 is illegal |
| `ContactPlugin.LegalStateNeverIllegal` | plugins/contact.py:35-47 | a state from -1 to 4 never takes the illegal branch |
| `ContactPlugin.TimedOut` | plugins/contact.py:76 | strictly more than 30 seconds since the last update |
| `ContactPlugin.TimeoutBoundary` | plugins/contact.py:76 | exactly 30 seconds is not a time-out and 31 is; once timed out, every later reading is timed out too |
| `ContactPlugin.SleepAmount` | plugins/contact.py:90-93 | the sleep is between 0 and 1 second, positive only when no time has passed, and brings a non-negative gap up to at least one second |
| `ContactPlugin.TickMessage` | plugins/contact.py:95-99 | `"go!"` if and only if the state is 0; otherwise the numeral followed by `...` |
| `ContactPlugin.TickMessageInjective` | plugins/contact.py:95-99 | different states give different tick messages |
| `ContactPlugin.CountdownMessages` | plugins/contact.py:96-99 | the four ticks after `start_clock` announce `3...`, `2...`, `1...`, `go!` |
| `ContactPlugin.TickStep` | plugins/contact.py:89-99 | the record ticks at the time after the sleep, the reply is the message for the new state, and a tick comes at least one second after the last update when the clock has not gone backwards |
| `ContactPlugin.StartingCountdown` | plugins/contact.py:86 | the reply `"(<challenger>) Starting countdown..."` |
| `ContactPlugin.ReadyStep` | plugins/contact.py:75-86 | a non-ready message resets the record and gives up if and only if more than 30 seconds have passed, and otherwise is silent with nothing changed; a ready message marks the sender and starts the clock exactly when the quorum is met |
| `ContactPlugin.OnMessage` | plugins/contact.py:27-47 | per branch: the reset request raises, the start branch gives `StartReply`, the ready branch raises, the tick branch lowers the state by one, stamps the time after the sleep, keeps every other field (the channel included) and announces the new state, the illegal branch resets and apologises; a raise leaves the record unchanged; a valid record never takes the illegal branch and stays valid |
| `ContactPlugin.CountdownDialogue` | plugins/contact.py:89-99 | after `start_clock`, the next four messages get `3...`, `2...`, `1...`, `go!` and the record ends completed |

## Left out

- `Challenge.get` and `Challenge.lock` (`models/contact.py:80-108`) are left out. They hold the database query, the row lock and the commit, and mutual exclusion between concurrent messages is not modelled. `OnMessage` works on one record that is already checked out. A raised exception leaves the record as it was, which matches a transaction that is never committed.
- The column declarations and `CIText` case-insensitive comparison (`models/contact.py:16-24`) are left out, and `__repr__` is not modelled.
- `time.time()` and `time.sleep` are not modelled. The clock reading is the parameter `now`, and only the computed sleep amount is modelled.
- `TickStep`: the clock reading after the sleep is taken to be `now` plus the sleep amount. Real sleeps and processing can take longer.
- Logging and `config.DEBUG` (`plugins/contact.py:44-46`) are left out.
- Regular expressions are modelled for the two fixed patterns only. `!contactreset` is a substring test. `!challenge (.*)` is the text after the first `"!challenge "`, up to the first line break.
- Only ASCII is modelled. Whitespace for `split()` is the ASCII set that `str.isspace` accepts. `isalnum` and `lower` cover ASCII letters and digits only, so a non-ASCII letter makes a name invalid here although Python accepts it.
- AddReady: Python's `' '.join` of a set lists the names in an order that the language does not specify. The model lists the old names first and the new player last. Every contract about `ready` speaks of its token set, which does not depend on that order.
- The unreachable reply texts `"contactbot reset"` (`plugins/contact.py:33`) and the `": type !ready when here"` prompt (`plugins/contact.py:60`) are not modelled. The calls just before them always raise.
- `msg.get("text", "")` and `msg.get("user_name", "")` are modelled as the parameters `text` and `user`. A missing field is the empty string.
