/** The per-channel ready-check record of the contact bot and its state
    machine. The state is one integer: -1 while waiting for players to ready
    up, 0 when idle or completed, and a positive number of countdown steps
    left otherwise. Wall-clock readings are passed in as `now`. */
module ChallengeModel {
  import opened Words

  const WaitingForReady: int := -1
  const Completed: int := 0
  /** The value `start_clock` sets; four ticks follow: 3... 2... 1... go! */
  const Countdown: int := 4

  /** The states the record's own operations can produce. */
  predicate LegalState(s: int) {
    WaitingForReady <= s <= Countdown
  }

  /** A value copy of every field of a record. */
  datatype Record = Record(
    channel: string,
    state: int,
    time: int,
    challenger: string,
    challenged: string,
    ready: string)

  /** The record right after a reset at time `now`. */
  function Idle(channel: string, now: int): Record {
    Record(channel, Completed, now, "", "", "")
  }

  // ---------------------------------------------------------------------
  // The countdown
  // ---------------------------------------------------------------------

  /** The state after one tick: positive states count down by one, the
      others stay as they are. */
  function NextState(s: int): int {
    if s <= 0 then s else s - 1
  }

  /** The state after `k` ticks. */
  function AfterTicks(s: int, k: nat): int {
    if k == 0 then s else AfterTicks(NextState(s), k - 1)
  }

  /** The values that `k` successive ticks return, starting from state `s`. */
  function TickValues(s: int, k: nat): seq<int> {
    if k == 0 then [] else [NextState(s)] + TickValues(NextState(s), k - 1)
  }

  /** A tick never leaves the non-negative states, nor the legal ones. */
  lemma NextStateBounds(s: int)
    ensures s >= 0 ==> NextState(s) >= 0
    ensures LegalState(s) ==> LegalState(NextState(s))
  {
  }

  /** From a non-negative state, `k` ticks reach `max(s - k, 0)`: the countdown
      terminates after `s` ticks and stays at 0 ever after. */
  lemma {:induction false} AfterTicksFromNonNegative(s: int, k: nat)
    requires s >= 0
    ensures AfterTicks(s, k) == if s - k > 0 then s - k else 0
  {
    if k > 0 {
      AfterTicksFromNonNegative(NextState(s), k - 1);
    }
  }

  /** A negative state (waiting, or illegal) is never changed by ticks. */
  lemma {:induction false} AfterTicksFromNegative(s: int, k: nat)
    requires s < 0
    ensures AfterTicks(s, k) == s
  {
    if k > 0 {
      AfterTicksFromNegative(NextState(s), k - 1);
    }
  }

  /** The `i`-th of `k` successive ticks from a non-negative state returns
      `max(s - 1 - i, 0)`. */
  lemma {:induction false} TickValuesFromNonNegative(s: int, k: nat)
    requires s >= 0
    ensures |TickValues(s, k)| == k
    ensures forall i :: 0 <= i < k ==> TickValues(s, k)[i] == if s - 1 - i > 0 then s - 1 - i else 0
  {
    if k > 0 {
      TickValuesFromNonNegative(NextState(s), k - 1);
    }
  }

  /** After `start_clock`, ticks return 3, 2, 1, 0 and then 0 for ever. */
  lemma CountdownSequence(k: nat)
    requires k >= 4
    ensures TickValues(Countdown, 4) == [3, 2, 1, 0]
    ensures |TickValues(Countdown, k)| == k
    ensures TickValues(Countdown, k)[..4] == [3, 2, 1, 0]
    ensures forall i :: 4 <= i < k ==> TickValues(Countdown, k)[i] == 0
  {
    TickValuesFromNonNegative(Countdown, 4);
    TickValuesFromNonNegative(Countdown, k);
  }

  // ---------------------------------------------------------------------
  // Readiness
  // ---------------------------------------------------------------------

  /** `set(xs)` keeping each element's first occurrence in order. */
  function Distinct(xs: seq<string>): (r: seq<string>)
    ensures forall x :: x in r <==> x in xs
    ensures forall i, j :: 0 <= i < j < |r| ==> r[i] != r[j]
  {
    if xs == [] then []
    else
      var rest := Distinct(xs[..|xs| - 1]);
      assert forall x :: x in xs <==> x in xs[..|xs| - 1] || x == xs[|xs| - 1];
      if xs[|xs| - 1] in rest then rest else rest + [xs[|xs| - 1]]
  }

  /** The new `ready` string that `set_ready` builds: the old ready names as
      a set, plus the player, joined by spaces. Python's set order is not
      specified; this model lists the old names first and the player last. */
  function AddReady(ready: string, player: string): string {
    var kept := Distinct(Split(ready));
    Join(if player in kept then kept else kept + [player])
  }

  /** The ready names after `set_ready` are the old ones and the player's own
      tokens: the player itself when it is a well-formed name. */
  lemma AddReadyTokens(ready: string, player: string)
    ensures Tokens(AddReady(ready, player)) == Tokens(ready) + Tokens(player)
  {
    var kept := Distinct(Split(ready));
    assert forall w :: w in kept ==> IsWord(w);
    SplitAllWords(kept);
    if player in kept {
      SplitJoin(kept);
      SplitWord(player);
    } else {
      SplitJoin(kept + [player]);
      SplitAllAppend(kept, [player]);
      assert SplitAll([player]) == Split(player);
    }
  }

  /** Readying the same player twice changes the ready set no further. */
  lemma AddReadyIdempotent(ready: string, player: string)
    ensures Tokens(AddReady(AddReady(ready, player), player)) == Tokens(AddReady(ready, player))
  {
    AddReadyTokens(ready, player);
    AddReadyTokens(AddReady(ready, player), player);
  }

  /** The quorum rule of `is_ready`: at least two names that are both ready
      and challenged, whatever the number challenged. */
  predicate Quorum(challenged: string, ready: string) {
    |Tokens(ready) * Tokens(challenged)| >= 2
  }

  /** The quorum holds exactly when two different names are both ready and
      challenged. */
  lemma QuorumWitnesses(challenged: string, ready: string)
    ensures Quorum(challenged, ready) <==>
      exists a, b :: a != b && a in Tokens(ready) && a in Tokens(challenged)
                            && b in Tokens(ready) && b in Tokens(challenged)
  {
    var both := Tokens(ready) * Tokens(challenged);
    if |both| >= 2 {
      var a :| a in both;
      assert |both - {a}| == |both| - 1;
      var b :| b in both - {a};
      assert a != b && a in Tokens(ready) && a in Tokens(challenged);
    } else if exists a, b :: a != b && a in Tokens(ready) && a in Tokens(challenged)
                             && b in Tokens(ready) && b in Tokens(challenged) {
      var a, b :| a != b && a in Tokens(ready) && a in Tokens(challenged)
                         && b in Tokens(ready) && b in Tokens(challenged);
      assert {a, b} <= both;
      assert |{a, b}| == 2;
      SubsetCardinality({a, b}, both);
    }
  }

  lemma SubsetCardinality<T>(small: set<T>, big: set<T>)
    requires small <= big
    ensures |small| <= |big|
  {
    assert big == small + (big - small);
  }

  /** A well-formed name (non-empty, no whitespace) that the substring test of
      `set_ready` lets in although it is not one of the challenged names never
      counts toward the quorum. */
  lemma NonParticipantNeverCounts(challenged: string, ready: string, player: string)
    requires IsWord(player) && player !in Tokens(challenged)
    ensures Tokens(AddReady(ready, player)) * Tokens(challenged) == Tokens(ready) * Tokens(challenged)
    ensures Quorum(challenged, AddReady(ready, player)) == Quorum(challenged, ready)
  {
    AddReadyTokens(ready, player);
    SplitWord(player);
  }

  /** An empty ready list never makes a quorum. */
  lemma NoQuorumWhenNobodyReady(challenged: string)
    ensures !Quorum(challenged, "")
  {
    TokensEmpty();
  }

  /** What the record keeps while players ready up: every ready name occurs
      as a substring of the challenged list (a weaker fact than "every ready
      name is challenged", which the substring test does not give). */
  ghost predicate ReadyCovered(challenged: string, ready: string) {
    forall t :: t in Tokens(ready) ==> Contains(challenged, t)
  }

  /** `set_ready`'s substring test keeps every ready name covered. */
  lemma AddReadyCovered(challenged: string, ready: string, player: string)
    requires ReadyCovered(challenged, ready) && Contains(challenged, player)
    ensures ReadyCovered(challenged, AddReady(ready, player))
  {
    AddReadyTokens(ready, player);
    SplitContained(player);
    forall t | t in Tokens(player) ensures Contains(challenged, t) {
      ContainsTransitive(challenged, player, t);
    }
  }

  /** The empty user name passes the substring test against any challenged
      list, yet adds no name to the ready set. */
  lemma EmptyNameAdmitted(challenged: string, ready: string)
    ensures Contains(challenged, "")
    ensures Tokens(AddReady(ready, "")) == Tokens(ready)
  {
    ContainsEmpty(challenged);
    AddReadyTokens(ready, "");
    TokensEmpty();
  }

  /** The substring test admits "bob" when only "bobby" was challenged; "bob"
      then is a ready name that is not a challenged name. */
  lemma SubstringAdmitsNonParticipant()
    ensures Contains("bobby carol", "bob")
    ensures "bob" !in Tokens("bobby carol")
    ensures "bob" in Tokens(AddReady("", "bob"))
    ensures !(Tokens(AddReady("", "bob")) <= Tokens("bobby carol"))
  {
    assert OccursAt("bobby carol", "bob", 0);
    JoinRoundTrip(["bobby", "carol"]);
    assert Join(["bobby", "carol"]) == "bobby carol";
    assert IsWord("bob");
    SplitWord("bob");
    AddReadyTokens("", "bob");
    TokensEmpty();
  }

  // ---------------------------------------------------------------------
  // The record
  // ---------------------------------------------------------------------

  class Challenge {
    var channel: string
    var state: int
    var time: int
    var challenger: string
    var challenged: string
    var ready: string

    ghost function Snapshot(): Record
      reads this
    {
      Record(channel, state, time, challenger, challenged, ready)
    }

    /** The record's own operations keep the state legal and every ready
        name a substring of the challenged list. */
    ghost predicate Valid()
      reads this
    {
      LegalState(state) && ReadyCovered(challenged, ready)
    }

    /** A fresh record is reset at creation. */
    constructor (channel: string, now: int)
      ensures Snapshot() == Idle(channel, now)
      ensures Valid()
    {
      this.channel := channel;
      new;
      Reset(now);
    }

    /** Back to idle: state 0, all names cleared, time stamped. The new record
        depends on nothing but the channel and `now`, so a second reset at the
        same time changes nothing. */
    method Reset(now: int)
      modifies this
      ensures Snapshot() == Idle(old(channel), now)
      ensures Valid()
    {
      state := Completed;
      time := now;
      challenger := "";
      challenged := "";
      ready := "";
      TokensEmpty();
    }

    /** Wait for the challenged players; the time stamp is left alone. */
    method Start(challenger: string, names: seq<string>)
      modifies this
      ensures Snapshot() == old(Snapshot()).(state := WaitingForReady, challenger := challenger,
                                             challenged := Join(names), ready := "")
      ensures (forall n :: n in names ==> IsWord(n)) ==> Split(challenged) == names
      ensures !IsReady()
      ensures Valid()
    {
      state := WaitingForReady;
      this.challenger := challenger;
      challenged := Join(names);
      ready := "";
      if forall n :: n in names ==> IsWord(n) {
        JoinRoundTrip(names);
      }
      TokensEmpty();
      NoQuorumWhenNobodyReady(challenged);
    }

    /** Mark a player ready. A player that is not a substring of the
        challenged list changes nothing; otherwise the player joins the ready
        set and the time is stamped. */
    method SetReady(player: string, now: int)
      modifies this
      ensures !Contains(old(challenged), player) ==> Snapshot() == old(Snapshot())
      ensures Contains(old(challenged), player) ==>
        Snapshot() == old(Snapshot()).(ready := AddReady(old(ready), player), time := now)
      ensures Contains(old(challenged), player) ==> Tokens(ready) == old(Tokens(ready)) + Tokens(player)
      ensures old(Valid()) ==> Valid()
    {
      if !Contains(challenged, player) {
        return;
      }
      ghost var was := ready;
      ready := AddReady(ready, player);
      time := now;
      AddReadyTokens(was, player);
      if LegalState(state) && ReadyCovered(challenged, was) {
        AddReadyCovered(challenged, was, player);
      }
    }

    /** At least two names are both ready and challenged. */
    predicate IsReady()
      reads this
      ensures IsReady() <==>
        exists a, b :: a != b && a in Tokens(ready) && a in Tokens(challenged)
                              && b in Tokens(ready) && b in Tokens(challenged)
    {
      QuorumWitnesses(challenged, ready);
      Quorum(challenged, ready)
    }

    /** Start the countdown; the names are left alone. */
    method StartClock(now: int)
      modifies this
      ensures Snapshot() == old(Snapshot()).(state := Countdown, time := now)
      ensures old(Valid()) ==> Valid()
    {
      state := Countdown;
      time := now;
    }

    /** Stamp the time and count down one step if the state is positive;
        return the new state. */
    method Tick(now: int) returns (s: int)
      modifies this
      ensures s == state == NextState(old(state))
      ensures Snapshot() == old(Snapshot()).(state := s, time := now)
      ensures old(state) >= 0 ==> s >= 0
      ensures old(Valid()) ==> Valid()
    {
      time := now;
      if state <= 0 {
        return state;
      }
      state := state - 1;
      return state;
    }
  }

  /** Resetting twice gives the same record as resetting once. */
  method ResetTwice(c: Challenge, now: int)
    modifies c
    ensures c.Snapshot() == Idle(old(c.channel), now)
  {
    c.Reset(now);
    ghost var once := c.Snapshot();
    c.Reset(now);
    assert c.Snapshot() == once;
  }

  /** `start_clock` followed by five ticks returns 3, 2, 1, 0, 0 and leaves
      the record completed. */
  method CountdownRun(c: Challenge, now: int) returns (values: seq<int>)
    modifies c
    ensures values == [3, 2, 1, 0, 0]
    ensures c.state == Completed
  {
    c.StartClock(now);
    var a := c.Tick(now + 1);
    var b := c.Tick(now + 2);
    var d := c.Tick(now + 3);
    var e := c.Tick(now + 4);
    var f := c.Tick(now + 5);
    values := [a, b, d, e, f];
  }

  /** The challenged list of the scenario below, "bob carol", names bob and
      carol. */
  lemma ScenarioNames()
    ensures Join(["bob", "carol"]) == "bob carol"
    ensures Tokens("bob carol") == {"bob", "carol"}
  {
    assert IsWord("bob") && IsWord("carol");
    JoinRoundTrip(["bob", "carol"]);
  }

  /** "bob carol" holds "bob" and "carol" as substrings but not "dave". */
  lemma ScenarioSubstrings()
    ensures Contains("bob carol", "bob") && Contains("bob carol", "carol")
    ensures !Contains("bob carol", "dave")
  {
    assert OccursAt("bob carol", "bob", 0);
    assert OccursAt("bob carol", "carol", 4);
    MissingCharNotContained("bob carol", "dave", 0);
  }

  /** Readying bob and then carol builds the ready set {bob, carol}; bob
      alone is no quorum, bob and carol are. */
  lemma ScenarioQuorum()
    ensures Tokens(AddReady("", "bob")) == {"bob"}
    ensures Tokens(AddReady(AddReady("", "bob"), "carol")) == {"bob", "carol"}
    ensures !Quorum("bob carol", AddReady("", "bob"))
    ensures Quorum("bob carol", AddReady(AddReady("", "bob"), "carol"))
  {
    ScenarioNames();
    assert IsWord("bob") && IsWord("carol");
    SplitWord("bob");
    SplitWord("carol");
    TokensEmpty();
    AddReadyTokens("", "bob");
    AddReadyTokens(AddReady("", "bob"), "carol");
    assert {"bob"} * {"bob", "carol"} == {"bob"};
    assert {"bob", "carol"} * {"bob", "carol"} == {"bob", "carol"};
  }

  /** A user name holding whitespace passes the substring test as a whole and
      then adds each of its tokens: the single user "bob carol" readies both
      challenged players and reaches the quorum alone. */
  lemma SpacedNameReachesQuorum()
    ensures Contains("bob carol", "bob carol")
    ensures "bob carol" !in Tokens("bob carol")
    ensures !Quorum("bob carol", "")
    ensures Quorum("bob carol", AddReady("", "bob carol"))
  {
    ScenarioNames();
    assert OccursAt("bob carol", "bob carol", 0);
    TokensEmpty();
    AddReadyTokens("", "bob carol");
    assert {"bob", "carol"} * {"bob", "carol"} == {"bob", "carol"};
  }

  /** Alice challenges bob and carol. Dave's confirmation is ignored, bob's
      alone is not enough, and carol's completes the quorum. */
  method ReadyUpScenario(c: Challenge, now: int) returns (afterBob: bool, afterCarol: bool)
    modifies c
    ensures c.state == WaitingForReady && c.challenger == "alice"
    ensures Tokens(c.challenged) == {"bob", "carol"} && Tokens(c.ready) == {"bob", "carol"}
    ensures !afterBob && afterCarol
  {
    ScenarioNames();
    ScenarioSubstrings();
    ScenarioQuorum();
    c.Start("alice", ["bob", "carol"]);
    c.SetReady("dave", now);
    c.SetReady("bob", now + 1);
    afterBob := c.IsReady();
    c.SetReady("carol", now + 2);
    afterCarol := c.IsReady();
  }
}
