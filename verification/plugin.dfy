/** The message handler of the contact bot: it checks out the channel's
    challenge record, picks a branch from the record's state and the message
    text, and drives the record through its methods. A reply is silence, a
    text, or the exception that the handler raises. */
module ContactPlugin {
  import opened Words
  import opened ChallengeModel

  /** Seconds to wait for the next `!ready` before giving up. */
  const Timeout: int := 30

  const ResetCommand: string := "!contactreset"
  const ChallengeCommand: string := "!challenge "

  const Apology: string := "sorry guys jeff is not good with computer"
  const TagAtLeastTwo: string := "You need to tag all the people who contacted (at least two)"
  const GiveUp: string := "It's been too long since the last !ready. Giving up."

  function StartingCountdown(challenger: string): string {
    "(" + challenger + ") Starting countdown..."
  }

  /** The three calls in the handler that raise before they change anything:
      `reset` given the channel as an extra argument, a call to a
      `start_challenge` method that the record does not have, and a regular
      expression search given no text to search. */
  datatype Fault = ResetGivenChannel | NoStartChallengeMethod | ReadySearchWithoutText

  datatype Reply = Silent | Say(text: string) | Raise(fault: Fault)

  /** The branches of the handler. */
  datatype Branch = ResetRequest | StartBranch | ReadyBranch | TickBranch | IllegalBranch

  // ---------------------------------------------------------------------
  // Names and the challenge command
  // ---------------------------------------------------------------------

  predicate NameChar(c: char) {
    IsAsciiLetterOrDigit(c) || c == '-' || c == '_'
  }

  /** A valid user name: every character is a letter, a digit, `-` or `_`
      (checked one character at a time, as `all` does). */
  predicate ValidName(name: string) {
    name == [] || (NameChar(name[0]) && ValidName(name[1..]))
  }

  /** A name is valid exactly when each of its characters is allowed; so the
      empty name is valid and a name tagged with `@` is not. */
  lemma {:induction false} ValidNameIff(name: string)
    ensures ValidName(name) <==> forall i :: 0 <= i < |name| ==> NameChar(name[i])
    ensures ValidName("")
    ensures |name| > 0 && name[0] == '@' ==> !ValidName(name)
  {
    if name != [] {
      ValidNameIff(name[1..]);
      assert forall i :: 1 <= i < |name| ==> name[i] == name[1..][i - 1];
    }
  }

  /** Lower-casing a valid name gives a valid, lower-case name, and a word
      stays a word. */
  lemma LowerValidName(w: string)
    requires ValidName(w)
    ensures ValidName(Lower(w)) && NoUpperCase(Lower(w))
    ensures IsWord(w) ==> IsWord(Lower(w))
  {
    LowerKeepsClasses(w);
    ValidNameIff(w);
    ValidNameIff(Lower(w));
  }

  /** The lower-cased valid names among `ws`, in order. */
  function KeepValid(ws: seq<string>): seq<string> {
    if ws == [] then []
    else if ValidName(ws[0]) then [Lower(ws[0])] + KeepValid(ws[1..])
    else KeepValid(ws[1..])
  }

  /** Filtering keeps exactly the valid names, lower-cased, and never yields
      more names than it is given. */
  lemma {:induction false} KeepValidSound(ws: seq<string>)
    ensures |KeepValid(ws)| <= |ws|
    ensures forall p :: p in KeepValid(ws) ==> ValidName(p) && NoUpperCase(p)
    ensures forall p :: p in KeepValid(ws) ==> exists w :: w in ws && ValidName(w) && p == Lower(w)
    ensures forall w :: w in ws && ValidName(w) ==> Lower(w) in KeepValid(ws)
    ensures (forall w :: w in ws ==> IsWord(w)) ==> forall p :: p in KeepValid(ws) ==> IsWord(p)
  {
    if ws != [] {
      KeepValidSound(ws[1..]);
      assert forall w :: w in ws <==> w == ws[0] || w in ws[1..];
      if ValidName(ws[0]) {
        LowerValidName(ws[0]);
      }
    }
  }

  /** Filtering keeps the order of the names: the players from two runs of
      tokens are the players from the first run followed by those from the
      second. */
  lemma {:induction false} KeepValidAppend(xs: seq<string>, ys: seq<string>)
    ensures KeepValid(xs + ys) == KeepValid(xs) + KeepValid(ys)
  {
    if xs == [] {
      assert xs + ys == ys;
    } else {
      assert (xs + ys)[0] == xs[0] && (xs + ys)[1..] == xs[1..] + ys;
      KeepValidAppend(xs[1..], ys);
    }
  }

  /** The text up to the first line break: what `.*` matches. */
  function Line(s: string): (r: string)
    ensures r <= s && '\n' !in r
    ensures |r| < |s| ==> s[|r|] == '\n'
  {
    if s == [] || s[0] == '\n' then [] else [s[0]] + Line(s[1..])
  }

  /** The group of the first match of `!challenge (.*)`, if there is one: the
      rest of the line after the leftmost `"!challenge "`, taken greedily up
      to a line break or the end of the text. */
  function ChallengeArgs(text: string): (r: Option<string>)
    ensures r.None? <==> !Contains(text, ChallengeCommand)
    ensures r.Some? ==> '\n' !in r.value
    ensures r.Some? ==> exists i ::
      OccursAt(text, ChallengeCommand + r.value, i) &&
      (forall j :: 0 <= j < i ==> !OccursAt(text, ChallengeCommand, j)) &&
      (i + |ChallengeCommand| + |r.value| == |text| || text[i + |ChallengeCommand| + |r.value|] == '\n')
  {
    match IndexOf(text, ChallengeCommand)
    case None => None
    case Some(i) =>
      var arg := Line(text[i + |ChallengeCommand|..]);
      assert text[i..i + |ChallengeCommand| + |arg|] == ChallengeCommand + arg;
      assert OccursAt(text, ChallengeCommand + arg, i);
      Some(arg)
  }

  /** The players named by a challenge: the whitespace-separated tokens of
      the command's argument that are valid names, lower-cased, in order.
      Every player is a non-empty, whitespace-free, lower-case valid name. */
  function Players(args: string): (r: seq<string>)
    ensures forall p :: p in r ==> IsWord(p) && ValidName(p) && NoUpperCase(p)
    ensures forall p :: p in r ==> exists w :: w in Split(args) && ValidName(w) && p == Lower(w)
    ensures forall w :: w in Split(args) && ValidName(w) ==> Lower(w) in r
    ensures |r| <= |Split(args)|
  {
    KeepValidSound(Split(args));
    KeepValid(Split(args))
  }

  /** The start branch. Without a challenge command it is silent; with fewer
      than two valid names it asks for more; otherwise it raises, because
      the record has no `start_challenge` method. The record is never
      changed on this branch. */
  function StartReply(text: string): (r: Reply)
    ensures r == Silent <==> !Contains(text, ChallengeCommand)
    ensures r == Say(TagAtLeastTwo) <==>
      Contains(text, ChallengeCommand) && |Players(ChallengeArgs(text).value)| < 2
    ensures r == Raise(NoStartChallengeMethod) <==>
      Contains(text, ChallengeCommand) && |Players(ChallengeArgs(text).value)| >= 2
  {
    match ChallengeArgs(text)
    case None => Silent
    case Some(args) =>
      if |Players(args)| < 2 then Say(TagAtLeastTwo) else Raise(NoStartChallengeMethod)
  }

  /** Without a valid name there are no players. */
  lemma {:induction false} NoValidNameNoPlayers(ws: seq<string>)
    requires forall w :: w in ws ==> !ValidName(w)
    ensures KeepValid(ws) == []
  {
    if ws != [] {
      assert ws[0] in ws;
      NoValidNameNoPlayers(ws[1..]);
    }
  }

  /** The usage the bot documents, `!challenge @player1 @player2`, tags
      players with `@`; tagged names are not valid, so such a challenge only
      gets the request to tag at least two. */
  lemma TaggedPlayersAreRejected(text: string)
    requires Contains(text, ChallengeCommand)
    requires forall w :: w in Split(ChallengeArgs(text).value) ==> w[0] == '@'
    ensures Players(ChallengeArgs(text).value) == []
    ensures StartReply(text) == Say(TagAtLeastTwo)
  {
    var ws := Split(ChallengeArgs(text).value);
    forall w | w in ws ensures !ValidName(w) {
      ValidNameIff(w);
    }
    NoValidNameNoPlayers(ws);
  }

  // ---------------------------------------------------------------------
  // Dispatch, timeout, tick spacing and tick messages
  // ---------------------------------------------------------------------

  /** The branch taken for a message: a reset command anywhere in the text
      comes first; then 0 starts, -1 readies up, a positive state ticks and
      anything else is illegal. */
  function Classify(state: int, text: string): (b: Branch)
    ensures b == ResetRequest <==> Contains(text, ResetCommand)
    ensures b == StartBranch <==> !Contains(text, ResetCommand) && state == Completed
    ensures b == ReadyBranch <==> !Contains(text, ResetCommand) && state == WaitingForReady
    ensures b == TickBranch <==> !Contains(text, ResetCommand) && state > 0
    ensures b == IllegalBranch <==> !Contains(text, ResetCommand) && state < WaitingForReady
  {
    if Contains(text, ResetCommand) then ResetRequest
    else if state == Completed then StartBranch
    else if state == WaitingForReady then ReadyBranch
    else if state > 0 then TickBranch
    else IllegalBranch
  }

  /** A record whose state its own operations produced never takes the
      illegal branch. */
  lemma LegalStateNeverIllegal(state: int, text: string)
    requires LegalState(state)
    ensures Classify(state, text) != IllegalBranch
  {
  }

  /** More than `Timeout` seconds since the last update (strictly more). */
  predicate TimedOut(now: int, last: int) {
    now - last > Timeout
  }

  /** Exactly `Timeout` seconds of silence is not yet a time-out, one more
      second is; and once timed out, a later reading stays timed out. */
  lemma TimeoutBoundary(last: int, now: int, later: int)
    ensures !TimedOut(last + Timeout, last) && TimedOut(last + Timeout + 1, last)
    ensures TimedOut(now, last) && later >= now ==> TimedOut(later, last)
  {
  }

  /** How long the tick branch sleeps when `dt` seconds passed since the last
      update: the rest of a second if `dt` is 0 or 1, otherwise nothing. It is
      never negative and never more than a second, and when `dt` is not
      negative it brings the spacing between updates up to at least a second. */
  function SleepAmount(dt: int): (r: int)
    ensures 0 <= r <= 1
    ensures dt >= 0 ==> dt + r >= 1
    ensures r > 0 <==> dt == 0
  {
    if 0 <= dt <= 1 then 1 - dt else 0
  }

  /** The message for the state a tick returns: `"<n>..."` while counting,
      `"go!"` at 0. */
  function TickMessage(n: int): (m: string)
    ensures m == "go!" <==> n == 0
    ensures n != 0 ==> m == Decimal(n) + "..."
  {
    if n != 0 then Decimal(n) + "..." else "go!"
  }

  /** Different states give different tick messages. */
  lemma TickMessageInjective(m: int, n: int)
    requires TickMessage(m) == TickMessage(n)
    ensures m == n
  {
    if m != 0 && n != 0 {
      var a, b := TickMessage(m), TickMessage(n);
      assert Decimal(m) == a[..|a| - 3] == b[..|b| - 3] == Decimal(n);
      DecimalInjective(m, n);
    }
  }

  /** The four messages of a countdown started by `start_clock`. */
  lemma CountdownMessages()
    ensures TickMessage(TickValues(Countdown, 4)[0]) == "3..."
    ensures TickMessage(TickValues(Countdown, 4)[1]) == "2..."
    ensures TickMessage(TickValues(Countdown, 4)[2]) == "1..."
    ensures TickMessage(TickValues(Countdown, 4)[3]) == "go!"
  {
    CountdownSequence(4);
    assert Digits(3) == "3" && Digits(2) == "2" && Digits(1) == "1";
  }

  // ---------------------------------------------------------------------
  // The handler
  // ---------------------------------------------------------------------

  /** The tick branch: sleep so that at least a second separates the ticks,
      tick at the time after the sleep, and announce the new state. */
  method TickStep(c: Challenge, now: int) returns (msg: string)
    modifies c
    ensures c.Snapshot() == old(c.Snapshot()).(state := NextState(old(c.state)),
                                               time := now + SleepAmount(now - old(c.time)))
    ensures msg == TickMessage(c.state)
    ensures now >= old(c.time) ==> c.time >= old(c.time) + 1
    ensures old(c.Valid()) ==> c.Valid()
  {
    var dt := now - c.time;
    var pause := SleepAmount(dt);
    var s := c.Tick(now + pause);
    msg := TickMessage(s);
  }

  /** The ready branch after its search for `!ready`, given whether the search
      matched. A message that is not a ready confirmation resets the record
      once the wait has timed out; a confirmation marks the sender ready and
      starts the clock as soon as the quorum is met. */
  method ReadyStep(c: Challenge, matched: bool, user: string, now: int) returns (r: Reply)
    modifies c
    ensures !matched && TimedOut(now, old(c.time)) ==>
      r == Say(GiveUp) && c.Snapshot() == Idle(old(c.channel), now)
    ensures !matched && !TimedOut(now, old(c.time)) ==>
      r == Silent && c.Snapshot() == old(c.Snapshot())
    ensures matched ==>
      c.channel == old(c.channel) && c.challenger == old(c.challenger) &&
      c.challenged == old(c.challenged) &&
      c.ready == (if Contains(old(c.challenged), user) then AddReady(old(c.ready), user) else old(c.ready))
    ensures matched && Quorum(c.challenged, c.ready) ==>
      r == Say(StartingCountdown(c.challenger)) && c.state == Countdown && c.time == now
    ensures matched && !Quorum(c.challenged, c.ready) ==>
      r == Silent && c.state == old(c.state) &&
      c.time == (if Contains(old(c.challenged), user) then now else old(c.time))
    ensures old(c.Valid()) ==> c.Valid()
  {
    if !matched {
      if TimedOut(now, c.time) {
        c.Reset(now);
        return Say(GiveUp);
      } else {
        return Silent;
      }
    }
    c.SetReady(user, now);
    if c.IsReady() {
      c.StartClock(now);
      return Say(StartingCountdown(c.challenger));
    }
    return Silent;
  }

  /** One inbound message on the channel whose record is `c`. A raised fault
      leaves the record as it was. */
  method OnMessage(c: Challenge, text: string, user: string, now: int) returns (r: Reply)
    modifies c
    ensures Classify(old(c.state), text) == ResetRequest ==>
      r == Raise(ResetGivenChannel) && c.Snapshot() == old(c.Snapshot())
    ensures Classify(old(c.state), text) == StartBranch ==>
      r == StartReply(text) && c.Snapshot() == old(c.Snapshot())
    ensures Classify(old(c.state), text) == ReadyBranch ==>
      r == Raise(ReadySearchWithoutText) && c.Snapshot() == old(c.Snapshot())
    ensures Classify(old(c.state), text) == TickBranch ==>
      c.Snapshot() == old(c.Snapshot()).(state := old(c.state) - 1,
                                         time := now + SleepAmount(now - old(c.time))) &&
      r == Say(TickMessage(c.state))
    ensures Classify(old(c.state), text) == IllegalBranch ==>
      r == Say(Apology) && c.Snapshot() == Idle(old(c.channel), now)
    ensures r.Raise? ==> c.Snapshot() == old(c.Snapshot())
    ensures old(c.Valid()) ==> Classify(old(c.state), text) != IllegalBranch && c.Valid()
  {
    if Contains(text, ResetCommand) {
      return Raise(ResetGivenChannel);
    }
    var state := c.state;
    if state == Completed {
      r := StartReply(text);
    } else if state == WaitingForReady {
      r := Raise(ReadySearchWithoutText);
    } else if state > 0 {
      var msg := TickStep(c, now);
      r := Say(msg);
    } else {
      c.Reset(now);
      r := Say(Apology);
    }
  }

  /** Once the clock is started, the next four messages (none of them a
      reset command) announce 3..., 2..., 1..., go! and leave the record
      completed. */
  method CountdownDialogue(c: Challenge, now: int) returns (replies: seq<Reply>)
    modifies c
    ensures replies == [Say("3..."), Say("2..."), Say("1..."), Say("go!")]
    ensures c.state == Completed
  {
    assert !Contains("", ResetCommand);
    assert Digits(3) == "3" && Digits(2) == "2" && Digits(1) == "1";
    assert TickMessage(3) == "3..." && TickMessage(2) == "2..." && TickMessage(1) == "1...";
    c.StartClock(now);
    var a := OnMessage(c, "", "", now + 1);
    var b := OnMessage(c, "", "", now + 2);
    var d := OnMessage(c, "", "", now + 3);
    var e := OnMessage(c, "", "", now + 4);
    replies := [a, b, d, e];
  }
}
