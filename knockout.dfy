/** The knockout stage: `knockout_match_play` (draw again until the two scores
    differ), the survivor-against-next rounds of `play_knockout_round` and
    `single_day_knockout_matches`, and the fixed bracket of `knockout_competition`.
    Each match has its own supply of draws, `draws(n)` for game number `n`; a
    supply in which every draw is a tie leaves the match undecided. */
module Knockout {
  import opened Wrappers
  import opened LinkedList
  import opened Scoring

  /** How a knockout walk ended: with a value, with every supplied draw a tie
      (the source would keep drawing), or with an exception. */
  datatype Outcome<T> = Done(value: T) | Undecided | Raised(error: Error)

  /** Draw `raw` is a tie between `team1` and `team2`: the two scores
      `randint(0, power)` are equal. */
  predicate Tie(team1: Team, team2: Team, raw: (nat, nat))
    requires team1.power >= 0 && team2.power >= 0
  {
    Roll(raw.0, team1.power) == Roll(raw.1, team2.power)
  }

  /** Position of the first draw that is not a tie, or `|draws|`. */
  function FirstDecider(team1: Team, team2: Team, draws: seq<(nat, nat)>): (k: nat)
    requires team1.power >= 0 && team2.power >= 0
    ensures k <= |draws|
    ensures k < |draws| ==> !Tie(team1, team2, draws[k])
    ensures forall i :: 0 <= i < k ==> Tie(team1, team2, draws[i])
  {
    if draws == [] then 0
    else if !Tie(team1, team2, draws[0]) then 0
    else 1 + FirstDecider(team1, team2, draws[1..])
  }

  /** `knockout_match_play` on the draws `draws`: (winner, loser). */
  function Bout(team1: Team, team2: Team, draws: seq<(nat, nat)>): (r: Outcome<(Team, Team)>)
    ensures r.Raised? <==> team1.power < 0 || team2.power < 0
    ensures r.Raised? ==> r.error == ValueError
    ensures r.Undecided? <==> team1.power >= 0 && team2.power >= 0 &&
                              forall i :: 0 <= i < |draws| ==> Tie(team1, team2, draws[i])
    ensures r.Done? ==> r.value == (team1, team2) || r.value == (team2, team1)
    ensures r.Done? ==> var k := FirstDecider(team1, team2, draws);
                        var g1, g2 := Roll(draws[k].0, team1.power), Roll(draws[k].1, team2.power);
                        k < |draws| && g1 != g2 && r.value.0 == (if g1 > g2 then team1 else team2)
                        && r.value.1 == (if g1 > g2 then team2 else team1)
  {
    if team1.power < 0 || team2.power < 0 then Raised(ValueError)
    else
      var k := FirstDecider(team1, team2, draws);
      if k == |draws| then Undecided
      else if Roll(draws[k].0, team1.power) > Roll(draws[k].1, team2.power) then Done((team1, team2))
      else Done((team2, team1))
  }

  /** Two teams of power 0 always tie, so their match is never decided. */
  lemma ZeroPowersNeverDecide(team1: Team, team2: Team, draws: seq<(nat, nat)>)
    requires team1.power == 0 && team2.power == 0
    ensures Bout(team1, team2, draws) == Undecided
  {
    forall i | 0 <= i < |draws| ensures Tie(team1, team2, draws[i]) {
      var g1, g2 := Roll(draws[i].0, 0), Roll(draws[i].1, 0);
      assert g1 == 0 && g2 == 0;
    }
  }

  /** `knockout_match_play`: draws both scores again while they are equal. */
  method KnockoutMatchPlay(team1: Team, team2: Team, draws: seq<(nat, nat)>) returns (r: Outcome<(Team, Team)>)
    ensures r == Bout(team1, team2, draws)
  {
    if team1.power < 0 || team2.power < 0 {
      return Raised(ValueError);
    }
    var k := 0;
    while k < |draws|
      invariant k <= |draws|
      invariant forall i :: 0 <= i < k ==> Tie(team1, team2, draws[i])
    {
      var goals1 := Roll(draws[k].0, team1.power);
      var goals2 := Roll(draws[k].1, team2.power);
      if goals1 > goals2 {
        assert FirstDecider(team1, team2, draws) == k;
        return Done((team1, team2));
      } else if goals2 > goals1 {
        assert FirstDecider(team1, team2, draws) == k;
        return Done((team2, team1));
      }
      k := k + 1;
    }
    r := Undecided;
  }

  /** `knockout_update_after_match`: the loser's entry leaves the list. */
  method KnockoutUpdateAfterMatch(knockout: TeamList, loser: string)
    requires knockout.Valid()
    modifies knockout, knockout.Spine
    ensures knockout.Valid() && knockout.Teams == DeleteFirst(old(knockout.Teams), loser)
    ensures |knockout.Spine| <= |old(knockout.Spine)|
    ensures forall i :: 0 <= i < |knockout.Spine| ==> knockout.Spine[i] in old(knockout.Spine)
  {
    ghost var spine := knockout.Spine;
    var _ := knockout.Delete(loser);
    forall i | 0 <= i < |knockout.Spine| ensures knockout.Spine[i] in spine {
      var k := IndexOf(old(knockout.Teams), loser);
      if k < |spine| && i >= k {
        assert knockout.Spine[i] == spine[i + 1];
      } else {
        assert knockout.Spine[i] == spine[i];
      }
    }
  }

  /** What the rounds log as the two "goals": `play_knockout_round` logs the
      winner's and the loser's power, `single_day_knockout_matches` logs zeros. */
  datatype Logging = LogPowers | LogZeros

  /** What a round logs for a team as its "goals". */
  function Logged(logging: Logging, t: Team): int {
    if logging == LogPowers then t.power else 0
  }

  /** The ledger entry of a knockout match: winner first. */
  function Entry(logging: Logging, game: int, winner: Team, loser: Team): MatchRecord {
    MatchRecord(game, winner.name, loser.name, Logged(logging, winner), Logged(logging, loser))
  }

  /** Deleting the name of one of the first two entries deletes exactly one entry. */
  lemma LoserGoes(ts: seq<Team>, loser: Team)
    requires |ts| >= 2 && (loser == ts[0] || loser == ts[1])
    ensures |DeleteFirst(ts, loser.name)| == |ts| - 1
  {
    assert IndexOf(ts, loser.name) <= 1;
  }

  /** The rounds of `play_knockout_round` on the table `ts`, numbering games from
      `game`: the first two entries play, the loser's name is deleted, and play
      starts again from the head, until fewer than two entries remain. Gives the
      remaining table, the ledger entries and how the walk ended. */
  function Round(logging: Logging, ts: seq<Team>, game: int, draws: int -> seq<(nat, nat)>)
    : (r: (seq<Team>, seq<MatchRecord>, Outcome<()>))
    ensures !r.2.Done? ==> |r.0| >= 2
    decreases |ts|, 1
  {
    if |ts| < 2 then (ts, [], Done(())) else FrontMatch(logging, ts, game, draws)
  }

  /** A round from its front match on. */
  function FrontMatch(logging: Logging, ts: seq<Team>, game: int, draws: int -> seq<(nat, nat)>)
    : (r: (seq<Team>, seq<MatchRecord>, Outcome<()>))
    requires |ts| >= 2
    ensures !r.2.Done? ==> |r.0| >= 2
    decreases |ts|, 0
  {
    match Bout(ts[0], ts[1], draws(game))
    case Raised(e) => (ts, [], Raised(e))
    case Undecided => (ts, [], Undecided)
    case Done(p) =>
      LoserGoes(ts, p.1);
      var rest := Round(logging, DeleteFirst(ts, p.1.name), game + 1, draws);
      (rest.0, [Entry(logging, game, p.0, p.1)] + rest.1, rest.2)
  }

  /** The round after a decided front match is the round on the table without
      the loser, one game later, after that match's entry. */
  lemma RoundStep(logging: Logging, ts: seq<Team>, game: int, draws: int -> seq<(nat, nat)>, winner: Team, loser: Team)
    requires |ts| >= 2 && Bout(ts[0], ts[1], draws(game)) == Done((winner, loser))
    ensures var rest := Round(logging, DeleteFirst(ts, loser.name), game + 1, draws);
            Round(logging, ts, game, draws) == (rest.0, [Entry(logging, game, winner, loser)] + rest.1, rest.2)
  {
    assert Round(logging, ts, game, draws) == FrontMatch(logging, ts, game, draws);
  }

  /** With distinct names, the loser of the front match is the entry deleted, so
      the winner moves to the head of the rest of the table. */
  lemma LoserLeavesFront(ts: seq<Team>, winner: Team, loser: Team)
    requires |ts| >= 2 && UniqueNames(ts)
    requires (winner, loser) == (ts[0], ts[1]) || (winner, loser) == (ts[1], ts[0])
    ensures DeleteFirst(ts, loser.name) == [winner] + ts[2..]
  {
    if loser == ts[0] {
      assert IndexOf(ts, loser.name) == 0;
      assert ts[1..] == [ts[1]] + ts[2..];
    } else {
      assert ts[0].name != ts[1].name;
      assert IndexOf(ts, loser.name) == 1;
      assert ts[..1] == [ts[0]];
    }
  }

  /** With distinct names, the round after a decided front match goes on from the
      winner followed by the untouched rest of the table, one game later. */
  lemma RoundStepUnique(logging: Logging, ts: seq<Team>, game: int, draws: int -> seq<(nat, nat)>, winner: Team, loser: Team)
    requires |ts| >= 2 && UniqueNames(ts) && Bout(ts[0], ts[1], draws(game)) == Done((winner, loser))
    ensures var rest := Round(logging, [winner] + ts[2..], game + 1, draws);
            Round(logging, ts, game, draws) == (rest.0, [Entry(logging, game, winner, loser)] + rest.1, rest.2)
  {
    LoserLeavesFront(ts, winner, loser);
    RoundStep(logging, ts, game, draws, winner, loser);
  }

  /** Deleting a name drops at most one entry and adds none. */
  lemma DeleteFirstSub(ts: seq<Team>, name: string)
    ensures multiset(DeleteFirst(ts, name)) <= multiset(ts)
  {
    var k := IndexOf(ts, name);
    if k < |ts| {
      assert ts == ts[..k] + [ts[k]] + ts[k + 1..];
    }
  }

  /** `play_knockout_round` (logging powers) and `single_day_knockout_matches`
      (logging zeros): the front pair plays until one entry is left. */
  method PlayRound(logging: Logging, knockout: TeamList, history: MatchHistory, draws: int -> seq<(nat, nat)>)
    returns (status: Outcome<()>)
    requires knockout.Valid() && history.Valid()
    modifies knockout, knockout.Spine, history, history.Spine
    ensures knockout.Valid() && history.Valid() && history.Grew()
    ensures var r := Round(logging, old(knockout.Teams), old(history.size) + 1, draws);
            knockout.Teams == r.0 && history.Records == old(history.Records) + r.1 && status == r.2
  {
    ghost var r0 := history.Records;
    var game := history.size + 1;
    ghost var goal := Round(logging, knockout.Teams, game, draws);
    ghost var log: seq<MatchRecord> := [];
    var current := knockout.head;
    PendingStart(logging, knockout.Teams, game, draws);
    while current != null && current.next != null
      invariant knockout.Valid() && history.Valid() && history.Grew()
      invariant forall i :: 0 <= i < |knockout.Spine| ==> knockout.Spine[i] in old(knockout.Spine)
      invariant current == knockout.head
      invariant history.Records == r0 + log
      invariant Pending(logging, knockout.Teams, game, draws, log, goal)
      decreases |knockout.Teams|
    {
      var bout, entry := RoundTurn(logging, knockout, history, game, draws, log, goal);
      if !bout.Done? {
        return if bout.Raised? then Raised(bout.error) else Undecided;
      }
      log := log + [entry];
      game := game + 1;
      current := knockout.head;
    }
    PendingEnd(logging, knockout.Teams, game, draws, log, goal);
    status := Done(());
  }

  /** One pass of the round's loop: the front pair plays, and the loop state
      moves on to the shorter list, or the round stops where the bout did. */
  method RoundTurn(logging: Logging, knockout: TeamList, history: MatchHistory, game: int, draws: int -> seq<(nat, nat)>,
                   ghost log: seq<MatchRecord>, ghost goal: (seq<Team>, seq<MatchRecord>, Outcome<()>))
    returns (bout: Outcome<(Team, Team)>, ghost entry: MatchRecord)
    requires knockout.Valid() && history.Valid() && knockout.head != null && knockout.head.next != null
    requires Pending(logging, knockout.Teams, game, draws, log, goal)
    modifies knockout, knockout.Spine, history, history.Spine
    ensures knockout.Valid() && history.Valid() && history.Grew()
    ensures forall i :: 0 <= i < |knockout.Spine| ==> knockout.Spine[i] in old(knockout.Spine)
    ensures bout.Done? ==> && |knockout.Teams| < |old(knockout.Teams)|
                           && history.Records == old(history.Records) + [entry]
                           && Pending(logging, knockout.Teams, game + 1, draws, log + [entry], goal)
    ensures !bout.Done? ==> && history.Records == old(history.Records)
                            && goal == (knockout.Teams, log, if bout.Raised? then Raised(bout.error) else Undecided)
  {
    ghost var ts := knockout.Teams;
    bout := PlayFront(logging, knockout, history, game, draws);
    if bout.Done? {
      entry := Entry(logging, game, bout.value.0, bout.value.1);
      PendingStep(logging, ts, game, draws, log, goal, bout.value.0, bout.value.1);
    } else {
      entry := Entry(logging, game, ts[0], ts[1]);
      PendingHalt(logging, ts, game, draws, log, goal);
    }
  }

  /** Loop state of a round: `goal` is the whole round, `log` the entries played
      so far, and the round on `ts` from `game` is what remains of it. */
  ghost predicate Pending(logging: Logging, ts: seq<Team>, game: int, draws: int -> seq<(nat, nat)>,
                          log: seq<MatchRecord>, goal: (seq<Team>, seq<MatchRecord>, Outcome<()>))
  {
    var r := Round(logging, ts, game, draws);
    goal == (r.0, log + r.1, r.2)
  }

  lemma PendingStart(logging: Logging, ts: seq<Team>, game: int, draws: int -> seq<(nat, nat)>)
    ensures Pending(logging, ts, game, draws, [], Round(logging, ts, game, draws))
  {
    var r := Round(logging, ts, game, draws);
    assert [] + r.1 == r.1;
  }

  lemma PendingStep(logging: Logging, ts: seq<Team>, game: int, draws: int -> seq<(nat, nat)>,
                    log: seq<MatchRecord>, goal: (seq<Team>, seq<MatchRecord>, Outcome<()>), winner: Team, loser: Team)
    requires |ts| >= 2 && Bout(ts[0], ts[1], draws(game)) == Done((winner, loser))
    requires Pending(logging, ts, game, draws, log, goal)
    ensures Pending(logging, DeleteFirst(ts, loser.name), game + 1, draws, log + [Entry(logging, game, winner, loser)], goal)
  {
    var entry := Entry(logging, game, winner, loser);
    var rest := Round(logging, DeleteFirst(ts, loser.name), game + 1, draws);
    RoundStep(logging, ts, game, draws, winner, loser);
    AppendAssoc(log, [entry], rest.1);
  }

  lemma PendingHalt(logging: Logging, ts: seq<Team>, game: int, draws: int -> seq<(nat, nat)>,
                    log: seq<MatchRecord>, goal: (seq<Team>, seq<MatchRecord>, Outcome<()>))
    requires |ts| >= 2 && !Bout(ts[0], ts[1], draws(game)).Done?
    requires Pending(logging, ts, game, draws, log, goal)
    ensures var b := Bout(ts[0], ts[1], draws(game));
            goal == (ts, log, if b.Raised? then Raised(b.error) else Undecided)
  {
    RoundHalts(logging, ts, game, draws);
    AppendNil(log);
  }

  lemma PendingEnd(logging: Logging, ts: seq<Team>, game: int, draws: int -> seq<(nat, nat)>,
                   log: seq<MatchRecord>, goal: (seq<Team>, seq<MatchRecord>, Outcome<()>))
    requires |ts| < 2 && Pending(logging, ts, game, draws, log, goal)
    ensures goal == (ts, log, Done(()))
  {
    AppendNil(log);
  }

  lemma AppendAssoc<T>(a: seq<T>, b: seq<T>, c: seq<T>)
    ensures a + (b + c) == (a + b) + c
  {
  }

  lemma AppendNil<T>(a: seq<T>)
    ensures a + [] == a
  {
  }

  /** One pass of the round's loop: the first two entries play, the result is
      logged and the loser's entry is deleted; nothing changes when the match
      is not decided. */
  method PlayFront(logging: Logging, knockout: TeamList, history: MatchHistory, game: int, draws: int -> seq<(nat, nat)>)
    returns (bout: Outcome<(Team, Team)>)
    requires knockout.Valid() && history.Valid() && knockout.head != null && knockout.head.next != null
    modifies knockout, knockout.Spine, history, history.Spine
    ensures knockout.Valid() && history.Valid() && history.Grew()
    ensures forall i :: 0 <= i < |knockout.Spine| ==> knockout.Spine[i] in old(knockout.Spine)
    ensures |old(knockout.Teams)| >= 2 && bout == Bout(old(knockout.Teams)[0], old(knockout.Teams)[1], draws(game))
    ensures bout.Done? ==> knockout.Teams == DeleteFirst(old(knockout.Teams), bout.value.1.name)
                           && history.Records == old(history.Records) + [Entry(logging, game, bout.value.0, bout.value.1)]
    ensures !bout.Done? ==> knockout.Teams == old(knockout.Teams) && history.Records == old(history.Records)
  {
    var current := knockout.head;
    assert knockout.Spine[0] == current && knockout.Spine[1] == current.next;
    var team1 := current.data;
    var team2 := current.next.data;
    bout := KnockoutMatchPlay(team1, team2, draws(game));
    if bout.Done? {
      var winner, loser := bout.value.0, bout.value.1;
      history.AddMatch(game, winner.name, loser.name, Logged(logging, winner), Logged(logging, loser));
      ghost var records := history.Records;
      KnockoutUpdateAfterMatch(knockout, loser.name);
      assert history.Records == records;
    }
  }

  /** `play_knockout_round`: ledger entries carry the two powers. */
  method PlayKnockoutRound(knockout: TeamList, history: MatchHistory, draws: int -> seq<(nat, nat)>)
    returns (status: Outcome<()>)
    requires knockout.Valid() && history.Valid()
    modifies knockout, knockout.Spine, history, history.Spine
    ensures knockout.Valid() && history.Valid()
    ensures var r := Round(LogPowers, old(knockout.Teams), old(history.size) + 1, draws);
            knockout.Teams == r.0 && history.Records == old(history.Records) + r.1 && status == r.2
  {
    status := PlayRound(LogPowers, knockout, history, draws);
  }

  /** `single_day_knockout_matches`: ledger entries carry zeros. */
  method SingleDayKnockoutMatches(knockout: TeamList, history: MatchHistory, draws: int -> seq<(nat, nat)>)
    returns (status: Outcome<()>)
    requires knockout.Valid() && history.Valid()
    modifies knockout, knockout.Spine, history, history.Spine
    ensures knockout.Valid() && history.Valid()
    ensures var r := Round(LogZeros, old(knockout.Teams), old(history.size) + 1, draws);
            knockout.Teams == r.0 && history.Records == old(history.Records) + r.1 && status == r.2
  {
    status := PlayRound(LogZeros, knockout, history, draws);
  }

  /** A round whose front match is not decided stops there, with nothing logged. */
  lemma RoundHalts(logging: Logging, ts: seq<Team>, game: int, draws: int -> seq<(nat, nat)>)
    requires |ts| >= 2 && !Bout(ts[0], ts[1], draws(game)).Done?
    ensures var b := Bout(ts[0], ts[1], draws(game));
            Round(logging, ts, game, draws) == (ts, [], if b.Raised? then Raised(b.error) else Undecided)
  {
    assert Round(logging, ts, game, draws) == FrontMatch(logging, ts, game, draws);
  }

  /** Every match of a round removes exactly one entry and adds one ledger entry;
      a round that runs to the end leaves exactly one entry of a non-empty table. */
  lemma {:induction false} RoundCounts(logging: Logging, ts: seq<Team>, game: int, draws: int -> seq<(nat, nat)>)
    ensures var r := Round(logging, ts, game, draws);
            && |r.0| + |r.1| == |ts|
            && (r.2.Done? ==> |r.0| == if ts == [] then 0 else 1)
    decreases |ts|
  {
    if |ts| >= 2 {
      var b := Bout(ts[0], ts[1], draws(game));
      if b.Done? {
        RoundStep(logging, ts, game, draws, b.value.0, b.value.1);
        LoserGoes(ts, b.value.1);
        RoundCounts(logging, DeleteFirst(ts, b.value.1.name), game + 1, draws);
      } else {
        RoundHalts(logging, ts, game, draws);
      }
    }
  }

  /** A round's ledger entries are numbered on from `game` without gaps. */
  lemma {:induction false} RoundNumbers(logging: Logging, ts: seq<Team>, game: int, draws: int -> seq<(nat, nat)>)
    ensures var log := Round(logging, ts, game, draws).1;
            forall k :: 0 <= k < |log| ==> log[k].gameNumber == game + k
    decreases |ts|
  {
    if |ts| >= 2 {
      var b := Bout(ts[0], ts[1], draws(game));
      if b.Done? {
        RoundStep(logging, ts, game, draws, b.value.0, b.value.1);
        LoserGoes(ts, b.value.1);
        RoundNumbers(logging, DeleteFirst(ts, b.value.1.name), game + 1, draws);
      } else {
        RoundHalts(logging, ts, game, draws);
      }
    }
  }

  /** The entries a round leaves are entries of the table it started from. */
  lemma {:induction false} RoundSurvivors(logging: Logging, ts: seq<Team>, game: int, draws: int -> seq<(nat, nat)>)
    ensures multiset(Round(logging, ts, game, draws).0) <= multiset(ts)
    decreases |ts|
  {
    if |ts| >= 2 {
      var b := Bout(ts[0], ts[1], draws(game));
      if b.Done? {
        var rest := DeleteFirst(ts, b.value.1.name);
        RoundStep(logging, ts, game, draws, b.value.0, b.value.1);
        LoserGoes(ts, b.value.1);
        RoundSurvivors(logging, rest, game + 1, draws);
        DeleteFirstSub(ts, b.value.1.name);
      } else {
        RoundHalts(logging, ts, game, draws);
      }
    }
  }
}
