/** `knockout_competition`: a fixed bracket of four stages in which entries
    (0, 1), (2, 3), ... of the current list meet, the winners move on in order,
    and the first entry left after the final is the champion. Every match is
    logged winner first with zeros for goals, numbered on from the ledger's size. */
module Competition {
  import opened Wrappers
  import opened LinkedList
  import opened Knockout

  /** How many stages the bracket plays: round of 16, quarter-finals, semi-finals
      and the final. */
  const Stages: nat := 4

  /** One stage on the list `ts`, numbering games from `game`: the winners in
      pairing order, the ledger entries, and how the stage ended. A leftover last
      entry has no partner (an index error), after the earlier matches are logged. */
  function Stage(ts: seq<Team>, game: int, draws: int -> seq<(nat, nat)>)
    : (r: (seq<Team>, seq<MatchRecord>, Outcome<()>))
    ensures |r.1| == |r.0| && 2 * |r.0| <= |ts|
    decreases |ts|, 1
  {
    if |ts| == 0 then ([], [], Done(()))
    else if |ts| == 1 then ([], [], Raised(IndexError))
    else FrontPair(ts, game, draws)
  }

  /** A stage from its first pair on. */
  function FrontPair(ts: seq<Team>, game: int, draws: int -> seq<(nat, nat)>)
    : (r: (seq<Team>, seq<MatchRecord>, Outcome<()>))
    requires |ts| >= 2
    ensures |r.1| == |r.0| && 2 * |r.0| <= |ts|
    decreases |ts|, 0
  {
    match Bout(ts[0], ts[1], draws(game))
    case Raised(e) => ([], [], Raised(e))
    case Undecided => ([], [], Undecided)
    case Done(p) =>
      var rest := Stage(ts[2..], game + 1, draws);
      ([p.0] + rest.0, [Entry(LogZeros, game, p.0, p.1)] + rest.1, rest.2)
  }

  /** After a decided first pair, a stage goes on with the rest of the list. */
  lemma StageStep(ts: seq<Team>, game: int, draws: int -> seq<(nat, nat)>, winner: Team, loser: Team)
    requires |ts| >= 2 && Bout(ts[0], ts[1], draws(game)) == Done((winner, loser))
    ensures var rest := Stage(ts[2..], game + 1, draws);
            Stage(ts, game, draws) == ([winner] + rest.0, [Entry(LogZeros, game, winner, loser)] + rest.1, rest.2)
  {
    assert Stage(ts, game, draws) == FrontPair(ts, game, draws);
  }

  /** A stage whose first pair is not decided stops there, with nothing logged. */
  lemma StageHalts(ts: seq<Team>, game: int, draws: int -> seq<(nat, nat)>)
    requires |ts| >= 2 && !Bout(ts[0], ts[1], draws(game)).Done?
    ensures var b := Bout(ts[0], ts[1], draws(game));
            Stage(ts, game, draws) == ([], [], if b.Raised? then Raised(b.error) else Undecided)
  {
    assert Stage(ts, game, draws) == FrontPair(ts, game, draws);
  }

  /** `stages` stages from the list `ts`: the list left, the ledger entries, and
      how the walk ended; a stage that does not finish ends it. */
  function Bracket(ts: seq<Team>, game: int, draws: int -> seq<(nat, nat)>, stages: nat)
    : (r: (seq<Team>, seq<MatchRecord>, Outcome<()>))
    ensures |r.0| + |r.1| <= |ts|
    decreases stages, 1
  {
    if stages == 0 then (ts, [], Done(())) else StageThen(ts, game, draws, stages)
  }

  /** A bracket from its next stage on. */
  function StageThen(ts: seq<Team>, game: int, draws: int -> seq<(nat, nat)>, stages: nat)
    : (r: (seq<Team>, seq<MatchRecord>, Outcome<()>))
    requires stages > 0
    ensures |r.0| + |r.1| <= |ts|
    decreases stages, 0
  {
    var s := Stage(ts, game, draws);
    if !s.2.Done? then s
    else
      var rest := Bracket(s.0, game + |s.1|, draws, stages - 1);
      (rest.0, s.1 + rest.1, rest.2)
  }

  /** After a finished stage, a bracket goes on from its winners. */
  lemma BracketStep(ts: seq<Team>, game: int, draws: int -> seq<(nat, nat)>, stages: nat)
    requires stages > 0 && Stage(ts, game, draws).2.Done?
    ensures var s := Stage(ts, game, draws);
            var rest := Bracket(s.0, game + |s.1|, draws, stages - 1);
            Bracket(ts, game, draws, stages) == (rest.0, s.1 + rest.1, rest.2)
  {
    assert Bracket(ts, game, draws, stages) == StageThen(ts, game, draws, stages);
  }

  /** A stage that does not finish ends the bracket. */
  lemma BracketHalts(ts: seq<Team>, game: int, draws: int -> seq<(nat, nat)>, stages: nat)
    requires stages > 0 && !Stage(ts, game, draws).2.Done?
    ensures Bracket(ts, game, draws, stages) == Stage(ts, game, draws)
  {
    assert Bracket(ts, game, draws, stages) == StageThen(ts, game, draws, stages);
  }

  /** The whole competition: the champion (or the reason there is none) and the
      ledger entries. */
  function Champion(ts: seq<Team>, game: int, draws: int -> seq<(nat, nat)>): (r: (Outcome<Team>, seq<MatchRecord>))
    ensures r.0.Done? ==> r.0.value in ts
    ensures |r.1| <= |ts|
  {
    var b := Bracket(ts, game, draws, Stages);
    BracketMembers(ts, game, draws, Stages);
    var champion :=
      match b.2
      case Raised(e) => Raised(e)
      case Undecided => Undecided
      case Done(_) => if b.0 == [] then Raised(IndexError) else Done(b.0[0]);
    (champion, b.1)
  }

  /** Every entry a bracket leaves is one of the entries it started from. */
  lemma {:induction false} BracketMembers(ts: seq<Team>, game: int, draws: int -> seq<(nat, nat)>, stages: nat)
    ensures forall t :: t in Bracket(ts, game, draws, stages).0 ==> t in ts
    decreases stages
  {
    if stages > 0 {
      var s := Stage(ts, game, draws);
      StageMembers(ts, game, draws);
      if s.2.Done? {
        BracketStep(ts, game, draws, stages);
        BracketMembers(s.0, game + |s.1|, draws, stages - 1);
      } else {
        BracketHalts(ts, game, draws, stages);
      }
    }
  }

  /** Every winner of a stage is an entry of the list it was played on. */
  lemma StageMembers(ts: seq<Team>, game: int, draws: int -> seq<(nat, nat)>)
    ensures forall t :: t in Stage(ts, game, draws).0 ==> t in ts
  {
    var r := Stage(ts, game, draws);
    StagePairs(ts, game, draws);
    forall t | t in r.0 ensures t in ts {
      var k :| 0 <= k < |r.0| && r.0[k] == t;
      assert r.0[k] == ts[2 * k] || r.0[k] == ts[2 * k + 1];
    }
  }

  /** Winners and ledger entries that pair `ts` from the front: winner `k` is one
      of entries `2k` and `2k + 1`, and ledger entry `k` is that match, numbered
      `game + k`, winner first, the other entry of the pair second, goals logged
      as zeros. */
  ghost predicate Paired(ts: seq<Team>, game: int, winners: seq<Team>, log: seq<MatchRecord>) {
    && |log| == |winners| && 2 * |winners| <= |ts|
    && forall k :: 0 <= k < |winners| ==>
         && (winners[k] == ts[2 * k] || winners[k] == ts[2 * k + 1])
         && log[k].gameNumber == game + k && log[k].team1 == winners[k].name
         && log[k].team2 == (if winners[k] == ts[2 * k] then ts[2 * k + 1] else ts[2 * k]).name
         && log[k].goals1 == 0 && log[k].goals2 == 0
  }

  /** A stage pairs the list from the front. */
  lemma {:induction false} StagePairs(ts: seq<Team>, game: int, draws: int -> seq<(nat, nat)>)
    ensures var r := Stage(ts, game, draws);
            Paired(ts, game, r.0, r.1)
    decreases |ts|
  {
    if |ts| >= 2 {
      var b := Bout(ts[0], ts[1], draws(game));
      if b.Done? {
        var rest := Stage(ts[2..], game + 1, draws);
        StageStep(ts, game, draws, b.value.0, b.value.1);
        StagePairs(ts[2..], game + 1, draws);
        PairedCons(ts, game, b.value.0, b.value.1, rest.0, rest.1);
      } else {
        StageHalts(ts, game, draws);
      }
    }
  }

  /** Pairing is kept by putting one more match in front of a shorter list. */
  lemma PairedCons(ts: seq<Team>, game: int, winner: Team, loser: Team, winners: seq<Team>, log: seq<MatchRecord>)
    requires |ts| >= 2 && ((winner, loser) == (ts[0], ts[1]) || (winner, loser) == (ts[1], ts[0]))
    requires Paired(ts[2..], game + 1, winners, log)
    ensures Paired(ts, game, [winner] + winners, [Entry(LogZeros, game, winner, loser)] + log)
  {
    var w, l := [winner] + winners, [Entry(LogZeros, game, winner, loser)] + log;
    forall k | 1 <= k < |w|
      ensures w[k] == ts[2 * k] || w[k] == ts[2 * k + 1]
      ensures l[k].gameNumber == game + k && l[k].team1 == w[k].name
      ensures l[k].team2 == (if w[k] == ts[2 * k] then ts[2 * k + 1] else ts[2 * k]).name
      ensures l[k].goals1 == 0 && l[k].goals2 == 0
    {
      assert w[k] == winners[k - 1] && l[k] == log[k - 1];
      assert ts[2..][2 * (k - 1)] == ts[2 * k] && ts[2..][2 * (k - 1) + 1] == ts[2 * k + 1];
    }
  }

  /** A stage finishes only on a list of even length, and then halves it; its only
      exceptions are a leftover entry (on a list of odd length) and a negative
      power. */
  lemma {:induction false} StageEnds(ts: seq<Team>, game: int, draws: int -> seq<(nat, nat)>)
    ensures var r := Stage(ts, game, draws);
            && (r.2.Done? ==> |ts| % 2 == 0 && |ts| == 2 * |r.0|)
            && (r.2.Raised? ==> r.2.error == ValueError || (r.2.error == IndexError && |ts| % 2 == 1))
    decreases |ts|
  {
    if |ts| >= 2 {
      var b := Bout(ts[0], ts[1], draws(game));
      if b.Done? {
        StageStep(ts, game, draws, b.value.0, b.value.1);
        StageEnds(ts[2..], game + 1, draws);
      } else {
        StageHalts(ts, game, draws);
      }
    }
  }

  /** `2` to the power `n`. */
  function Pow2(n: nat): nat {
    if n == 0 then 1 else 2 * Pow2(n - 1)
  }

  lemma Doubling(a: nat, p: nat)
    ensures a * (2 * p) == 2 * (a * p)
  {
  }

  /** A bracket that finishes divides the list by two at every stage and logs one
      entry per eliminated team. */
  lemma {:induction false} BracketCounts(ts: seq<Team>, game: int, draws: int -> seq<(nat, nat)>, stages: nat)
    ensures var r := Bracket(ts, game, draws, stages);
            r.2.Done? ==> |ts| == |r.0| * Pow2(stages) && |r.1| == |ts| - |r.0|
    decreases stages
  {
    if stages > 0 {
      var s := Stage(ts, game, draws);
      if s.2.Done? {
        BracketStep(ts, game, draws, stages);
        StagePairs(ts, game, draws);
        StageEnds(ts, game, draws);
        BracketCounts(s.0, game + |s.1|, draws, stages - 1);
        var r := Bracket(s.0, game + |s.1|, draws, stages - 1);
        if r.2.Done? {
          Doubling(|r.0|, Pow2(stages - 1));
        }
      } else {
        BracketHalts(ts, game, draws, stages);
      }
    }
  }

  /** A bracket's ledger entries are numbered on from `game` without gaps. */
  lemma {:induction false} BracketNumbers(ts: seq<Team>, game: int, draws: int -> seq<(nat, nat)>, stages: nat)
    ensures forall k :: 0 <= k < |Bracket(ts, game, draws, stages).1| ==>
              Bracket(ts, game, draws, stages).1[k].gameNumber == game + k
    decreases stages
  {
    if stages > 0 {
      var s := Stage(ts, game, draws);
      StagePairs(ts, game, draws);
      if s.2.Done? {
        BracketStep(ts, game, draws, stages);
        var next := game + |s.1|;
        BracketNumbers(s.0, next, draws, stages - 1);
        var rest := Bracket(s.0, next, draws, stages - 1);
        var log := s.1 + rest.1;
        forall k | |s.1| <= k < |log| ensures log[k].gameNumber == game + k {
          assert log[k] == rest.1[k - |s.1|];
        }
      } else {
        BracketHalts(ts, game, draws, stages);
      }
    }
  }

  /** Every entry a bracket leaves is an entry of the list it started from. */
  lemma {:induction false} BracketSurvivors(ts: seq<Team>, game: int, draws: int -> seq<(nat, nat)>, stages: nat)
    ensures forall x :: x in Bracket(ts, game, draws, stages).0 ==> x in ts
    decreases stages
  {
    if stages > 0 {
      var s := Stage(ts, game, draws);
      StagePairs(ts, game, draws);
      if s.2.Done? {
        BracketStep(ts, game, draws, stages);
        BracketSurvivors(s.0, game + |s.1|, draws, stages - 1);
      } else {
        BracketHalts(ts, game, draws, stages);
      }
    }
  }

  /** A list whose length `stages` halvings leave whole never runs out of partners. */
  lemma {:induction false} BracketPaired(ts: seq<Team>, game: int, draws: int -> seq<(nat, nat)>, stages: nat, m: nat)
    requires |ts| == m * Pow2(stages)
    ensures var r := Bracket(ts, game, draws, stages);
            r.2.Raised? ==> r.2.error == ValueError
    decreases stages
  {
    if stages > 0 {
      var s := Stage(ts, game, draws);
      assert |ts| == 2 * (m * Pow2(stages - 1));
      StageEnds(ts, game, draws);
      if s.2.Done? {
        BracketStep(ts, game, draws, stages);
        BracketPaired(s.0, game + |s.1|, draws, stages - 1, m);
      } else {
        BracketHalts(ts, game, draws, stages);
      }
    }
  }

  /** With the sixteen teams the competition is meant for, the only exception is a
      negative power, and a finished competition logs fifteen matches numbered on
      from `game` and crowns one of the sixteen. */
  lemma SixteenTeams(teams: seq<Team>, game: int, draws: int -> seq<(nat, nat)>)
    requires |teams| == 16
    ensures var c := Champion(teams, game, draws);
            && (c.0.Raised? ==> c.0.error == ValueError)
            && (c.0.Done? ==> && c.0.value in teams && |c.1| == 15
                              && forall k :: 0 <= k < 15 ==> c.1[k].gameNumber == game + k)
  {
    var b := Bracket(teams, game, draws, Stages);
    assert Pow2(Stages) == 16;
    BracketPaired(teams, game, draws, Stages, 1);
    BracketCounts(teams, game, draws, Stages);
    BracketNumbers(teams, game, draws, Stages);
    BracketSurvivors(teams, game, draws, Stages);
    if b.2.Done? {
      assert |b.0| == 1;
    }
  }

  /** Loop state of a stage: `goal` is the whole stage, `winners` and `log` what
      the pairs before entry `i` produced, and the stage on the rest of the list
      from `game` is what remains. */
  ghost predicate StageLeft(ts: seq<Team>, i: nat, game: int, draws: int -> seq<(nat, nat)>,
                            winners: seq<Team>, log: seq<MatchRecord>, goal: (seq<Team>, seq<MatchRecord>, Outcome<()>))
    requires i <= |ts|
  {
    var r := Stage(ts[i..], game, draws);
    goal == (winners + r.0, log + r.1, r.2)
  }

  lemma StageLeftStart(ts: seq<Team>, game: int, draws: int -> seq<(nat, nat)>)
    ensures StageLeft(ts, 0, game, draws, [], [], Stage(ts, game, draws))
  {
    var r := Stage(ts, game, draws);
    assert ts[0..] == ts;
    assert [] + r.0 == r.0 && [] + r.1 == r.1;
  }

  lemma StageLeftLone(ts: seq<Team>, i: nat, game: int, draws: int -> seq<(nat, nat)>,
                      winners: seq<Team>, log: seq<MatchRecord>, goal: (seq<Team>, seq<MatchRecord>, Outcome<()>))
    requires i + 1 == |ts| && StageLeft(ts, i, game, draws, winners, log, goal)
    ensures goal == (winners, log, Raised(IndexError))
  {
    AppendNil(winners);
    AppendNil(log);
  }

  lemma StageLeftHalt(ts: seq<Team>, i: nat, game: int, draws: int -> seq<(nat, nat)>,
                      winners: seq<Team>, log: seq<MatchRecord>, goal: (seq<Team>, seq<MatchRecord>, Outcome<()>))
    requires i + 1 < |ts| && !Bout(ts[i], ts[i + 1], draws(game)).Done?
    requires StageLeft(ts, i, game, draws, winners, log, goal)
    ensures var b := Bout(ts[i], ts[i + 1], draws(game));
            goal == (winners, log, if b.Raised? then Raised(b.error) else Undecided)
  {
    assert ts[i..][0] == ts[i] && ts[i..][1] == ts[i + 1];
    StageHalts(ts[i..], game, draws);
    AppendNil(winners);
    AppendNil(log);
  }

  lemma StageLeftStep(ts: seq<Team>, i: nat, game: int, draws: int -> seq<(nat, nat)>,
                      winners: seq<Team>, log: seq<MatchRecord>, goal: (seq<Team>, seq<MatchRecord>, Outcome<()>),
                      winner: Team, loser: Team)
    requires i + 1 < |ts| && Bout(ts[i], ts[i + 1], draws(game)) == Done((winner, loser))
    requires StageLeft(ts, i, game, draws, winners, log, goal)
    ensures StageLeft(ts, i + 2, game + 1, draws, winners + [winner], log + [Entry(LogZeros, game, winner, loser)], goal)
  {
    assert ts[i..][0] == ts[i] && ts[i..][1] == ts[i + 1] && ts[i..][2..] == ts[i + 2..];
    var rest := Stage(ts[i + 2..], game + 1, draws);
    StageStep(ts[i..], game, draws, winner, loser);
    AppendAssoc(winners, [winner], rest.0);
    AppendAssoc(log, [Entry(LogZeros, game, winner, loser)], rest.1);
  }

  lemma StageLeftEnd(ts: seq<Team>, game: int, draws: int -> seq<(nat, nat)>,
                     winners: seq<Team>, log: seq<MatchRecord>, goal: (seq<Team>, seq<MatchRecord>, Outcome<()>))
    requires StageLeft(ts, |ts|, game, draws, winners, log, goal)
    ensures goal == (winners, log, Done(()))
  {
    assert ts[|ts|..] == [];
    AppendNil(winners);
    AppendNil(log);
  }

  /** One stage of `knockout_competition`: entries `i` and `i + 1` meet for
      i = 0, 2, 4, ..., each match is logged with zeros for goals, and the
      winners are collected in order. */
  method PlayStage(current: seq<Team>, history: MatchHistory, game: int, draws: int -> seq<(nat, nat)>)
    returns (winners: seq<Team>, status: Outcome<()>, next: int)
    requires history.Valid()
    modifies history, history.Spine
    ensures history.Valid() && history.Grew()
    ensures var s := Stage(current, game, draws);
            && winners == s.0 && status == s.2
            && history.Records == old(history.Records) + s.1 && next == game + |s.1|
  {
    ghost var r0 := history.Records;
    ghost var goal := Stage(current, game, draws);
    ghost var log: seq<MatchRecord> := [];
    StageLeftStart(current, game, draws);
    winners, next := [], game;
    var i := 0;
    while i < |current|
      invariant i <= |current|
      invariant history.Valid() && history.Grew()
      invariant history.Records == r0 + log && next == game + |log|
      invariant StageLeft(current, i, next, draws, winners, log, goal)
      decreases |current| - i
    {
      if i + 1 == |current| {
        StageLeftLone(current, i, next, draws, winners, log, goal);
        return winners, Raised(IndexError), next;
      }
      var bout := KnockoutMatchPlay(current[i], current[i + 1], draws(next));
      if !bout.Done? {
        StageLeftHalt(current, i, next, draws, winners, log, goal);
        status := if bout.Raised? then Raised(bout.error) else Undecided;
        return;
      }
      var winner, loser := bout.value.0, bout.value.1;
      history.AddMatch(next, winner.name, loser.name, 0, 0);
      StageLeftStep(current, i, next, draws, winners, log, goal, winner, loser);
      log := log + [Entry(LogZeros, next, winner, loser)];
      winners := winners + [winner];
      next := next + 1;
      i := i + 2;
    }
    StageLeftEnd(current, next, draws, winners, log, goal);
    status := Done(());
  }

  /** Loop state of the bracket: `goal` is the whole bracket, `log` the entries of
      the stages played, and `left` stages from `ts` at `game` are what remains. */
  ghost predicate BracketLeft(ts: seq<Team>, game: int, draws: int -> seq<(nat, nat)>, left: nat,
                              log: seq<MatchRecord>, goal: (seq<Team>, seq<MatchRecord>, Outcome<()>))
  {
    var r := Bracket(ts, game, draws, left);
    goal == (r.0, log + r.1, r.2)
  }

  lemma BracketLeftStart(ts: seq<Team>, game: int, draws: int -> seq<(nat, nat)>, left: nat)
    ensures BracketLeft(ts, game, draws, left, [], Bracket(ts, game, draws, left))
  {
    var r := Bracket(ts, game, draws, left);
    assert [] + r.1 == r.1;
  }

  lemma BracketLeftHalt(ts: seq<Team>, game: int, draws: int -> seq<(nat, nat)>, left: nat,
                        log: seq<MatchRecord>, goal: (seq<Team>, seq<MatchRecord>, Outcome<()>))
    requires left > 0 && !Stage(ts, game, draws).2.Done?
    requires BracketLeft(ts, game, draws, left, log, goal)
    ensures var s := Stage(ts, game, draws);
            goal.1 == log + s.1 && goal.2 == s.2
  {
    BracketHalts(ts, game, draws, left);
  }

  lemma BracketLeftStep(ts: seq<Team>, game: int, draws: int -> seq<(nat, nat)>, left: nat,
                        log: seq<MatchRecord>, goal: (seq<Team>, seq<MatchRecord>, Outcome<()>),
                        winners: seq<Team>, next: int)
    requires left > 0 && Stage(ts, game, draws).2.Done?
    requires winners == Stage(ts, game, draws).0 && next == game + |Stage(ts, game, draws).1|
    requires BracketLeft(ts, game, draws, left, log, goal)
    ensures BracketLeft(winners, next, draws, left - 1, log + Stage(ts, game, draws).1, goal)
  {
    var s := Stage(ts, game, draws);
    var rest := Bracket(s.0, game + |s.1|, draws, left - 1);
    BracketStep(ts, game, draws, left);
    AppendAssoc(log, s.1, rest.1);
  }

  lemma BracketLeftEnd(ts: seq<Team>, game: int, draws: int -> seq<(nat, nat)>,
                       log: seq<MatchRecord>, goal: (seq<Team>, seq<MatchRecord>, Outcome<()>))
    requires BracketLeft(ts, game, draws, 0, log, goal)
    ensures goal == (ts, log, Done(()))
  {
    AppendNil(log);
  }

  /** One pass of the stage loop of `knockout_competition`, stated against the
      loop state: a finished stage moves the bracket on to its winners, any other
      ends it. */
  method BracketTurn(current: seq<Team>, history: MatchHistory, game: int, draws: int -> seq<(nat, nat)>,
                     left: nat, ghost log: seq<MatchRecord>, ghost goal: (seq<Team>, seq<MatchRecord>, Outcome<()>))
    returns (winners: seq<Team>, status: Outcome<()>, next: int, ghost added: seq<MatchRecord>)
    requires left > 0 && history.Valid()
    requires BracketLeft(current, game, draws, left, log, goal)
    modifies history, history.Spine
    ensures history.Valid() && history.Grew() && history.Records == old(history.Records) + added
    ensures status.Done? ==> BracketLeft(winners, next, draws, left - 1, log + added, goal)
    ensures !status.Done? ==> goal.1 == log + added && goal.2 == status
  {
    added := Stage(current, game, draws).1;
    winners, status, next := PlayStage(current, history, game, draws);
    if status.Done? {
      BracketLeftStep(current, game, draws, left, log, goal, winners, next);
    } else {
      BracketLeftHalt(current, game, draws, left, log, goal);
    }
  }

  /** The stage loop of `knockout_competition`: `stages` stages from the given list,
      game numbers on from the ledger's size. */
  method PlayBracket(teams: seq<Team>, history: MatchHistory, draws: int -> seq<(nat, nat)>, stages: nat)
    returns (current: seq<Team>, status: Outcome<()>)
    requires history.Valid()
    modifies history, history.Spine
    ensures history.Valid() && history.Grew()
    ensures var b := Bracket(teams, old(history.size) + 1, draws, stages);
            && status == b.2 && (status.Done? ==> current == b.0)
            && history.Records == old(history.Records) + b.1
  {
    ghost var r0 := history.Records;
    current := teams;
    var game := history.size + 1;
    ghost var goal := Bracket(teams, game, draws, stages);
    ghost var log: seq<MatchRecord> := [];
    BracketLeftStart(teams, game, draws, stages);
    for stage := 0 to stages
      invariant history.Valid() && history.Grew()
      invariant history.Records == r0 + log
      invariant BracketLeft(current, game, draws, stages - stage, log, goal)
    {
      ghost var added;
      var winners, next;
      winners, status, next, added := BracketTurn(current, history, game, draws, stages - stage, log, goal);
      AppendAssoc(r0, log, added);
      if !status.Done? {
        return;
      }
      log := log + added;
      current, game := winners, next;
    }
    BracketLeftEnd(current, game, draws, log, goal);
    status := Done(());
  }

  /** `knockout_competition`: the bracket, then the first entry left is the
      champion. */
  method KnockoutCompetition(teams: seq<Team>, history: MatchHistory, draws: int -> seq<(nat, nat)>)
    returns (champion: Outcome<Team>)
    requires history.Valid()
    modifies history, history.Spine
    ensures history.Valid() && history.Grew()
    ensures var c := Champion(teams, old(history.size) + 1, draws);
            champion == c.0 && history.Records == old(history.Records) + c.1
  {
    var current, status := PlayBracket(teams, history, draws, Stages);
    champion :=
      match status
      case Raised(e) => Raised(e)
      case Undecided => Undecided
      case Done(_) => if |current| == 0 then Raised(IndexError) else Done(current[0]);
  }
}
