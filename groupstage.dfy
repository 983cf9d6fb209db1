/** Group play: `group_stage_matches` (every fixture of every group, one global
    game counter, then re-ranking) and `single_day_group_matches` (at most two
    fixtures per group, numbered after the ledger). */
module GroupStage {
  import opened Wrappers
  import opened Ordering
  import opened LinkedList
  import opened Scoring
  import opened Schedule

  /** The ranking key `(points, GD, power)`, used in descending order. */
  function StandingKey(t: Team): seq<int> {
    [t.points, t.gd, t.power]
  }

  /** The two ways a group match is played. `Full` is `simulate_match` inside
      `group_stage_matches`; `OneDay` is `group_match_play` inside
      `single_day_group_matches`. */
  datatype Mode = Full | OneDay

  /** Every power is non-negative, so `randint(0, power)` accepts it. */
  predicate NonNegative(ps: seq<int>) {
    forall i :: 0 <= i < |ps| ==> ps[i] >= 0
  }

  /** A group's table and the ledger entries its matches have written so far. */
  datatype Progress = Progress(teams: seq<Team>, log: seq<MatchRecord>)

  /** Games a group plays in one `OneDay` round. */
  const DailyGames := 2

  /** The match between entries `i` and `j` numbered `game`: the table after it
      and the ledger entry it writes. Both modes hand the copies' cumulative goal
      differences to `group_update_after_match` as the score; `Full` logs the drawn
      goals, `OneDay` logs those goal differences. */
  function PlayPair(mode: Mode, ts: seq<Team>, i: nat, j: nat, game: int, raw: (nat, nat)): (r: (seq<Team>, MatchRecord))
    requires i < |ts| && j < |ts|
    requires mode == OneDay ==> NonNegative(Powers(ts))
    ensures |r.0| == |ts| && Powers(r.0) == Powers(ts)
    ensures r.1.gameNumber == game && r.1.team1 == ts[i].name && r.1.team2 == ts[j].name
  {
    var t1, t2 := ts[i], ts[j];
    match mode
    case Full =>
      var g := SimulatedGoals(t1, t2, raw);
      var u := MatchPlay(t1, t2, g.0, g.1);
      UpdateKeepsRoster(ts, u.0.name, u.1.name, u.0.gd, u.1.gd);
      (UpdateAfterMatch(ts, u.0.name, u.1.name, u.0.gd, u.1.gd), MatchRecord(game, t1.name, t2.name, g.0, g.1))
    case OneDay =>
      assert Powers(ts)[i] == t1.power && Powers(ts)[j] == t2.power;
      var u := GroupMatchPlay(t1, t2, raw).value;
      UpdateKeepsRoster(ts, t1.name, t2.name, u.0.gd, u.1.gd);
      (UpdateAfterMatch(ts, t1.name, t2.name, u.0.gd, u.1.gd), MatchRecord(game, t1.name, t2.name, u.0.gd, u.1.gd))
  }

  /** Fixture (i, j) played on `s` as game `first + |s.log|`, drawing `roll` of that
      number; in `OneDay` mode a group that has had its games stays as it is. */
  function Advance(mode: Mode, s: Progress, i: nat, j: nat, first: int, roll: int -> (nat, nat)): (r: Progress)
    requires i < |s.teams| && j < |s.teams|
    requires mode == OneDay ==> NonNegative(Powers(s.teams))
    ensures |r.teams| == |s.teams| && Powers(r.teams) == Powers(s.teams)
  {
    if mode == OneDay && |s.log| >= DailyGames then s
    else
      var game := first + |s.log|;
      var p := PlayPair(mode, s.teams, i, j, game, roll(game));
      Progress(p.0, s.log + [p.1])
  }

  /** The group after the walk has played every row before `i` and, in row `i`,
      the team at `i` against every team before position `j`. */
  function Upto(mode: Mode, t0: seq<Team>, i: nat, j: nat, first: int, roll: int -> (nat, nat)): (r: Progress)
    requires i < j <= |t0|
    requires mode == OneDay ==> NonNegative(Powers(t0))
    ensures |r.teams| == |t0| && Powers(r.teams) == Powers(t0)
    decreases i, j, 0
  {
    if j > i + 1 then AfterFixture(mode, t0, i, j - 1, first, roll)
    else if i == 0 then Progress(t0, [])
    else Upto(mode, t0, i - 1, |t0|, first, roll)
  }

  /** The group just after the walk reaches fixture (i, j). */
  function AfterFixture(mode: Mode, t0: seq<Team>, i: nat, j: nat, first: int, roll: int -> (nat, nat)): (r: Progress)
    requires i < j < |t0|
    requires mode == OneDay ==> NonNegative(Powers(t0))
    ensures |r.teams| == |t0| && Powers(r.teams) == Powers(t0)
    decreases i, j, 2
  {
    FixtureStep(mode, t0, i, j, first, roll)
  }

  /** Fixture (i, j) played on the group as the walk leaves it before that fixture. */
  function FixtureStep(mode: Mode, t0: seq<Team>, i: nat, j: nat, first: int, roll: int -> (nat, nat)): (r: Progress)
    requires i < j < |t0|
    requires mode == OneDay ==> NonNegative(Powers(t0))
    ensures |r.teams| == |t0| && Powers(r.teams) == Powers(t0)
    decreases i, j, 1
  {
    Advance(mode, Upto(mode, t0, i, j, first, roll), i, j, first, roll)
  }

  /** Within a row, the walk's next point is one more fixture. */
  lemma UptoStep(mode: Mode, t0: seq<Team>, i: nat, j: nat, first: int, roll: int -> (nat, nat))
    requires i < j < |t0|
    requires mode == OneDay ==> NonNegative(Powers(t0))
    ensures Upto(mode, t0, i, j + 1, first, roll) == Advance(mode, Upto(mode, t0, i, j, first, roll), i, j, first, roll)
  {
    assert Upto(mode, t0, i, j + 1, first, roll) == AfterFixture(mode, t0, i, j, first, roll);
    assert AfterFixture(mode, t0, i, j, first, roll) == FixtureStep(mode, t0, i, j, first, roll);
  }

  /** The group when the walk reaches row `i`. */
  function RowsBefore(mode: Mode, t0: seq<Team>, i: nat, first: int, roll: int -> (nat, nat)): (r: Progress)
    requires i <= |t0|
    requires mode == OneDay ==> NonNegative(Powers(t0))
    ensures |r.teams| == |t0| && Powers(r.teams) == Powers(t0)
  {
    if i == 0 then Progress(t0, []) else Upto(mode, t0, i - 1, |t0|, first, roll)
  }

  /** Every fixture of a group played in walk order, numbered from `first`; in `OneDay`
      mode the walk stops counting after two games. */
  function RoundRobin(mode: Mode, t0: seq<Team>, first: int, roll: int -> (nat, nat)): (r: Progress)
    requires mode == OneDay ==> NonNegative(Powers(t0))
    ensures |r.teams| == |t0| && Powers(r.teams) == Powers(t0)
  {
    RowsBefore(mode, t0, |t0|, first, roll)
  }

  /** One fixture between the nodes at positions `i` and `j`, numbered `game`. */
  method PlayFixture(mode: Mode, group: TeamList, history: MatchHistory, ghost i: nat, ghost j: nat,
                     current: TeamNode, opponent: TeamNode, game: int, roll: int -> (nat, nat))
    requires group.Valid() && history.Valid()
    requires i < |group.Spine| && j < |group.Spine| && current == group.Spine[i] && opponent == group.Spine[j]
    requires mode == OneDay ==> NonNegative(Powers(group.Teams))
    modifies group, group.Spine, history, history.Spine
    ensures group.Valid() && group.Spine == old(group.Spine) && history.Valid()
    ensures var p := PlayPair(mode, old(group.Teams), i, j, game, roll(game));
            group.Teams == p.0 && history.Records == old(history.Records) + [p.1]
    ensures history.Grew()
  {
    var team1 := current.data;
    var team2 := opponent.data;
    if mode == Full {
      var updated1, updated2 := SimulateMatch(team1, team2, history, game, roll(game));
      GroupUpdateAfterMatch(group, updated1.name, updated2.name, updated1.gd, updated2.gd);
    } else {
      assert Powers(group.Teams)[i] == team1.power && Powers(group.Teams)[j] == team2.power;
      var updated := GroupMatchPlay(team1, team2, roll(game));
      history.AddMatch(game, team1.name, team2.name, updated.value.0.gd, updated.value.1.gd);
      GroupUpdateAfterMatch(group, team1.name, team2.name, updated.value.0.gd, updated.value.1.gd);
    }
  }

  /** The fixtures of one group in `group_stage_matches`, numbered from `first`. */
  method PlayRoundRobin(group: TeamList, history: MatchHistory, first: int, roll: int -> (nat, nat)) returns (next: int)
    requires group.Valid() && history.Valid()
    modifies group, group.Spine, history, history.Spine
    ensures group.Valid() && group.Spine == old(group.Spine) && history.Valid() && history.Grew()
    ensures var s := RoundRobin(Full, old(group.Teams), first, roll);
            group.Teams == s.teams && history.Records == old(history.Records) + s.log && next == first + |s.log|
  {
    ghost var t0, r0 := group.Teams, history.Records;
    ghost var n := |t0|;
    next := first;
    var current := group.head;
    ghost var i := 0;
    while current != null
      invariant group.Valid() && group.Spine == old(group.Spine) && history.Valid() && history.Grew()
      invariant 0 <= i <= n && current == if i < n then group.Spine[i] else null
      invariant var s := RowsBefore(Full, t0, i, first, roll);
                group.Teams == s.teams && history.Records == r0 + s.log && next == first + |s.log|
      decreases n - i
    {
      next := PlayRow(group, history, t0, r0, i, current, first, next, roll);
      current := current.next;
      i := i + 1;
    }
  }

  /** The inner walk of `group_stage_matches`: the team at position `i` meets
      every team after it. */
  method PlayRow(group: TeamList, history: MatchHistory, ghost t0: seq<Team>, ghost r0: seq<MatchRecord>, ghost i: nat,
                 current: TeamNode, first: int, game: int, roll: int -> (nat, nat)) returns (next: int)
    requires group.Valid() && history.Valid()
    requires |t0| == |group.Spine| && i < |t0| && current == group.Spine[i]
    requires var s := RowsBefore(Full, t0, i, first, roll);
             group.Teams == s.teams && history.Records == r0 + s.log && game == first + |s.log|
    modifies group, group.Spine, history, history.Spine
    ensures group.Valid() && group.Spine == old(group.Spine) && history.Valid() && history.Grew()
    ensures var s := Upto(Full, t0, i, |t0|, first, roll);
            group.Teams == s.teams && history.Records == r0 + s.log && next == first + |s.log|
  {
    ghost var n := |t0|;
    next := game;
    var opponent := current.next;
    ghost var j := i + 1;
    while opponent != null
      invariant group.Valid() && group.Spine == old(group.Spine) && history.Valid() && history.Grew()
      invariant i < j <= n && opponent == if j < n then group.Spine[j] else null
      invariant var s := Upto(Full, t0, i, j, first, roll);
                group.Teams == s.teams && history.Records == r0 + s.log && next == first + |s.log|
      decreases n - j
    {
      PlayNext(Full, group, history, t0, r0, i, j, current, opponent, first, next, roll);
      next := next + 1;
      opponent := opponent.next;
      j := j + 1;
    }
  }

  /** One step of an inner walk: fixture (i, j), numbered after what the group has
      played; in `OneDay` mode only while the group is under its quota. */
  method PlayNext(mode: Mode, group: TeamList, history: MatchHistory, ghost t0: seq<Team>, ghost r0: seq<MatchRecord>,
                  ghost i: nat, ghost j: nat, current: TeamNode, opponent: TeamNode, ghost first: int, game: int, roll: int -> (nat, nat))
    requires group.Valid() && history.Valid()
    requires |t0| == |group.Spine| && i < j < |t0| && current == group.Spine[i] && opponent == group.Spine[j]
    requires mode == OneDay ==> NonNegative(Powers(t0))
    requires var s := Upto(mode, t0, i, j, first, roll);
             && group.Teams == s.teams && history.Records == r0 + s.log && game == first + |s.log|
             && (mode == OneDay ==> |s.log| < DailyGames)
    modifies group, group.Spine, history, history.Spine
    ensures group.Valid() && group.Spine == old(group.Spine) && history.Valid() && history.Grew()
    ensures var s := Upto(mode, t0, i, j + 1, first, roll);
            group.Teams == s.teams && history.Records == r0 + s.log && game + 1 == first + |s.log|
  {
    UptoStep(mode, t0, i, j, first, roll);
    PlayFixture(mode, group, history, i, j, current, opponent, game, roll);
  }

  /** One group of `single_day_group_matches` before its re-ranking: the same walk
      as `group_stage_matches`, stopped once the group has played two games, each
      numbered one past the ledger's size. */
  method PlayDay(group: TeamList, history: MatchHistory, roll: int -> (nat, nat))
    requires group.Valid() && history.Valid()
    requires NonNegative(Powers(group.Teams))
    modifies group, group.Spine, history, history.Spine
    ensures group.Valid() && group.Spine == old(group.Spine) && history.Valid() && history.Grew()
    ensures var s := RoundRobin(OneDay, old(group.Teams), old(history.size) + 1, roll);
            group.Teams == s.teams && history.Records == old(history.Records) + s.log
  {
    ghost var t0, r0 := group.Teams, history.Records;
    ghost var n := |t0|;
    ghost var first := history.size + 1;
    var gamesPlayed := 0;
    var current := group.head;
    ghost var i := 0;
    while current != null && gamesPlayed < DailyGames
      invariant group.Valid() && group.Spine == old(group.Spine) && history.Valid() && history.Grew()
      invariant 0 <= i <= n && current == if i < n then group.Spine[i] else null
      invariant var s := RowsBefore(OneDay, t0, i, first, roll);
                group.Teams == s.teams && history.Records == r0 + s.log && gamesPlayed == |s.log|
      decreases n - i
    {
      gamesPlayed := PlayDayRow(group, history, t0, r0, i, current, first, gamesPlayed, roll);
      current := current.next;
      i := i + 1;
    }
    if i < n {
      Settled(t0, i - 1, n, n - 1, n, first, roll);
    }
  }

  /** The inner walk of `single_day_group_matches`, stopped at the group's quota. */
  method PlayDayRow(group: TeamList, history: MatchHistory, ghost t0: seq<Team>, ghost r0: seq<MatchRecord>, ghost i: nat,
                    current: TeamNode, ghost first: int, gamesPlayed: int, roll: int -> (nat, nat)) returns (played: int)
    requires group.Valid() && history.Valid()
    requires |t0| == |group.Spine| && i < |t0| && current == group.Spine[i]
    requires NonNegative(Powers(t0)) && first == |r0| + 1
    requires var s := RowsBefore(OneDay, t0, i, first, roll);
             group.Teams == s.teams && history.Records == r0 + s.log && gamesPlayed == |s.log| < DailyGames
    modifies group, group.Spine, history, history.Spine
    ensures group.Valid() && group.Spine == old(group.Spine) && history.Valid() && history.Grew()
    ensures var s := Upto(OneDay, t0, i, |t0|, first, roll);
            group.Teams == s.teams && history.Records == r0 + s.log && played == |s.log|
  {
    ghost var n := |t0|;
    played := gamesPlayed;
    var opponent := current.next;
    ghost var j := i + 1;
    while opponent != null && played < DailyGames
      invariant group.Valid() && group.Spine == old(group.Spine) && history.Valid() && history.Grew()
      invariant i < j <= n && opponent == if j < n then group.Spine[j] else null
      invariant var s := Upto(OneDay, t0, i, j, first, roll);
                group.Teams == s.teams && history.Records == r0 + s.log && played == |s.log|
      decreases n - j
    {
      PlayNext(OneDay, group, history, t0, r0, i, j, current, opponent, first, history.size + 1, roll);
      played := played + 1;
      opponent := opponent.next;
      j := j + 1;
    }
    if j < n {
      Settled(t0, i, j, i, n, first, roll);
    }
  }

  /** Once a group has had its two `OneDay` games, the rest of the walk leaves it as it is. */
  lemma {:induction false} Settled(t0: seq<Team>, i: nat, j: nat, i': nat, j': nat, first: int, roll: int -> (nat, nat))
    requires i < j <= |t0| && i' < j' <= |t0| && (i < i' || (i == i' && j <= j'))
    requires NonNegative(Powers(t0))
    requires |Upto(OneDay, t0, i, j, first, roll).log| >= DailyGames
    ensures Upto(OneDay, t0, i', j', first, roll) == Upto(OneDay, t0, i, j, first, roll)
    decreases i', j'
  {
    if i' == i && j' == j {
    } else if j' > i' + 1 {
      Settled(t0, i, j, i', j' - 1, first, roll);
      UptoStep(OneDay, t0, i', j' - 1, first, roll);
    } else {
      Settled(t0, i, j, i' - 1, |t0|, first, roll);
    }
  }
}
