/** What a group's walk guarantees: the ledger lists the group's fixtures in walk
    order with consecutive game numbers, and the table keeps its roster, its
    points tally and (with distinct names) its total goal difference. */
module GroupFacts {
  import opened LinkedList
  import opened Scoring
  import opened Schedule
  import opened GroupStage

  /** What a walk keeps of the table `t0` it started from: names and powers
      position by position, points at three per win plus one per draw, and, when
      names are distinct, the sum of goal differences. */
  predicate Keeps(t0: seq<Team>, ts: seq<Team>) {
    && SameRoster(t0, ts)
    && (AllTallied(t0) ==> AllTallied(ts))
    && (UniqueNames(t0) ==> GdSum(ts) == GdSum(t0))
  }

  lemma KeepsTrans(a: seq<Team>, b: seq<Team>, c: seq<Team>)
    requires Keeps(a, b) && Keeps(b, c)
    ensures Keeps(a, c)
  {
    if UniqueNames(a) {
      assert forall i, j :: 0 <= i < j < |b| ==> b[i].name == a[i].name && b[j].name == a[j].name;
    }
  }

  /** A name that occurs in a table is counted there. */
  lemma NamePresent(ts: seq<Team>, i: nat)
    requires i < |ts|
    ensures CountName(ts, ts[i].name) > 0
  {
  }

  /** One fixture between two different entries keeps what `Keeps` names. */
  lemma PlayPairKeeps(mode: Mode, ts: seq<Team>, i: nat, j: nat, game: int, raw: (nat, nat))
    requires i < j < |ts|
    requires mode == OneDay ==> NonNegative(Powers(ts))
    ensures Keeps(ts, PlayPair(mode, ts, i, j, game, raw).0)
  {
    var t1, t2 := ts[i], ts[j];
    var name1, name2, gd1, gd2;
    if mode == Full {
      var g := SimulatedGoals(t1, t2, raw);
      var u := MatchPlay(t1, t2, g.0, g.1);
      name1, name2, gd1, gd2 := u.0.name, u.1.name, u.0.gd, u.1.gd;
    } else {
      assert Powers(ts)[i] == t1.power && Powers(ts)[j] == t2.power;
      var u := GroupMatchPlay(t1, t2, raw).value;
      name1, name2, gd1, gd2 := t1.name, t2.name, u.0.gd, u.1.gd;
    }
    assert name1 == t1.name && name2 == t2.name;
    assert PlayPair(mode, ts, i, j, game, raw).0 == UpdateAfterMatch(ts, name1, name2, gd1, gd2);
    UpdateKeepsRoster(ts, name1, name2, gd1, gd2);
    if AllTallied(ts) {
      UpdateKeepsTally(ts, name1, name2, gd1, gd2);
    }
    if UniqueNames(ts) {
      NamePresent(ts, i);
      NamePresent(ts, j);
      GdZeroSum(ts, name1, name2, gd1, gd2);
    }
  }

  /** Fixture (i, j) keeps what `Keeps` names. */
  lemma FixtureKeeps(mode: Mode, t0: seq<Team>, i: nat, j: nat, first: int, roll: int -> (nat, nat))
    requires i < j < |t0|
    requires mode == OneDay ==> NonNegative(Powers(t0))
    requires Keeps(t0, Upto(mode, t0, i, j, first, roll).teams)
    ensures Keeps(t0, FixtureStep(mode, t0, i, j, first, roll).teams)
  {
    var s := Upto(mode, t0, i, j, first, roll);
    var r := FixtureStep(mode, t0, i, j, first, roll);
    assert r == Advance(mode, s, i, j, first, roll);
    if !(mode == OneDay && |s.log| >= DailyGames) {
      var game := first + |s.log|;
      var p := PlayPair(mode, s.teams, i, j, game, roll(game));
      assert r.teams == p.0;
      PlayPairKeeps(mode, s.teams, i, j, game, roll(game));
      KeepsTrans(t0, s.teams, p.0);
    }
  }

  /** The walk keeps what `Keeps` names at every point it reaches. */
  lemma {:induction false} UptoKeeps(mode: Mode, t0: seq<Team>, i: nat, j: nat, first: int, roll: int -> (nat, nat))
    requires i < j <= |t0|
    requires mode == OneDay ==> NonNegative(Powers(t0))
    ensures Keeps(t0, Upto(mode, t0, i, j, first, roll).teams)
    decreases i, j
  {
    if j > i + 1 {
      UptoKeeps(mode, t0, i, j - 1, first, roll);
      FixtureKeeps(mode, t0, i, j - 1, first, roll);
    } else if i > 0 {
      UptoKeeps(mode, t0, i - 1, |t0|, first, roll);
    } else {
      assert Upto(mode, t0, i, j, first, roll).teams == t0;
    }
  }

  /** A whole round robin keeps every team's name and power in place, keeps points at
      three per win plus one per draw, and, when names are distinct, leaves the sum of
      goal differences unchanged. */
  lemma RoundRobinKeeps(mode: Mode, t0: seq<Team>, first: int, roll: int -> (nat, nat))
    requires mode == OneDay ==> NonNegative(Powers(t0))
    ensures var r := RoundRobin(mode, t0, first, roll).teams;
            && SameRoster(t0, r)
            && (AllTallied(t0) ==> AllTallied(r))
            && (UniqueNames(t0) ==> GdSum(r) == GdSum(t0))
  {
    if |t0| > 0 {
      UptoKeeps(mode, t0, |t0| - 1, |t0|, first, roll);
      assert RoundRobin(mode, t0, first, roll) == Upto(mode, t0, |t0| - 1, |t0|, first, roll);
    }
  }

  /** The ledger entries `log` are the fixtures `pairs` in order, numbered from
      `first` and named as in the table `t0`. */
  predicate Follows(log: seq<MatchRecord>, t0: seq<Team>, pairs: seq<(nat, nat)>, first: int) {
    && |log| <= |pairs|
    && forall k :: 0 <= k < |log| ==>
         && log[k].gameNumber == first + k
         && pairs[k].0 < |t0| && pairs[k].1 < |t0|
         && log[k].team1 == t0[pairs[k].0].name && log[k].team2 == t0[pairs[k].1].name
  }

  /** How many of `m` fixtures a walk plays: all of them, or at most two in `OneDay` mode. */
  function Quota(mode: Mode, m: nat): nat {
    if mode == OneDay && m > DailyGames then DailyGames else m
  }

  /** The fixtures the walk has reached at (i, j). */
  function Walked(i: nat, j: nat, n: nat): seq<(nat, nat)> {
    PairsBefore(i, n) + Row(i, i + 1, j)
  }

  lemma WalkedStep(i: nat, j: nat, n: nat)
    requires i + 1 < j
    ensures Walked(i, j, n) == Walked(i, j - 1, n) + [(i, j - 1)]
  {
    assert Row(i, i + 1, j) == Row(i, i + 1, j - 1) + [(i, j - 1)];
  }

  /** Starting row `i` has reached exactly the fixtures of the rows before it. */
  lemma WalkedNextRow(i: nat, n: nat)
    requires i > 0
    ensures Walked(i, i + 1, n) == Walked(i - 1, n, n)
  {
    assert Row(i, i + 1, i + 1) == [];
    assert PairsBefore(i, n) == PairsBefore(i - 1, n) + Row(i - 1, i, n);
  }

  lemma FollowsExtend(log: seq<MatchRecord>, t0: seq<Team>, pairs: seq<(nat, nat)>, p: (nat, nat), first: int)
    requires Follows(log, t0, pairs, first)
    ensures Follows(log, t0, pairs + [p], first)
  {
    assert forall k :: 0 <= k < |pairs| ==> (pairs + [p])[k] == pairs[k];
  }

  lemma FollowsAppend(log: seq<MatchRecord>, t0: seq<Team>, pairs: seq<(nat, nat)>, p: (nat, nat), m: MatchRecord, first: int)
    requires Follows(log, t0, pairs, first) && |log| == |pairs|
    requires p.0 < |t0| && p.1 < |t0|
    requires m.gameNumber == first + |log| && m.team1 == t0[p.0].name && m.team2 == t0[p.1].name
    ensures Follows(log + [m], t0, pairs + [p], first)
  {
    assert forall k :: 0 <= k < |pairs| ==> (pairs + [p])[k] == pairs[k] && (log + [m])[k] == log[k];
  }

  /** A ledger that follows the walk up to (i, j) and gains the entry of fixture
      (i, j) follows it up to (i, j + 1). */
  lemma LogPlayed(mode: Mode, t0: seq<Team>, log: seq<MatchRecord>, m: MatchRecord, i: nat, j: nat, first: int)
    requires i < j < |t0|
    requires Follows(log, t0, Walked(i, j, |t0|), first) && |log| == Quota(mode, |Walked(i, j, |t0|)|)
    requires !(mode == OneDay && |log| >= DailyGames)
    requires m.gameNumber == first + |log| && m.team1 == t0[i].name && m.team2 == t0[j].name
    ensures Follows(log + [m], t0, Walked(i, j + 1, |t0|), first) && |log + [m]| == Quota(mode, |Walked(i, j + 1, |t0|)|)
  {
    WalkedStep(i, j + 1, |t0|);
    FollowsAppend(log, t0, Walked(i, j, |t0|), (i, j), m, first);
  }

  /** A `OneDay` ledger that is full follows the walk from then on unchanged. */
  lemma LogSkipped(mode: Mode, t0: seq<Team>, log: seq<MatchRecord>, i: nat, j: nat, first: int)
    requires i < j < |t0|
    requires Follows(log, t0, Walked(i, j, |t0|), first) && |log| == Quota(mode, |Walked(i, j, |t0|)|)
    requires mode == OneDay && |log| >= DailyGames
    ensures Follows(log, t0, Walked(i, j + 1, |t0|), first) && |log| == Quota(mode, |Walked(i, j + 1, |t0|)|)
  {
    WalkedStep(i, j + 1, |t0|);
    FollowsExtend(log, t0, Walked(i, j, |t0|), (i, j), first);
  }

  /** Fixture (i, j) extends the ledger by that fixture, unless a `OneDay` group
      has had its games. */
  lemma FixtureLog(mode: Mode, t0: seq<Team>, i: nat, j: nat, first: int, roll: int -> (nat, nat))
    requires i < j < |t0|
    requires mode == OneDay ==> NonNegative(Powers(t0))
    requires SameRoster(t0, Upto(mode, t0, i, j, first, roll).teams)
    requires var s := Upto(mode, t0, i, j, first, roll);
             Follows(s.log, t0, Walked(i, j, |t0|), first) && |s.log| == Quota(mode, |Walked(i, j, |t0|)|)
    ensures var r := FixtureStep(mode, t0, i, j, first, roll);
            Follows(r.log, t0, Walked(i, j + 1, |t0|), first) && |r.log| == Quota(mode, |Walked(i, j + 1, |t0|)|)
  {
    var n := |t0|;
    var s := Upto(mode, t0, i, j, first, roll);
    var r := FixtureStep(mode, t0, i, j, first, roll);
    assert r == Advance(mode, s, i, j, first, roll);
    if !(mode == OneDay && |s.log| >= DailyGames) {
      var game := first + |s.log|;
      var p := PlayPair(mode, s.teams, i, j, game, roll(game));
      assert r.log == s.log + [p.1];
      assert s.teams[i].name == t0[i].name && s.teams[j].name == t0[j].name;
      LogPlayed(mode, t0, s.log, p.1, i, j, first);
    } else {
      assert r.log == s.log;
      LogSkipped(mode, t0, s.log, i, j, first);
    }
  }

  /** At every point of the walk the ledger holds the fixtures reached so far (at
      most two of them in `OneDay` mode), in order, with consecutive numbers. */
  lemma {:induction false} UptoLog(mode: Mode, t0: seq<Team>, i: nat, j: nat, first: int, roll: int -> (nat, nat))
    requires i < j <= |t0|
    requires mode == OneDay ==> NonNegative(Powers(t0))
    ensures var s := Upto(mode, t0, i, j, first, roll);
            Follows(s.log, t0, Walked(i, j, |t0|), first) && |s.log| == Quota(mode, |Walked(i, j, |t0|)|)
    decreases i, j
  {
    var n := |t0|;
    if j > i + 1 {
      UptoLog(mode, t0, i, j - 1, first, roll);
      UptoKeeps(mode, t0, i, j - 1, first, roll);
      FixtureLog(mode, t0, i, j - 1, first, roll);
    } else if i > 0 {
      UptoLog(mode, t0, i - 1, n, first, roll);
      WalkedNextRow(i, n);
    } else {
      assert Walked(i, j, n) == [];
    }
  }

  /** A round robin's ledger entries are the group's fixtures in walk order, numbered
      from `first`: all n(n-1)/2 of them in `Full` mode, the first two (or fewer) in
      `OneDay` mode. */
  lemma RoundRobinLog(mode: Mode, t0: seq<Team>, first: int, roll: int -> (nat, nat))
    requires mode == OneDay ==> NonNegative(Powers(t0))
    ensures var log := RoundRobin(mode, t0, first, roll).log;
            && Follows(log, t0, Fixtures(|t0|), first)
            && |log| == Quota(mode, |t0| * (|t0| - 1) / 2)
  {
    var n := |t0|;
    FixturesLength(n);
    if n > 0 {
      UptoLog(mode, t0, n - 1, n, first, roll);
      assert Walked(n - 1, n, n) == Fixtures(n);
    }
  }
}
