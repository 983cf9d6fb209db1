/** The group stage over all groups: `group_stage_matches` (every fixture of every
    group, numbered by one counter that starts at 1) and `single_day_group_matches`
    (at most two fixtures per group, each numbered one past the ledger's size),
    each group re-ranked by (points, GD, power), highest first, after its games. */
module Stages {
  import opened Ordering
  import opened LinkedList
  import opened Scoring
  import opened Schedule
  import opened GroupStage
  import opened GroupFacts
  import opened Groups

  /** Every power in every table is non-negative. */
  predicate Playable(tables: seq<seq<Team>>) {
    forall g :: 0 <= g < |tables| ==> NonNegative(Powers(tables[g]))
  }

  /** The stage on the tables `tables`, numbering games from `first`: each group's
      round robin in turn, its games numbered on from the games before it, and
      then its table re-ranked by (points, GD, power), highest first. */
  function Stage(mode: Mode, tables: seq<seq<Team>>, first: int, roll: int -> (nat, nat)): (r: (seq<seq<Team>>, seq<MatchRecord>))
    requires mode == OneDay ==> Playable(tables)
    ensures |r.0| == |tables|
    decreases |tables|, 3
  {
    if tables == [] then ([], [])
    else
      var before := Stage(mode, tables[..|tables| - 1], first, roll);
      var last := LastGroup(mode, tables, first, roll);
      (before.0 + [last.0], before.1 + last.1)
  }

  /** The last group's final table and its games. */
  function LastGroup(mode: Mode, tables: seq<seq<Team>>, first: int, roll: int -> (nat, nat)): (seq<Team>, seq<MatchRecord>)
    requires tables != [] && (mode == OneDay ==> Playable(tables))
    decreases |tables|, 2
  {
    (LastRanked(mode, tables, first, roll), LastRoundRobin(mode, tables, first, roll).log)
  }

  /** The last group's table after its round robin, re-ranked. */
  function LastRanked(mode: Mode, tables: seq<seq<Team>>, first: int, roll: int -> (nat, nat)): seq<Team>
    requires tables != [] && (mode == OneDay ==> Playable(tables))
    decreases |tables|, 1
  {
    SortBy(StandingKey, true, LastRoundRobin(mode, tables, first, roll).teams)
  }

  /** The last group's round robin, its games numbered on from the earlier groups'. */
  function LastRoundRobin(mode: Mode, tables: seq<seq<Team>>, first: int, roll: int -> (nat, nat)): Progress
    requires tables != [] && (mode == OneDay ==> Playable(tables))
    decreases |tables|, 0
  {
    RoundRobin(mode, tables[|tables| - 1], first + |Stage(mode, tables[..|tables| - 1], first, roll).1|, roll)
  }

  /** How many games the stage plays: n(n-1)/2 per group of n, or at most two per
      group in `OneDay` mode. */
  function Scheduled(mode: Mode, tables: seq<seq<Team>>): nat {
    if tables == [] then 0
    else Scheduled(mode, tables[..|tables| - 1]) + Quota(mode, |tables[|tables| - 1]| * (|tables[|tables| - 1]| - 1) / 2)
  }

  /** The stage writes exactly the scheduled number of games, numbered `first`,
      `first + 1`, … without gaps. */
  lemma {:induction false} StageLog(mode: Mode, tables: seq<seq<Team>>, first: int, roll: int -> (nat, nat))
    requires mode == OneDay ==> Playable(tables)
    ensures var log := Stage(mode, tables, first, roll).1;
            |log| == Scheduled(mode, tables) && forall k :: 0 <= k < |log| ==> log[k].gameNumber == first + k
  {
    if tables != [] {
      var last := |tables| - 1;
      var before := Stage(mode, tables[..last], first, roll);
      StageLog(mode, tables[..last], first, roll);
      StageStep(mode, tables, first, roll, last);
      assert tables[..last + 1] == tables;
      RoundRobinLog(mode, tables[last], first + |before.1|, roll);
    }
  }

  /** The stage on the first `g + 1` tables is the stage on the first `g` followed
      by group `g`'s round robin and re-ranking. */
  lemma StageStep(mode: Mode, tables: seq<seq<Team>>, first: int, roll: int -> (nat, nat), g: nat)
    requires mode == OneDay ==> Playable(tables)
    requires g < |tables|
    ensures var before := Stage(mode, tables[..g], first, roll);
            var w := RoundRobin(mode, tables[g], first + |before.1|, roll);
            Stage(mode, tables[..g + 1], first, roll) == (before.0 + [SortBy(StandingKey, true, w.teams)], before.1 + w.log)
  {
    var t := tables[..g + 1];
    assert t[..g] == tables[..g] && t[g] == tables[g];
    assert LastRanked(mode, t, first, roll) == SortBy(StandingKey, true, LastRoundRobin(mode, t, first, roll).teams);
  }

  /** A re-ranked round robin is ordered by (points, GD, power), highest first,
      holds the round robin's entries, and keeps points at three per win plus one
      per draw. */
  lemma RankedGroup(mode: Mode, t0: seq<Team>, first: int, roll: int -> (nat, nat))
    requires mode == OneDay ==> NonNegative(Powers(t0))
    ensures var w := RoundRobin(mode, t0, first, roll);
            var r := SortBy(StandingKey, true, w.teams);
            && Sorted(StandingKey, true, r)
            && multiset(r) == multiset(w.teams)
            && (AllTallied(t0) ==> AllTallied(r))
  {
    var w := RoundRobin(mode, t0, first, roll);
    var r := SortBy(StandingKey, true, w.teams);
    SortBySorted(StandingKey, true, w.teams);
    SortByPermutes(StandingKey, true, w.teams);
    RoundRobinKeeps(mode, t0, first, roll);
    if AllTallied(t0) {
      forall k | 0 <= k < |r| ensures Tallied(r[k]) {
        assert r[k] in multiset(w.teams);
      }
    }
  }

  /** What the stage does to group `g`: its games are the round robin of its table,
      numbered on from the earlier groups' games and written as one block of the
      ledger, and its final table is that round robin's table re-ranked. */
  lemma {:induction false} StageGroup(mode: Mode, tables: seq<seq<Team>>, first: int, roll: int -> (nat, nat), g: nat)
    requires mode == OneDay ==> Playable(tables)
    requires g < |tables|
    ensures var before := Stage(mode, tables[..g], first, roll);
            var w := RoundRobin(mode, tables[g], first + |before.1|, roll);
            var r := Stage(mode, tables, first, roll);
            && r.0[g] == SortBy(StandingKey, true, w.teams)
            && before.1 + w.log <= r.1
    decreases |tables|
  {
    var last := |tables| - 1;
    StageStep(mode, tables, first, roll, last);
    assert tables[..last + 1] == tables;
    if g < last {
      assert tables[..last][..g] == tables[..g] && tables[..last][g] == tables[g];
      StageGroup(mode, tables[..last], first, roll, g);
      var before := Stage(mode, tables[..g], first, roll);
      var w := RoundRobin(mode, tables[g], first + |before.1|, roll);
      var prior := Stage(mode, tables[..last], first, roll);
      assert before.1 + w.log <= prior.1;
      assert prior.1 <= Stage(mode, tables, first, roll).1;
    }
  }

  /** One group of `group_stage_matches`: its fixtures, then its re-ranking. */
  method RankGroup(mode: Mode, group: TeamList, history: MatchHistory, first: int, roll: int -> (nat, nat)) returns (next: int)
    requires group.Valid() && history.Valid()
    requires mode == OneDay ==> NonNegative(Powers(group.Teams)) && first == history.size + 1
    modifies group, group.Spine, history, history.Spine
    ensures group.Valid() && history.Valid() && history.Grew()
    ensures multiset(group.Spine) == multiset(old(group.Spine))
    ensures var w := RoundRobin(mode, old(group.Teams), first, roll);
            group.Teams == SortBy(StandingKey, true, w.teams) && history.Records == old(history.Records) + w.log
            && next == first + |w.log|
  {
    if mode == Full {
      next := PlayRoundRobin(group, history, first, roll);
    } else {
      PlayDay(group, history, roll);
      next := history.size + 1;
    }
    ghost var spine := group.Spine;
    group.Sort(StandingKey, true);
  }

  /** The loop shared by `group_stage_matches` and `single_day_group_matches`:
      each group in turn plays its games, numbered on from `first`, and is re-ranked. */
  method PlayGroups(mode: Mode, groups: seq<TeamList>, history: MatchHistory, first: int, roll: int -> (nat, nat)) returns (next: int)
    requires Separate(groups) && AllValid(groups) && history.Valid()
    requires mode == OneDay ==> first == history.size + 1 && forall g :: 0 <= g < |groups| ==> NonNegative(Powers(groups[g].Teams))
    modifies history, history.Spine, Lists(groups), Nodes(groups)
    ensures Separate(groups) && AllValid(groups) && history.Valid() && history.Grew()
    ensures mode == OneDay ==> Playable(old(Tables(groups)))
    ensures var r := Stage(mode, old(Tables(groups)), first, roll);
            Tables(groups) == r.0 && history.Records == old(history.Records) + r.1 && next == first + |r.1|
  {
    ghost var t0, s0, r0, fps := Tables(groups), Spines(groups), history.Records, Footprints(groups);
    ghost var owner := Owners(fps);
    assert forall h :: 0 <= h < |groups| ==> Footprint(groups[h]) == fps[h];
    ghost var ranked, log;
    next, ranked, log := PlayFrom(mode, groups, history, owner, fps, t0, s0, r0, first, roll);
    assert t0[..|groups|] == t0;
    OwnedSeparate(groups, owner, fps);
  }

  /** The loop of `PlayGroups`, from the first group to the last. */
  method PlayFrom(mode: Mode, groups: seq<TeamList>, history: MatchHistory,
                  ghost owner: map<object, nat>, ghost fps: seq<set<object>>,
                  ghost t0: seq<seq<Team>>, ghost s0: seq<seq<TeamNode>>, ghost r0: seq<MatchRecord>,
                  first: int, roll: int -> (nat, nat))
    returns (next: int, ghost ranked: seq<seq<Team>>, ghost log: seq<MatchRecord>)
    requires Footprints(groups) == fps
    requires Playing(mode, groups, history, 0, owner, fps, t0, s0, r0, [], [], first, first, roll)
    modifies history, history.Spine, Lists(groups), Nodes(groups)
    ensures Playing(mode, groups, history, |groups|, owner, fps, t0, s0, r0, ranked, log, first, next, roll)
    ensures history.Grew()
  {
    ranked, log := [], [];
    next := first;
    var g := 0;
    while g < |groups|
      invariant g <= |groups|
      invariant Playing(mode, groups, history, g, owner, fps, t0, s0, r0, ranked, log, first, next, roll)
      invariant history.Grew()
    {
      ghost var added;
      next, added := StageTurn(mode, groups, g, history, owner, fps, t0, s0, r0, ranked, log, first, next, roll);
      ranked, log := ranked + [groups[g].Teams], log + added;
      g := g + 1;
    }
  }

  /** The state of the stage loop before group `g`: the first `g` groups hold the
      stage on their starting tables, the ledger holds its games, the rest are
      untouched, and every group still owns no more than its starting footprint. */
  ghost predicate Playing(mode: Mode, groups: seq<TeamList>, history: MatchHistory, g: nat,
                          owner: map<object, nat>, fps: seq<set<object>>,
                          t0: seq<seq<Team>>, s0: seq<seq<TeamNode>>, r0: seq<MatchRecord>,
                          ranked: seq<seq<Team>>, log: seq<MatchRecord>,
                          first: int, next: int, roll: int -> (nat, nat))
    reads Lists(groups), Nodes(groups), history, history.Spine
  {
    && AllValid(groups) && history.Valid() && Confined(groups, fps) && Owned(owner, fps)
    && Midway(groups, g, t0, s0, ranked)
    && (mode == OneDay ==> first == |r0| + 1 && Playable(t0) && Playable(t0[..g]))
    && (ranked, log) == Stage(mode, t0[..g], first, roll)
    && history.Records == r0 + log && next == first + |log|
  }

  /** Group `g`'s turn, stated against the stage: the stage on the first `g`
      groups grows into the stage on the first `g + 1`. */
  method StageTurn(mode: Mode, groups: seq<TeamList>, g: nat, history: MatchHistory,
                   ghost owner: map<object, nat>, ghost fps: seq<set<object>>,
                   ghost t0: seq<seq<Team>>, ghost s0: seq<seq<TeamNode>>, ghost r0: seq<MatchRecord>,
                   ghost ranked: seq<seq<Team>>, ghost log: seq<MatchRecord>,
                   first: int, current: int, roll: int -> (nat, nat)) returns (next: int, ghost added: seq<MatchRecord>)
    requires g < |groups|
    requires Playing(mode, groups, history, g, owner, fps, t0, s0, r0, ranked, log, first, current, roll)
    modifies groups[g], groups[g].Spine, history, history.Spine
    ensures Playing(mode, groups, history, g + 1, owner, fps, t0, s0, r0, ranked + [groups[g].Teams], log + added, first, next, roll)
    ensures history.Grew()
  {
    StageStep(mode, t0, first, roll, g);
    assert groups[g].Teams == t0[g];
    ghost var w := RoundRobin(mode, t0[g], current, roll);
    next := PlayGroup(mode, groups, g, history, owner, fps, t0, s0, ranked, current, roll);
    added := w.log;
    assert history.Records == r0 + (log + added);
    assert mode == OneDay ==> Playable(t0[..g + 1]);
  }

  /** Group `g`'s turn in the loop: it plays and is re-ranked, and no other group changes. */
  method PlayGroup(mode: Mode, groups: seq<TeamList>, g: nat, history: MatchHistory,
                   ghost owner: map<object, nat>, ghost fps: seq<set<object>>,
                   ghost t0: seq<seq<Team>>, ghost s0: seq<seq<TeamNode>>, ghost ranked: seq<seq<Team>>,
                   first: int, roll: int -> (nat, nat)) returns (next: int)
    requires g < |groups| && AllValid(groups) && history.Valid() && Confined(groups, fps) && Owned(owner, fps)
    requires Midway(groups, g, t0, s0, ranked)
    requires mode == OneDay ==> NonNegative(Powers(groups[g].Teams)) && first == history.size + 1
    modifies groups[g], groups[g].Spine, history, history.Spine
    ensures AllValid(groups) && history.Valid() && history.Grew() && Confined(groups, fps)
    ensures Midway(groups, g + 1, t0, s0, ranked + [groups[g].Teams])
    ensures var w := RoundRobin(mode, old(groups[g].Teams), first, roll);
            groups[g].Teams == SortBy(StandingKey, true, w.teams) && history.Records == old(history.Records) + w.log
            && next == first + |w.log|
  {
    ghost var spine := groups[g].Spine;
    assert Footprint(groups[g]) <= fps[g];
    assert forall x :: x in spine ==> x in fps[g] && owner[x] == g;
    assert groups[g] in fps[g] && owner[groups[g]] == g;
    next := RankGroup(mode, groups[g], history, first, roll);
    forall h | 0 <= h < |groups| && h != g
      ensures groups[h].Spine == old(groups[h].Spine) && groups[h].Teams == old(groups[h].Teams) && groups[h].Valid()
      ensures Footprint(groups[h]) <= fps[h]
    {
      ghost var fp := old(Footprint(groups[h]));
      assert fp <= fps[h];
      assert groups[h] in fp;
      OwnerOf(owner, fps, h, groups[h]);
      forall x | x in old(groups[h].Spine) ensures x !in spine {
        assert x in fp;
        OwnerOf(owner, fps, h, x);
      }
      assert old(groups[h].Valid());
      StillValid(groups[h]);
    }
    assert forall h :: 0 <= h < g ==> groups[h].Teams == old(groups[h].Teams) == ranked[h];
    assert Footprint(groups[g]) <= fps[g] by {
      forall x | x in groups[g].Spine ensures x in fps[g] {
        assert x in multiset(groups[g].Spine);
        assert x in spine;
      }
    }
  }

  /** `group_stage_matches`: every group's fixtures, numbered from 1 by one counter
      across the groups, each group re-ranked after its games. */
  method GroupStageMatches(groups: seq<TeamList>, history: MatchHistory, roll: int -> (nat, nat)) returns (ranked: seq<TeamList>)
    requires Separate(groups) && AllValid(groups) && history.Valid()
    modifies history, history.Spine, Lists(groups), Nodes(groups)
    ensures ranked == groups && Separate(groups) && AllValid(groups) && history.Valid()
    ensures var r := Stage(Full, old(Tables(groups)), 1, roll);
            Tables(groups) == r.0 && history.Records == old(history.Records) + r.1
  {
    var _ := PlayGroups(Full, groups, history, 1, roll);
    ranked := groups;
  }

  /** `single_day_group_matches`: at most two games per group, each numbered one
      past the ledger's size, each group re-ranked after its games. */
  method SingleDayGroupMatches(groups: seq<TeamList>, history: MatchHistory, roll: int -> (nat, nat))
    requires Separate(groups) && AllValid(groups) && history.Valid()
    requires forall g :: 0 <= g < |groups| ==> NonNegative(Powers(groups[g].Teams))
    modifies history, history.Spine, Lists(groups), Nodes(groups)
    ensures Separate(groups) && AllValid(groups) && history.Valid()
    ensures Playable(old(Tables(groups)))
    ensures var r := Stage(OneDay, old(Tables(groups)), old(history.size) + 1, roll);
            Tables(groups) == r.0 && history.Records == old(history.Records) + r.1
  {
    var _ := PlayGroups(OneDay, groups, history, history.size + 1, roll);
  }
}
