/** Match results and the group table bookkeeping of the tournament driver:
    `simulate_match`, `group_match_play` and `group_update_after_match`.
    Random draws are parameters: `randint(0, hi)` on a raw draw `raw` is
    `raw % (hi + 1)`. */
module Scoring {
  import opened Wrappers
  import opened LinkedList

  /** The table keeps three points per win and one per draw. */
  predicate Tallied(t: Team) {
    t.points == 3 * t.wins + t.draws
  }

  /** Matches a team has on record. */
  function Played(t: Team): int {
    t.wins + t.draws + t.losses
  }

  /** `randint(0, hi)` applied to the raw draw `raw`; `randint` refuses `hi < 0`. */
  function Roll(raw: nat, hi: int): (g: nat)
    requires hi >= 0
    ensures g <= hi
    ensures raw <= hi ==> g == raw
    decreases raw
  {
    if raw <= hi then raw else Roll(raw - (hi + 1), hi)
  }

  /** One team's entry after a match in which it scored `own` and conceded `other`. */
  function Credit(t: Team, own: int, other: int): (r: Team)
    ensures r.name == t.name && r.power == t.power
  {
    var u := t.(gd := t.gd + (own - other));
    if own > other then u.(points := t.points + 3, wins := t.wins + 1)
    else if own == other then u.(points := t.points + 1, draws := t.draws + 1)
    else u.(losses := t.losses + 1)
  }

  /** A result adds exactly one win, draw or loss, matching the score, moves the
      goal difference by the margin and keeps points at three per win plus one per draw. */
  lemma CreditOutcome(t: Team, own: int, other: int)
    ensures var r := Credit(t, own, other);
            && r.gd - t.gd == own - other
            && Played(r) == Played(t) + 1
            && r.wins == t.wins + (if own > other then 1 else 0)
            && r.draws == t.draws + (if own == other then 1 else 0)
            && r.losses == t.losses + (if own < other then 1 else 0)
            && (Tallied(t) ==> Tallied(r))
  {
  }

  /** Both entries after a match with score `goals1`-`goals2`. */
  function MatchPlay(team1: Team, team2: Team, goals1: int, goals2: int): (Team, Team) {
    (Credit(team1, goals1, goals2), Credit(team2, goals2, goals1))
  }

  /** A match has exactly one outcome (win/loss, loss/win or draw/draw), its goal
      differences cancel, and it hands out three points, or two for a draw. */
  lemma MatchPlayOutcome(team1: Team, team2: Team, goals1: int, goals2: int)
    ensures var r := MatchPlay(team1, team2, goals1, goals2);
            && (r.0.gd - team1.gd) + (r.1.gd - team2.gd) == 0
            && (|| (r.0.wins == team1.wins + 1 && r.1.losses == team2.losses + 1 && r.0.losses == team1.losses && r.1.wins == team2.wins && r.0.draws == team1.draws && r.1.draws == team2.draws)
                || (r.1.wins == team2.wins + 1 && r.0.losses == team1.losses + 1 && r.1.losses == team2.losses && r.0.wins == team1.wins && r.0.draws == team1.draws && r.1.draws == team2.draws)
                || (r.0.draws == team1.draws + 1 && r.1.draws == team2.draws + 1 && r.0.wins == team1.wins && r.1.wins == team2.wins && r.0.losses == team1.losses && r.1.losses == team2.losses))
            && r.0.points + r.1.points == team1.points + team2.points + (if goals1 == goals2 then 2 else 3)
  {
  }

  /** Upper end of the goal draw in `simulate_match`: half the strength gap, at least 1. */
  function GoalRange(power1: int, power2: int): (r: int)
    ensures r >= 1
  {
    var gap := if power1 >= power2 then power1 - power2 else power2 - power1;
    if gap / 2 > 1 then gap / 2 else 1
  }

  /** The goals `simulate_match` draws for `team1` and `team2`. */
  function SimulatedGoals(team1: Team, team2: Team, raw: (nat, nat)): (g: (nat, nat))
    ensures g.0 <= GoalRange(team1.power, team2.power) && g.1 <= GoalRange(team1.power, team2.power)
  {
    var hi := GoalRange(team1.power, team2.power);
    (Roll(raw.0, hi), Roll(raw.1, hi))
  }

  /** `simulate_match`: plays the copies `team1` and `team2`, logs the real score
      under `gameNumber` and returns the updated copies. */
  method SimulateMatch(team1: Team, team2: Team, history: MatchHistory, gameNumber: int, raw: (nat, nat))
    returns (updated1: Team, updated2: Team)
    requires history.Valid()
    modifies history, history.Spine
    ensures history.Valid()
    ensures var g := SimulatedGoals(team1, team2, raw);
            && (updated1, updated2) == MatchPlay(team1, team2, g.0, g.1)
            && history.Records == old(history.Records) + [MatchRecord(gameNumber, team1.name, team2.name, g.0, g.1)]
    ensures history.size == old(history.size) + 1 && history.Grew()
  {
    var goalRange := GoalRange(team1.power, team2.power);
    var goals1 := Roll(raw.0, goalRange);
    var goals2 := Roll(raw.1, goalRange);
    updated1, updated2 := team1, team2;
    if goals1 > goals2 {
      updated1 := updated1.(points := updated1.points + 3, wins := updated1.wins + 1);
      updated2 := updated2.(losses := updated2.losses + 1);
    } else if goals2 > goals1 {
      updated2 := updated2.(points := updated2.points + 3, wins := updated2.wins + 1);
      updated1 := updated1.(losses := updated1.losses + 1);
    } else {
      updated1 := updated1.(points := updated1.points + 1, draws := updated1.draws + 1);
      updated2 := updated2.(points := updated2.points + 1, draws := updated2.draws + 1);
    }
    updated1 := updated1.(gd := updated1.gd + (goals1 - goals2));
    updated2 := updated2.(gd := updated2.gd + (goals2 - goals1));
    history.AddMatch(gameNumber, team1.name, team2.name, goals1, goals2);
  }

  /** `group_match_play`: each side draws between 0 and its own power; a negative
      power makes `randint` raise, reported as `None`. */
  function GroupMatchPlay(team1: Team, team2: Team, raw: (nat, nat)): (r: Option<(Team, Team)>)
    ensures r.Some? <==> team1.power >= 0 && team2.power >= 0
  {
    if team1.power < 0 || team2.power < 0 then None
    else
      var g1, g2 := Roll(raw.0, team1.power), Roll(raw.1, team2.power);
      Some(MatchPlay(team1, team2, g1, g2))
  }

  /** Each side of a `group_match_play` scores between 0 and its own power, and
      every such score is reached by some draw. */
  lemma GroupMatchPlayScores(team1: Team, team2: Team, raw: (nat, nat), goals1: nat, goals2: nat)
    requires team1.power >= 0 && team2.power >= 0
    ensures exists g1: nat, g2: nat :: g1 <= team1.power && g2 <= team2.power
                                       && GroupMatchPlay(team1, team2, raw).value == MatchPlay(team1, team2, g1, g2)
    ensures goals1 <= team1.power && goals2 <= team2.power ==>
              GroupMatchPlay(team1, team2, (goals1, goals2)).value == MatchPlay(team1, team2, goals1, goals2)
  {
    var g1, g2 := Roll(raw.0, team1.power), Roll(raw.1, team2.power);
    assert GroupMatchPlay(team1, team2, raw).value == MatchPlay(team1, team2, g1, g2);
  }

  /** What `group_update_after_match` does to one entry. */
  function ApplyResult(t: Team, name1: string, name2: string, goals1: int, goals2: int): Team {
    if t.name == name1 then Credit(t, goals1, goals2)
    else if t.name == name2 then Credit(t, goals2, goals1)
    else t
  }

  /** Same names and powers, position by position. */
  predicate SameRoster(a: seq<Team>, b: seq<Team>) {
    |a| == |b| && forall i :: 0 <= i < |a| ==> a[i].name == b[i].name && a[i].power == b[i].power
  }

  /** The powers of a table, in order. */
  function Powers(ts: seq<Team>): seq<int> {
    seq(|ts|, i requires 0 <= i < |ts| => ts[i].power)
  }

  lemma RosterPowers(a: seq<Team>, b: seq<Team>)
    requires SameRoster(a, b)
    ensures Powers(a) == Powers(b)
  {
    assert forall i :: 0 <= i < |a| ==> Powers(a)[i] == Powers(b)[i];
  }

  predicate AllTallied(ts: seq<Team>) {
    forall i :: 0 <= i < |ts| ==> Tallied(ts[i])
  }

  /** The group after `group_update_after_match(group, name1, name2, goals1, goals2)`:
      every entry called `name1` is credited with `goals1`-`goals2`, every other entry
      called `name2` with `goals2`-`goals1`, and the rest stay as they are. */
  function UpdateAfterMatch(ts: seq<Team>, name1: string, name2: string, goals1: int, goals2: int): (r: seq<Team>)
    ensures |r| == |ts|
  {
    seq(|ts|, i requires 0 <= i < |ts| => ApplyResult(ts[i], name1, name2, goals1, goals2))
  }

  /** A match changes no entry's name or power. */
  lemma UpdateKeepsRoster(ts: seq<Team>, name1: string, name2: string, goals1: int, goals2: int)
    ensures SameRoster(ts, UpdateAfterMatch(ts, name1, name2, goals1, goals2))
    ensures Powers(UpdateAfterMatch(ts, name1, name2, goals1, goals2)) == Powers(ts)
  {
    var r := UpdateAfterMatch(ts, name1, name2, goals1, goals2);
    assert SameRoster(ts, r);
    RosterPowers(ts, r);
  }

  /** Only the entries named in the match change: those called `name1` move by the
      margin, the other ones called `name2` by its opposite, and the rest stay as they are. */
  lemma UpdateAfterMatchEffect(ts: seq<Team>, name1: string, name2: string, goals1: int, goals2: int, i: nat)
    requires i < |ts|
    ensures var r := UpdateAfterMatch(ts, name1, name2, goals1, goals2);
            && (ts[i].name != name1 && ts[i].name != name2 ==> r[i] == ts[i])
            && (ts[i].name == name1 ==> r[i].gd == ts[i].gd + (goals1 - goals2))
            && (ts[i].name == name2 && name2 != name1 ==> r[i].gd == ts[i].gd + (goals2 - goals1))
            && (ts[i].name == name1 ==> r[i] == Credit(ts[i], goals1, goals2))
            && (ts[i].name == name2 && name2 != name1 ==> r[i] == Credit(ts[i], goals2, goals1))
  {
  }

  /** A match keeps every entry's points at three per win plus one per draw. */
  lemma UpdateKeepsTally(ts: seq<Team>, name1: string, name2: string, goals1: int, goals2: int)
    requires AllTallied(ts)
    ensures AllTallied(UpdateAfterMatch(ts, name1, name2, goals1, goals2))
  {
    var r := UpdateAfterMatch(ts, name1, name2, goals1, goals2);
    forall i | 0 <= i < |r| ensures Tallied(r[i]) {
      assert r[i] == ApplyResult(ts[i], name1, name2, goals1, goals2);
      assert Tallied(ts[i]);
    }
  }

  /** `group_update_after_match`: walks the whole group and rewrites the matching entries. */
  method GroupUpdateAfterMatch(group: TeamList, name1: string, name2: string, goals1: int, goals2: int)
    requires group.Valid()
    modifies group, group.Spine
    ensures group.Valid() && group.Spine == old(group.Spine) && group.head == old(group.head)
    ensures group.Teams == UpdateAfterMatch(old(group.Teams), name1, name2, goals1, goals2)
  {
    ghost var target := UpdateAfterMatch(group.Teams, name1, name2, goals1, goals2);
    var current := group.head;
    ghost var i := 0;
    while current != null
      invariant group.Valid() && group.Spine == old(group.Spine) && group.head == old(group.head)
      invariant 0 <= i <= |group.Spine|
      invariant current == if i < |group.Spine| then group.Spine[i] else null
      invariant |group.Teams| == |target|
      invariant forall j :: 0 <= j < i ==> group.Teams[j] == target[j]
      invariant forall j :: i <= j < |target| ==> group.Teams[j] == old(group.Teams)[j]
      decreases |group.Spine| - i
    {
      var team := current.data;
      if team.name == name1 {
        group.Overwrite(i, current, Credit(team, goals1, goals2));
      } else if team.name == name2 {
        group.Overwrite(i, current, Credit(team, goals2, goals1));
      }
      assert group.Teams[i] == target[i];
      current := current.next;
      i := i + 1;
    }
    assert group.Teams == target;
  }

  /** Sum of the goal differences in a group. */
  function GdSum(ts: seq<Team>): int {
    if ts == [] then 0 else ts[0].gd + GdSum(ts[1..])
  }

  /** Entries called `name`. */
  function CountName(ts: seq<Team>, name: string): (c: nat)
    ensures c <= |ts|
    ensures c == 0 <==> forall i :: 0 <= i < |ts| ==> ts[i].name != name
  {
    if ts == [] then 0 else (if ts[0].name == name then 1 else 0) + CountName(ts[1..], name)
  }

  /** When each of the two names occurs at most once, the group's total goal
      difference moves by the margin for the entry called `name1` and back by it
      for the entry called `name2`. */
  lemma {:induction false} GdSumAfterMatch(ts: seq<Team>, name1: string, name2: string, goals1: int, goals2: int)
    requires name1 != name2 && CountName(ts, name1) <= 1 && CountName(ts, name2) <= 1
    ensures GdSum(UpdateAfterMatch(ts, name1, name2, goals1, goals2))
            == GdSum(ts) + (if CountName(ts, name1) == 1 then goals1 - goals2 else 0)
                         + (if CountName(ts, name2) == 1 then goals2 - goals1 else 0)
  {
    if ts != [] {
      var delta := if ts[0].name == name1 then goals1 - goals2
                   else if ts[0].name == name2 then goals2 - goals1 else 0;
      GdSumAfterMatch(ts[1..], name1, name2, goals1, goals2);
      GdSumFirst(ts, name1, name2, goals1, goals2, delta);
    }
  }

  lemma GdSumFirst(ts: seq<Team>, name1: string, name2: string, goals1: int, goals2: int, delta: int)
    requires ts != [] && name1 != name2
    requires delta == if ts[0].name == name1 then goals1 - goals2
                      else if ts[0].name == name2 then goals2 - goals1 else 0
    ensures GdSum(UpdateAfterMatch(ts, name1, name2, goals1, goals2))
            == ts[0].gd + delta + GdSum(UpdateAfterMatch(ts[1..], name1, name2, goals1, goals2))
  {
    var r := UpdateAfterMatch(ts, name1, name2, goals1, goals2);
    assert r[1..] == UpdateAfterMatch(ts[1..], name1, name2, goals1, goals2);
  }

  /** In a group whose names are unique, a match between two of its members leaves
      the total goal difference unchanged. */
  lemma GdZeroSum(ts: seq<Team>, name1: string, name2: string, goals1: int, goals2: int)
    requires UniqueNames(ts) && name1 != name2
    requires CountName(ts, name1) > 0 && CountName(ts, name2) > 0
    ensures GdSum(UpdateAfterMatch(ts, name1, name2, goals1, goals2)) == GdSum(ts)
  {
    UniqueCount(ts, name1);
    UniqueCount(ts, name2);
    GdSumAfterMatch(ts, name1, name2, goals1, goals2);
  }

  lemma {:induction false} UniqueCount(ts: seq<Team>, name: string)
    requires UniqueNames(ts)
    ensures CountName(ts, name) <= 1
  {
    if ts != [] {
      assert UniqueNames(ts[1..]) by {
        forall i, j | 0 <= i < j < |ts[1..]| ensures ts[1..][i].name != ts[1..][j].name {
          assert ts[1..][i] == ts[i + 1] && ts[1..][j] == ts[j + 1];
        }
      }
      UniqueCount(ts[1..], name);
      if ts[0].name == name {
        forall i | 0 <= i < |ts[1..]| ensures ts[1..][i].name != name {
          assert ts[1..][i] == ts[i + 1];
        }
      }
    }
  }
}
