/** Leaving the group stage: `promote_teams` (each group ranked, its first two
    entries copied out, the group cut down to two entries) and
    `setup_knockout_round` (each group re-sorted by points, its first two entries
    appended to a new knockout list). */
module Promotion {
  import opened Wrappers
  import opened Ordering
  import opened LinkedList
  import opened GroupStage
  import opened Groups

  /** The first two entries of a table, or all of them when there are fewer. */
  function Top(ts: seq<Team>): seq<Team> {
    if |ts| <= 2 then ts else ts[..2]
  }

  /** What the trimming loop of `promote_teams` leaves of a ranked table: while
      more than two entries remain, the first entry named like the last one is
      deleted. */
  function TrimFromTail(ts: seq<Team>): (r: seq<Team>)
    ensures |r| == |Top(ts)|
    decreases |ts|
  {
    if |ts| <= 2 then ts
    else
      var name := ts[|ts| - 1].name;
      assert IndexOf(ts, name) < |ts|;
      TrimFromTail(DeleteFirst(ts, name))
  }

  /** With distinct names, deleting the first entry named like the last one
      deletes the last one. */
  lemma DeleteLast(ts: seq<Team>)
    requires UniqueNames(ts) && ts != []
    ensures DeleteFirst(ts, ts[|ts| - 1].name) == ts[..|ts| - 1]
  {
    var last := |ts| - 1;
    assert forall i :: 0 <= i < last ==> ts[i].name != ts[last].name;
    assert IndexOf(ts, ts[last].name) == last;
    assert ts[last + 1..] == [];
  }

  /** With distinct names the trimming deletes exactly the entries after the
      second, so the group keeps its first two. */
  lemma {:induction false} TrimKeepsTop(ts: seq<Team>)
    requires UniqueNames(ts)
    ensures TrimFromTail(ts) == Top(ts)
    decreases |ts|
  {
    if |ts| > 2 {
      TrimDropsLast(ts);
      UniquePrefix(ts, |ts| - 1);
      TrimKeepsTop(ts[..|ts| - 1]);
      TopOfPrefix(ts);
    }
  }

  /** With distinct names, one pass of the trimming loop drops the last entry. */
  lemma TrimDropsLast(ts: seq<Team>)
    requires |ts| > 2 && UniqueNames(ts)
    ensures TrimFromTail(ts) == TrimFromTail(ts[..|ts| - 1])
  {
    DeleteLast(ts);
  }

  /** Dropping the last of more than two entries keeps the first two. */
  lemma TopOfPrefix(ts: seq<Team>)
    requires |ts| > 2
    ensures Top(ts[..|ts| - 1]) == Top(ts)
  {
  }

  /** A prefix of a table with distinct names has distinct names. */
  lemma UniquePrefix(ts: seq<Team>, n: nat)
    requires UniqueNames(ts) && n <= |ts|
    ensures UniqueNames(ts[..n])
  {
    var rest := ts[..n];
    forall a, b | 0 <= a < b < |rest| ensures rest[a].name != rest[b].name {
      assert rest[a] == ts[a] && rest[b] == ts[b];
    }
  }

  /** Re-ordering a table keeps its names distinct. */
  lemma PermutedUniqueNames(ts: seq<Team>, rs: seq<Team>)
    requires UniqueNames(ts) && multiset(rs) == multiset(ts)
    ensures UniqueNames(rs)
  {
    assert Distinct(ts);
    DistinctPermutation(ts, rs);
    forall i, j | 0 <= i < j < |rs| ensures rs[i].name != rs[j].name {
      assert rs[i] in multiset(ts) && rs[j] in multiset(ts);
      var a :| 0 <= a < |ts| && ts[a] == rs[i];
      var b :| 0 <= b < |ts| && ts[b] == rs[j];
      assert a != b;
    }
  }

  /** For each group in order, the first two entries of its table sorted by `key`,
      highest first: what `promote_teams` returns (by standing) and what
      `setup_knockout_round` lines up (by points). */
  function Leaders(key: Team -> seq<int>, tables: seq<seq<Team>>): (r: seq<Team>)
    ensures |r| <= 2 * |tables|
    ensures (forall g :: 0 <= g < |tables| ==> |tables[g]| >= 2) ==> |r| == 2 * |tables|
  {
    if tables == [] then []
    else
      var last := |tables| - 1;
      assert forall g :: 0 <= g < last ==> tables[..last][g] == tables[g];
      Leaders(key, tables[..last]) + Top(SortBy(key, true, tables[last]))
  }

  /** One more group adds its first two sorted entries. */
  lemma LeadersStep(key: Team -> seq<int>, tables: seq<seq<Team>>, g: nat)
    requires g < |tables|
    ensures Leaders(key, tables[..g + 1]) == Leaders(key, tables[..g]) + Top(SortBy(key, true, tables[g]))
  {
    assert tables[..g + 1][..g] == tables[..g];
  }

  /** With at least two entries per group, two teams go through from each group. */
  lemma {:induction false} LeadersCount(key: Team -> seq<int>, tables: seq<seq<Team>>)
    requires forall h :: 0 <= h < |tables| ==> |tables[h]| >= 2
    ensures |Leaders(key, tables)| == 2 * |tables|
  {
    if tables != [] {
      var last := |tables| - 1;
      LeadersCount(key, tables[..last]);
      SortByPermutes(key, true, tables[last]);
    }
  }

  /** With at least two entries per group, group `g`'s leaders sit at positions
      2g and 2g + 1: the first of its sorted table, then the second. */
  lemma {:induction false} LeadersByGroup(key: Team -> seq<int>, tables: seq<seq<Team>>, g: nat)
    requires forall h :: 0 <= h < |tables| ==> |tables[h]| >= 2
    requires g < |tables|
    ensures |Leaders(key, tables)| == 2 * |tables|
    ensures var sorted := SortBy(key, true, tables[g]);
            && |sorted| == |tables[g]|
            && Leaders(key, tables)[2 * g] == sorted[0] && Leaders(key, tables)[2 * g + 1] == sorted[1]
  {
    var last := |tables| - 1;
    LeadersCount(key, tables);
    LeadersCount(key, tables[..last]);
    SortByPermutes(key, true, tables[g]);
    if g < last {
      LeadersByGroup(key, tables[..last], g);
      assert tables[..last][g] == tables[g];
    }
  }

  /** A qualifier ranks at least as high as every entry of its group left behind. */
  lemma TopRanksFirst(ts: seq<Team>, i: nat, j: nat)
    requires i < 2 <= j < |ts|
    ensures var ranked := SortBy(StandingKey, true, ts);
            |ranked| == |ts| && InOrder(StandingKey(ranked[i]), StandingKey(ranked[j]), true)
  {
    SortBySorted(StandingKey, true, ts);
    SortByPermutes(StandingKey, true, ts);
    SortedPairwise(StandingKey, true, SortBy(StandingKey, true, ts), i, j);
  }

  /** `promote_teams` as written: each group is ranked and its first two entries
      copied, but the trimming loop then calls `get_tail`, which `LinkedListt`
      does not define, so the first group with more than two entries raises
      AttributeError and nothing is returned. */
  function PromoteAsWritten(tables: seq<seq<Team>>): (r: Result<seq<Team>>)
    ensures r.Failure? <==> exists g :: 0 <= g < |tables| && |tables[g]| > 2
    ensures r.Failure? ==> r.error == AttributeError
    ensures r.Success? ==> r.value == Leaders(StandingKey, tables)
  {
    if tables == [] then Success([])
    else
      var last := |tables| - 1;
      assert forall g :: 0 <= g < last ==> tables[..last][g] == tables[g];
      match PromoteAsWritten(tables[..last])
      case Failure(e) => Failure(e)
      case Success(q) =>
        if |tables[last]| > 2 then Failure(AttributeError)
        else Success(q + Top(SortBy(StandingKey, true, tables[last])))
  }

  /** No group before `g` has more than two entries, so `promote_teams` as written
      reaches group `g`. */
  predicate Reaches(tables: seq<seq<Team>>, g: nat)
    requires g <= |tables|
  {
    forall h :: 0 <= h < g ==> |tables[h]| <= 2
  }

  /** The groups as `promote_teams` as written leaves them: each group it reaches
      is re-sorted in place, by (points, goal difference, power), best first,
      before its trimming loop runs. */
  function GroupsAfterAsWritten(tables: seq<seq<Team>>): (r: seq<seq<Team>>)
    ensures |r| == |tables|
  {
    if tables == [] then []
    else
      var last := |tables| - 1;
      var group := if Reaches(tables, last) then SortBy(StandingKey, true, tables[last]) else tables[last];
      GroupsAfterAsWritten(tables[..last]) + [group]
  }

  /** The groups `promote_teams` reaches, up to and including the first one that
      raises, are re-sorted, and the ones after it are left as they were. */
  lemma {:induction false} GroupsAfterAsWrittenShape(tables: seq<seq<Team>>, g: nat)
    requires g < |tables|
    ensures var r := GroupsAfterAsWritten(tables);
            r[g] == if Reaches(tables, g) then SortBy(StandingKey, true, tables[g]) else tables[g]
    decreases |tables|
  {
    var last := |tables| - 1;
    var before := GroupsAfterAsWritten(tables[..last]);
    var group := if Reaches(tables, last) then SortBy(StandingKey, true, tables[last]) else tables[last];
    assert GroupsAfterAsWritten(tables) == before + [group];
    if g < last {
      ReachesPrefix(tables, last);
      GroupsAfterAsWrittenShape(tables[..last], g);
      assert (before + [group])[g] == before[g];
    }
  }

  /** Every group keeps its teams. */
  lemma GroupsAfterAsWrittenKeep(tables: seq<seq<Team>>, g: nat)
    requires g < |tables|
    ensures multiset(GroupsAfterAsWritten(tables)[g]) == multiset(tables[g])
  {
    GroupsAfterAsWrittenShape(tables, g);
    SortByPermutes(StandingKey, true, tables[g]);
  }

  /** Dropping the last group changes nothing about which earlier groups are reached. */
  lemma ReachesPrefix(tables: seq<seq<Team>>, last: nat)
    requires last < |tables|
    ensures forall g :: 0 <= g < last ==> tables[..last][g] == tables[g]
    ensures forall g :: 0 <= g <= last ==> Reaches(tables[..last], g) == Reaches(tables, g)
  {
    forall g | 0 <= g <= last
      ensures Reaches(tables[..last], g) == Reaches(tables, g)
    {
      assert forall h :: 0 <= h < g ==> tables[..last][h] == tables[h];
    }
  }

  /** With groups of four teams, `promote_teams` as written re-sorts the first
      group and leaves every other one as it was. */
  lemma FourTeamGroupsResortFirst(tables: seq<seq<Team>>)
    requires tables != [] && forall g :: 0 <= g < |tables| ==> |tables[g]| == 4
    ensures var r := GroupsAfterAsWritten(tables);
            r[0] == SortBy(StandingKey, true, tables[0]) && r[1..] == tables[1..]
  {
    var r := GroupsAfterAsWritten(tables);
    GroupsAfterAsWrittenShape(tables, 0);
    forall g | 1 <= g < |tables|
      ensures r[g] == tables[g]
    {
      GroupsAfterAsWrittenShape(tables, g);
      assert !Reaches(tables, g) by { assert |tables[0]| > 2; }
    }
    assert r[0] == SortBy(StandingKey, true, tables[0]);
    assert r[1..] == tables[1..];
  }

  /** The tournament's groups have four teams each, so `promote_teams` as written
      fails on them. */
  lemma FourTeamGroupsFail(tables: seq<seq<Team>>)
    requires tables != [] && forall g :: 0 <= g < |tables| ==> |tables[g]| == 4
    ensures PromoteAsWritten(tables) == Failure(AttributeError)
  {
    assert |tables[0]| > 2;
  }

  /** One group of `promote_teams`, its trimming loop reading the tail: the group
      is ranked, its first two entries are copied out, and while more than two
      entries remain the entry named like the last one is deleted. */
  method PromoteGroup(group: TeamList) returns (top: seq<Team>)
    requires group.Valid()
    modifies group, group.Spine
    ensures group.Valid()
    ensures var ranked := SortBy(StandingKey, true, old(group.Teams));
            top == Top(ranked) && group.Teams == TrimFromTail(ranked)
    ensures forall i :: 0 <= i < |group.Spine| ==> group.Spine[i] in old(group.Spine)
  {
    ghost var spine := group.Spine;
    group.Sort(StandingKey, true);
    forall i | 0 <= i < |group.Spine| ensures group.Spine[i] in spine {
      assert group.Spine[i] in multiset(group.Spine);
    }
    top := CopyTop(group);
    TrimGroup(group);
  }

  /** The first two entries of a list, copied by walking from the head. */
  method CopyTop(group: TeamList) returns (top: seq<Team>)
    requires group.Valid()
    ensures top == Top(group.Teams)
  {
    top := [];
    var current := group.head;
    for k := 0 to 2
      invariant k <= |group.Spine| ==> top == group.Teams[..k]
      invariant k > |group.Spine| ==> top == group.Teams
      invariant current == if k < |group.Spine| then group.Spine[k] else null
    {
      if current != null {
        top := top + [current.data];
        current := current.next;
      }
    }
  }

  /** The trimming loop: while more than two entries remain, the entry named like
      the last one is deleted. */
  method TrimGroup(group: TeamList)
    requires group.Valid()
    modifies group, group.Spine
    ensures group.Valid() && group.Teams == TrimFromTail(old(group.Teams))
    ensures forall i :: 0 <= i < |group.Spine| ==> group.Spine[i] in old(group.Spine)
  {
    var size := group.Size();
    while size > 2
      invariant group.Valid() && size == |group.Teams|
      invariant TrimFromTail(group.Teams) == TrimFromTail(old(group.Teams))
      invariant forall i :: 0 <= i < |group.Spine| ==> group.Spine[i] in old(group.Spine)
      decreases size
    {
      ghost var ts := group.Teams;
      TrimStep(ts);
      DropTail(group);
      size := group.Size();
    }
  }

  /** One pass of the trimming loop, on the table. */
  lemma TrimStep(ts: seq<Team>)
    requires |ts| > 2
    ensures TrimFromTail(ts) == TrimFromTail(DeleteFirst(ts, ts[|ts| - 1].name))
  {
  }

  /** One pass of the trimming loop: the entry named like the last one is deleted. */
  method DropTail(group: TeamList)
    requires group.Valid() && group.Teams != []
    modifies group, group.Spine
    ensures group.Valid()
    ensures group.Teams == DeleteFirst(old(group.Teams), old(group.Teams)[|old(group.Teams)| - 1].name)
    ensures |group.Teams| == |old(group.Teams)| - 1
    ensures forall i :: 0 <= i < |group.Spine| ==> group.Spine[i] in old(group.Spine)
  {
    var tail := group.Last();
    ghost var k := IndexOf(group.Teams, tail.name);
    assert k < |group.Teams|;
    var _ := group.Delete(tail.name);
    RemovedMembers(old(group.Spine), k);
  }

  /** A group as the trimming loop leaves it: ranked, then cut down from the tail. */
  function Trimmed(ts: seq<Team>): seq<Team> {
    TrimFromTail(SortBy(StandingKey, true, ts))
  }

  /** Group `g` is ranked and cut down, and no other group changes. */
  method PromoteGroupAt(groups: seq<TeamList>, g: nat, ghost owner: map<object, nat>, ghost fps: seq<set<object>>,
                        ghost t0: seq<seq<Team>>, ghost s0: seq<seq<TeamNode>>, ghost done: seq<seq<Team>>)
    returns (top: seq<Team>, ghost next: seq<seq<Team>>)
    requires g < |groups| && AllValid(groups) && Confined(groups, fps) && Owned(owner, fps)
    requires Midway(groups, g, t0, s0, done)
    requires forall h :: 0 <= h < g ==> done[h] == Trimmed(t0[h])
    modifies groups[g], groups[g].Spine
    ensures AllValid(groups) && Confined(groups, fps)
    ensures next == done + [groups[g].Teams] && Midway(groups, g + 1, t0, s0, next)
    ensures forall h :: 0 <= h < g + 1 ==> next[h] == Trimmed(t0[h])
    ensures top == Top(SortBy(StandingKey, true, t0[g])) && groups[g].Teams == Trimmed(t0[g])
  {
    ghost var spine := groups[g].Spine;
    assert Footprint(groups[g]) <= fps[g];
    assert forall x :: x in spine ==> x in fps[g] && owner[x] == g;
    assert groups[g] in fps[g] && owner[groups[g]] == g;
    top := PromoteGroup(groups[g]);
    forall h | 0 <= h < |groups| && h != g
      ensures groups[h].Spine == old(groups[h].Spine) && groups[h].Teams == old(groups[h].Teams) && groups[h].Valid()
      ensures Footprint(groups[h]) <= fps[h]
    {
      ghost var fp := old(Footprint(groups[h]));
      assert fp <= fps[h];
      assert groups[h] in fp;
      OwnerOf(owner, fps, h, groups[h]);
      forall x | x in old(groups[h].Spine) ensures x !in spine {
        assert x in fp;
        OwnerOf(owner, fps, h, x);
      }
      assert old(groups[h].Valid());
      StillValid(groups[h]);
    }
    assert forall h :: 0 <= h < g ==> groups[h].Teams == old(groups[h].Teams) == done[h];
    assert Footprint(groups[g]) <= fps[g] by {
      forall x | x in groups[g].Spine ensures x in fps[g] {
        assert x in spine;
      }
    }
    next := done + [groups[g].Teams];
  }

  /** `promote_teams` with the trimming loop reading the tail: every group is
      ranked and cut down (to its first two entries when names are distinct),
      and the first two entries of every ranked group are returned, group by
      group. */
  method PromoteTeams(groups: seq<TeamList>) returns (qualified: seq<Team>)
    requires Separate(groups) && AllValid(groups)
    modifies Lists(groups), Nodes(groups)
    ensures Separate(groups) && AllValid(groups)
    ensures qualified == Leaders(StandingKey, old(Tables(groups)))
    ensures forall g :: 0 <= g < |groups| ==>
              groups[g].Teams == Trimmed(old(Tables(groups))[g])
  {
    ghost var t0, s0, fps := Tables(groups), Spines(groups), Footprints(groups);
    ghost var owner := Owners(fps);
    assert forall h :: 0 <= h < |groups| ==> Footprint(groups[h]) == fps[h];
    ghost var done;
    qualified, done := PromoteFrom(groups, owner, fps, t0, s0);
    OwnedSeparate(groups, owner, fps);
  }

  /** The loop of `PromoteTeams`, from the first group to the last. */
  method PromoteFrom(groups: seq<TeamList>, ghost owner: map<object, nat>, ghost fps: seq<set<object>>,
                     ghost t0: seq<seq<Team>>, ghost s0: seq<seq<TeamNode>>)
    returns (qualified: seq<Team>, ghost done: seq<seq<Team>>)
    requires Footprints(groups) == fps
    requires AllValid(groups) && Confined(groups, fps) && Owned(owner, fps)
    requires Midway(groups, 0, t0, s0, [])
    modifies Lists(groups), Nodes(groups)
    ensures AllValid(groups) && Confined(groups, fps)
    ensures Midway(groups, |groups|, t0, s0, done)
    ensures forall h :: 0 <= h < |groups| ==> done[h] == Trimmed(t0[h])
    ensures qualified == Leaders(StandingKey, t0)
  {
    done := [];
    qualified := [];
    var g := 0;
    while g < |groups|
      invariant AllValid(groups) && Confined(groups, fps)
      invariant Midway(groups, g, t0, s0, done)
      invariant forall h :: 0 <= h < g ==> done[h] == Trimmed(t0[h])
      invariant qualified == Leaders(StandingKey, t0[..g])
    {
      var top, next := PromoteGroupAt(groups, g, owner, fps, t0, s0, done);
      LeadersStep(StandingKey, t0, g);
      qualified := qualified + top;
      done := next;
      g := g + 1;
    }
    assert t0[..g] == t0;
  }

  /** The key `setup_knockout_round` re-sorts each group by: points alone. */
  function PointsKey(t: Team): seq<int> {
    [t.points]
  }

  /** A table in standing order is already in points order, so the stable
      re-sort by points leaves it as it is. */
  lemma StandingOrderKeepsPoints(ts: seq<Team>)
    requires Sorted(StandingKey, true, ts)
    ensures SortBy(PointsKey, true, ts) == ts
  {
    forall i | 0 < i < |ts| ensures InOrder(PointsKey(ts[i - 1]), PointsKey(ts[i]), true) {
      assert InOrder(StandingKey(ts[i - 1]), StandingKey(ts[i]), true);
    }
    SortBySortedIdentity(PointsKey, true, ts);
  }

  /** On tables the group stage has left in standing order, the knockout list
      holds exactly the teams `promote_teams` would qualify, in the same order. */
  lemma {:induction false} EntrantsAreQualifiers(tables: seq<seq<Team>>)
    requires forall h :: 0 <= h < |tables| ==> Sorted(StandingKey, true, tables[h])
    ensures Leaders(PointsKey, tables) == Leaders(StandingKey, tables)
  {
    if tables != [] {
      var last := |tables| - 1;
      EntrantsAreQualifiers(tables[..last]);
      StandingOrderKeepsPoints(tables[last]);
      SortBySortedIdentity(StandingKey, true, tables[last]);
    }
  }

  /** The inner loop of `setup_knockout_round`: walking from the head of `group`,
      its first two entries (or fewer) are appended to `knockout`. */
  method AppendTop(group: TeamList, knockout: TeamList)
    requires group.Valid() && knockout.Valid() && group != knockout
    requires forall j :: 0 <= j < |group.Spine| ==> group.Spine[j] !in knockout.Spine
    modifies knockout, knockout.Spine
    ensures knockout.Valid() && knockout.Teams == old(knockout.Teams) + Top(group.Teams)
    ensures |knockout.Spine| == |old(knockout.Spine)| + |Top(group.Teams)|
    ensures forall i :: 0 <= i < |old(knockout.Spine)| ==> knockout.Spine[i] == old(knockout.Spine)[i]
    ensures forall i :: |old(knockout.Spine)| <= i < |knockout.Spine| ==> fresh(knockout.Spine[i])
    ensures group.Valid() && unchanged(group)
    ensures forall j :: 0 <= j < |group.Spine| ==> unchanged(group.Spine[j])
  {
    var current := group.head;
    var count := 0;
    while current != null && count < 2
      invariant group.Valid() && unchanged(group)
      invariant forall j :: 0 <= j < |group.Spine| ==> unchanged(group.Spine[j])
      invariant forall j :: 0 <= j < |group.Spine| ==> group.Spine[j] !in knockout.Spine
      invariant knockout.Valid() && count <= 2 && count <= |group.Spine|
      invariant knockout.Teams == old(knockout.Teams) + group.Teams[..count]
      invariant |knockout.Spine| == |old(knockout.Spine)| + count
      invariant knockout.Spine[..|old(knockout.Spine)|] == old(knockout.Spine)
      invariant forall i :: |old(knockout.Spine)| <= i < |knockout.Spine| ==> fresh(knockout.Spine[i])
      invariant current == if count < |group.Spine| then group.Spine[count] else null
      decreases 2 - count
    {
      ghost var before := knockout.Spine;
      knockout.AppendTeam(current.data);
      assert knockout.Spine == before + [knockout.Spine[|before|]];
      assert group.Teams[..count + 1] == group.Teams[..count] + [group.Teams[count]];
      current := current.next;
      count := count + 1;
    }
    assert count == |Top(group.Teams)|;
    assert group.Teams[..count] == Top(group.Teams);
  }

  /** No object of the knockout list belongs to a group. */
  ghost predicate Outside(knockout: TeamList, owner: map<object, nat>)
    reads knockout
  {
    knockout !in owner && forall i :: 0 <= i < |knockout.Spine| ==> knockout.Spine[i] !in owner
  }

  /** Group `g` is re-sorted by points; no other group and not the knockout list
      changes. */
  method SortGroupAt(groups: seq<TeamList>, g: nat, knockout: TeamList, ghost owner: map<object, nat>,
                     ghost fps: seq<set<object>>, ghost t0: seq<seq<Team>>, ghost s0: seq<seq<TeamNode>>,
                     ghost done: seq<seq<Team>>)
    requires g < |groups| && AllValid(groups) && Confined(groups, fps) && Owned(owner, fps)
    requires Midway(groups, g, t0, s0, done)
    requires knockout.Valid() && Outside(knockout, owner)
    modifies groups[g], groups[g].Spine
    ensures AllValid(groups) && Confined(groups, fps)
    ensures Midway(groups, g + 1, t0, s0, done + [groups[g].Teams])
    ensures groups[g].Teams == SortBy(PointsKey, true, t0[g])
    ensures knockout.Valid() && knockout.Teams == old(knockout.Teams) && knockout.Spine == old(knockout.Spine)
  {
    ghost var spine := groups[g].Spine;
    assert Footprint(groups[g]) <= fps[g];
    assert forall x :: x in spine ==> x in fps[g] && owner[x] == g;
    assert groups[g] in fps[g] && owner[groups[g]] == g;
    groups[g].Sort(PointsKey, true);
    forall h | 0 <= h < |groups| && h != g
      ensures groups[h].Spine == old(groups[h].Spine) && groups[h].Teams == old(groups[h].Teams) && groups[h].Valid()
      ensures Footprint(groups[h]) <= fps[h]
    {
      ghost var fp := old(Footprint(groups[h]));
      assert fp <= fps[h];
      assert groups[h] in fp;
      OwnerOf(owner, fps, h, groups[h]);
      forall x | x in old(groups[h].Spine) ensures x !in spine {
        assert x in fp;
        OwnerOf(owner, fps, h, x);
      }
      assert old(groups[h].Valid());
      StillValid(groups[h]);
    }
    forall x | x in old(knockout.Spine) ensures x !in spine {
      assert x !in owner;
    }
    StillValid(knockout);
    assert forall h :: 0 <= h < g ==> groups[h].Teams == old(groups[h].Teams) == done[h];
    assert Footprint(groups[g]) <= fps[g] by {
      forall x | x in groups[g].Spine ensures x in fps[g] {
        assert x in multiset(groups[g].Spine);
        assert x in spine;
      }
    }
  }

  /** The first two entries of group `g` are appended to the knockout list; no
      group changes. */
  method AppendGroupAt(groups: seq<TeamList>, g: nat, knockout: TeamList, ghost owner: map<object, nat>,
                       ghost fps: seq<set<object>>)
    requires g < |groups| && AllValid(groups) && Confined(groups, fps) && Owned(owner, fps)
    requires knockout.Valid() && Outside(knockout, owner)
    modifies knockout, knockout.Spine
    ensures knockout.Valid() && Outside(knockout, owner)
    ensures knockout.Teams == old(knockout.Teams) + Top(groups[g].Teams)
    ensures |knockout.Spine| >= |old(knockout.Spine)|
    ensures forall i :: 0 <= i < |old(knockout.Spine)| ==> knockout.Spine[i] == old(knockout.Spine)[i]
    ensures forall i :: |old(knockout.Spine)| <= i < |knockout.Spine| ==> fresh(knockout.Spine[i])
    ensures forall h :: 0 <= h < |groups| ==> unchanged(groups[h]) && groups[h].Valid()
  {
    assert Footprint(groups[g]) <= fps[g];
    assert groups[g] in fps[g];
    OwnerOf(owner, fps, g, groups[g]);
    forall j | 0 <= j < |groups[g].Spine| ensures groups[g].Spine[j] !in knockout.Spine {
      assert groups[g].Spine[j] in groups[g].Spine;
      assert groups[g].Spine[j] in Footprint(groups[g]);
      OwnerOf(owner, fps, g, groups[g].Spine[j]);
    }
    AppendTop(groups[g], knockout);
    forall h | 0 <= h < |groups|
      ensures unchanged(groups[h]) && groups[h].Valid()
    {
      ghost var fp := old(Footprint(groups[h]));
      assert fp <= fps[h];
      assert groups[h] in fp;
      OwnerOf(owner, fps, h, groups[h]);
      forall x | x in old(groups[h].Spine) ensures unchanged(x) {
        assert x in fp;
        OwnerOf(owner, fps, h, x);
      }
      assert old(groups[h].Valid());
      StillValid(groups[h]);
    }
  }

  /** Group `g`'s turn in `setup_knockout_round`: the group is re-sorted by points
      and its first two entries join the knockout list. */
  method SetupTurn(groups: seq<TeamList>, g: nat, knockout: TeamList, ghost owner: map<object, nat>,
                   ghost fps: seq<set<object>>, ghost t0: seq<seq<Team>>, ghost s0: seq<seq<TeamNode>>,
                   ghost done: seq<seq<Team>>)
    requires g < |groups| && AllValid(groups) && Confined(groups, fps) && Owned(owner, fps)
    requires Midway(groups, g, t0, s0, done)
    requires forall h :: 0 <= h < g ==> done[h] == SortBy(PointsKey, true, t0[h])
    requires knockout.Valid() && Outside(knockout, owner)
    requires knockout.Teams == Leaders(PointsKey, t0[..g])
    modifies groups[g], groups[g].Spine, knockout, knockout.Spine
    ensures AllValid(groups) && Confined(groups, fps)
    ensures Midway(groups, g + 1, t0, s0, done + [groups[g].Teams])
    ensures forall h :: 0 <= h < g + 1 ==> (done + [groups[g].Teams])[h] == SortBy(PointsKey, true, t0[h])
    ensures knockout.Valid() && Outside(knockout, owner)
    ensures knockout.Teams == Leaders(PointsKey, t0[..g + 1])
    ensures |knockout.Spine| >= |old(knockout.Spine)|
    ensures forall i :: 0 <= i < |old(knockout.Spine)| ==> knockout.Spine[i] == old(knockout.Spine)[i]
    ensures forall i :: |old(knockout.Spine)| <= i < |knockout.Spine| ==> fresh(knockout.Spine[i])
  {
    SortGroupAt(groups, g, knockout, owner, fps, t0, s0, done);
    ghost var sorted := groups[g].Teams;
    AppendGroupAt(groups, g, knockout, owner, fps);
    assert groups[g].Teams == sorted;
    LeadersStep(PointsKey, t0, g);
    ResortedStep(done, t0, g, sorted);
  }

  /** One more group re-sorted by points. */
  lemma ResortedStep(done: seq<seq<Team>>, t0: seq<seq<Team>>, g: nat, sorted: seq<Team>)
    requires g < |t0| && |done| == g && sorted == SortBy(PointsKey, true, t0[g])
    requires forall h :: 0 <= h < g ==> done[h] == SortBy(PointsKey, true, t0[h])
    ensures forall h :: 0 <= h < g + 1 ==> (done + [sorted])[h] == SortBy(PointsKey, true, t0[h])
  {
  }

  /** `setup_knockout_round`: group by group, each group is re-sorted by points
      and its first two entries are appended to a new knockout list. */
  method SetupKnockoutRound(groups: seq<TeamList>) returns (knockout: TeamList)
    requires Separate(groups) && AllValid(groups)
    modifies Lists(groups), Nodes(groups)
    ensures Separate(groups) && AllValid(groups) && knockout.Valid()
    ensures knockout.Teams == Leaders(PointsKey, old(Tables(groups)))
    ensures forall g :: 0 <= g < |groups| ==> groups[g].Teams == SortBy(PointsKey, true, old(Tables(groups))[g])
  {
    ghost var t0, s0, fps := Tables(groups), Spines(groups), Footprints(groups);
    ghost var owner := Owners(fps);
    assert forall h :: 0 <= h < |groups| ==> Footprint(groups[h]) == fps[h];
    knockout := new TeamList();
    ghost var done := SetupFrom(groups, knockout, owner, fps, t0, s0);
    OwnedSeparate(groups, owner, fps);
  }

  /** The loop of `SetupKnockoutRound`, from the first group to the last,
      filling the new list `knockout`. */
  method SetupFrom(groups: seq<TeamList>, knockout: TeamList, ghost owner: map<object, nat>,
                   ghost fps: seq<set<object>>, ghost t0: seq<seq<Team>>, ghost s0: seq<seq<TeamNode>>)
    returns (ghost done: seq<seq<Team>>)
    requires Footprints(groups) == fps
    requires AllValid(groups) && Confined(groups, fps) && Owned(owner, fps)
    requires Midway(groups, 0, t0, s0, [])
    requires knockout.Valid() && knockout.Spine == [] && Outside(knockout, owner)
    modifies Lists(groups), Nodes(groups), knockout
    ensures AllValid(groups) && Confined(groups, fps)
    ensures Midway(groups, |groups|, t0, s0, done)
    ensures forall h :: 0 <= h < |groups| ==> done[h] == SortBy(PointsKey, true, t0[h])
    ensures knockout.Valid() && knockout.Teams == Leaders(PointsKey, t0)
  {
    done := [];
    var g := 0;
    while g < |groups|
      invariant AllValid(groups) && Confined(groups, fps)
      invariant Midway(groups, g, t0, s0, done)
      invariant forall h :: 0 <= h < g ==> done[h] == SortBy(PointsKey, true, t0[h])
      invariant knockout.Valid() && Outside(knockout, owner)
      invariant knockout.Teams == Leaders(PointsKey, t0[..g])
      invariant forall i :: 0 <= i < |knockout.Spine| ==> fresh(knockout.Spine[i])
    {
      SetupTurn(groups, g, knockout, owner, fps, t0, s0, done);
      done := done + [groups[g].Teams];
      g := g + 1;
    }
    assert t0[..g] == t0;
  }
}
