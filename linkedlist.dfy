/** The team table (`LinkedListt`) and the match ledger (`MatchHistoryLinkedList`):
    singly-linked lists of node objects. Each list keeps a ghost `Spine` (its nodes
    from the head on) and a ghost view of the records they hold; `Valid()` ties
    the `next` links and the node data to both. */
module LinkedList {
  import opened Ordering

  /** A team record: name, fixed strength and accumulated statistics. */
  datatype Team = Team(name: string, power: int, points: int, wins: int, losses: int, draws: int, gd: int)

  /** A fresh team as loaded before any match. */
  function NewTeam(name: string, power: int): Team {
    Team(name, power, 0, 0, 0, 0, 0)
  }

  /** Position of the first team called `name`, or `|t|` when there is none. */
  function IndexOf(t: seq<Team>, name: string): (k: nat)
    ensures k <= |t|
    ensures k < |t| ==> t[k].name == name
    ensures forall i {:trigger t[i].name} :: 0 <= i < k ==> t[i].name != name
  {
    if t == [] then 0
    else if t[0].name == name then 0
    else 1 + IndexOf(t[1..], name)
  }

  /** `t` without its first team called `name`, walking the list like `delete`. */
  function DeleteFirst(t: seq<Team>, name: string): (r: seq<Team>)
    ensures var k := IndexOf(t, name);
            r == if k < |t| then t[..k] + t[k + 1..] else t
  {
    if t == [] then []
    else if t[0].name == name then t[1..]
    else [t[0]] + DeleteFirst(t[1..], name)
  }

  /** No two teams share a name. */
  predicate UniqueNames(t: seq<Team>) {
    forall i, j :: 0 <= i < j < |t| ==> t[i].name != t[j].name
  }

  /** What `delete` reports besides its effect. */
  datatype DeleteReport = Deleted | EmptyList | NotFound

  /** The node that should follow position `i` of a spine. */
  function TeamSuccessor(spine: seq<TeamNode>, i: int): TeamNode? {
    if 0 <= i && i + 1 < |spine| then spine[i + 1] else null
  }

  class TeamNode {
    var data: Team
    var next: TeamNode?

    constructor (data: Team)
      ensures this.data == data && next == null
    {
      this.data := data;
      next := null;
    }
  }

  class TeamList {
    var head: TeamNode?
    ghost var Spine: seq<TeamNode>
    ghost var Teams: seq<Team>

    ghost predicate Valid()
      reads this, Spine
    {
      && |Spine| == |Teams|
      && head == (if Spine == [] then null else Spine[0])
      && (forall i {:trigger Spine[i].data} :: 0 <= i < |Spine| ==> Spine[i].data == Teams[i])
      && (forall i {:trigger Spine[i].next} :: 0 <= i < |Spine| ==> Spine[i].next == TeamSuccessor(Spine, i))
      && NoRepeats(Spine)
    }

    constructor ()
      ensures Valid() && Teams == [] && Spine == []
    {
      head := null;
      Spine, Teams := [], [];
    }

    method AppendTeam(team: Team)
      requires Valid()
      modifies this, Spine
      ensures Valid()
      ensures Teams == old(Teams) + [team]
      ensures |Spine| == |old(Spine)| + 1 && Spine[..|old(Spine)|] == old(Spine)
      ensures fresh(Spine[|old(Spine)|])
    {
      NoRepeatsDistinct(Spine);
      var node := new TeamNode(team);
      if head == null {
        head := node;
      } else {
        var current := head;
        ghost var i := 0;
        while current.next != null
          invariant 0 <= i < |Spine| && current == Spine[i]
          decreases |Spine| - i
        {
          current := current.next;
          i := i + 1;
        }
        assert i == |Spine| - 1;
        current.next := node;
      }
      Spine := Spine + [node];
      Teams := Teams + [team];
      NoRepeatsDistinct(Spine);
    }

    method Delete(name: string) returns (report: DeleteReport)
      requires Valid()
      modifies this, Spine
      ensures Valid()
      ensures Teams == DeleteFirst(old(Teams), name)
      ensures var k := IndexOf(old(Teams), name);
              Spine == if k < |old(Teams)| then old(Spine)[..k] + old(Spine)[k + 1..] else old(Spine)
      ensures report == if old(Teams) == [] then EmptyList
                        else if IndexOf(old(Teams), name) == |old(Teams)| then NotFound
                        else Deleted
    {
      if head == null {
        return EmptyList;
      }
      if head.data.name == name {
        Unlink(0, null, head);
        return Deleted;
      }
      var current: TeamNode? := head;
      var previous: TeamNode? := null;
      ghost var i := 0;
      while current != null && current.data.name != name
        invariant 0 <= i <= |Spine|
        invariant current == if i < |Spine| then Spine[i] else null
        invariant i > 0 ==> previous == Spine[i - 1]
        invariant i == 0 ==> current == head
        invariant forall j :: 0 <= j < i ==> Teams[j].name != name
        decreases |Spine| - i
      {
        previous := current;
        current := current.next;
        i := i + 1;
      }
      if current == null {
        return NotFound;
      }
      Unlink(i, previous, current);
      report := Deleted;
    }

    /** Takes `current`, the node at position `i`, out of the list; `previous`
        is the node before it, or null when it is the head. */
    method Unlink(ghost i: nat, previous: TeamNode?, current: TeamNode)
      requires Valid() && i < |Spine| && current == Spine[i]
      requires previous == if i == 0 then null else Spine[i - 1]
      modifies this, Spine
      ensures Valid()
      ensures Spine == old(Spine)[..i] + old(Spine)[i + 1..]
      ensures Teams == old(Teams)[..i] + old(Teams)[i + 1..]
    {
      if previous == null {
        UnlinkHead();
      } else {
        UnlinkAfter(i, previous);
      }
    }

    /** Moves `head` on to the second node. */
    method UnlinkHead()
      requires Valid() && head != null
      modifies this
      ensures Valid()
      ensures Spine == old(Spine)[1..] && Teams == old(Teams)[1..]
    {
      ghost var spine := Spine[1..];
      NoRepeatsDistinct(Spine);
      DistinctRemove(Spine, 0);
      NoRepeatsDistinct(spine);
      assert Spine[0].next == TeamSuccessor(Spine, 0);
      head := head.next;
      forall j | 0 <= j < |spine| ensures spine[j].next == TeamSuccessor(spine, j) {
        assert spine[j] == Spine[j + 1];
        assert Spine[j + 1].next == TeamSuccessor(Spine, j + 1);
      }
      Spine := spine;
      Teams := Teams[1..];
    }

    /** Points `previous`, the node at position `i - 1`, past the node after it. */
    method UnlinkAfter(ghost i: nat, previous: TeamNode)
      requires Valid() && 0 < i < |Spine| && previous == Spine[i - 1]
      modifies this, previous
      ensures Valid()
      ensures Spine == old(Spine)[..i] + old(Spine)[i + 1..]
      ensures Teams == old(Teams)[..i] + old(Teams)[i + 1..]
    {
      ghost var spine := Spine[..i] + Spine[i + 1..];
      NoRepeatsDistinct(Spine);
      DistinctRemove(Spine, i);
      NoRepeatsDistinct(spine);
      assert Spine[i - 1].next == TeamSuccessor(Spine, i - 1);
      assert Spine[i].next == TeamSuccessor(Spine, i);
      previous.next := previous.next.next;
      forall j | 0 <= j < |spine| ensures spine[j].next == TeamSuccessor(spine, j) {
        if j < i - 1 {
          assert spine[j] == Spine[j] != Spine[i - 1];
          assert spine[j].next == TeamSuccessor(Spine, j);
        } else if j >= i {
          assert spine[j] == Spine[j + 1] != Spine[i - 1];
          assert spine[j].next == TeamSuccessor(Spine, j + 1);
        }
      }
      Spine := spine;
      Teams := Teams[..i] + Teams[i + 1..];
    }

    method Sort(key: Team -> seq<int>, reverse: bool)
      requires Valid()
      modifies this, Spine
      ensures Valid()
      ensures Teams == SortBy(key, reverse, old(Teams))
      ensures multiset(Spine) == multiset(old(Spine))
    {
      if head == null || head.next == null {
        return;
      }
      NoRepeatsDistinct(Spine);
      var entries := CollectNodes();
      var nodes := SortBy(OnFirst(key), reverse, entries);
      SortByPermutes(OnFirst(key), reverse, entries);
      SortByFirsts(key, reverse, entries);
      forall j | 0 <= j < |nodes| ensures nodes[j].1.data == nodes[j].0 {
        assert nodes[j] in multiset(entries) by { assert nodes[j] in multiset(nodes); }
      }
      var order := Seconds(nodes);
      forall j | 0 <= j < |order| ensures order[j] in Spine {
        assert order[j] in multiset(order);
      }
      DistinctPermutation(Spine, order);
      Relink(order, Firsts(nodes));
    }

    /** The list's teams paired with the nodes that hold them, head first. */
    method CollectNodes() returns (entries: seq<(Team, TeamNode)>)
      requires Valid()
      ensures Firsts(entries) == Teams && Seconds(entries) == Spine
      ensures forall j :: 0 <= j < |entries| ==> entries[j].1.data == entries[j].0
    {
      entries := [];
      var current: TeamNode? := head;
      while current != null
        invariant |entries| <= |Spine|
        invariant current == if |entries| < |Spine| then Spine[|entries|] else null
        invariant forall j :: 0 <= j < |entries| ==> entries[j] == (Teams[j], Spine[j])
        decreases |Spine| - |entries|
      {
        entries := entries + [(current.data, current)];
        current := current.next;
      }
    }

    /** Re-links the list's own nodes in the order of `order`; `teams` is
        the data they hold. */
    method Relink(order: seq<TeamNode>, ghost teams: seq<Team>)
      requires order != [] && |teams| == |order| && Distinct(order)
      requires forall j :: 0 <= j < |order| ==> order[j] in Spine
      requires forall j :: 0 <= j < |order| ==> order[j].data == teams[j]
      modifies this, Spine
      ensures Valid()
      ensures Spine == order && Teams == teams
    {
      Chain(order);
      NoRepeatsDistinct(order);
      head := order[0];
      Spine := order;
      Teams := teams;
    }

    /** Sets every node's `next` to the node after it in `order`, and the last one's to null. */
    static method Chain(order: seq<TeamNode>)
      requires order != [] && Distinct(order)
      modifies set j | 0 <= j < |order| :: order[j]
      ensures forall j :: 0 <= j < |order| ==> order[j].next == TeamSuccessor(order, j)
      ensures forall j :: 0 <= j < |order| ==> order[j].data == old(order[j].data)
    {
      var last := order[0];
      for k := 1 to |order|
        invariant last == order[k - 1]
        invariant forall j :: 0 < j < k ==> order[j - 1].next == order[j]
        invariant forall j :: 0 <= j < |order| ==> order[j].data == old(order[j].data)
      {
        last.next := order[k];
        last := order[k];
      }
      last.next := null;
      forall j | 0 <= j < |order| ensures order[j].next == TeamSuccessor(order, j) {
        if j + 1 < |order| {
          assert order[(j + 1) - 1].next == order[j + 1];
        }
      }
    }

    method UpdateTeamPoints(name: string, newPoints: int) returns (found: bool)
      requires Valid()
      modifies this, Spine
      ensures Valid() && Spine == old(Spine) && head == old(head)
      ensures var k := IndexOf(old(Teams), name);
              && found == (k < |old(Teams)|)
              && Teams == if found then old(Teams)[k := old(Teams)[k].(points := newPoints)] else old(Teams)
    {
      NoRepeatsDistinct(Spine);
      var current := head;
      ghost var i := 0;
      while current != null
        invariant 0 <= i <= |Spine|
        invariant current == if i < |Spine| then Spine[i] else null
        invariant forall j :: 0 <= j < i ==> Teams[j].name != name
        decreases |Spine| - i
      {
        if current.data.name == name {
          current.data := current.data.(points := newPoints);
          Teams := Teams[i := current.data];
          return true;
        }
        current := current.next;
        i := i + 1;
      }
      return false;
    }

    /** `set_data` on the node at position `i`. */
    method Overwrite(ghost i: nat, node: TeamNode, team: Team)
      requires Valid() && i < |Spine| && node == Spine[i]
      modifies this, node
      ensures Valid() && Spine == old(Spine) && head == old(head)
      ensures Teams == old(Teams)[i := team]
    {
      NoRepeatsDistinct(Spine);
      node.data := team;
      Teams := Teams[i := team];
    }

    /** The last team, reached by walking from the head. */
    method Last() returns (team: Team)
      requires Valid() && Teams != []
      ensures team == Teams[|Teams| - 1]
    {
      var current := head;
      ghost var i := 0;
      while current.next != null
        invariant 0 <= i < |Spine| && current == Spine[i]
        decreases |Spine| - i
      {
        current := current.next;
        i := i + 1;
      }
      team := current.data;
    }

    method Size() returns (count: nat)
      requires Valid()
      ensures count == |Teams|
    {
      count := 0;
      var current := head;
      while current != null
        invariant count <= |Spine|
        invariant current == if count < |Spine| then Spine[count] else null
        decreases |Spine| - count
      {
        count := count + 1;
        current := current.next;
      }
    }

    method ExtractTeams() returns (teams: seq<Team>)
      requires Valid()
      ensures teams == Teams
    {
      teams := [];
      var current := head;
      while current != null
        invariant |teams| <= |Spine|
        invariant current == if |teams| < |Spine| then Spine[|teams|] else null
        invariant teams == Teams[..|teams|]
        decreases |Spine| - |teams|
      {
        teams := teams + [current.data];
        current := current.next;
      }
    }
  }

  /** One ledger entry. */
  datatype MatchRecord = MatchRecord(gameNumber: int, team1: string, team2: string, goals1: int, goals2: int)

  /** The node that should follow position `i` of a spine. */
  function MatchSuccessor(spine: seq<MatchNode>, i: int): MatchNode? {
    if 0 <= i && i + 1 < |spine| then spine[i + 1] else null
  }

  class MatchNode {
    const data: MatchRecord
    var next: MatchNode?

    constructor (data: MatchRecord)
      ensures this.data == data && next == null
    {
      this.data := data;
      next := null;
    }
  }

  class MatchHistory {
    var head: MatchNode?
    var tail: MatchNode?
    var size: int
    ghost var Spine: seq<MatchNode>
    ghost var Records: seq<MatchRecord>

    ghost predicate Valid()
      reads this, Spine
    {
      && |Spine| == |Records| == size
      && head == (if Spine == [] then null else Spine[0])
      && tail == (if Spine == [] then null else Spine[|Spine| - 1])
      && (forall i {:trigger Spine[i].data} :: 0 <= i < |Spine| ==> Spine[i].data == Records[i])
      && (forall i {:trigger Spine[i].next} :: 0 <= i < |Spine| ==> Spine[i].next == MatchSuccessor(Spine, i))
      && NoRepeats(Spine)
    }

    /** The ledger kept its earlier nodes and only added new ones. */
    twostate predicate Grew()
      reads this
    {
      old(Spine) <= Spine && forall q :: |old(Spine)| <= q < |Spine| ==> fresh(Spine[q])
    }

    constructor ()
      ensures Valid() && Records == [] && Spine == []
    {
      head, tail, size := null, null, 0;
      Spine, Records := [], [];
    }

    method AddMatch(gameNumber: int, team1: string, team2: string, goals1: int, goals2: int)
      requires Valid()
      modifies this, Spine
      ensures Valid()
      ensures Records == old(Records) + [MatchRecord(gameNumber, team1, team2, goals1, goals2)]
      ensures size == old(size) + 1
      ensures Grew() && |Spine| == |old(Spine)| + 1
      ensures head == if old(head) == null then Spine[0] else old(head)
    {
      NoRepeatsDistinct(Spine);
      var node := new MatchNode(MatchRecord(gameNumber, team1, team2, goals1, goals2));
      if head == null {
        head := node;
      } else {
        tail.next := node;
      }
      tail := node;
      size := size + 1;
      Spine := Spine + [node];
      Records := Records + [node.data];
      NoRepeatsDistinct(Spine);
    }
  }
}
