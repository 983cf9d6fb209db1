/** A stage's groups as separate linked lists: the objects each group owns, the
    tables and node sequences of all groups, and the state part way through a
    pass over the groups in order. */
module Groups {
  import opened LinkedList

  /** The group lists themselves. */
  ghost function Lists(groups: seq<TeamList>): set<TeamList> {
    set g | 0 <= g < |groups| :: groups[g]
  }

  /** Every node of every group. */
  ghost function Nodes(groups: seq<TeamList>): set<TeamNode>
    reads Lists(groups)
  {
    set g, k | 0 <= g < |groups| && 0 <= k < |groups[g].Spine| :: groups[g].Spine[k]
  }

  /** Every group list is well formed. */
  ghost predicate AllValid(groups: seq<TeamList>)
    reads Lists(groups), Nodes(groups)
  {
    forall g :: 0 <= g < |groups| ==> groups[g].Valid()
  }

  /** The objects a group list owns: itself and its nodes. */
  ghost function Footprint(list: TeamList): set<object>
    reads list
  {
    {list as object} + set x: TeamNode | x in list.Spine :: x as object
  }

  /** The footprints of all groups, in order. */
  ghost function Footprints(groups: seq<TeamList>): (r: seq<set<object>>)
    reads Lists(groups)
    ensures |r| == |groups|
  {
    seq(|groups|, g requires 0 <= g < |groups| reads Lists(groups) => Footprint(groups[g]))
  }

  /** No two of the sets share an object. */
  predicate Disjoint(fps: seq<set<object>>) {
    forall a, b :: 0 <= a < |fps| && 0 <= b < |fps| && a != b ==> fps[a] !! fps[b]
  }

  /** Different groups own no object in common. */
  ghost predicate Separate(groups: seq<TeamList>)
    reads Lists(groups)
  {
    Disjoint(Footprints(groups))
  }

  /** `owner` maps every object of footprint `h` to `h`. */
  ghost predicate Owned(owner: map<object, nat>, fps: seq<set<object>>) {
    forall h, x :: 0 <= h < |fps| && x in fps[h] ==> x in owner && owner[x] == h
  }

  /** An object of footprint `h` is owned by group `h`. */
  lemma OwnerOf(owner: map<object, nat>, fps: seq<set<object>>, h: nat, x: object)
    requires Owned(owner, fps) && h < |fps| && x in fps[h]
    ensures x in owner && owner[x] == h
  {
  }

  /** Separate groups have an owner map. */
  lemma {:induction false} Owners(fps: seq<set<object>>) returns (owner: map<object, nat>)
    requires Disjoint(fps)
    ensures Owned(owner, fps)
    decreases |fps|
  {
    if fps == [] {
      owner := map[];
    } else {
      var last := |fps| - 1;
      var earlier := Owners(fps[..last]);
      owner := earlier + map x | x in fps[last] :: last;
      forall h, x | 0 <= h < |fps| && x in fps[h] ensures x in owner && owner[x] == h {
        if h < last {
          assert fps[..last][h] == fps[h] && fps[h] !! fps[last];
        }
      }
    }
  }

  /** Each group owns no more than the matching footprint of `fps`. */
  ghost predicate Confined(groups: seq<TeamList>, fps: seq<set<object>>)
    reads Lists(groups)
  {
    |fps| == |groups| && forall h :: 0 <= h < |groups| ==> Footprint(groups[h]) <= fps[h]
  }

  /** Groups confined to footprints with an owner map are separate. */
  lemma OwnedSeparate(groups: seq<TeamList>, owner: map<object, nat>, fps: seq<set<object>>)
    requires Owned(owner, fps) && Confined(groups, fps)
    ensures Separate(groups)
  {
    var fs := Footprints(groups);
    forall a, b | 0 <= a < |fs| && 0 <= b < |fs| && a != b ensures fs[a] !! fs[b] {
      forall x | x in fs[a] ensures x !in fs[b] {
        assert x in fps[a] && owner[x] == a;
      }
    }
  }

  /** The tables of all groups, in order. */
  ghost function Tables(groups: seq<TeamList>): (r: seq<seq<Team>>)
    reads Lists(groups)
    ensures |r| == |groups|
  {
    seq(|groups|, g requires 0 <= g < |groups| reads Lists(groups) => groups[g].Teams)
  }

  /** The node sequences of all groups, in order. */
  ghost function Spines(groups: seq<TeamList>): (r: seq<seq<TeamNode>>)
    reads Lists(groups)
    ensures |r| == |groups|
  {
    seq(|groups|, g requires 0 <= g < |groups| reads Lists(groups) => groups[g].Spine)
  }

  /** Part way through the stage, before group `g`: the groups from `g` on still
      have their starting tables `t0` and node sequences `s0`, and the earlier
      groups hold the tables `ranked`. */
  ghost predicate Midway(groups: seq<TeamList>, g: nat, t0: seq<seq<Team>>, s0: seq<seq<TeamNode>>, ranked: seq<seq<Team>>)
    reads Lists(groups)
  {
    && g <= |groups| == |t0| == |s0| && |ranked| == g
    && (forall h :: g <= h < |groups| ==> groups[h].Teams == t0[h] && groups[h].Spine == s0[h])
    && (forall h :: 0 <= h < g ==> groups[h].Teams == ranked[h])
  }

  /** A list none of whose objects changed is as well formed as it was. */
  twostate lemma StillValid(list: TeamList)
    requires old(list.Valid())
    requires unchanged(list) && forall x :: x in old(list.Spine) ==> unchanged(x)
    ensures list.Valid() && list.Spine == old(list.Spine)
  {
    var spine := list.Spine;
    forall i | 0 <= i < |spine|
      ensures spine[i].data == list.Teams[i] && spine[i].next == TeamSuccessor(spine, i)
    {
      assert spine[i] in old(list.Spine);
      assert old(spine[i].data) == old(list.Teams)[i];
      assert old(spine[i].next) == TeamSuccessor(spine, i);
    }
  }
}
