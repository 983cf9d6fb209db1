# World Cup tournament engine and card-matching game, modelled in Dafny

This project models two small Python programs.

The first is a World Cup simulator. Teams sit in groups, and each group is a
singly linked list of team records (`LinkedListt`). A record holds a name, a
fixed power and the running points, wins, losses, draws and goal difference.
Every match is appended to a linked ledger (`MatchHistoryLinkedList`).
- In the group stage each group plays a round robin. Games are numbered by one
  counter across the groups, and each group is then re-ranked by
  (points, GD, power), highest first.
- `single_day_group_matches` plays at most two games per group.
- `promote_teams` and `setup_knockout_round` take the first two teams of each
  group.
- The knockout is played in one of two ways. In the first, the two teams at the
  front of a list play and the loser is deleted until one team is left. In the
  second, a fixed bracket of four stages pairs the list (0, 1), (2, 3), ….

The second program is a card game. Stacks and a bounded queue hold cards.
`find_match` looks among the top four table cards for one whose leading digit
makes 15 with the leading digit of the player's top card. A scored turn gives
the player 15 points, puts both cards at the back of the deck and refills the
table from the deck. `determine_winner` picks every player with the highest
score.

Every source file that changes state in place is modelled imperatively:
- A linked list is a Dafny `class` over real node objects. Ghost `Spine` and
  `Teams`/`Records` views are tied to the links by `Valid()`.
- A stack or queue is a `class` with a `seq` field.
- Every loop is a `while` or `for` loop with its invariants.
- Each method is proved against a specification function, and the properties
  the program promises are proved as lemmas about those functions.

Randomness is supplied as parameters:
- A raw draw `raw` becomes `randint(0, hi)` as `raw % (hi + 1)`.
- A knockout match reads a finite sequence of draw pairs.

Python's exceptions become `Failure`/`Raised` results, so every error path the
code has is modelled rather than excluded, except those listed under
"Left out" below.

Modules:
- `Wrappers`: Option, Result and the exception kinds.
- `LinkedList`: the team table and the ledger.
- `Ordering`: the stable key sort.
- `Scoring`: match results and bookkeeping.
- `Schedule`: the fixture order.
- `GroupStage` and `GroupFacts`: one group's walk and what it guarantees.
- `Groups` and `Stages`: the loop over all groups.
- `Promotion`: `promote_teams` and `setup_knockout_round`.
- `Knockout`: front-pair rounds.
- `Competition`: the bracket.
- `Stacks`, `Queues` and `CardGame`: the card game.

## Model

| member | source | states |
|---|---|---|
| LinkedList.IndexOf | Assignment4/linkedlist.py:118-122 | The walk of `delete` stops at the first team with the name, or at the end of the list; every team before that stop has another name. |
| LinkedList.DeleteFirst | Assignment4/linkedlist.py:108-129 | Deleting a name removes exactly the first team so named and keeps every other team in order. A list without that name, or an empty list, is unchanged. |
| LinkedList.TeamNode.constructor | Assignment4/linkedlist.py:12-25 | A new node holds the record and links to nothing. |
| LinkedList.TeamList.constructor | Assignment4/linkedlist.py:74-81 | A new table is empty and well formed. |
| LinkedList.TeamList.AppendTeam | Assignment4/linkedlist.py:85-99 | The team joins at the tail in a fresh node. Earlier teams and nodes keep their order, and the size grows by one. |
| LinkedList.TeamList.Delete | Assignment4/linkedlist.py:101-129 | Exactly the first node whose team has the name is unlinked, and the others keep their order. The result reports an empty list or a missing name, and in both cases the list is unchanged. |
| LinkedList.TeamList.UnlinkHead | Assignment4/linkedlist.py:113-115 | Moving the head on drops the first node and team and keeps the rest. |
| LinkedList.TeamList.UnlinkAfter | Assignment4/linkedlist.py:129 | Linking the previous node past the current one drops exactly that node and team. |
| LinkedList.TeamList.Sort | Assignment4/linkedlist.py:134-164 | The table becomes the stable sort of the old table by the key, descending when `reverse` holds. It is made of the same nodes, re-linked. |
| LinkedList.TeamList.CollectNodes | Assignment4/linkedlist.py:147-151 | The collected nodes are the list's nodes head first, each paired with the team it holds. |
| LinkedList.TeamList.Relink | Assignment4/linkedlist.py:153-164 | Re-linking the nodes in the sorted order makes a well-formed list of exactly that order and those teams. |
| LinkedList.TeamList.UpdateTeamPoints | Assignment4/linkedlist.py:168-186 | Only the first team with the name gets the new points, and no other field or team changes. An absent name changes nothing and is reported. |
| LinkedList.TeamList.Overwrite | Assignment4/linkedlist.py:182 | `set_data` replaces exactly one position's record. |
| LinkedList.TeamList.Last | Assignment4/linkedlist.py:96-98 | Walking to the end of a non-empty list reaches its last team. |
| LinkedList.TeamList.Size | Assignment4/linkedlist.py:246-258 | The count is the number of teams reachable from the head. |
| LinkedList.TeamList.ExtractTeams | Assignment4/linkedlist.py:204-222 | The copied records are the list's teams in order; an empty group gives an empty list. |
| LinkedList.MatchNode.constructor | Assignment4/linkedlist.py:300-308 | A new ledger node holds the record and links to nothing. |
| LinkedList.MatchHistory.constructor | Assignment4/linkedlist.py:323-326 | A new ledger is empty, with size 0. |
| LinkedList.MatchHistory.AddMatch | Assignment4/linkedlist.py:328-336 | The record is appended at the tail and earlier records stay unchanged and in order. The size grows by one. The head is the first record ever added. |
| Ordering.LexLeReflexive | Assignment4/linkedlist.py:156 | Python's tuple order is reflexive. |
| Ordering.LexLeTotal | Assignment4/linkedlist.py:156 | Python's tuple order is total, so any two keys are comparable. |
| Ordering.LexLeTransitive | Assignment4/linkedlist.py:156 | Python's tuple order is transitive. |
| Ordering.LexLeAntisymmetric | Assignment4/linkedlist.py:156 | Keys that are each at most the other are equal. |
| Ordering.InOrderTotal | Assignment4/linkedlist.py:156 | In either direction of sorting, one of any two keys may come first. |
| Ordering.InOrderTransitive | Assignment4/linkedlist.py:156 | The order in either sorting direction is transitive. |
| Ordering.InsertSorted | Assignment4/linkedlist.py:156 | Inserting into an ordered list keeps it ordered. |
| Ordering.SortBySorted | Assignment4/linkedlist.py:156 | Sorting orders the result by the key, descending when `reverse` holds. |
| Ordering.SortByPermutes | Assignment4/linkedlist.py:156 | Sorting permutes its input. |
| Ordering.SortBy | Assignment4/linkedlist.py:144-164 | Sorting keeps the number of entries. |
| Ordering.SortByStable | Assignment4/linkedlist.py:156 | Sorting is stable: the elements sharing a key keep their relative order. |
| Ordering.SortBySortedIdentity | Assignment4/linkedlist.py:144-156 | An already ordered list, in particular one of length 0 or 1, is left as it is. |
| Ordering.SortByIdempotent | Assignment4/linkedlist.py:147-164 | Sorting twice by the same key gives the order of sorting once. |
| Ordering.SortedPairwise | Assignment4/linkedlist.py:156 | In a sorted list every element may precede every later one, not only its neighbour. |
| Ordering.SortByFirsts | Assignment4/linkedlist.py:156 | Sorting (team, node) pairs by the team's key sorts the teams and permutes the nodes. |
| Ordering.DistinctPermutation | Assignment4/linkedlist.py:156-164 | A permutation of distinct nodes is distinct, so the re-linked list does not repeat a node. |
| Ordering.NoRepeatsDistinct | Assignment4/linkedlist.py:66-81 | The one-step form of "no node occurs twice" used in the list invariant is equivalent to the pairwise form. |
| Scoring.Roll | Assignment4/worldcup.py:62-63 | `randint(0, hi)` yields a goal count between 0 and `hi`, and every such count is reached. |
| Scoring.Credit | Assignment4/worldcup.py:66-82 | One side's record after a match keeps its name and power. |
| Scoring.CreditOutcome | Assignment4/worldcup.py:66-82 | A result adds exactly one win, draw or loss, matching the score. The goal difference moves by the margin, and points stay at three per win plus one per draw. |
| Scoring.MatchPlayOutcome | Assignment4/worldcup.py:65-82 | A match has exactly one outcome (win/loss, loss/win or draw/draw). Its goal differences cancel, and it hands out three points, or two for a draw. |
| Scoring.GoalRange | Assignment4/worldcup.py:61 | The upper end of the goal draw is at least 1. |
| Scoring.SimulatedGoals | Assignment4/worldcup.py:61-63 | Both goal counts lie in [0, max(1, abs(p1 - p2) // 2)]. |
| Scoring.SimulateMatch | Assignment4/worldcup.py:56-87 | Exactly one record is appended to the ledger, with the game number, both names and the real goals. The copies come back updated by that score. |
| Scoring.GroupMatchPlay | Assignment4/worldcup.py:92-123 | Each side scores between 0 and its own power. A negative power makes `randint` raise, reported as no result. |
| Scoring.GroupMatchPlayScores | Assignment4/worldcup.py:103-104 | Every score within the powers is reached by some draw, and every draw gives such a score. |
| Scoring.UpdateAfterMatch | Assignment4/worldcup.py:127-153 | The group keeps its length. |
| Scoring.UpdateKeepsRoster | Assignment4/worldcup.py:127-153 | A match changes no entry's name or power. |
| Scoring.UpdateAfterMatchEffect | Assignment4/worldcup.py:129-153 | An entry named `team1_name` is credited with (g1, g2): its goal difference moves by g1 - g2 and it gains the win, draw or loss with its points. Otherwise an entry named `team2_name` is credited with (g2, g1). Every other entry is left completely unchanged. |
| Scoring.UpdateKeepsTally | Assignment4/worldcup.py:131-151 | Every entry keeps points equal to three per win plus one per draw. |
| Scoring.GroupUpdateAfterMatch | Assignment4/worldcup.py:127-153 | Walking the whole group rewrites the entries as `UpdateAfterMatch` says. The nodes and their order stay. |
| Scoring.GdSumAfterMatch | Assignment4/worldcup.py:127-153 | With each name present at most once, the total goal difference moves by the two named entries' margins. |
| Scoring.GdZeroSum | Assignment4/worldcup.py:127-153 | In a group with unique names, a match between two of its members leaves the total goal difference unchanged: it is zero-sum. |
| Scoring.UniqueCount | Assignment4/worldcup.py:131-142 | With unique names each name occurs at most once. |
| Schedule.Row | Assignment4/worldcup.py:175-190 | The inner walk from a team meets the later teams in list order. |
| Schedule.PairsBefore | Assignment4/worldcup.py:173-191 | Every fixture of the first rows pairs an earlier team with a later one in the group. |
| Schedule.TriangleClosed | Assignment4/worldcup.py:173-191 | 0 + 1 + … + (m - 1) is m(m-1)/2. |
| Schedule.FixturesLength | Assignment4/worldcup.py:173-191 | A group of n teams plays n(n-1)/2 fixtures. |
| Schedule.FixturesExactly | Assignment4/worldcup.py:173-191 | A pair (a, b) is a fixture exactly when a < b < n. |
| Schedule.FixturesIncreasing | Assignment4/worldcup.py:173-191 | Fixtures come in strictly increasing (i, j) order, so no pair is played twice. |
| GroupStage.PlayPair | Assignment4/worldcup.py:177-188 | One fixture (in single-day mode the one at lines 358-370) keeps the group's length and powers. It logs one record with the game number and the two names. |
| GroupStage.Advance | Assignment4/worldcup.py:176-190 | One step of the walk keeps the group's length and powers. |
| GroupStage.Upto | Assignment4/worldcup.py:173-191 | The walk at any point keeps the group's length and powers. |
| GroupStage.RoundRobin | Assignment4/worldcup.py:173-191 | A group's whole walk keeps its length and powers. |
| GroupStage.UptoStep | Assignment4/worldcup.py:176-190 | Within a row, the walk's next point is one more fixture. |
| GroupStage.PlayFixture | Assignment4/worldcup.py:177-188 | The two nodes play. The group becomes the specified table, and exactly the specified record is appended to the ledger. |
| GroupStage.PlayNext | Assignment4/worldcup.py:176-190 | One step of an inner walk moves the group and the ledger from the walk's state before fixture (i, j) to the state after it. |
| GroupStage.PlayRow | Assignment4/worldcup.py:174-191 | The inner walk from the team at row i plays every later team and reaches the end of that row. |
| GroupStage.PlayRoundRobin | Assignment4/worldcup.py:173-191 | All fixtures of one group are played: the group and the ledger become the round robin's table and records, and the game counter moves past them. |
| GroupStage.PlayDayRow | Assignment4/worldcup.py:355-374 | The inner walk of a single day stops at the group's quota of two games. |
| GroupStage.PlayDay | Assignment4/worldcup.py:353-374 | A single day's walk of one group, each game numbered one past the ledger's size. |
| GroupStage.Settled | Assignment4/worldcup.py:355-357 | Once a group has had its two single-day games, the rest of the walk leaves it as it is. |
| GroupFacts.KeepsTrans | Assignment4/worldcup.py:173-191 | What a walk keeps is kept across consecutive steps. |
| GroupFacts.PlayPairKeeps | Assignment4/worldcup.py:177-188 | A fixture between two different entries keeps names, powers and the points tally. With distinct names it also keeps the total goal difference. |
| GroupFacts.UptoKeeps | Assignment4/worldcup.py:173-191 | The walk keeps names, powers, the tally and the goal-difference sum at every point. |
| GroupFacts.RoundRobinKeeps | Assignment4/worldcup.py:173-191 | A whole round robin keeps every team's name and power in place and keeps points at 3 × wins + draws. With distinct names the total goal difference is unchanged. |
| GroupFacts.LogPlayed | Assignment4/worldcup.py:181-184 | A ledger that follows the walk and gains the next fixture's record follows the walk one step further. |
| GroupFacts.LogSkipped | Assignment4/worldcup.py:357 | A full single-day ledger follows the walk unchanged. |
| GroupFacts.FixtureLog | Assignment4/worldcup.py:181-188 | Fixture (i, j) extends the ledger by exactly that fixture, unless a single-day group has had its games. |
| GroupFacts.UptoLog | Assignment4/worldcup.py:173-191 | At every point of the walk, the ledger holds the fixtures reached so far in order, with consecutive numbers. In single-day mode it holds at most two. |
| GroupFacts.RoundRobinLog | Assignment4/worldcup.py:169-191 | A round robin's records are the group's fixtures (i, j > i) in walk order, numbered consecutively from the first game. A single day keeps at most two. |
| Stages.Stage | Assignment4/worldcup.py:170-194 | The stage keeps one table per group. |
| Stages.StageLog | Assignment4/worldcup.py:169-191 | The stage writes exactly the scheduled number of games: n(n-1)/2 per group of n, or at most two per group in a single day. They are numbered consecutively from the first game across all groups. |
| Stages.StageStep | Assignment4/worldcup.py:170-194 | The stage on g + 1 groups is the stage on g groups followed by group g's round robin and re-ranking. |
| Stages.RankedGroup | Assignment4/worldcup.py:194 | A re-ranked group is ordered by (points, GD, power), highest first. It keeps the round robin's teams and the tally. |
| Stages.StageGroup | Assignment4/worldcup.py:170-194 | Group g's games are the round robin of its own table, numbered after the earlier groups' games. Its final table is that round robin re-ranked. |
| Stages.RankGroup | Assignment4/worldcup.py:173-194 | One group plays its fixtures and is re-sorted in place, over the same nodes. |
| Stages.PlayGroup | Assignment4/worldcup.py:170-194 | Group g plays and is re-ranked, and no other group changes. |
| Stages.StageTurn | Assignment4/worldcup.py:170-194 | Group g's turn moves the loop state from the stage on g groups to the stage on g + 1 groups. |
| Stages.PlayFrom | Assignment4/worldcup.py:170-194 | The loop over the groups reaches the stage on all groups. |
| Stages.PlayGroups | Assignment4/worldcup.py:169-196 | Every group's tables and the ledger end as the stage specifies. |
| Stages.GroupStageMatches | Assignment4/worldcup.py:158-196 | Every group plays its round robin, numbered from 1 whatever the ledger held, and is re-ranked. The same groups are returned. |
| Stages.SingleDayGroupMatches | Assignment4/worldcup.py:339-377 | Every group plays at most two games, each numbered one past the ledger's size, and is re-ranked. |
| Promotion.TrimFromTail | Assignment4/worldcup.py:237-238 | The trimming loop leaves as many entries as the first two (fewer for a smaller group). |
| Promotion.DeleteLast | Assignment4/worldcup.py:238 | With distinct names, deleting the last entry's name deletes the last entry. |
| Promotion.TrimKeepsTop | Assignment4/worldcup.py:237-238 | With distinct names, cutting a group down from the tail keeps exactly its first two entries. |
| Promotion.TrimDropsLast | Assignment4/worldcup.py:237-238 | With distinct names, one pass of the trimming loop drops the last entry. |
| Promotion.TrimStep | Assignment4/worldcup.py:237-238 | One pass of the trimming loop deletes the entry named like the tail. |
| Promotion.PermutedUniqueNames | Assignment4/worldcup.py:227 | Re-ranking a group keeps its names distinct. |
| Promotion.LeadersStep | Assignment4/worldcup.py:223-234 | Each group adds its first two sorted entries to the qualifiers. |
| Promotion.Leaders | Assignment4/worldcup.py:223-234 | At most two teams qualify per group, and exactly two when every group has at least two teams. |
| Promotion.LeadersCount | Assignment4/worldcup.py:223-234 | With at least two teams per group, two teams qualify from each group. |
| Promotion.LeadersByGroup | Assignment4/worldcup.py:223-234 | Group g's qualifiers sit at positions 2g and 2g + 1, in rank order. |
| Promotion.TopRanksFirst | Assignment4/worldcup.py:227-234 | A qualifier ranks at least as high by (points, GD, power) as every team of its group left behind. |
| Promotion.PromoteAsWritten | Assignment4/worldcup.py:210-244 | As written, a group with more than two teams makes the trimming loop raise `AttributeError`. Otherwise the result is the qualifiers. |
| Promotion.FourTeamGroupsFail | Assignment4/worldcup.py:237-238 | Groups of four teams make `promote_teams` as written raise. |
| Promotion.GroupsAfterAsWritten | Assignment4/worldcup.py:223-238 | `promote_teams` as written leaves one table per group. |
| Promotion.GroupsAfterAsWrittenShape | Assignment4/worldcup.py:223-238 | As written, every group up to and including the first one with more than two teams is re-sorted in place by (points, GD, power) before the call raises. The groups after it are left as they were. |
| Promotion.GroupsAfterAsWrittenKeep | Assignment4/worldcup.py:227 | Each group keeps its teams through the re-sort. |
| Promotion.FourTeamGroupsResortFirst | Assignment4/worldcup.py:223-238 | With groups of four teams, `promote_teams` as written re-sorts the first group and leaves every other group unchanged. |
| Promotion.CopyTop | Assignment4/worldcup.py:230-234 | Walking from the head copies the first two entries, or all of them for a smaller group. |
| Promotion.DropTail | Assignment4/worldcup.py:238 | One pass deletes the first entry named like the last one, shrinking the list by one. |
| Promotion.TrimGroup | Assignment4/worldcup.py:237-238 | The trimming loop leaves the table `TrimFromTail` specifies, over nodes the group already had. |
| Promotion.PromoteGroup | Assignment4/worldcup.py:226-238 | One group is ranked by (points, GD, power). Its first two entries are returned, and it is cut down from the tail. |
| Promotion.PromoteGroupAt | Assignment4/worldcup.py:223-238 | Group g is ranked and cut down, and no other group changes. |
| Promotion.PromoteFrom | Assignment4/worldcup.py:223-243 | The loop returns the first two entries of each ranked group, in group order, and leaves every group trimmed. |
| Promotion.PromoteTeams | Assignment4/worldcup.py:210-244 | Corrected `promote_teams`: the qualifiers are each group's first two ranked entries, in group and rank order. Every group is cut down to those entries. |
| Promotion.StandingOrderKeepsPoints | Assignment4/worldcup.py:261 | A table in (points, GD, power) order is already in points order, so the stable re-sort by points leaves it as it is. |
| Promotion.EntrantsAreQualifiers | Assignment4/worldcup.py:259-269 | On groups the group stage left ranked, the knockout entrants are the same teams `promote_teams` qualifies. |
| Promotion.AppendTop | Assignment4/worldcup.py:262-269 | The group's first two entries (or fewer) are appended to the knockout list in fresh nodes, and the group is untouched. |
| Promotion.SortGroupAt | Assignment4/worldcup.py:261 | Group g is re-sorted by points, and no other group and not the knockout list changes. |
| Promotion.AppendGroupAt | Assignment4/worldcup.py:262-269 | Group g's first two entries join the knockout list, and no group changes. |
| Promotion.SetupTurn | Assignment4/worldcup.py:259-269 | Group g's turn re-sorts it by points and extends the knockout list with its first two entries. |
| Promotion.ResortedStep | Assignment4/worldcup.py:259-261 | One more group is re-sorted by points. |
| Promotion.SetupFrom | Assignment4/worldcup.py:259-269 | The loop leaves every group re-sorted by points and the knockout list holding each group's first two entries, in group order. |
| Promotion.SetupKnockoutRound | Assignment4/worldcup.py:247-271 | The new knockout list holds each group's first two teams by points, in group order, and every group is left sorted by points. |
| Knockout.FirstDecider | Assignment4/worldcup.py:285-292 | The draws before the decisive one are all ties, and the decisive one is not. |
| Knockout.Bout | Assignment4/worldcup.py:274-292 | The result is the two inputs as (winner, loser), a permutation of the arguments. The winner's score in the first non-tied draw strictly exceeds the loser's. A negative power raises, and draws that are all ties leave the match undecided. |
| Knockout.ZeroPowersNeverDecide | Assignment4/worldcup.py:285-292 | Two teams of power 0 always tie, so their match is never decided. |
| Knockout.KnockoutMatchPlay | Assignment4/worldcup.py:274-292 | The retry loop consumes draws until the first non-tie and returns what `Bout` specifies. |
| Knockout.KnockoutUpdateAfterMatch | Assignment4/worldcup.py:295-303 | The loser's first entry leaves the list. |
| Knockout.LoserGoes | Assignment4/worldcup.py:324-333 | Deleting the name of one of the two front entries removes exactly one entry. |
| Knockout.RoundStep | Assignment4/worldcup.py:319-336 | After a decided front match, the round continues from the head of the list without the loser, one game later, after that match's record. |
| Knockout.LoserLeavesFront | Assignment4/worldcup.py:324-333 | With distinct names, deleting the loser of the front match leaves the winner at the head, followed by the rest of the list unchanged. |
| Knockout.RoundStepUnique | Assignment4/worldcup.py:319-336 | With distinct names, after a decided front match the round continues on the winner followed by the untouched rest of the list, one game later, after that match's record. |
| Knockout.Round | Assignment4/worldcup.py:316-336 | A round stops before the end only while at least two teams remain. |
| Knockout.FrontMatch | Assignment4/worldcup.py:319-336 | From its front match on, a round stops early only while at least two teams remain. |
| Knockout.DeleteFirstSub | Assignment4/worldcup.py:303 | Deleting a name drops at most one entry and adds none. |
| Knockout.RoundTurn | Assignment4/worldcup.py:319-336 | One pass of the loop: on a decided match the list shrinks and the loop state moves on. Otherwise the round ends where the bout did. |
| Knockout.PlayFront | Assignment4/worldcup.py:320-333 | The two front entries play. On a decided match, one record is appended and the loser's entry is deleted. Otherwise nothing changes. |
| Knockout.PlayRound | Assignment4/worldcup.py:306-336 | The list and the ledger end as the round specifies, with games numbered from the ledger's size + 1. |
| Knockout.PlayKnockoutRound | Assignment4/worldcup.py:306-336 | `play_knockout_round` logs the winner's and the loser's powers as the goals. |
| Knockout.SingleDayKnockoutMatches | Assignment4/worldcup.py:380-411 | `single_day_knockout_matches` logs zeros as the goals. |
| Knockout.RoundHalts | Assignment4/worldcup.py:324 | A round whose front match is not decided stops there, with nothing logged. |
| Knockout.RoundCounts | Assignment4/worldcup.py:316-336 | Each match removes exactly one team and appends one record. A round that runs to the end leaves exactly one team of k ≥ 1, after k - 1 matches. |
| Knockout.RoundNumbers | Assignment4/worldcup.py:317-330 | A round's records are numbered consecutively from its first game number. |
| Knockout.RoundSurvivors | Assignment4/worldcup.py:316-336 | The teams a round leaves are teams it started with. |
| Competition.StageStep | Assignment4/worldcup.py:465-480 | After a decided first pair, a stage goes on with the rest of the list. |
| Competition.Stage | Assignment4/worldcup.py:463-482 | A stage logs one record per winner and has at most half as many winners as entries. |
| Competition.FrontPair | Assignment4/worldcup.py:465-480 | From its first pair on, a stage logs one record per winner and has at most half as many winners as entries. |
| Competition.StageHalts | Assignment4/worldcup.py:470 | A stage whose first pair is not decided stops there. |
| Competition.BracketStep | Assignment4/worldcup.py:461-482 | After a finished stage, the bracket goes on from its winners. |
| Competition.BracketHalts | Assignment4/worldcup.py:461-482 | A stage that does not finish ends the bracket. |
| Competition.Bracket | Assignment4/worldcup.py:461-482 | The teams a bracket leaves and the records it logs together number at most its input teams. |
| Competition.StageThen | Assignment4/worldcup.py:461-482 | From its next stage on, a bracket's remaining teams and records together number at most its input teams. |
| Competition.StageMembers | Assignment4/worldcup.py:471-480 | Every winner of a stage is one of the teams it was played on. |
| Competition.BracketMembers | Assignment4/worldcup.py:461-482 | Every team a bracket leaves is one of the teams it started from. |
| Competition.Champion | Assignment4/worldcup.py:446-486 | The champion, when there is one, is one of the input teams, and the competition logs no more records than it has teams. |
| Competition.StagePairs | Assignment4/worldcup.py:465-480 | A stage pairs the list (0, 1), (2, 3), …. Winner k is one of entries 2k and 2k + 1. Record k is that match, numbered consecutively: the winner first, the other entry of the pair second, and 0 goals for both. |
| Competition.PairedCons | Assignment4/worldcup.py:465-480 | Putting one more match in front of a shorter list keeps the pairing. |
| Competition.StageEnds | Assignment4/worldcup.py:465-467 | A stage finishes only on a list of even length, and then halves it. An odd list ends in `IndexError`. |
| Competition.BracketCounts | Assignment4/worldcup.py:461-482 | A bracket that finishes halves the list at every stage and logs one record per eliminated team. |
| Competition.BracketNumbers | Assignment4/worldcup.py:459-477 | A bracket's records are numbered consecutively. |
| Competition.BracketSurvivors | Assignment4/worldcup.py:480-482 | Every team a bracket leaves is one of its input teams. |
| Competition.BracketPaired | Assignment4/worldcup.py:465-467 | A list whose length survives the halvings never runs out of partners. |
| Competition.SixteenTeams | Assignment4/worldcup.py:446-486 | With 16 teams the only exception is a negative power. A finished competition appends 15 records numbered consecutively and returns one of the input teams. |
| Competition.PlayStage | Assignment4/worldcup.py:463-482 | The stage loop plays pairs (i, i + 1), collects the winners in order and logs the records as `Stage` specifies. |
| Competition.BracketTurn | Assignment4/worldcup.py:461-482 | One stage moves the bracket's loop state on, or ends the bracket where the stage did. |
| Competition.PlayBracket | Assignment4/worldcup.py:457-482 | The stages end as the bracket specifies, numbered from the ledger's size + 1. |
| Competition.KnockoutCompetition | Assignment4/worldcup.py:446-486 | The champion and the appended records are those `Champion` specifies, and an empty final list raises `IndexError`. |
| Stacks.PushOf | Assignments3/stack.py:6-7 | A push puts the item on top and keeps everything beneath it. |
| Stacks.PopOf | Assignments3/stack.py:10-18 | A pop returns the top item and leaves the rest. An empty stack raises `IndexError` and is left as it is. |
| Stacks.PushThenPop | Assignments3/stack.py:6-18 | A pop after a push returns the pushed item and leaves the stack as it was. |
| Stacks.PopAll | Assignments3/stack.py:10-18 | Popping everything returns the items most recent first. |
| Stacks.PushAllPopAll | Assignments3/stack.py:6-18 | Items pushed onto any stack pop off most recent first, whatever lay beneath: last in, first out. |
| Stacks.Stack.constructor | Assignments3/stack.py:2-4 | A new stack is empty and records its capacity. |
| Stacks.Stack.Push | Assignments3/stack.py:6-7 | The item always goes on top, whatever the capacity, and the capacity is unchanged. |
| Stacks.Stack.Pop | Assignments3/stack.py:10-18 | The top item is removed and returned. An empty stack raises `IndexError`. |
| Stacks.Stack.Peek | Assignments3/stack.py:20-29 | The item a pop would return, without changing the stack. An empty stack raises `IndexError`. |
| Stacks.Stack.IsEmpty | Assignments3/stack.py:32-36 | Holds exactly when the size is 0. |
| Stacks.Stack.Size | Assignments3/stack.py:35-36 | The size is 0 exactly when a pop would raise `IndexError`. |
| Stacks.Stack.Clear | Assignments3/stack.py:47-52 | The stack is empty afterwards, whether or not it was before. |
| Queues.EnqueueOf | Assignments3/queuee.py:10-23 | A queue at or over its capacity raises and is unchanged. Any other takes the item at the back. |
| Queues.DequeueOf | Assignments3/queuee.py:28-43 | Returns the front item and leaves the rest. An empty queue raises and is unchanged. |
| Queues.EnqueueKeepsBound | Assignments3/queuee.py:18-23 | A queue within its capacity stays within it after an enqueue. |
| Queues.EnqueueBehind | Assignments3/queuee.py:10-43 | An enqueued item does not overtake: the front leaves first and the new item joins the back. |
| Queues.DrainInOrder | Assignments3/queuee.py:28-43 | First in, first out: dequeueing everything gives the items front to back. |
| Queues.Queue.constructor | Assignments3/queuee.py:3-7 | A new queue is empty and holds the given capacity. |
| Queues.Queue.Enqueue | Assignments3/queuee.py:10-23 | The item goes to the back unless the queue is full, in which case the call raises. The queue stays within its capacity. |
| Queues.Queue.Dequeue | Assignments3/queuee.py:28-43 | The front item is removed and returned. An empty queue raises. |
| Queues.Queue.Peek | Assignments3/queuee.py:48-51 | The item a dequeue would return, without changing the queue. An empty queue raises. |
| Queues.Queue.IsEmpty | Assignments3/queuee.py:54-55 | Holds exactly when a dequeue would fail, that is, when the size is 0. |
| Queues.Queue.IsFull | Assignments3/queuee.py:58-59 | Within capacity, holds exactly when an enqueue would fail. |
| Queues.Queue.Size | Assignments3/queuee.py:62-63 | The size never exceeds the capacity. |
| Queues.Queue.Capacity | Assignments3/queuee.py:66-67 | A queue within its bounds never holds more items than its capacity. |
| Queues.Queue.Clear | Assignments3/queuee.py:71-72 | Empties the queue and keeps its capacity. |
| CardGame.CardValue | Assignments3/assignment3.py:122 | `int(card[0])` is the leading digit, 0 to 9. An empty card raises `IndexError` and a non-digit raises `ValueError`. |
| CardGame.Search | Assignments3/assignment3.py:126-135 | The scan looks at no more than the top four cards. It stops at the first from the top that makes 15, at an unreadable card or at the end. Every card passed over reads and misses. |
| CardGame.Without | Assignments3/assignment3.py:137-139 | Removing one table card keeps all other cards. |
| CardGame.SearchStep | Assignments3/assignment3.py:133-135 | A card that reads and misses sends the scan on to the next. |
| CardGame.ScanTable | Assignments3/assignment3.py:124-135 | The scan loop pops exactly the cards the scan looked at, top first, and stops as `Search` says. |
| CardGame.RestoreTable | Assignments3/assignment3.py:137-139 | The cards popped are pushed back in their original order, without the match, so the table loses exactly the matched card. |
| CardGame.ScannedDistinct | Assignments3/assignment3.py:137-139 | Every card the scan passed over differs from the match, so none of them is wrongly held back. |
| CardGame.FindMatch | Assignments3/assignment3.py:114-145 | `find_match` returns and leaves what `FindMatchOf` specifies for the two stacks. |
| CardGame.FindMatchOf | Assignments3/assignment3.py:114-145 | `find_match` takes at most four cards off the table and none onto it. An exception leaves the player's top card taken off. |
| CardGame.MatchFound | Assignments3/assignment3.py:121-142 | On a match the pair is the player's top card and the first table card from the top, within four, that makes 15. Exactly those two leave their stacks, and the other table cards keep their order. |
| CardGame.NoMatchRestores | Assignments3/assignment3.py:118-145 | Without a match both stacks are exactly as they were. An empty hand gives (None, None), and otherwise none of the top four table cards makes 15. |
| CardGame.SearchTopOnly | Assignments3/assignment3.py:126 | Cards deeper than the top four never matter to the scan. |
| CardGame.OnlyTopFour | Assignments3/assignment3.py:124-142 | A table with more cards beneath its top four gives the same answer and keeps what lies beneath. |
| CardGame.RefillOf | Assignments3/assignment3.py:161-163 | Scoring raises when the deck has no room for both cards. Otherwise the deck gains both cards and gives its front card to the table. |
| CardGame.RefillConserves | Assignments3/assignment3.py:161-163 | A refill moves the pair into the deck and one deck card onto the table, losing and creating no card. |
| CardGame.TurnOf | Assignments3/assignment3.py:152-163 | A turn keeps the deck within its capacity and the number of players. |
| CardGame.ScoredTurn | Assignments3/assignment3.py:157-163 | A scored turn adds exactly 15 to that player's score and nothing to anyone else's. The table keeps its size, and no card is lost or created. |
| CardGame.ScoredShape | Assignments3/assignment3.py:157-163 | A scored turn is a found match followed by a successful refill and the 15-point score. |
| CardGame.MatchMoves | Assignments3/assignment3.py:121-142 | A match takes the player's top card and one table card, and nothing else. |
| CardGame.MatchRefillConserves | Assignments3/assignment3.py:157-163 | Taking a match and refilling from the deck keeps the multiset of all cards. |
| CardGame.ScoresOnlyOnMatch | Assignments3/assignment3.py:157-160 | Only a turn that found a match changes the scores. |
| CardGame.PlayTurn | Assignments3/assignment3.py:152-163 | The turn, up to the choice prompt, leaves the stacks, the deck and the scores as `TurnOf` specifies. |
| CardGame.MaxScore | Assignments3/assignment3.py:186 | `max` is a score no other score exceeds. |
| CardGame.NumbersAtExact | Assignments3/assignment3.py:187 | The list holds, in ascending order, exactly the 1-based numbers of the players with the given score. |
| CardGame.Winners | Assignments3/assignment3.py:186-187 | The winners are, in ascending order, exactly the 1-based numbers of the players with the highest score, and there is at least one. No scores raise `ValueError`. |

## Left out

- Printing, prompts and display code are not modelled: `display_group_rankings`, `display_rankings`, `display_history`, `user_command`, `main`, `display_table`, `display_game_state`, `colorize_card`, and the `print` calls inside the modelled functions. They are console output with no state change.
- `initialize_teams` is not modelled, because it reads a CSV file. Tables are given as values.
- The module-level setup of the card game (dealing, shuffling) and the file writing in `determine_winner` are not modelled, because they are file I/O.
- The `input()` branch of `play_turn` (discard or swap) is not modelled, because the choice comes from the console. `CardGame.TurnOf` ends such a turn as "no match".
- `random.randint` and `random.shuffle` are not modelled as random. Draws are parameters, and no probability distribution is modelled.
- `Knockout.KnockoutMatchPlay`: the source redraws forever while the scores tie. The model reads a finite sequence of draws and reports `Undecided` when every one is a tie. Every method that plays knockout matches stops there.
- `LinkedListt.__len__` is not modelled: it calls `getNext`, which nodes do not define. The `knockout_match_play`, `knockout_update_after_match` and `display_group_rankings` defined inside `LinkedListt` without `self` are not modelled either; they repeat the `worldcup.py` versions.
- Team records are Python dicts shared by reference. The knockout list and the groups share the same dicts, but the model stores values in each node. Sharing is not modelled, because the knockout stage never changes a record.
- `GroupStage.PlayDay`, `Stages.SingleDayGroupMatches`: require every power to be non-negative, because `randint(0, power)` raises for a negative power there. The model does not carry that exception through the stage.
- `Queues.Queue.constructor`: requires `capacity >= 0`, where the source fails an assertion. The type check on `capacity` is implied by Dafny's typing.
- `CardGame.FindMatch`: requires the player's stack and the table to be different objects, as they are in the game.
- `CardGame.CardValue` accepts only the ASCII digits `0`-`9`. Python's `int` also accepts other Unicode digits, which cards never hold.
- `Stack.__str__` and `Stack.show` are not modelled: they only format the stack for output.
- `Competition.PlayBracket` takes the number of stages as a parameter. `Competition.KnockoutCompetition` passes the fixed four.

## Findings

| source | as written | input that shows it | evidently intended | confidence | as-written member | corrected member |
|---|---|---|---|---|---|---|
| Assignment4/worldcup.py:237-238 | The trimming loop of `promote_teams` calls `group_list.get_tail()`, which `LinkedListt` does not define. So any group with more than two teams raises `AttributeError`, and nothing is promoted. | Any group of four teams, the size every group has in the tournament. | Delete the tail entry by name until two entries remain, keeping the first two ranked entries. | not executed | Promotion.PromoteAsWritten (with Promotion.FourTeamGroupsFail, and Promotion.GroupsAfterAsWritten for the groups it leaves re-sorted) | Promotion.PromoteTeams |
