/** The card game's matching turn: `find_match` looks for a table card whose
    leading digit makes 15 with the leading digit of the player's top card, the
    scoring branch of `play_turn` scores the pair and refills the table from the
    deck, and `determine_winner` picks the players with the highest score. Cards
    are strings; a stack's top is its last item and the deck's front its first. */
module CardGame {
  import opened Wrappers
  import opened Stacks
  import opened Queues

  /** How many table cards `find_match` looks at. */
  const Reach: nat := 4

  /** The sum a matching pair makes. */
  const Target: int := 15

  /** `int(card[0])`: the card's leading digit. An empty card has no first
      character (an index error); a non-digit does not convert (a value error). */
  function CardValue(card: string): (r: Result<int>)
    ensures r.Failure? <==> card == [] || !('0' <= card[0] <= '9')
    ensures r.Failure? ==> r.error == (if card == [] then IndexError else ValueError)
    ensures r.Success? ==> 0 <= r.value <= 9 && r.value == (card[0] as int) - ('0' as int)
  {
    if card == [] then Failure(IndexError)
    else if '0' <= card[0] <= '9' then Success((card[0] as int) - ('0' as int))
    else Failure(ValueError)
  }

  /** The table card `j` places below the top. */
  function Top(table: seq<string>, j: nat): string
    requires j < |table|
  {
    table[|table| - 1 - j]
  }

  /** The card `j` places below the top reads as a digit that does not make 15
      with `pv`. */
  predicate Misses(pv: int, table: seq<string>, j: nat)
    requires j < |table|
  {
    CardValue(Top(table, j)).Success? && pv + CardValue(Top(table, j)).value != Target
  }

  /** How a scan of the table ended: at the matching card `k` places below the
      top, with nothing found, or at a card `k` places down that did not read. */
  datatype Scan = Found(k: nat) | Exhausted | Unreadable(k: nat, error: Error)

  /** How many table cards a scan passed over without stopping: all of the top
      `Reach` (or the whole table, if shorter) when nothing was found. */
  function Passed(s: Scan, n: nat): nat {
    match s
    case Found(k) => k
    case Unreadable(k, _) => k
    case Exhausted => if n < Reach then n else Reach
  }

  /** How many table cards a scan took off the table. */
  function Taken(s: Scan, n: nat): nat {
    if s.Exhausted? then Passed(s, n) else Passed(s, n) + 1
  }

  /** The scan of `find_match` from `k` places below the top, for a player card of
      value `pv`. */
  function Search(pv: int, table: seq<string>, k: nat): (r: Scan)
    requires k <= Reach
    decreases Reach - k
    ensures r.Found? ==> r.k < |table| && CardValue(Top(table, r.k)).Success?
                         && pv + CardValue(Top(table, r.k)).value == Target
    ensures r.Unreadable? ==> r.k < |table| && CardValue(Top(table, r.k)) == Failure(r.error)
    ensures k <= |table| ==> k <= Passed(r, |table|)
    ensures Taken(r, |table|) <= Reach && Taken(r, |table|) <= |table|
    ensures forall j :: k <= j < Passed(r, |table|) ==> j < |table| && Misses(pv, table, j)
  {
    if k >= Reach || k >= |table| then Exhausted
    else match CardValue(Top(table, k))
      case Failure(e) => Unreadable(k, e)
      case Success(tv) => if pv + tv == Target then Found(k) else Search(pv, table, k + 1)
  }

  /** The table without its card `j` places below the top, the others in order. */
  function Without(table: seq<string>, j: nat): (r: seq<string>)
    requires j < |table|
    ensures |r| == |table| - 1
    ensures multiset(r) + multiset{Top(table, j)} == multiset(table)
  {
    var p := |table| - 1 - j;
    assert table == table[..p] + [table[p]] + table[p + 1..];
    table[..p] + table[p + 1..]
  }

  /** What `find_match` returns and leaves for the player's stack `hand` and the
      table `table`: the player's card and the matched table card, both taken
      away; or nothing, both stacks as they were; or the exception reading a
      card raised, with the cards taken off so far not put back. */
  function FindMatchOf(hand: seq<string>, table: seq<string>): (r: (Result<Option<(string, string)>>, seq<string>, seq<string>))
    ensures |table| - Reach <= |r.2| <= |table|
    ensures r.0.Failure? ==> hand != [] && r.1 == hand[..|hand| - 1]
  {
    if hand == [] then (Success(None), hand, table)
    else
      var card := hand[|hand| - 1];
      var rest := hand[..|hand| - 1];
      match CardValue(card)
      case Failure(e) => (Failure(e), rest, table)
      case Success(pv) =>
        match Search(pv, table, 0)
        case Found(k) => (Success(Some((card, Top(table, k)))), rest, Without(table, k))
        case Exhausted => (Success(None), hand, table)
        case Unreadable(k, e) => (Failure(e), rest, table[..|table| - 1 - k])
  }

  /** What the scan loop of `find_match` leaves: `temp` holds the cards taken off
      the table, top first, and `matchCard` the match, which is the last of them. */
  ghost predicate Scanned(pv: int, t0: seq<string>, table: seq<string>, temp: seq<string>, matchCard: Option<string>) {
    && |temp| <= |t0| && table == t0[..|t0| - |temp|]
    && (forall j :: 0 <= j < |temp| ==> temp[j] == Top(t0, j))
    && var scan := Search(pv, t0, 0);
       && (matchCard.Some? ==> |temp| > 0 && scan == Found(|temp| - 1) && matchCard.value == temp[|temp| - 1])
       && (matchCard.None? ==> scan == Exhausted && |temp| == Passed(scan, |t0|))
  }

  /** A card that reads and misses sends the scan on to the next. */
  lemma SearchStep(pv: int, t0: seq<string>, n: nat)
    requires n < Reach && n < |t0| && Misses(pv, t0, n)
    ensures Search(pv, t0, n) == Search(pv, t0, n + 1)
  {
  }

  /** The scan stopped at a matching card `n` places down. */
  lemma ScanFound(pv: int, t0: seq<string>, temp: seq<string>, n: nat)
    requires n < Reach && n < |t0| && |temp| == n + 1
    requires forall j :: 0 <= j <= n ==> temp[j] == Top(t0, j)
    requires Search(pv, t0, 0) == Search(pv, t0, n)
    requires CardValue(Top(t0, n)).Success? && pv + CardValue(Top(t0, n)).value == Target
    ensures Scanned(pv, t0, t0[..|t0| - (n + 1)], temp, Some(temp[n]))
  {
  }

  /** The scan ran out of cards to look at after `n` of them. */
  lemma ScanEnd(pv: int, t0: seq<string>, temp: seq<string>, n: nat)
    requires n <= Reach && n <= |t0| && (n == Reach || n == |t0|) && |temp| == n
    requires forall j :: 0 <= j < n ==> temp[j] == Top(t0, j)
    requires Search(pv, t0, 0) == Search(pv, t0, n)
    ensures Scanned(pv, t0, t0[..|t0| - n], temp, None)
  {
  }

  /** The scan loop of `find_match`: pops up to four table cards, stopping at the
      first that makes 15 with `pv`, at an empty table, or at a card that does
      not read (`error`). */
  method ScanTable(pv: int, table: Stack<string>) returns (temp: seq<string>, matchCard: Option<string>, error: Option<Error>)
    modifies table
    ensures error.None? ==> Scanned(pv, old(table.items), table.items, temp, matchCard)
    ensures error.Some? ==> && 0 < |temp| <= |old(table.items)|
                            && Search(pv, old(table.items), 0) == Unreadable(|temp| - 1, error.value)
                            && table.items == old(table.items)[..|old(table.items)| - |temp|]
  {
    ghost var t0 := table.items;
    ghost var n0 := |t0|;
    temp, matchCard, error := [], None, None;
    var n := 0;
    while n < Reach
      invariant n <= Reach && |temp| == n && n <= n0
      invariant table.items == t0[..n0 - n]
      invariant forall j :: 0 <= j < n ==> temp[j] == Top(t0, j)
      invariant Search(pv, t0, 0) == Search(pv, t0, n)
      invariant matchCard == None && error == None
    {
      if table.IsEmpty() {
        ScanEnd(pv, t0, temp, n);
        return;
      }
      var popped := table.Pop();
      var tableCard := popped.value;
      temp := temp + [tableCard];
      assert tableCard == Top(t0, n) && table.items == t0[..n0 - (n + 1)];
      var tvalue := CardValue(tableCard);
      if tvalue.Failure? {
        assert Search(pv, t0, n) == Unreadable(n, tvalue.error);
        return temp, None, Some(tvalue.error);
      }
      if pv + tvalue.value == Target {
        ScanFound(pv, t0, temp, n);
        return temp, Some(tableCard), None;
      }
      SearchStep(pv, t0, n);
      n := n + 1;
    }
    ScanEnd(pv, t0, temp, n);
  }

  /** The restore loop of `find_match`: pushes the popped table cards back, last
      popped first, leaving out the match (at most the last card popped, and
      different from every other). */
  method RestoreTable(table: Stack<string>, temp: seq<string>, matchCard: Option<string>, ghost t0: seq<string>)
    requires |temp| <= |t0| && table.items == t0[..|t0| - |temp|]
    requires forall j :: 0 <= j < |temp| ==> temp[j] == Top(t0, j)
    requires matchCard.Some? ==> |temp| > 0 && matchCard.value == temp[|temp| - 1]
    requires matchCard.Some? ==> forall j :: 0 <= j < |temp| - 1 ==> temp[j] != matchCard.value
    modifies table
    ensures matchCard.None? ==> table.items == t0
    ensures matchCard.Some? ==> table.items == Without(t0, |temp| - 1)
  {
    ghost var n0, m := |t0|, |temp|;
    var i := |temp|;
    while i > 0
      invariant 0 <= i <= m
      invariant matchCard.None? ==> table.items == t0[..n0 - i]
      invariant matchCard.Some? && i == m ==> table.items == t0[..n0 - m]
      invariant matchCard.Some? && i < m ==> table.items == t0[..n0 - m] + t0[n0 - m + 1..n0 - i]
    {
      i := i - 1;
      if Some(temp[i]) != matchCard {
        table.Push(temp[i]);
      }
    }
    if matchCard.Some? {
      assert t0[n0 - m + 1..n0] == t0[n0 - m + 1..];
    } else {
      assert t0[..n0] == t0;
    }
  }

  /** Every card the scan passed over differs from the match. */
  lemma ScannedDistinct(pv: int, t0: seq<string>, table: seq<string>, temp: seq<string>, matchCard: Option<string>)
    requires Scanned(pv, t0, table, temp, matchCard) && matchCard.Some?
    ensures forall j :: 0 <= j < |temp| - 1 ==> temp[j] != matchCard.value
  {
    forall j | 0 <= j < |temp| - 1 ensures temp[j] != matchCard.value {
      assert Misses(pv, t0, j);
    }
  }

  /** `find_match`: pops the player's card, looks for a match among the top four
      table cards, puts the other popped table cards back, and on no match puts
      the player's card back. */
  method FindMatch(player: Stack<string>, table: Stack<string>) returns (r: Result<Option<(string, string)>>)
    requires player != table
    modifies player, table
    ensures (r, player.items, table.items) == FindMatchOf(old(player.items), old(table.items))
  {
    if player.IsEmpty() {
      return Success(None);
    }
    var popped := player.Pop();
    var playerCard := popped.value;
    var pvalue := CardValue(playerCard);
    if pvalue.Failure? {
      return Failure(pvalue.error);
    }
    ghost var t0 := table.items;
    var temp, matchCard, error := ScanTable(pvalue.value, table);
    if error.Some? {
      return Failure(error.value);
    }
    if matchCard.Some? {
      ScannedDistinct(pvalue.value, t0, table.items, temp, matchCard);
    }
    RestoreTable(table, temp, matchCard, t0);
    if matchCard.Some? {
      return Success(Some((playerCard, matchCard.value)));
    }
    player.Push(playerCard);
    r := Success(None);
  }

  /** The card a matched turn plays is the player's top card, the table card
      lies among the top four, makes 15 with it and is the first such from the
      top; the player's stack loses its top and the table loses exactly that card,
      the rest keeping their order. */
  lemma MatchFound(hand: seq<string>, table: seq<string>)
    ensures var r := FindMatchOf(hand, table);
            r.0.Success? && r.0.value.Some? ==>
              var pair := r.0.value.value;
              && hand != [] && pair.0 == hand[|hand| - 1] && r.1 == hand[..|hand| - 1]
              && CardValue(pair.0).Success? && CardValue(pair.1).Success?
              && CardValue(pair.0).value + CardValue(pair.1).value == Target
              && |r.2| == |table| - 1 && multiset(r.2) + multiset{pair.1} == multiset(table)
              && exists k :: 0 <= k < Reach && k < |table| && pair.1 == Top(table, k) && r.2 == Without(table, k)
                             && forall j :: 0 <= j < k ==> Misses(CardValue(pair.0).value, table, j)
  {
    var r := FindMatchOf(hand, table);
    if r.0.Success? && r.0.value.Some? {
      var pv := CardValue(hand[|hand| - 1]).value;
      var k := Search(pv, table, 0).k;
      assert r.0.value.value.1 == Top(table, k) && r.2 == Without(table, k);
    }
  }

  /** A turn without a match changes neither stack, and then none of the top four
      table cards (or all of a shorter table) makes 15 with the player's card. */
  lemma NoMatchRestores(hand: seq<string>, table: seq<string>)
    ensures var r := FindMatchOf(hand, table);
            r.0 == Success(None) ==>
              && r.1 == hand && r.2 == table
              && (hand != [] ==> var v := CardValue(hand[|hand| - 1]);
                                 && v.Success?
                                 && forall j :: 0 <= j < Reach && j < |table| ==> Misses(v.value, table, j))
  {
  }

  /** Cards deeper than the top four never matter: a table with more beneath it
      gives the same answer and keeps what lies beneath. */
  lemma {:induction false} SearchTopOnly(pv: int, below: seq<string>, table: seq<string>, k: nat)
    requires |table| >= Reach && k <= Reach
    ensures Search(pv, below + table, k) == Search(pv, table, k)
    decreases Reach - k
  {
    if k < Reach {
      assert Top(below + table, k) == Top(table, k);
      SearchTopOnly(pv, below, table, k + 1);
    }
  }

  lemma WithoutBelow(below: seq<string>, table: seq<string>, k: nat)
    requires k < |table|
    ensures Top(below + table, k) == Top(table, k)
    ensures Without(below + table, k) == below + Without(table, k)
  {
    var t := below + table;
    assert t[..|t| - 1 - k] == below + table[..|table| - 1 - k];
    assert t[|t| - k..] == table[|table| - k..];
  }

  lemma OnlyTopFour(hand: seq<string>, below: seq<string>, table: seq<string>)
    requires |table| >= Reach
    ensures var r := FindMatchOf(hand, table);
            FindMatchOf(hand, below + table) == (r.0, r.1, below + r.2)
  {
    var t := below + table;
    if hand != [] && CardValue(hand[|hand| - 1]).Success? {
      var pv := CardValue(hand[|hand| - 1]).value;
      SearchTopOnly(pv, below, table, 0);
      match Search(pv, table, 0)
      case Found(k) =>
        WithoutBelow(below, table, k);
      case Unreadable(k, e) =>
        assert t[..|t| - 1 - k] == below + table[..|table| - 1 - k];
      case Exhausted =>
    }
  }

  /** What scoring a match does to the deck and the table (the scoring branch of
      `play_turn`): both cards of the pair go to the back of the deck, then the
      deck's front card goes onto the table. A full deck raises; the state is then
      what the enqueues before it left. */
  function RefillOf(deck: seq<string>, capacity: int, table: seq<string>, pair: (string, string))
    : (r: (Result<()>, seq<string>, seq<string>))
    requires |deck| <= capacity
    ensures r.0.Success? <==> |deck| + 2 <= capacity
    ensures r.0.Failure? ==> r.0.error == QueueFull && r.2 == table && |r.1| <= capacity
    ensures r.0.Success? ==> && |r.1| == |deck| + 1 && |r.1| <= capacity
                             && r.2 == table + [(deck + [pair.0, pair.1])[0]]
                             && r.1 == (deck + [pair.0, pair.1])[1..]
  {
    var e1 := EnqueueOf(deck, capacity, pair.0);
    if e1.0.Failure? then (Failure(e1.0.error), e1.1, table)
    else
      var e2 := EnqueueOf(e1.1, capacity, pair.1);
      if e2.0.Failure? then (Failure(e2.0.error), e2.1, table)
      else
        var d := DequeueOf(e2.1);
        assert e2.1 == deck + [pair.0, pair.1];
        (Success(()), d.1, table + [d.0.value])
  }

  /** A refill moves the pair into the deck and one deck card onto the table,
      creating and losing none. */
  lemma RefillConserves(deck: seq<string>, capacity: int, table: seq<string>, pair: (string, string))
    requires |deck| <= capacity
    ensures var r := RefillOf(deck, capacity, table, pair);
            r.0.Success? ==> multiset(r.1) + multiset(r.2) == multiset(deck) + multiset(table) + multiset{pair.0} + multiset{pair.1}
  {
    var r := RefillOf(deck, capacity, table, pair);
    if r.0.Success? {
      var both := deck + [pair.0, pair.1];
      assert both == [both[0]] + both[1..];
      assert multiset(both) == multiset(deck) + multiset{pair.0} + multiset{pair.1};
      assert multiset(r.2) == multiset(table) + multiset{both[0]};
      assert multiset(r.1) == multiset(both[1..]);
      assert multiset(both) == multiset{both[0]} + multiset(both[1..]);
      calc {
        multiset(r.1) + multiset(r.2);
        multiset(both[1..]) + (multiset(table) + multiset{both[0]});
        multiset(table) + multiset(both);
        multiset(deck) + multiset(table) + multiset{pair.0} + multiset{pair.1};
      }
    }
  }

  /** How a turn ended: the player had no cards, no match was found (the player
      then chooses to discard or swap), or a match was scored. */
  datatype Turn = NoCards | NoMatch | Scored

  /** `play_turn` up to its choice prompt, for player `p`: the result and the
      player's stack, the table, the deck and the scores afterwards. The score is
      raised before the deck is refilled, so it stays raised if the deck is full. */
  function TurnOf(hand: seq<string>, table: seq<string>, deck: seq<string>, capacity: int, scores: seq<int>, p: nat)
    : (r: (Result<Turn>, seq<string>, seq<string>, seq<string>, seq<int>))
    requires |deck| <= capacity && p < |scores|
    ensures |r.3| <= capacity && |r.4| == |scores|
  {
    if hand == [] then (Success(NoCards), hand, table, deck, scores)
    else
      var f := FindMatchOf(hand, table);
      match f.0
      case Failure(e) => (Failure(e), f.1, f.2, deck, scores)
      case Success(None) => (Success(NoMatch), f.1, f.2, deck, scores)
      case Success(Some(pair)) =>
        var raised := scores[p := scores[p] + Target];
        var g := RefillOf(deck, capacity, f.2, pair);
        (if g.0.Failure? then Failure(g.0.error) else Success(Scored), f.1, g.2, g.1, raised)
  }

  /** A scored turn gives the player exactly 15 points and no one else anything,
      leaves the table as large as it was, and moves cards between the stacks and
      the deck without creating or losing any. */
  lemma ScoredTurn(hand: seq<string>, table: seq<string>, deck: seq<string>, capacity: int, scores: seq<int>, p: nat)
    requires |deck| <= capacity && p < |scores|
    ensures var r := TurnOf(hand, table, deck, capacity, scores, p);
            r.0 == Success(Scored) ==>
              && r.4[p] == scores[p] + Target && (forall q :: 0 <= q < |scores| && q != p ==> r.4[q] == scores[q])
              && |r.2| == |table| && |r.1| + 1 == |hand|
              && multiset(r.1 + r.2 + r.3) == multiset(hand + table + deck)
  {
    var r := TurnOf(hand, table, deck, capacity, scores, p);
    if r.0 == Success(Scored) {
      ScoredShape(hand, table, deck, capacity, scores, p);
      MatchRefillConserves(hand, table, deck, capacity);
    }
  }

  /** Taking a match and refilling the table from the deck moves cards around
      without creating or losing any. */
  lemma MatchRefillConserves(hand: seq<string>, table: seq<string>, deck: seq<string>, capacity: int)
    requires |deck| <= capacity
    ensures var f := FindMatchOf(hand, table);
            f.0.Success? && f.0.value.Some? ==>
              var g := RefillOf(deck, capacity, f.2, f.0.value.value);
              g.0.Success? ==> multiset(f.1 + g.2 + g.1) == multiset(hand + table + deck)
  {
    var f := FindMatchOf(hand, table);
    if f.0.Success? && f.0.value.Some? {
      var pair := f.0.value.value;
      var g := RefillOf(deck, capacity, f.2, pair);
      if g.0.Success? {
        MatchMoves(hand, table);
        RefillConserves(deck, capacity, f.2, pair);
        MovesConserve(hand, table, deck, f.1, f.2, g.1, g.2, pair.0, pair.1);
      }
    }
  }

  /** Card bookkeeping behind a scored turn: the hand gave up `c`, the table gave
      up `d`, and the refill shared out the old deck, the rest of the table and
      both cards between the new deck and the new table. */
  lemma MovesConserve<C>(hand: seq<C>, table: seq<C>, deck: seq<C>, hand': seq<C>, rest: seq<C>,
                         deck': seq<C>, table': seq<C>, c: C, d: C)
    requires hand == hand' + [c] && multiset(rest) + multiset{d} == multiset(table)
    requires multiset(deck') + multiset(table') == multiset(deck) + multiset(rest) + multiset{c} + multiset{d}
    ensures multiset(hand' + table' + deck') == multiset(hand + table + deck)
  {
    calc {
      multiset(hand' + table' + deck');
      multiset(hand') + (multiset(deck') + multiset(table'));
      multiset(hand') + multiset{c} + (multiset(rest) + multiset{d}) + multiset(deck);
      multiset(hand' + [c]) + multiset(table) + multiset(deck);
      multiset(hand + table + deck);
    }
  }

  /** The pieces a scored turn is made of: the match that was found and the
      refill that followed it. */
  lemma ScoredShape(hand: seq<string>, table: seq<string>, deck: seq<string>, capacity: int, scores: seq<int>, p: nat)
    requires |deck| <= capacity && p < |scores|
    ensures var r := TurnOf(hand, table, deck, capacity, scores, p);
            var f := FindMatchOf(hand, table);
            r.0 == Success(Scored) ==>
              && hand != [] && f.0.Success? && f.0.value.Some?
              && var g := RefillOf(deck, capacity, f.2, f.0.value.value);
                 g.0.Success? && r == (Success(Scored), f.1, g.2, g.1, scores[p := scores[p] + Target])
  {
  }

  /** A match takes the player's top card and one table card, and nothing else. */
  lemma MatchMoves(hand: seq<string>, table: seq<string>)
    ensures var r := FindMatchOf(hand, table);
            r.0.Success? && r.0.value.Some? ==>
              && hand == r.1 + [r.0.value.value.0] && |r.2| + 1 == |table|
              && multiset(r.2) + multiset{r.0.value.value.1} == multiset(table)
  {
    var r := FindMatchOf(hand, table);
    if r.0.Success? && r.0.value.Some? {
      var pv := CardValue(hand[|hand| - 1]).value;
      var k := Search(pv, table, 0).k;
      assert r.0.value.value.1 == Top(table, k) && r.2 == Without(table, k);
      assert hand == hand[..|hand| - 1] + [hand[|hand| - 1]];
    }
  }

  /** Only a turn that found a match changes the scores. */
  lemma ScoresOnlyOnMatch(hand: seq<string>, table: seq<string>, deck: seq<string>, capacity: int, scores: seq<int>, p: nat)
    requires |deck| <= capacity && p < |scores|
    ensures var r := TurnOf(hand, table, deck, capacity, scores, p);
            var f := FindMatchOf(hand, table);
            r.4 != scores ==> hand != [] && f.0.Success? && f.0.value.Some? && r.4 == scores[p := scores[p] + Target]
  {
  }

  /** `play_turn` up to its choice prompt: a player without cards sits the turn
      out; a match scores 15 for the player, sends both cards to the back of the
      deck and refills the table from the deck's front. */
  method PlayTurn(player: Stack<string>, table: Stack<string>, deck: Queue<string>, scores: array<int>, p: nat)
    returns (r: Result<Turn>)
    requires player != table && deck.Valid() && p < scores.Length
    modifies player, table, deck, scores
    ensures deck.Valid() && deck.capacity == old(deck.capacity)
    ensures (r, player.items, table.items, deck.items, scores[..])
            == TurnOf(old(player.items), old(table.items), old(deck.items), deck.capacity, old(scores[..]), p)
  {
    if player.IsEmpty() {
      return Success(NoCards);
    }
    var found := FindMatch(player, table);
    if found.Failure? {
      return Failure(found.error);
    }
    if found.value.None? {
      return Success(NoMatch);
    }
    var pair := found.value.value;
    scores[p] := scores[p] + Target;
    var queued := deck.Enqueue(pair.0);
    if queued.Failure? {
      return Failure(queued.error);
    }
    queued := deck.Enqueue(pair.1);
    if queued.Failure? {
      return Failure(queued.error);
    }
    var front := deck.Dequeue();
    table.Push(front.value);
    r := Success(Scored);
  }

  /** `max(player_scores)`. */
  function MaxScore(scores: seq<int>): (m: int)
    requires scores != []
    ensures forall i :: 0 <= i < |scores| ==> scores[i] <= m
    ensures exists i :: 0 <= i < |scores| && scores[i] == m
  {
    if |scores| == 1 then scores[0]
    else
      var rest := MaxScore(scores[1..]);
      assert forall i :: 1 <= i < |scores| ==> scores[i] == scores[1..][i - 1];
      if scores[0] > rest then scores[0] else rest
  }

  /** The 1-based numbers of the players from index `i` on whose score is `m`. */
  function NumbersAt(scores: seq<int>, m: int, i: nat): seq<nat>
    requires i <= |scores|
    decreases |scores| - i
  {
    if i == |scores| then []
    else
      var rest := NumbersAt(scores, m, i + 1);
      if scores[i] == m then [i + 1] + rest else rest
  }

  /** The numbers from index `i` on are exactly those of the players with score
      `m`, each once, in increasing order. */
  lemma {:induction false} NumbersAtExact(scores: seq<int>, m: int, i: nat, r: seq<nat>)
    requires i <= |scores| && r == NumbersAt(scores, m, i)
    decreases |scores| - i
    ensures forall k :: 0 <= k < |r| ==> i < r[k] <= |scores| && scores[r[k] - 1] == m
    ensures forall k, l :: 0 <= k < l < |r| ==> r[k] < r[l]
    ensures forall j :: i <= j < |scores| && scores[j] == m ==> j + 1 in r
  {
    if i < |scores| {
      var rest := NumbersAt(scores, m, i + 1);
      NumbersAtExact(scores, m, i + 1, rest);
      if scores[i] == m {
        assert r == [i + 1] + rest;
        forall k | 1 <= k < |r|
          ensures r[k] == rest[k - 1]
        {
        }
      } else {
        assert r == rest;
      }
    }
  }

  /** `determine_winner`'s choice: the numbers of all players with the highest
      score, in increasing order; no scores at all make `max` raise. */
  function Winners(scores: seq<int>): (r: Result<seq<nat>>)
    ensures r.Failure? <==> scores == []
    ensures r.Failure? ==> r.error == ValueError
    ensures r.Success? ==> && r.value != []
                           && (forall k, l :: 0 <= k < l < |r.value| ==> r.value[k] < r.value[l])
                           && (forall k :: 0 <= k < |r.value| ==> 1 <= r.value[k] <= |scores|)
                           && forall i :: 0 <= i < |scores| ==> (i + 1 in r.value <==> scores[i] == MaxScore(scores))
  {
    if scores == [] then Failure(ValueError)
    else
      var m := MaxScore(scores);
      var w := NumbersAt(scores, m, 0);
      NumbersAtExact(scores, m, 0, w);
      assert exists i :: 0 <= i < |scores| && scores[i] == m && i + 1 in w;
      Success(w)
  }
}
