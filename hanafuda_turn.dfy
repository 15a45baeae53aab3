/**
  Player 1's turn of the flower-card game (`handle_turn_action` in hanafuda00.py): the selected
  card leaves the hand and captures the first field card of its month, the head of the draw pile
  does the same, and cards that captured nothing are laid on the field.
*/
module HanafudaTurn {
  import opened Wrappers
  import opened HanafudaCards

  /** `[card for card in cards if card.id != c.id]`. */
  function DropId(cards: seq<Card>, c: Card): (r: seq<Card>)
    ensures |r| <= |cards|
  {
    if cards == [] then []
    else if !SameCard(cards[0], c) then [cards[0]] + DropId(cards[1..], c)
    else DropId(cards[1..], c)
  }

  /** A card survives the filter iff it was there and has another id than c. */
  lemma {:induction false} DropIdSpec(cards: seq<Card>, c: Card)
    ensures forall x :: x in DropId(cards, c) <==> x in cards && Id(x) != Id(c)
  {
    if cards != [] {
      DropIdSpec(cards[1..], c);
      assert cards == [cards[0]] + cards[1..];
      IdDeterminesCard(cards[0], c);
    }
    forall x | x in cards {
      IdDeterminesCard(x, c);
    }
  }

  /** No two cards of the pile are equal by id. */
  predicate DistinctIds(cards: seq<Card>)
  {
    forall i, j :: 0 <= i < j < |cards| ==> !SameCard(cards[i], cards[j])
  }

  /** Filtering out the id of a card that no other position shares takes out exactly its position. */
  lemma {:induction false} DropAt(cards: seq<Card>, k: int)
    requires 0 <= k < |cards|
    requires forall j :: 0 <= j < |cards| && j != k ==> !SameCard(cards[j], cards[k])
    ensures DropId(cards, cards[k]) == cards[..k] + cards[k + 1..]
  {
    if k == 0 {
      assert forall x :: x in cards[1..] ==> !SameCard(x, cards[0]);
      DropNone(cards[1..], cards[0]);
    } else {
      DropAt(cards[1..], k - 1);
      assert cards[1..][..k - 1] + cards[1..][k..] == cards[1..k] + cards[k + 1..];
    }
  }

  /** Filtering out the id of a card held once, in a pile of distinct ids, removes exactly that card. */
  lemma DropOne(cards: seq<Card>, c: Card)
    requires c in cards && DistinctIds(cards)
    ensures multiset(DropId(cards, c)) == multiset(cards) - multiset{c}
  {
    var k :| 0 <= k < |cards| && cards[k] == c;
    DropAt(cards, k);
    MultisetRemoveAt(cards, k);
  }

  /** Filtering out an id nobody holds changes nothing. */
  lemma {:induction false} DropNone(cards: seq<Card>, c: Card)
    requires forall x :: x in cards ==> !SameCard(x, c)
    ensures DropId(cards, c) == cards
  {
    if cards != [] {
      assert cards == [cards[0]] + cards[1..];
      DropNone(cards[1..], c);
    }
  }

  /** `[card for card in field if card.month == m]`. */
  function SameMonth(cards: seq<Card>, m: int): (r: seq<Card>)
    ensures forall x :: x in r ==> x in cards && x.month == m
  {
    if cards == [] then []
    else if cards[0].month == m then [cards[0]] + SameMonth(cards[1..], m)
    else SameMonth(cards[1..], m)
  }

  /** The head of the matches is the first card of the month. */
  lemma {:induction false} SameMonthHead(cards: seq<Card>, m: int, i: int)
    requires 0 <= i < |cards| && cards[i].month == m && forall j :: 0 <= j < i ==> cards[j].month != m
    ensures SameMonth(cards, m) != [] && SameMonth(cards, m)[0] == cards[i]
  {
    if i > 0 {
      SameMonthHead(cards[1..], m, i - 1);
    }
  }

  /** No card of the month, no match. */
  lemma {:induction false} SameMonthEmpty(cards: seq<Card>, m: int)
    requires forall j :: 0 <= j < |cards| ==> cards[j].month != m
    ensures SameMonth(cards, m) == []
  {
    if cards != [] {
      SameMonthEmpty(cards[1..], m);
    }
  }

  /** Some card has month m iff there is a first one. */
  lemma FirstOfMonth(cards: seq<Card>, m: int) returns (i: int)
    requires exists j :: 0 <= j < |cards| && cards[j].month == m
    ensures 0 <= i < |cards| && cards[i].month == m && forall j :: 0 <= j < i ==> cards[j].month != m
  {
    var k :| 0 <= k < |cards| && cards[k].month == m;
    i := 0;
    while cards[i].month != m
      invariant 0 <= i <= k && forall j :: 0 <= j < i ==> cards[j].month != m
      decreases k - i
    {
      i := i + 1;
    }
  }

  /** `cards.remove(c)`: the first card equal to c by id is taken out. */
  function RemoveFirst(cards: seq<Card>, c: Card): (r: seq<Card>)
    requires c in cards
    ensures |r| == |cards| - 1 && forall x :: x in r ==> x in cards
  {
    if SameCard(cards[0], c) then cards[1..]
    else [cards[0]] + RemoveFirst(cards[1..], c)
  }

  /** Removing a card that no earlier card equals by id takes out exactly its position. */
  lemma {:induction false} RemoveAt(cards: seq<Card>, i: int)
    requires 0 <= i < |cards| && forall j :: 0 <= j < i ==> !SameCard(cards[j], cards[i])
    ensures RemoveFirst(cards, cards[i]) == cards[..i] + cards[i + 1..]
  {
    if i > 0 {
      var t := cards[1..];
      assert t[i - 1] == cards[i];
      assert forall j :: 0 <= j < i - 1 ==> t[j] == cards[j + 1];
      RemoveAt(t, i - 1);
      assert !SameCard(cards[0], cards[i]);
      assert RemoveFirst(cards, cards[i]) == [cards[0]] + RemoveFirst(t, cards[i]);
      assert [cards[0]] + (t[..i - 1] + t[i..]) == cards[..i] + cards[i + 1..];
    }
  }

  /** The piles after one capture attempt, and the card left over when nothing was captured. */
  datatype Capture = Capture(field: seq<Card>, collected: seq<Card>, left: Option<Card>)

  /**
    One capture attempt of card c against the field: with a field card of the same month, the
    first one is removed and c and that card are appended to the collected cards; otherwise c is
    left over (`temp_played_card` / `temp_drawn_card` stays set).
  */
  function CaptureWith(field: seq<Card>, collected: seq<Card>, c: Card): Capture
  {
    var matching := SameMonth(field, c.month);
    if |matching| >= 1 then Capture(RemoveFirst(field, matching[0]), collected + [c, matching[0]], None)
    else Capture(field, collected, Some(c))
  }

  /** With a field card of its month, c captures the first one, which leaves exactly its position. */
  lemma CaptureMatched(field: seq<Card>, collected: seq<Card>, c: Card, i: int)
    requires 0 <= i < |field| && field[i].month == c.month
    requires forall j :: 0 <= j < i ==> field[j].month != c.month
    ensures CaptureWith(field, collected, c) == Capture(field[..i] + field[i + 1..], collected + [c, field[i]], None)
  {
    SameMonthHead(field, c.month, i);
    RemoveAt(field, i);
  }

  /** With no field card of its month, c captures nothing and nothing changes. */
  lemma CaptureUnmatched(field: seq<Card>, collected: seq<Card>, c: Card)
    requires forall j :: 0 <= j < |field| ==> field[j].month != c.month
    ensures CaptureWith(field, collected, c) == Capture(field, collected, Some(c))
  {
    SameMonthEmpty(field, c.month);
  }

  function Leftover(o: Option<Card>): seq<Card>
  {
    if o.Some? then [o.value] else []
  }

  /** Taking out position i takes one copy of the card there out of the multiset. */
  lemma MultisetRemoveAt<T>(s: seq<T>, i: int)
    requires 0 <= i < |s|
    ensures multiset(s[..i] + s[i + 1..]) == multiset(s) - multiset{s[i]}
  {
    assert s == s[..i] + [s[i]] + s[i + 1..];
  }

  /** A capture attempt loses no card and creates none: field, collected and leftover hold c besides. */
  lemma CaptureConserves(field: seq<Card>, collected: seq<Card>, c: Card)
    ensures var r := CaptureWith(field, collected, c);
      multiset(r.field) + multiset(r.collected) + multiset(Leftover(r.left)) ==
      multiset(field) + multiset(collected) + multiset{c}
  {
    if exists j :: 0 <= j < |field| && field[j].month == c.month {
      var i := FirstOfMonth(field, c.month);
      CaptureMatched(field, collected, c, i);
      MultisetRemoveAt(field, i);
    } else {
      CaptureUnmatched(field, collected, c);
    }
  }

  /** A capture appends two cards to the collected ones, a miss none; earlier ones stay in place. */
  lemma CaptureGrowth(field: seq<Card>, collected: seq<Card>, c: Card)
    ensures var r := CaptureWith(field, collected, c);
      |r.collected| == |collected| + (if r.left.None? then 2 else 0) && r.collected[..|collected|] == collected
  {
    var r := CaptureWith(field, collected, c);
    if r.left.None? {
      assert r.collected == collected + [c, SameMonth(field, c.month)[0]];
    }
  }

  /** The four piles player 1's turn works on. */
  datatype Piles = Piles(hand: seq<Card>, field: seq<Card>, yama: seq<Card>, collected: seq<Card>)

  function Total(p: Piles): seq<Card>
  {
    p.hand + p.field + p.yama + p.collected
  }

  /**
    The turn with selected card c: the hand loses every card with c's id; c tries to capture; if
    the draw pile is non-empty its head is popped and tries to capture on the field as it is now,
    and then the unmatched played card and the unmatched drawn card are appended to the field, in
    that order. With an empty draw pile nothing is appended.
  */
  function PlayTurn(p: Piles, c: Card): Piles
  {
    var hand := DropId(p.hand, c);
    var played := CaptureWith(p.field, p.collected, c);
    if p.yama == [] then Piles(hand, played.field, [], played.collected)
    else
      var drawn := CaptureWith(played.field, played.collected, p.yama[0]);
      Piles(hand, drawn.field + Leftover(played.left) + Leftover(drawn.left), p.yama[1..], drawn.collected)
  }

  /** The hand keeps exactly the cards not equal to c by id. */
  lemma TurnHand(p: Piles, c: Card)
    ensures forall x :: x in PlayTurn(p, c).hand <==> x in p.hand && Id(x) != Id(c)
  {
    DropIdSpec(p.hand, c);
  }

  /**
    When the field holds a card of c's month, c and the first such card are the next two
    collected cards; with an empty draw pile that card is all the field loses.
  */
  lemma TurnFirstMatch(p: Piles, c: Card, i: int)
    requires 0 <= i < |p.field| && p.field[i].month == c.month
    requires forall j :: 0 <= j < i ==> p.field[j].month != c.month
    ensures var q := PlayTurn(p, c);
      |q.collected| >= |p.collected| + 2 && q.collected[..|p.collected| + 2] == p.collected + [c, p.field[i]]
    ensures p.yama == [] ==> PlayTurn(p, c).field == p.field[..i] + p.field[i + 1..]
  {
    CaptureMatched(p.field, p.collected, c, i);
    if p.yama != [] {
      var played := CaptureWith(p.field, p.collected, c);
      CaptureGrowth(played.field, played.collected, p.yama[0]);
    }
  }

  /**
    The drawn card is matched against the field after the hand capture and before the played
    card is laid down, so the played card is never among its candidates.
  */
  lemma DrawnNeverPairsPlayed(p: Piles, c: Card)
    requires p.yama != [] && c !in p.field
    ensures c !in SameMonth(CaptureWith(p.field, p.collected, c).field, p.yama[0].month)
  {
  }

  /** With no capture at all, the played and then the drawn card are appended to the field. */
  lemma TurnUnmatched(p: Piles, c: Card)
    requires p.yama != []
    requires forall j :: 0 <= j < |p.field| ==> p.field[j].month != c.month && p.field[j].month != p.yama[0].month
    ensures PlayTurn(p, c) == Piles(DropId(p.hand, c), p.field + [c, p.yama[0]], p.yama[1..], p.collected)
  {
    CaptureUnmatched(p.field, p.collected, c);
    CaptureUnmatched(p.field, p.collected, p.yama[0]);
  }

  /** The collected cards only grow, by two per capture: 0, 2 or 4 cards. */
  lemma TurnGrowth(p: Piles, c: Card)
    ensures var q := PlayTurn(p, c);
      |q.collected| - |p.collected| in {0, 2, 4} && q.collected[..|p.collected|] == p.collected
  {
    CaptureGrowth(p.field, p.collected, c);
    var played := CaptureWith(p.field, p.collected, c);
    if p.yama != [] {
      CaptureGrowth(played.field, played.collected, p.yama[0]);
      var q := PlayTurn(p, c);
      assert q.collected[..|p.collected|] == q.collected[..|played.collected|][..|p.collected|];
    }
  }

  /**
    With a non-empty draw pile, or when the played card captures, the turn only moves cards
    between the piles: hand, field, draw pile and collected cards together hold the same cards.
  */
  lemma TurnConserves(p: Piles, c: Card)
    requires c in p.hand && DistinctIds(p.hand)
    requires p.yama != [] || exists j :: 0 <= j < |p.field| && p.field[j].month == c.month
    ensures multiset(Total(PlayTurn(p, c))) == multiset(Total(p))
  {
    if p.yama != [] {
      TurnConservesDraw(p, c);
    } else {
      var i := FirstOfMonth(p.field, c.month);
      TurnConservesCapture(p, c, i);
    }
  }

  /** With a draw: the multiset bookkeeping of the two capture attempts. */
  lemma TurnConservesDraw(p: Piles, c: Card)
    requires c in p.hand && DistinctIds(p.hand) && p.yama != []
    ensures multiset(Total(PlayTurn(p, c))) == multiset(Total(p))
  {
    var hand := DropId(p.hand, c);
    DropOne(p.hand, c);
    var played := CaptureWith(p.field, p.collected, c);
    CaptureConserves(p.field, p.collected, c);
    var drawn := CaptureWith(played.field, played.collected, p.yama[0]);
    CaptureConserves(played.field, played.collected, p.yama[0]);
    var l1, l2 := Leftover(played.left), Leftover(drawn.left);
    assert PlayTurn(p, c) == Piles(hand, drawn.field + l1 + l2, p.yama[1..], drawn.collected);
    Balance(p.hand, hand, p.field, p.collected, p.yama, c, played.field, played.collected, l1,
      drawn.field, drawn.collected, l2);
  }

  /** Without a draw but with a capture: the played card and its match move to the collected cards. */
  lemma TurnConservesCapture(p: Piles, c: Card, i: int)
    requires c in p.hand && DistinctIds(p.hand) && p.yama == []
    requires 0 <= i < |p.field| && p.field[i].month == c.month
    requires forall j :: 0 <= j < i ==> p.field[j].month != c.month
    ensures multiset(Total(PlayTurn(p, c))) == multiset(Total(p))
  {
    var hand := DropId(p.hand, c);
    DropOne(p.hand, c);
    CaptureMatched(p.field, p.collected, c, i);
    MultisetRemoveAt(p.field, i);
    var q := PlayTurn(p, c);
    assert q == Piles(hand, p.field[..i] + p.field[i + 1..], [], p.collected + [c, p.field[i]]);
    BalanceCapture(multiset(p.hand), multiset(hand), multiset(p.field), multiset(p.field[..i] + p.field[i + 1..]),
      multiset(p.collected), c, p.field[i]);
  }

  /** The bookkeeping of a capture without a draw. */
  lemma BalanceCapture<T>(h: multiset<T>, h': multiset<T>, f: multiset<T>, f': multiset<T>, col: multiset<T>, c: T, g: T)
    requires c in h && h' == h - multiset{c}
    requires g in f && f' == f - multiset{g}
    ensures h' + f' + multiset{} + (col + multiset{c, g}) == h + f + multiset{} + col
  {
  }

  /** The bookkeeping of one turn with a draw: two capture attempts lose and create nothing. */
  lemma Balance<T>(h: seq<T>, h': seq<T>, f: seq<T>, col: seq<T>, y: seq<T>, c: T,
                   f1: seq<T>, col1: seq<T>, l1: seq<T>, f2: seq<T>, col2: seq<T>, l2: seq<T>)
    requires c in h && multiset(h') == multiset(h) - multiset{c} && y != []
    requires multiset(f1) + multiset(col1) + multiset(l1) == multiset(f) + multiset(col) + multiset{c}
    requires multiset(f2) + multiset(col2) + multiset(l2) == multiset(f1) + multiset(col1) + multiset{y[0]}
    ensures multiset(h' + (f2 + l1 + l2) + y[1..] + col2) == multiset(h + f + y + col)
  {
    assert y == [y[0]] + y[1..];
    assert multiset(h' + (f2 + l1 + l2) + y[1..] + col2) ==
      multiset(h') + multiset(f2) + multiset(l1) + multiset(l2) + multiset(y[1..]) + multiset(col2);
    assert multiset(h + f + y + col) == multiset(h) + multiset(f) + multiset{y[0]} + multiset(y[1..]) + multiset(col);
    BalanceCounts(multiset(h), multiset(h'), multiset(f), multiset(col), c, multiset(f1), multiset(col1), multiset(l1),
      y[0], multiset(f2), multiset(col2), multiset(l2), multiset(y[1..]));
  }

  lemma BalanceCounts<T>(h: multiset<T>, h': multiset<T>, f: multiset<T>, col: multiset<T>, c: T,
                         f1: multiset<T>, col1: multiset<T>, l1: multiset<T>, d: T,
                         f2: multiset<T>, col2: multiset<T>, l2: multiset<T>, y': multiset<T>)
    requires c in h && h' == h - multiset{c}
    requires f1 + col1 + l1 == f + col + multiset{c}
    requires f2 + col2 + l2 == f1 + col1 + multiset{d}
    ensures h' + f2 + l1 + l2 + y' + col2 == h + f + multiset{d} + y' + col
  {
    forall x
      ensures (h' + f2 + l1 + l2 + y' + col2)[x] == (h + f + multiset{d} + y' + col)[x]
    {
      assert (f2 + col2 + l2)[x] == (f1 + col1 + multiset{d})[x];
      assert (f1 + col1 + l1)[x] == (f + col + multiset{c})[x];
    }
  }

  /**
    As written, with an empty draw pile a played card that captures nothing leaves the hand and
    is laid nowhere: field and collected cards are unchanged and the card is gone from the game.
  */
  lemma TurnLosesPlayed(p: Piles, c: Card)
    requires c in p.hand && DistinctIds(p.hand)
    requires p.yama == [] && forall j :: 0 <= j < |p.field| ==> p.field[j].month != c.month
    ensures var q := PlayTurn(p, c);
      q.field == p.field && q.collected == p.collected && q.yama == [] && Id(c) !in CardIds(q.hand)
    ensures multiset(Total(PlayTurn(p, c))) == multiset(Total(p)) - multiset{c}
  {
    DropOne(p.hand, c);
    DropIdSpec(p.hand, c);
    CaptureUnmatched(p.field, p.collected, c);
    var q := PlayTurn(p, c);
    forall k | 0 <= k < |q.hand|
      ensures CardIds(q.hand)[k] != Id(c)
    {
      assert q.hand[k] in q.hand;
    }
  }

  /** A turn never adds cards to the game: what the piles hold afterwards they held before. */
  lemma TurnNoGain(p: Piles, c: Card)
    requires c in p.hand && DistinctIds(p.hand)
    ensures multiset(Total(PlayTurn(p, c))) <= multiset(Total(p))
  {
    if p.yama != [] || exists j :: 0 <= j < |p.field| && p.field[j].month == c.month {
      TurnConserves(p, c);
    } else {
      TurnLosesPlayed(p, c);
      MultisetLess(multiset(Total(PlayTurn(p, c))), multiset(Total(p)), c);
    }
  }

  lemma MultisetLess<T>(a: multiset<T>, b: multiset<T>, c: T)
    requires a == b - multiset{c}
    ensures a <= b
  {
  }

  /** A card that occurs at two positions occurs twice. */
  lemma TwoCopies<T>(s: seq<T>, i: int, j: int)
    requires 0 <= i < j < |s| && s[i] == s[j]
    ensures multiset(s)[s[i]] >= 2
  {
    assert s == s[..j] + [s[j]] + s[j + 1..];
    assert s[i] in s[..j];
  }

  /** A sequence without repetitions holds each value at most once. */
  lemma {:induction false} NoDupAtMostOnce<T>(s: seq<T>, x: T)
    requires NoDup(s)
    ensures multiset(s)[x] <= 1
  {
    if s != [] {
      var t := s[..|s| - 1];
      assert s == t + [s[|s| - 1]];
      assert NoDup(t);
      NoDupAtMostOnce(t, x);
      forall k | 0 <= k < |t|
        ensures t[k] != s[|s| - 1]
      {
        assert t[k] == s[k];
      }
    }
  }

  /** Cards taken without repetition from a deck of distinct ids have distinct ids. */
  lemma SubDeckDistinct(s: seq<Card>, deck: seq<Card>)
    requires multiset(s) <= multiset(deck) && DistinctIds(deck)
    ensures DistinctIds(s)
  {
    assert NoDup(deck);
    forall i, j | 0 <= i < j < |s|
      ensures !SameCard(s[i], s[j])
    {
      if SameCard(s[i], s[j]) {
        assert s[i] in multiset(deck) && s[j] in multiset(deck);
        var a :| 0 <= a < |deck| && deck[a] == s[i];
        var b :| 0 <= b < |deck| && deck[b] == s[j];
        assert a == b;
        TwoCopies(s, i, j);
        NoDupAtMostOnce(deck, s[i]);
      }
    }
  }

  /** The cards on the table are cards of a deck of distinct ids, none held twice. */
  ghost predicate Dealt(cards: seq<Card>, deck: seq<Card>)
  {
    DistinctIds(deck) && multiset(cards) <= multiset(deck)
  }

  /** A turn keeps the whole table a set of deck cards. */
  lemma TableTurn(p: Piles, c: Card, hand2: seq<Card>, collected2: seq<Card>, deck: seq<Card>)
    requires c in p.hand && Dealt(p.hand + hand2 + p.field + p.yama + p.collected + collected2, deck)
    ensures var q := PlayTurn(p, c);
      Dealt(q.hand + hand2 + q.field + q.yama + q.collected + collected2, deck)
  {
    var q := PlayTurn(p, c);
    var rest := multiset(hand2) + multiset(collected2);
    assert multiset(p.hand + hand2 + p.field + p.yama + p.collected + collected2) == multiset(Total(p)) + rest;
    assert multiset(q.hand + hand2 + q.field + q.yama + q.collected + collected2) == multiset(Total(q)) + rest;
    assert multiset(p.hand) <= multiset(deck);
    SubDeckDistinct(p.hand, deck);
    TurnNoGain(p, c);
  }

  /** Every card of the game state, pile after pile. */
  function Everything(g: GameState): seq<Card>
  {
    g.player1Hand + g.player2Hand + g.fieldCards + g.yamaFuda + g.player1Collected + g.player2Collected
  }

  /** The piles of the game state that player 1's turn works on. */
  function Player1Piles(g: GameState): Piles
  {
    Piles(g.player1Hand, g.fieldCards, g.yamaFuda, g.player1Collected)
  }

  /** A freshly dealt game holds each card of the deck exactly once. */
  lemma DealtInitially(shuffled: seq<Card>)
    requires multiset(shuffled) == multiset(AllCards)
    ensures Dealt(Everything(InitializeGame(shuffled)), AllCards)
    ensures multiset(Everything(InitializeGame(shuffled))) == multiset(AllCards)
  {
    DeckIdsDistinct();
  }

  /** The session: `st.session_state['game_state']` and `st.session_state['selected_hand_card']`. */
  class Table {
    var state: GameState
    var selectedHandCard: Option<Card>
    /** The deck the game was dealt from: `ALL_CARDS`. */
    ghost const deck: seq<Card>

    /** The piles hold cards of the deck, none twice, and a selected card is one of player 1's. */
    ghost predicate Valid()
      reads this
    {
      Dealt(Everything(state), deck) && (selectedHandCard.Some? ==> selectedHandCard.value in state.player1Hand)
    }

    /** A session started from `initialize_game()` with the shuffled deck `shuffled`. */
    constructor (shuffled: seq<Card>)
      requires multiset(shuffled) == multiset(AllCards)
      ensures Valid() && state == InitializeGame(shuffled) && selectedHandCard == None && deck == AllCards
    {
      state := InitializeGame(shuffled);
      selectedHandCard := None;
      deck := AllCards;
      DealtInitially(shuffled);
    }

    /**
      `handle_turn_action()`: nothing without a selected card; otherwise player 1's turn with it
      (`PlayTurn`) on hand, field, draw pile and collected cards, after which no card is selected
      and it is player 2's turn. Player 2's piles and the game-over flag are not touched.
    */
    method HandleTurnAction()
      modifies this
      ensures old(selectedHandCard).None? ==> state == old(state) && selectedHandCard == None
      ensures old(selectedHandCard).Some? ==>
        var q := PlayTurn(Player1Piles(old(state)), old(selectedHandCard).value);
        state == old(state).(player1Hand := q.hand, fieldCards := q.field, yamaFuda := q.yama,
                             player1Collected := q.collected, currentTurn := 2) &&
        selectedHandCard == None
      ensures old(Valid()) ==> Valid()
    {
      if selectedHandCard.None? {
        return;
      }
      ghost var wasValid := Valid();
      var g := state;
      var selected := selectedHandCard.value;
      var hand, field, yama, collected := PlayerOneTurn(g.player1Hand, g.fieldCards, g.yamaFuda, g.player1Collected, selected);
      if wasValid {
        TableTurn(Player1Piles(g), selected, g.player2Hand, g.player2Collected, deck);
      }
      state := g.(player1Hand := hand, fieldCards := field, yamaFuda := yama, player1Collected := collected, currentTurn := 2);
      selectedHandCard := None;
    }
  }

  /**
    The body of `handle_turn_action` for the selected card c, on the piles it updates: filter c
    out of the hand, run the capture block for c, and, when the draw pile is non-empty, pop its
    head, run the capture block for it and lay the unmatched cards on the field.
  */
  method PlayerOneTurn(hand: seq<Card>, field: seq<Card>, yama: seq<Card>, collected: seq<Card>, c: Card)
    returns (hand': seq<Card>, field': seq<Card>, yama': seq<Card>, collected': seq<Card>)
    ensures Piles(hand', field', yama', collected') == PlayTurn(Piles(hand, field, yama, collected), c)
  {
    hand', field', yama', collected' := hand, field, yama, collected;
    hand' := DropId(hand', c);
    var playedLeft;
    field', collected', playedLeft := CaptureStep(field', collected', c);
    if yama' != [] {
      var drawn := yama'[0];
      yama' := yama'[1..];
      var drawnLeft;
      field', collected', drawnLeft := CaptureStep(field', collected', drawn);
      if playedLeft.Some? {
        field' := field' + [playedLeft.value];
      }
      if drawnLeft.Some? {
        field' := field' + [drawnLeft.value];
      }
    }
  }

  /**
    The capture block that `handle_turn_action` runs for the played and then for the drawn card:
    look for field cards of c's month; on a match remove the first from the field and append c
    and it to the collected cards, otherwise keep c as left over.
  */
  method CaptureStep(field: seq<Card>, collected: seq<Card>, c: Card)
    returns (field': seq<Card>, collected': seq<Card>, left: Option<Card>)
    ensures Capture(field', collected', left) == CaptureWith(field, collected, c)
  {
    field', collected', left := field, collected, Some(c);
    var matching := SameMonth(field', c.month);
    if |matching| >= 1 {
      var gained := matching[0];
      field' := RemoveFirst(field', gained);
      collected' := collected' + [c];
      collected' := collected' + [gained];
      left := None;
    }
  }
}
