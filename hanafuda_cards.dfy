/**
  The flower-card deck and the deal (hanafuda_logic00.py): a card and its id, the 48 cards of the
  deck, the id list of a pile, the scoring stub, and the dealing of a shuffled deck.
*/
module HanafudaCards {
  import opened Wrappers
  import opened Decimal

  /** The card types: 光 (bright), タネ (animal), タン (ribbon), カス (junk). */
  datatype Kind = Bright | Animal | Ribbon | Junk

  /** `Card(month, type, name, points)`. */
  datatype Card = Card(month: int, kind: Kind, name: string, points: int)

  /** `self.id = f"{month:02d}_{name}"`. */
  function Id(c: Card): string
  {
    Pad2(c.month) + "_" + c.name
  }

  /**
    `Card.__eq__` (and `__hash__`) look only at the id; `IdDeterminesCard` shows that comparing
    ids is comparing month and name, which is how equality is stated here.
  */
  predicate SameCard(a: Card, b: Card)
  {
    a.month == b.month && a.name == b.name
  }

  /** Splitting at the first '_' recovers both halves of a joined string. */
  lemma SplitAtUnderscore(p: string, x: string, q: string, y: string)
    requires '_' !in p && '_' !in q && p + "_" + x == q + "_" + y
    ensures p == q && x == y
  {
    var s, t := p + "_" + x, q + "_" + y;
    assert |p| == |q| by {
      assert s[|p|] == '_' && t[|q|] == '_';
    }
    assert p == s[..|p|] && q == t[..|q|];
    assert x == s[|p| + 1..] && y == t[|q| + 1..];
  }

  /** Two cards have the same id iff they agree on month and name. */
  lemma IdDeterminesCard(a: Card, b: Card)
    ensures Id(a) == Id(b) <==> SameCard(a, b)
  {
    if Id(a) == Id(b) {
      Pad2Value(a.month);
      Pad2Value(b.month);
      SplitAtUnderscore(Pad2(a.month), a.name, Pad2(b.month), b.name);
      Pad2Injective(a.month, b.month);
    }
  }

  /** The points of a card of each type. */
  function KindPoints(k: Kind): int
  {
    match k
    case Bright => 20
    case Animal => 10
    case Ribbon => 5
    case Junk => 1
  }

  /** `ALL_CARDS`, month by month: 1 松 (pine). */
  const Pine: seq<Card> :=
    [Card(1, Bright, "松に鶴", 20), Card(1, Ribbon, "松に赤短", 5), Card(1, Junk, "松カスA", 1), Card(1, Junk, "松カスB", 1)]
  /** 2 梅 (plum). */
  const Plum: seq<Card> :=
    [Card(2, Animal, "梅に鶯", 10), Card(2, Ribbon, "梅に赤短", 5), Card(2, Junk, "梅カスA", 1), Card(2, Junk, "梅カスB", 1)]
  /** 3 桜 (cherry). */
  const Cherry: seq<Card> :=
    [Card(3, Bright, "桜に幕", 20), Card(3, Ribbon, "桜に赤短", 5), Card(3, Junk, "桜カスA", 1), Card(3, Junk, "桜カスB", 1)]
  /** 4 藤 (wisteria). */
  const Wisteria: seq<Card> :=
    [Card(4, Animal, "藤に不如帰", 10), Card(4, Ribbon, "藤にムラサキ短", 5), Card(4, Junk, "藤カスA", 1), Card(4, Junk, "藤カスB", 1)]
  /** 5 菖蒲 (iris). */
  const Iris: seq<Card> :=
    [Card(5, Animal, "菖蒲に八ツ橋", 10), Card(5, Ribbon, "菖蒲にムラサキ短", 5), Card(5, Junk, "菖蒲カスA", 1), Card(5, Junk, "菖蒲カスB", 1)]
  /** 6 牡丹 (peony). */
  const Peony: seq<Card> :=
    [Card(6, Animal, "牡丹に蝶", 10), Card(6, Ribbon, "牡丹にムラサキ短", 5), Card(6, Junk, "牡丹カスA", 1), Card(6, Junk, "牡丹カスB", 1)]
  /** 7 萩 (bush clover). */
  const Clover: seq<Card> :=
    [Card(7, Animal, "萩に猪", 10), Card(7, Ribbon, "萩にムラサキ短", 5), Card(7, Junk, "萩カスA", 1), Card(7, Junk, "萩カスB", 1)]
  /** 8 芒 (pampas grass). */
  const Pampas: seq<Card> :=
    [Card(8, Bright, "芒に月", 20), Card(8, Animal, "芒に雁", 10), Card(8, Junk, "芒カスA", 1), Card(8, Junk, "芒カスB", 1)]
  /** 9 菊 (chrysanthemum). */
  const Chrysanthemum: seq<Card> :=
    [Card(9, Animal, "菊に盃", 10), Card(9, Ribbon, "菊にムラサキ短", 5), Card(9, Junk, "菊カスA", 1), Card(9, Junk, "菊カスB", 1)]
  /** 10 紅葉 (maple). */
  const Maple: seq<Card> :=
    [Card(10, Animal, "紅葉に鹿", 10), Card(10, Ribbon, "紅葉に青短", 5), Card(10, Junk, "紅葉カスA", 1), Card(10, Junk, "紅葉カスB", 1)]
  /** 11 柳 (willow). */
  const Willow: seq<Card> :=
    [Card(11, Bright, "柳に小野道風", 20), Card(11, Ribbon, "柳に青短", 5), Card(11, Junk, "柳カス", 1), Card(11, Junk, "ツル", 1)]
  /** 12 桐 (paulownia). */
  const Paulownia: seq<Card> :=
    [Card(12, Bright, "桐に鳳凰", 20), Card(12, Junk, "桐カスA", 1), Card(12, Junk, "桐カスB", 1), Card(12, Junk, "桐カスC", 1)]

  /** The twelve months of `ALL_CARDS` in order. */
  const Months: seq<seq<Card>> :=
    [Pine, Plum, Cherry, Wisteria, Iris, Peony, Clover, Pampas, Chrysanthemum, Maple, Willow, Paulownia]

  /** `ALL_CARDS`: the months' cards one after the other. */
  const AllCards: seq<Card> := Flatten(Months)

  function Flatten<T>(blocks: seq<seq<T>>): seq<T>
  {
    if blocks == [] then [] else Flatten(blocks[..|blocks| - 1]) + blocks[|blocks| - 1]
  }

  /** Card c belongs to month m and is priced by its type. */
  predicate CardOk(c: Card, m: int)
  {
    c.month == m && c.points == KindPoints(c.kind)
  }

  /** The four cards of one month m of the deck, priced by type, with distinct names. */
  predicate MonthOk(block: seq<Card>, m: int)
  {
    |block| == 4 &&
    var a, b, c, d := block[0], block[1], block[2], block[3];
    CardOk(a, m) && CardOk(b, m) && CardOk(c, m) && CardOk(d, m) &&
    a.name != b.name && a.name != c.name && a.name != d.name &&
    b.name != c.name && b.name != d.name && c.name != d.name
  }

  /** The twelve months of the deck, checked one by one. */
  lemma MonthsChecked()
    ensures |Months| == 12 && forall k :: 0 <= k < 12 ==> MonthOk(Months[k], k + 1)
  {
  }

  /** Flattening blocks of four: card i is card i % 4 of block i / 4. */
  lemma {:induction false} FlattenFours<T>(blocks: seq<seq<T>>)
    requires forall k :: 0 <= k < |blocks| ==> |blocks[k]| == 4
    ensures |Flatten(blocks)| == 4 * |blocks|
    ensures forall i :: 0 <= i < 4 * |blocks| ==> Flatten(blocks)[i] == blocks[i / 4][i % 4]
  {
    if blocks != [] {
      var init, last := blocks[..|blocks| - 1], blocks[|blocks| - 1];
      var n := |init|;
      FlattenFours(init);
      assert Flatten(blocks) == Flatten(init) + last;
      forall i | 0 <= i < 4 * |blocks|
        ensures Flatten(blocks)[i] == blocks[i / 4][i % 4]
      {
        if i < 4 * n {
          QuarterBelow(i, n);
          assert blocks[i / 4] == init[i / 4];
        } else {
          QuarterAt(i, n);
        }
      }
    }
  }

  lemma QuarterBelow(i: int, n: int)
    requires 0 <= i < 4 * n
    ensures 0 <= i / 4 < n
  {
  }

  lemma QuarterAt(i: int, n: int)
    requires 4 * n <= i < 4 * n + 4
    ensures i / 4 == n && i % 4 == i - 4 * n
  {
  }

  /** The cards of well-formed months laid out one month after the other. */
  lemma FlattenMonths(blocks: seq<seq<Card>>)
    requires forall k :: 0 <= k < |blocks| ==> MonthOk(blocks[k], k + 1)
    ensures |Flatten(blocks)| == 4 * |blocks|
    ensures forall i :: 0 <= i < 4 * |blocks| ==>
      Flatten(blocks)[i].month == i / 4 + 1 && Flatten(blocks)[i].points == KindPoints(Flatten(blocks)[i].kind)
    ensures forall i, j :: 0 <= i < j < 4 * |blocks| && i / 4 == j / 4 ==> Flatten(blocks)[i].name != Flatten(blocks)[j].name
  {
    FlattenFours(blocks);
    forall i | 0 <= i < 4 * |blocks|
      ensures Flatten(blocks)[i].month == i / 4 + 1 && Flatten(blocks)[i].points == KindPoints(Flatten(blocks)[i].kind)
    {
      assert MonthOk(blocks[i / 4], i / 4 + 1);
    }
    forall i, j | 0 <= i < j < 4 * |blocks| && i / 4 == j / 4
      ensures Flatten(blocks)[i].name != Flatten(blocks)[j].name
    {
      assert MonthOk(blocks[i / 4], i / 4 + 1);
    }
  }

  /**
    `ALL_CARDS` has 48 cards; card i belongs to month i / 4 + 1 (so four per month, in month
    order) and is worth the points of its type; cards of one month have distinct names.
  */
  lemma DeckShape()
    ensures |AllCards| == 48
    ensures forall i :: 0 <= i < 48 ==> AllCards[i].month == i / 4 + 1
    ensures forall i :: 0 <= i < 48 ==> AllCards[i].points == KindPoints(AllCards[i].kind)
    ensures forall i, j :: 0 <= i < j < 48 && i / 4 == j / 4 ==> AllCards[i].name != AllCards[j].name
  {
    MonthsChecked();
    FlattenMonths(Months);
  }

  /** No two cards of `ALL_CARDS` have the same id, so none are equal by `Card.__eq__`. */
  lemma DeckIdsDistinct()
    ensures forall i, j :: 0 <= i < j < |AllCards| ==> Id(AllCards[i]) != Id(AllCards[j])
    ensures forall i, j :: 0 <= i < j < |AllCards| ==> !SameCard(AllCards[i], AllCards[j])
  {
    DeckShape();
    forall i, j | 0 <= i < j < 48
      ensures Id(AllCards[i]) != Id(AllCards[j])
    {
      IdDeterminesCard(AllCards[i], AllCards[j]);
    }
  }

  /** The number of cards of month m in a pile. */
  function MonthCount(cards: seq<Card>, m: int): nat
  {
    if cards == [] then 0
    else MonthCount(cards[..|cards| - 1], m) + (if cards[|cards| - 1].month == m then 1 else 0)
  }

  /** Among the first n cards of the deck, month m has the cards at 4(m-1) .. 4m-1 that come before n. */
  lemma {:induction false} MonthCountPrefix(n: nat, m: int)
    requires n <= |AllCards|
    ensures MonthCount(AllCards[..n], m) ==
      if m < 1 || 12 < m || n <= 4 * (m - 1) then 0
      else if 4 * m <= n then 4
      else n - 4 * (m - 1)
  {
    DeckShape();
    if n > 0 {
      MonthCountPrefix(n - 1, m);
      assert AllCards[..n][..n - 1] == AllCards[..n - 1];
      assert AllCards[..n][n - 1].month == (n - 1) / 4 + 1;
    }
  }

  /** Each month 1..12 has exactly four cards in the deck, and no other month has any. */
  lemma MonthCounts(m: int)
    ensures MonthCount(AllCards, m) == if 1 <= m <= 12 then 4 else 0
  {
    DeckShape();
    MonthCountPrefix(48, m);
    assert AllCards[..48] == AllCards;
  }

  /** The deck holds no card twice. */
  lemma DeckNoDup()
    ensures NoDup(AllCards)
  {
    DeckIdsDistinct();
  }

  /** `HanafudaRule.get_player_card_ids(cards)`: the ids of the cards, in order. */
  function CardIds(cards: seq<Card>): (ids: seq<string>)
    ensures |ids| == |cards|
    ensures forall i :: 0 <= i < |cards| ==> ids[i] == Id(cards[i])
  {
    if cards == [] then [] else [Id(cards[0])] + CardIds(cards[1..])
  }

  /** `HanafudaRule.calculate_score(collected_cards)`: a stub, a score and the list of hands (役) made. */
  function CalculateScore(collected: seq<Card>): (int, seq<string>)
  {
    (0, ["未実装"])
  }

  /** The stub scores every collection 0 with the single entry 未実装 ("not implemented"). */
  lemma CalculateScoreIsStub(collected: seq<Card>)
    ensures CalculateScore(collected).0 == 0 && CalculateScore(collected).1 == ["未実装"]
    ensures forall other :: CalculateScore(other) == CalculateScore(collected)
  {
  }

  /** The state dictionary `initialize_game` returns. */
  datatype GameState = GameState(
    player1Hand: seq<Card>, player2Hand: seq<Card>, fieldCards: seq<Card>, yamaFuda: seq<Card>,
    player1Collected: seq<Card>, player2Collected: seq<Card>, currentTurn: int, gameOver: bool)

  /**
    `initialize_game()` after `random.shuffle` has put the copy of `ALL_CARDS` in the order
    `deck`: 8 cards to each player, 8 to the field and the other 24 as the draw pile.
  */
  function InitializeGame(deck: seq<Card>): (g: GameState)
    requires multiset(deck) == multiset(AllCards)
    ensures |g.player1Hand| == 8 && |g.player2Hand| == 8 && |g.fieldCards| == 8 && |g.yamaFuda| == 24
    ensures g.player1Hand + g.player2Hand + g.fieldCards + g.yamaFuda == deck
    ensures multiset(g.player1Hand + g.player2Hand + g.fieldCards + g.yamaFuda) == multiset(AllCards)
    ensures g.player1Collected == [] && g.player2Collected == [] && g.currentTurn == 1 && !g.gameOver
  {
    DeckShape();
    assert |deck| == |multiset(deck)| == 48;
    assert deck == deck[..8] + deck[8..16] + deck[16..24] + deck[24..];
    GameState(deck[..8], deck[8..16], deck[16..24], deck[24..], [], [], 1, false)
  }
}
