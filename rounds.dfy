/** What a round does to its players, as functions from the players' states before to
    their states after, listed in the room's player order: the deals that start a round,
    the validation of a guess and the change of a player's item. */
module Rounds {
  import opened Common
  import opened Catalog
  import opened Permutations
  import opened Rules
  import opened Model

  /** The items the players hold, in list order. */
  function HeldItems(ps: seq<PlayerState>): seq<Option<CategoryItem>>
  {
    seq(|ps|, i requires 0 <= i < |ps| => ps[i].assignedCharacter)
  }

  /** The players' places among the correct guessers, in list order. */
  function Ranks(ps: seq<PlayerState>): seq<Option<int>>
  {
    seq(|ps|, i requires 0 <= i < |ps| => ps[i].guessOrder)
  }

  /** The players' places on the board, in list order. */
  function VisualOrders(ps: seq<PlayerState>): seq<int>
  {
    seq(|ps|, i requires 0 <= i < |ps| => ps[i].visualOrder)
  }

  /** Which players are impostors, in list order. */
  function ImpostorFlags(ps: seq<PlayerState>): seq<bool>
  {
    seq(|ps|, i requires 0 <= i < |ps| => ps[i].impostor)
  }

  /** No two players hold the same item. */
  predicate HoldsDistinct(ps: seq<PlayerState>)
  {
    forall i, j | 0 <= i < j < |ps| :: ps[i].assignedCharacter != ps[j].assignedCharacter
  }

  /** The Guess-Who deal: player `i` receives item `i` of the shuffled deck, and as its
      place on the board the position the seating shuffle moved it to. */
  function GuessWhoDeal(ps: seq<PlayerState>, deck: seq<CategoryItem>, seating: seq<int>): (r: seq<PlayerState>)
    requires |deck| >= |ps|
    ensures |r| == |ps|
  {
    seq(|ps|, i requires 0 <= i < |ps| =>
      ps[i].(assignedCharacter := Some(deck[i]), visualOrder := IndexOf(seating, i)))
  }

  /** A deck without repeats gives every player a different item. */
  lemma GuessWhoDealHoldsDistinct(ps: seq<PlayerState>, deck: seq<CategoryItem>, seating: seq<int>)
    requires |deck| >= |ps| && Distinct(deck)
    ensures HoldsDistinct(GuessWhoDeal(ps, deck, seating))
    ensures forall i | 0 <= i < |ps| :: GuessWhoDeal(ps, deck, seating)[i].assignedCharacter.Some?
  {
  }

  /** The board places number the players 0 .. n-1, each number once. */
  lemma GuessWhoDealSeatsEveryone(ps: seq<PlayerState>, deck: seq<CategoryItem>, seating: seq<int>)
    requires |deck| >= |ps| && IsPermutation(seating, |ps|)
    ensures IsPermutation(VisualOrders(GuessWhoDeal(ps, deck, seating)), |ps|)
  {
    InverseIsPermutation(seating, |ps|);
    assert VisualOrders(GuessWhoDeal(ps, deck, seating)) == Inverse(seating);
  }

  /** A shuffled pack drawn from a catalog without repeated ids holds no item twice. */
  lemma ShuffledPackDistinct(catalog: seq<CategoryItem>, pack: Option<string>, shuffle: seq<int>)
    requires DistinctIds(catalog) && IsPermutation(shuffle, |FindByPackType(catalog, pack)|)
    ensures Distinct(Permute(FindByPackType(catalog, pack), shuffle))
  {
    var items := FindByPackType(catalog, pack);
    assert Distinct(items) by {
      forall i, j | 0 <= i < j < |items| ensures items[i] != items[j] {
        assert items[i].id != items[j].id;
      }
    }
  }

  /** Dealt from a shuffled pack of the catalog, a Guess-Who round gives every player a
      different item of the pack and numbers the board places 0 .. n-1. */
  lemma GuessWhoDealIsFair(ps: seq<PlayerState>, catalog: seq<CategoryItem>, pack: Option<string>,
                           deckShuffle: seq<int>, seating: seq<int>)
    requires DistinctIds(catalog) && |FindByPackType(catalog, pack)| >= |ps|
    requires IsPermutation(deckShuffle, |FindByPackType(catalog, pack)|) && IsPermutation(seating, |ps|)
    ensures var r := GuessWhoDeal(ps, Permute(FindByPackType(catalog, pack), deckShuffle), seating);
      && HoldsDistinct(r)
      && (forall i | 0 <= i < |r| ::
            r[i].assignedCharacter.Some? && r[i].assignedCharacter.value in FindByPackType(catalog, pack))
      && IsPermutation(VisualOrders(r), |ps|)
  {
    var deck := Permute(FindByPackType(catalog, pack), deckShuffle);
    ShuffledPackDistinct(catalog, pack, deckShuffle);
    GuessWhoDealHoldsDistinct(ps, deck, seating);
    GuessWhoDealSeatsEveryone(ps, deck, seating);
  }

  /** The Impostor deal: the players are listed in the shuffled order, the first `count`
      of them are impostors and carry the hint when hints are on, the others carry no
      pending guess. */
  function ImpostorDeal(ps: seq<PlayerState>, shuffle: seq<int>, count: int, hints: bool, hint: string): (r: seq<PlayerState>)
    requires IsPermutation(shuffle, |ps|)
    ensures |r| == |ps|
  {
    seq(|ps|, i requires 0 <= i < |ps| =>
      ps[shuffle[i]].(impostor := i < count,
                      pendingGuess := if i < count && hints then Some(hint) else None))
  }

  /** The first `count` players of the list marked as impostors, carrying the hint when
      hints are on; the others marked as crewmates with no pending guess. */
  function Marked(ps: seq<PlayerState>, count: int, hints: bool, hint: string): (r: seq<PlayerState>)
    ensures |r| == |ps|
  {
    seq(|ps|, i requires 0 <= i < |ps| =>
      ps[i].(impostor := i < count, pendingGuess := if i < count && hints then Some(hint) else None))
  }

  /** The Impostor deal marks the shuffled list. */
  lemma ImpostorDealMarksShuffled(ps: seq<PlayerState>, shuffle: seq<int>, count: int, hints: bool, hint: string)
    requires IsPermutation(shuffle, |ps|)
    ensures ImpostorDeal(ps, shuffle, count, hints, hint) == Marked(Permute(ps, shuffle), count, hints, hint)
  {
  }

  /** Dealt with the count the room's setting gives, a room of n >= 1 players has exactly
      max(1, min(setting, n - 1)) impostors: at least one, and at least one crewmate when
      there are two players or more. */
  lemma ImpostorDealCount(ps: seq<PlayerState>, shuffle: seq<int>, configured: int, hints: bool, hint: string)
    requires IsPermutation(shuffle, |ps|) && |ps| >= 1
    ensures CountTrue(ImpostorFlags(ImpostorDeal(ps, shuffle, ImpostorCount(configured, |ps|), hints, hint)))
            == ImpostorCount(configured, |ps|)
    ensures CountTrue(ImpostorFlags(ImpostorDeal(ps, shuffle, ImpostorCount(configured, |ps|), hints, hint))) >= 1
    ensures |ps| >= 2 ==>
      CountTrue(ImpostorFlags(ImpostorDeal(ps, shuffle, ImpostorCount(configured, |ps|), hints, hint))) < |ps|
  {
    var count := ImpostorCount(configured, |ps|);
    FirstMarkedCount(ImpostorFlags(ImpostorDeal(ps, shuffle, count, hints, hint)), count);
  }

  /** Only impostors see the hint, and all of them do when hints are on. */
  lemma ImpostorDealHints(ps: seq<PlayerState>, shuffle: seq<int>, count: int, hints: bool, hint: string)
    requires IsPermutation(shuffle, |ps|)
    ensures forall i | 0 <= i < |ps| ::
      ImpostorDeal(ps, shuffle, count, hints, hint)[i].pendingGuess
      == (if hints && ImpostorDeal(ps, shuffle, count, hints, hint)[i].impostor then Some(hint) else None)
  {
  }

  /** The Impostor deal reorders the players without losing or repeating anybody: what
      the players held before is still held, by the same players. */
  lemma ImpostorDealKeepsHoldings(ps: seq<PlayerState>, shuffle: seq<int>, count: int, hints: bool, hint: string)
    requires IsPermutation(shuffle, |ps|)
    ensures HeldItems(ImpostorDeal(ps, shuffle, count, hints, hint)) == Permute(HeldItems(ps), shuffle)
  {
    assert |HeldItems(ps)| == |ps|;
  }

  /** The replay deal of resetGame: player `i` receives item `i` of the shuffled deck and
      loses its guessed flag, pending guess and place among the guessers. */
  function ResetDeal(ps: seq<PlayerState>, deck: seq<CategoryItem>): (r: seq<PlayerState>)
    requires |deck| >= |ps|
    ensures |r| == |ps|
  {
    seq(|ps|, i requires 0 <= i < |ps| =>
      ps[i].(assignedCharacter := Some(deck[i]), guessed := false, pendingGuess := None,
             guessOrder := None))
  }

  /** After a replay no item is held twice, nobody has guessed, and the next correct
      guess is ranked first. */
  lemma ResetDealRestartsRanking(ps: seq<PlayerState>, deck: seq<CategoryItem>)
    requires |deck| >= |ps| && Distinct(deck)
    ensures HoldsDistinct(ResetDeal(ps, deck))
    ensures forall i | 0 <= i < |ps| :: !ResetDeal(ps, deck)[i].guessed
    ensures forall i | 0 <= i < |ps| ::
      ResetDeal(ps, deck)[i].pendingGuess == None && ResetDeal(ps, deck)[i].guessOrder == None
    ensures MaxGuessOrder(Ranks(ResetDeal(ps, deck))) + 1 == 1
  {
    var ranks := Ranks(ResetDeal(ps, deck));
    assert forall i | 0 <= i < |ranks| :: ranks[i].None?;
    assert forall m :: Some(m) !in ranks;
  }

  // ---------------------------------------------------------------- closing a vote

  /** No place among the correct guessers is given twice. */
  predicate RanksDistinct(ranks: seq<Option<int>>)
  {
    forall i, j | 0 <= i < j < |ranks| && ranks[i].Some? && ranks[j].Some? :: ranks[i] != ranks[j]
  }

  /** executeValidateGuess on one player, given the places in its room: a correct guess
      marks the player as guessed and ranks it after everybody already ranked; either
      way the pending guess is cleared and nothing else changes. */
  function ValidateGuess(p: PlayerState, correct: bool, ranks: seq<Option<int>>): (r: PlayerState)
    ensures r.pendingGuess == None
    ensures !correct ==> r == p.(pendingGuess := None)
    ensures correct ==> r.guessed && r.guessOrder == Some(MaxGuessOrder(ranks) + 1)
    ensures correct ==> forall i | 0 <= i < |ranks| && ranks[i].Some? :: ranks[i].value < r.guessOrder.value
    ensures r.(guessed := p.guessed, pendingGuess := p.pendingGuess, guessOrder := p.guessOrder) == p
  {
    if correct then
      p.(guessed := true, pendingGuess := None, guessOrder := Some(MaxGuessOrder(ranks) + 1))
    else
      p.(pendingGuess := None)
  }

  /** When the room's places are exactly 1..m, the next correct guess is ranked m + 1. */
  lemma ValidateGuessRanksNext(p: PlayerState, ranks: seq<Option<int>>, m: nat)
    requires forall i | 0 <= i < |ranks| && ranks[i].Some? :: 1 <= ranks[i].value <= m
    requires forall g | 1 <= g <= m :: Some(g) in ranks
    ensures ValidateGuess(p, true, ranks).guessOrder == Some(m + 1)
  {
    NextOrderExtendsGapless(ranks, m);
  }

  /** Validating a correct guess of player `j` keeps the places distinct. */
  lemma CorrectGuessKeepsRanksDistinct(ps: seq<PlayerState>, j: int)
    requires 0 <= j < |ps| && RanksDistinct(Ranks(ps))
    ensures RanksDistinct(Ranks(ps[j := ValidateGuess(ps[j], true, Ranks(ps))]))
  {
    var qs := ps[j := ValidateGuess(ps[j], true, Ranks(ps))];
    var before, after := Ranks(ps), Ranks(qs);
    forall i, k | 0 <= i < k < |after| && after[i].Some? && after[k].Some?
      ensures after[i] != after[k]
    {
      if i == j {
        assert after[k] == before[k];
      } else if k == j {
        assert after[i] == before[i];
      } else {
        assert after[i] == before[i] && after[k] == before[k];
      }
    }
  }

  /** An approved change gives player `j` item `c`. */
  function ChangeItem(ps: seq<PlayerState>, j: int, c: CategoryItem): (r: seq<PlayerState>)
    requires 0 <= j < |ps|
    ensures |r| == |ps| && r[j].assignedCharacter == Some(c)
    ensures forall i | 0 <= i < |ps| && i != j :: r[i] == ps[i]
  {
    ps[j := ps[j].(assignedCharacter := Some(c))]
  }

  /** While some pack item is free, the item a change draws is held by nobody, so no two
      players end up holding the same item. */
  lemma ChangeKeepsHoldsDistinct(ps: seq<PlayerState>, j: int, items: seq<CategoryItem>, pick: nat)
    requires 0 <= j < |ps| && HoldsDistinct(ps)
    requires |items| > 0 && pick < |ChangePool(items, AssignedIds(HeldItems(ps)))|
    requires exists c | c in items :: c.id !in AssignedIds(HeldItems(ps))
    ensures ChangePick(items, AssignedIds(HeldItems(ps)), pick).Ok?
    ensures HoldsDistinct(ChangeItem(ps, j, ChangePick(items, AssignedIds(HeldItems(ps)), pick).value))
  {
    var taken := AssignedIds(HeldItems(ps));
    var c := ChangePick(items, taken, pick).value;
    var qs := ChangeItem(ps, j, c);
    forall i | 0 <= i < |ps| && i != j
      ensures ps[i].assignedCharacter != Some(c)
    {
      if ps[i].assignedCharacter.Some? {
        assert HeldItems(ps)[i] == ps[i].assignedCharacter;
        assert ps[i].assignedCharacter.value.id in taken;
      }
    }
    forall i, k | 0 <= i < k < |qs|
      ensures qs[i].assignedCharacter != qs[k].assignedCharacter
    {
      if i != j && k != j {
        assert qs[i] == ps[i] && qs[k] == ps[k];
      }
    }
  }
}
