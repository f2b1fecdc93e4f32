/** The parts of GameService that only compute: the duplicate-name check, the room
    settings, the impostor count, the yes/no ledger and its tally, the finishing order
    of correct guesses, and the item a change draws. */
module Rules {
  import opened Common
  import opened Catalog
  import opened Text

  // ---------------------------------------------------------------- room registry

  /** joinRoom's duplicate check: some name already in the room equals `name` ignoring case. */
  predicate NameTaken(names: seq<string>, name: string)
    ensures NameTaken(names, name) <==> exists i | 0 <= i < |names| :: UpperAll(names[i]) == UpperAll(name)
    ensures name in names ==> NameTaken(names, name)
    ensures NameTaken(names, name) ==> exists i | 0 <= i < |names| :: |names[i]| == |name|
  {
    exists i | 0 <= i < |names| :: EqualsIgnoreCase(names[i], name)
  }

  /** createRoom's game type: "IMPOSTOR" in any case selects the Impostor game. */
  predicate IsImpostorType(gameType: string)
    ensures IsImpostorType(gameType) <==> UpperAll(gameType) == "IMPOSTOR"
    ensures gameType == "IMPOSTOR" || gameType == "impostor" ==> IsImpostorType(gameType)
    ensures |gameType| != 8 ==> !IsImpostorType(gameType)
  {
    EqualsIgnoreCase("IMPOSTOR", gameType)
  }

  /** Any spelling of "impostor" selects the Impostor game, a misspelling does not. */
  lemma ImpostorTypeSpellings()
    ensures IsImpostorType("Impostor") && IsImpostorType("iMpOsToR")
    ensures !IsImpostorType("IMPOSTER") && !IsImpostorType("GUESS_WHO")
  {
    assert UpperAll("Impostor") == "IMPOSTOR";
    assert UpperAll("iMpOsToR") == "IMPOSTOR";
    assert UpperAll("IMPOSTER")[6] == 'E';
  }

  /** createRoom's Impostor setting: a positive count is kept, anything else becomes 1. */
  function ConfiguredImpostors(requested: int): (k: int)
    ensures k >= 1
    ensures requested >= 1 ==> k == requested
    ensures requested < 1 ==> k == 1
  {
    if requested > 0 then requested else 1
  }

  /** createRoom's Guess-Who pack: the requested pack, "FUTBOL" when none is given. */
  function PackOrDefault(pack: Option<string>): (r: string)
    ensures pack.Some? ==> r == pack.value
    ensures pack.None? ==> r == "FUTBOL"
  {
    if pack.Some? then pack.value else "FUTBOL"
  }

  // ---------------------------------------------------------------- Impostor round

  /** startImpostorGame's count: the configured count, but never more than leaves one
      player innocent, and never fewer than one. */
  function ImpostorCount(configured: int, players: nat): (k: int)
    ensures k >= 1
    ensures players >= 2 ==> k <= players - 1
    ensures 1 <= configured <= players - 1 ==> k == configured
    ensures 1 <= players - 1 <= configured ==> k == players - 1
    ensures configured < 1 || players <= 1 ==> k == 1
  {
    var k := if configured < players - 1 then configured else players - 1;
    if k < 1 then 1 else k
  }

  /** How many entries are true. */
  function CountTrue(flags: seq<bool>): nat
  {
    if |flags| == 0 then 0 else (if flags[0] then 1 else 0) + CountTrue(flags[1..])
  }

  /** Marking position `i` exactly when `i < k` marks `k` entries, or all of them when
      there are fewer than `k`. */
  lemma {:induction false} FirstMarkedCount(flags: seq<bool>, k: int)
    requires forall i | 0 <= i < |flags| :: flags[i] == (i < k)
    ensures CountTrue(flags) == if k <= 0 then 0 else if k < |flags| then k else |flags|
  {
    if |flags| > 0 {
      FirstMarkedCount(flags[1..], k - 1);
    }
  }

  // ---------------------------------------------------------------- binary vote

  /** processVote's ledger update: the voter joins the side they chose and leaves the other. */
  function RecordVote(yes: set<int>, no: set<int>, voter: int, inFavour: bool): (r: (set<int>, set<int>))
    ensures voter in r.0 <==> inFavour
    ensures voter in r.1 <==> !inFavour
    ensures forall v | v != voter :: (v in r.0 <==> v in yes) && (v in r.1 <==> v in no)
  {
    if inFavour then (yes + {voter}, no - {voter}) else (yes - {voter}, no + {voter})
  }

  /** Last vote wins: the two sides stay disjoint, and a voter who changes their mind is
      still counted once. */
  lemma BallotCount(yes: set<int>, no: set<int>, voter: int, inFavour: bool)
    requires yes !! no
    ensures RecordVote(yes, no, voter, inFavour).0 !! RecordVote(yes, no, voter, inFavour).1
    ensures |RecordVote(yes, no, voter, inFavour).0| + |RecordVote(yes, no, voter, inFavour).1|
            == |yes| + |no| + (if voter in yes + no then 0 else 1)
    ensures |RecordVote(yes, no, voter, inFavour).0| + |RecordVote(yes, no, voter, inFavour).1|
            == |RecordVote(yes, no, voter, inFavour).0 + RecordVote(yes, no, voter, inFavour).1|
  {
    var r := RecordVote(yes, no, voter, inFavour);
    if inFavour {
      if voter in no {
        assert no == r.1 + {voter};
      }
    } else {
      if voter in yes {
        assert yes == r.0 + {voter};
      }
    }
  }

  /** processVote's closing rule: the vote closes once the ballots reach one fewer than
      the number of players in the room. */
  predicate VoteCloses(yes: set<int>, no: set<int>, players: nat)
    ensures players <= 1 ==> VoteCloses(yes, no, players)
    ensures yes == {} && no == {} ==> (VoteCloses(yes, no, players) <==> players <= 1)
  {
    |yes| + |no| >= players - 1
  }

  /** processVote's outcome: strictly more yes than no; a tie is rejected. */
  predicate Approved(yes: set<int>, no: set<int>)
    ensures |yes| == |no| ==> !Approved(yes, no)
    ensures yes != {} && no == {} ==> Approved(yes, no)
  {
    |yes| > |no|
  }

  /** A set inside another of the same size is that set. */
  lemma SubsetOfSameSize(a: set<int>, b: set<int>)
    requires a <= b && |a| == |b|
    ensures a == b
  {
    assert b == a + (b - a);
    assert b - a == {};
  }

  /** When the ballots come from a set of `players - 1` eligible voters, the vote closes
      exactly when every one of them has voted, and never earlier. */
  lemma ClosesExactlyWhenAllVoted(yes: set<int>, no: set<int>, voters: set<int>, players: nat)
    requires yes !! no && yes + no <= voters && |voters| == players - 1
    ensures VoteCloses(yes, no, players) <==> yes + no == voters
  {
    assert |yes + no| == |yes| + |no|;
    if VoteCloses(yes, no, players) {
      assert |yes + no| <= |voters| by {
        assert voters == (yes + no) + (voters - (yes + no));
      }
      SubsetOfSameSize(yes + no, voters);
    }
  }

  // ---------------------------------------------------------------- finishing order

  /** The largest guessOrder present, if any is. */
  function MaxPresent(orders: seq<Option<int>>): (r: Option<int>)
    ensures r.None? <==> forall i | 0 <= i < |orders| :: orders[i].None?
    ensures r.Some? ==> r in orders
    ensures r.Some? ==> forall i | 0 <= i < |orders| && orders[i].Some? :: orders[i].value <= r.value
  {
    if |orders| == 0 then None
    else
      var rest := MaxPresent(orders[1..]);
      assert forall i | 1 <= i < |orders| :: orders[i] == orders[1..][i - 1];
      match orders[0]
      case None => rest
      case Some(g) => if rest.Some? && rest.value > g then rest else Some(g)
  }

  /** executeValidateGuess's fold: the largest guessOrder present in the room, 0 when no
      player has one. */
  function MaxGuessOrder(orders: seq<Option<int>>): (m: int)
    ensures forall i | 0 <= i < |orders| && orders[i].Some? :: orders[i].value < m + 1
    ensures Some(m) in orders || (m == 0 && forall i | 0 <= i < |orders| :: orders[i].None?)
  {
    match MaxPresent(orders)
    case None => 0
    case Some(g) => g
  }

  /** Correct guesses numbered 1..m without gaps get m + 1 next, so the numbering stays
      gapless. */
  lemma NextOrderExtendsGapless(orders: seq<Option<int>>, m: nat)
    requires forall i | 0 <= i < |orders| && orders[i].Some? :: 1 <= orders[i].value <= m
    requires forall g | 1 <= g <= m :: Some(g) in orders
    ensures MaxGuessOrder(orders) + 1 == m + 1
  {
    if m > 0 {
      assert Some(m) in orders;
    }
  }

  // ---------------------------------------------------------------- change of item

  /** The ids of the items the players hold. */
  function AssignedIds(held: seq<Option<CategoryItem>>): (r: set<int>)
    ensures forall k | 0 <= k < |held| && held[k].Some? :: held[k].value.id in r
    ensures forall id | id in r :: exists k | 0 <= k < |held| :: held[k].Some? && held[k].value.id == id
  {
    set k | 0 <= k < |held| && held[k].Some? :: held[k].value.id
  }

  /** executeChange's filter: the pack items whose id no player holds, in pack order. */
  function FreeItems(items: seq<CategoryItem>, taken: set<int>): (r: seq<CategoryItem>)
    ensures forall c :: c in r <==> c in items && c.id !in taken
  {
    if |items| == 0 then []
    else
      var rest := FreeItems(items[1..], taken);
      if items[0].id !in taken then [items[0]] + rest else rest
  }

  /** The list executeChange draws from: the free items, or the whole pack when none is free. */
  function ChangePool(items: seq<CategoryItem>, taken: set<int>): (r: seq<CategoryItem>)
    ensures forall c | c in r :: c in items
    ensures (exists c | c in items :: c.id !in taken) ==> forall c | c in r :: c.id !in taken
    ensures |r| == 0 <==> |items| == 0
  {
    var free := FreeItems(items, taken);
    if |free| == 0 then items else free
  }

  /** The item an approved change assigns: draw `pick` of the pool (the first item after
      the shuffle); an empty pack fails like `get(0)` on an empty list. */
  function ChangePick(items: seq<CategoryItem>, taken: set<int>, pick: nat): (r: Result<CategoryItem>)
    requires |items| > 0 ==> pick < |ChangePool(items, taken)|
    ensures r.Err? <==> |items| == 0
    ensures r.Err? ==> r.error == IndexOutOfBounds
    ensures r.Ok? ==> r.value in items
    ensures r.Ok? && (exists c | c in items :: c.id !in taken) ==> r.value.id !in taken
  {
    var pool := ChangePool(items, taken);
    if |pool| == 0 then Err(IndexOutOfBounds) else Ok(pool[pick])
  }

  /** executeChange as the code stands: `available` is built with `Stream.toList()`, an
      unmodifiable list, so `Collections.shuffle` fails on it with an
      UnsupportedOperationException whenever it holds two or more items; with one item
      there is nothing to swap, and the fallback list comes from the repository and can be
      shuffled. */
  function ChangePickAsWritten(items: seq<CategoryItem>, taken: set<int>, pick: nat): (r: Result<CategoryItem>)
    requires |items| > 0 ==> pick < |ChangePool(items, taken)|
    ensures |FreeItems(items, taken)| >= 2 ==> r == Err(UnsupportedOperation)
    ensures |FreeItems(items, taken)| < 2 ==> r == ChangePick(items, taken, pick)
  {
    var free := FreeItems(items, taken);
    if |free| >= 2 then Err(UnsupportedOperation)
    else if |free| == 1 then Ok(free[0])
    else if |items| == 0 then Err(IndexOutOfBounds)
    else Ok(items[pick])
  }

  /** Whenever two or more items are free, the intended draw succeeds with a free item
      while the code as written fails. */
  lemma AsWrittenFailsWithTwoFree(items: seq<CategoryItem>, taken: set<int>, pick: nat)
    requires |FreeItems(items, taken)| >= 2
    requires pick < |ChangePool(items, taken)|
    ensures ChangePickAsWritten(items, taken, pick).Err?
    ensures ChangePick(items, taken, pick).Ok?
    ensures ChangePick(items, taken, pick).value.id !in taken
  {
    var free := FreeItems(items, taken);
    assert free[0] in items && free[0].id !in taken;
  }

  /** A pack of three with one item held: the change should hand out one of the other two,
      but as written it is rejected. */
  lemma AsWrittenRejectsExample()
    ensures var items := [CategoryItem(1, "A", Some("FUTBOL")), CategoryItem(2, "B", Some("FUTBOL")),
                          CategoryItem(3, "C", Some("FUTBOL"))];
            && ChangePickAsWritten(items, {1}, 0) == Err(UnsupportedOperation)
            && ChangePick(items, {1}, 0) == Ok(CategoryItem(2, "B", Some("FUTBOL")))
  {
    var items := [CategoryItem(1, "A", Some("FUTBOL")), CategoryItem(2, "B", Some("FUTBOL")),
                  CategoryItem(3, "C", Some("FUTBOL"))];
    assert items[1..][1..] == [items[2]];
    assert FreeItems(items[1..][1..], {1}) == [items[2]];
    assert FreeItems(items, {1}) == [items[1], items[2]];
  }
}
