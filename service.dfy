/** GameService: the room registry, the round assignment for both games, and the binary
    yes/no vote that validates guesses and approves changes of item. Every public method
    is one atomic step; the repositories are maps, the broadcasts an appended log. */
module Service {
  import opened Common
  import opened Catalog
  import opened Permutations
  import opened Rules
  import opened Model
  import opened Rounds

  /** What the service publishes on a room's topic. */
  datatype Event =
    | PlayerJoined
    | GameStarted
    | GuessSubmitted(name: string, guess: string, playerId: int)
    | VoteProgress(cast: int, needed: int, voteType: string)
    | GuessValidatedCorrect(name: string)
    | GuessValidatedIncorrect(name: string)
    | ChangeProposed(targetName: string, targetId: int, requesterName: string)
    | ChangeExecuted(name: string)
    | ChangeRejected(name: string)

  /** One message sent to the topic of the room with this code. */
  datatype Broadcast = Broadcast(roomCode: string, event: Event)

  function Names(ps: seq<GamePlayer>): seq<string>
  {
    seq(|ps|, i requires 0 <= i < |ps| => ps[i].name)
  }

  /** The players' states, in list order. */
  function States(ps: seq<GamePlayer>): seq<PlayerState>
    reads ps
  {
    seq(|ps|, i requires 0 <= i < |ps| reads ps => ps[i].State())
  }

  /** Shuffling a list of players shuffles their states the same way. */
  lemma StatesPermuted(ps: seq<GamePlayer>, shuffle: seq<int>)
    requires IsPermutation(shuffle, |ps|)
    ensures States(Permute(ps, shuffle)) == Permute(States(ps), shuffle)
  {
  }

  /** The ids of the items the room's players hold. */
  function TakenIds(room: GameRoom): set<int>
    reads room, room.players
  {
    AssignedIds(HeldItems(States(room.players)))
  }

  /** Neither the room nor any of its players changed. */
  twostate predicate Untouched(room: GameRoom)
    reads room, room.players
  {
    unchanged(room) && forall p | p in room.players :: unchanged(p)
  }

  class GameService {
    /** The room repository, by room code. */
    var roomsByCode: map<string, GameRoom>
    /** The player repository, by id. */
    var playersById: map<int, GamePlayer>
    /** The id the database gives to the next player it saves. */
    var nextPlayerId: int
    /** The category-item repository. */
    const catalog: seq<CategoryItem>
    /** The Impostor word repository. */
    const impostorWords: seq<ImpostorWord>
    /** Every broadcast sent, oldest first. */
    var events: seq<Broadcast>

    /** Codes are unique (each room is filed under its own code); every saved player is in
        its room's list and every listed player is saved; a room lists no player twice, and
        no voter is on both sides of its ledger. */
    ghost predicate Valid()
      reads this, roomsByCode.Values
    {
      DistinctIds(catalog) && CodesFiled() && PlayersFiled() && RoomsConsistent()
    }

    /** Every room is filed under its own code. */
    ghost predicate CodesFiled()
      reads this, roomsByCode.Values
    {
      forall code | code in roomsByCode :: roomsByCode[code].roomCode == code
    }

    /** Every saved player has an id below the next one and is listed in its room, which is
        saved. */
    ghost predicate PlayersFiled()
      reads this, roomsByCode.Values
    {
      forall id | id in playersById ::
        && playersById[id].id == id && id < nextPlayerId
        && playersById[id].room in roomsByCode.Values
        && playersById[id] in playersById[id].room.players
    }

    /** Every room lists each of its players once, all of them saved and pointing back to
        it, and keeps its two ballot sets disjoint. */
    ghost predicate RoomsConsistent()
      reads this, roomsByCode.Values
    {
      forall r | r in roomsByCode.Values ::
        && Distinct(r.players)
        && (forall p | p in r.players :: p.id in playersById && playersById[p.id] == p && p.room == r)
        && r.yesVotes !! r.noVotes
    }

    /** The room filed under `code`, if any. */
    ghost function RoomAt(code: string): set<object>
      reads this
    {
      if code in roomsByCode then {roomsByCode[code]} else {}
    }

    /** The room filed under `code` and its players. */
    ghost function RoomAndPlayers(code: string): set<object>
      reads this, roomsByCode.Values
    {
      if code in roomsByCode then
        (set p | p in roomsByCode[code].players :: p as object) + {roomsByCode[code] as object}
      else {}
    }

    /** The player with this id, if it exists. */
    ghost function PlayerAt(id: int): set<object>
      reads this
    {
      if id in playersById then {playersById[id]} else {}
    }

    /** The player with this id and its room, if the player exists. */
    ghost function PlayerAndRoom(id: int): set<object>
      reads this
    {
      if id in playersById then {playersById[id], playersById[id].room} else {}
    }

    /** The items of a room's pack. */
    function PackItems(room: GameRoom): seq<CategoryItem>
      reads room
    {
      FindByPackType(catalog, room.selectedPack)
    }

    /** The draw of an approved change for `target` is a position in its pool. */
    ghost predicate ChangeDrawFits(target: GamePlayer, pick: nat)
      reads target.room, target.room.players
    {
      |PackItems(target.room)| > 0 ==>
        pick < |ChangePool(PackItems(target.room), TakenIds(target.room))|
    }

    constructor (catalog: seq<CategoryItem>, impostorWords: seq<ImpostorWord>)
      requires DistinctIds(catalog)
      ensures Valid()
      ensures this.catalog == catalog && this.impostorWords == impostorWords
      ensures roomsByCode == map[] && playersById == map[] && events == []
    {
      this.catalog, this.impostorWords := catalog, impostorWords;
      roomsByCode, playersById := map[], map[];
      nextPlayerId := 0;
      events := [];
    }

    // -------------------------------------------------------------- room registry

    /** The room createRoom builds before saving it: WAITING, with the settings of its game. */
    static method NewRoom(code: string, packType: Option<string>, gameType: string,
                          impostorCount: int, hints: bool) returns (room: GameRoom)
      ensures fresh(room) && room.roomCode == code
      ensures room.status == Waiting && room.players == []
      ensures room.yesVotes == {} && room.noVotes == {}
      ensures IsImpostorType(gameType) ==>
                && room.gameType == Impostor && room.selectedPack == None
                && room.impostorCount == ConfiguredImpostors(impostorCount)
                && room.impostorHints == hints
      ensures !IsImpostorType(gameType) ==>
                room.gameType == GuessWho && room.selectedPack == Some(PackOrDefault(packType))
    {
      room := new GameRoom(code);
      room.SetStatus(Waiting);
      var kind := GuessWho;
      if IsImpostorType(gameType) {
        kind := Impostor;
        room.SetImpostorCount(ConfiguredImpostors(impostorCount));
        room.SetImpostorHints(hints);
      } else {
        room.SetSelectedPack(Some(PackOrDefault(packType)));
      }
      room.SetGameType(kind);
    }

    /** Saves a new room whose only player is `host`. */
    method SaveNewRoom(room: GameRoom, host: GamePlayer)
      requires Valid()
      requires room.roomCode !in roomsByCode && room !in roomsByCode.Values
      requires room.players == [host] && host.room == room && host.id == nextPlayerId
      requires room.yesVotes == {} && room.noVotes == {}
      modifies this
      ensures Valid()
      ensures roomsByCode == old(roomsByCode)[room.roomCode := room]
      ensures playersById == old(playersById)[host.id := host]
      ensures nextPlayerId == old(nextPlayerId) + 1 && events == old(events)
    {
      ghost var rooms0, players0 := roomsByCode, playersById;
      roomsByCode := roomsByCode[room.roomCode := room];
      playersById := playersById[host.id := host];
      nextPlayerId := nextPlayerId + 1;
      forall id | id in playersById
        ensures playersById[id].id == id && id < nextPlayerId
        ensures playersById[id].room in roomsByCode.Values
        ensures playersById[id] in playersById[id].room.players
      {
        if id == host.id {
          assert roomsByCode[room.roomCode] == room;
        } else {
          var p := players0[id];
          var c :| c in rooms0 && rooms0[c] == p.room;
          assert c in roomsByCode && roomsByCode[c] == p.room;
        }
      }
      forall r | r in roomsByCode.Values
        ensures Distinct(r.players)
        ensures forall p | p in r.players :: p.id in playersById && playersById[p.id] == p && p.room == r
      {
        if r != room {
          var c :| c in roomsByCode && roomsByCode[c] == r;
          assert c in rooms0 && rooms0[c] == r;
        }
      }
    }

    /** createRoom: a new WAITING room filed under `code`, whose only player is its host.
        The code comes from a random source; a code already in use breaks the unique
        constraint and nothing is saved. */
    method CreateRoom(code: string, playerName: string, packType: Option<string>, gameType: string,
                      impostorCount: int, hints: bool) returns (result: Result<GameRoom>)
      requires Valid()
      modifies this
      ensures Valid()
      ensures events == old(events)
      ensures code in old(roomsByCode) ==>
        && result == Err(RoomCodeTaken)
        && roomsByCode == old(roomsByCode) && playersById == old(playersById)
      ensures code !in old(roomsByCode) ==>
        && result.Ok? && fresh(result.value)
        && roomsByCode == old(roomsByCode)[code := result.value]
        && (var room := result.value;
            && room.roomCode == code && room.status == Waiting
            && room.yesVotes == {} && room.noVotes == {}
            && |room.players| == 1 && fresh(room.players[0])
            && room.players[0].name == playerName && room.players[0].room == room
            && room.players[0].State() == NewPlayer.(host := true)
            && playersById == old(playersById)[room.players[0].id := room.players[0]]
            && room.players[0].id !in old(playersById)
            && (IsImpostorType(gameType) ==>
                  && room.gameType == Impostor && room.selectedPack == None
                  && room.impostorCount == ConfiguredImpostors(impostorCount)
                  && room.impostorHints == hints)
            && (!IsImpostorType(gameType) ==>
                  && room.gameType == GuessWho
                  && room.selectedPack == Some(PackOrDefault(packType))))
    {
      if code in roomsByCode {
        return Err(RoomCodeTaken);
      }
      var room := NewRoom(code, packType, gameType, impostorCount, hints);
      var player := new GamePlayer(nextPlayerId, playerName, room);
      player.SetHost(true);
      // The in-memory link, so that the returned room lists its host.
      room.players := room.players + [player];
      SaveNewRoom(room, player);
      result := Ok(room);
    }

    /** Saves a new player of an existing room. The room's list is the inverse side of the
        player's room reference: once the player is saved, the room lists it last. */
    method SaveJoinedPlayer(room: GameRoom, player: GamePlayer)
      requires Valid() && room in roomsByCode.Values
      requires player.room == room && player.id == nextPlayerId && player !in room.players
      modifies this`playersById, this`nextPlayerId, room
      ensures Valid()
      ensures player.id !in old(playersById)
      ensures playersById == old(playersById)[player.id := player]
      ensures nextPlayerId == old(nextPlayerId) + 1
      ensures room.State() == old(room.State()).(players := old(room.players) + [player])
    {
      ghost var players0 := playersById;
      playersById := playersById[player.id := player];
      nextPlayerId := nextPlayerId + 1;
      room.players := room.players + [player];
      forall id | id in playersById
        ensures playersById[id].id == id && id < nextPlayerId
        ensures playersById[id].room in roomsByCode.Values
        ensures playersById[id] in playersById[id].room.players
      {
        if id != player.id {
          assert playersById[id] == players0[id];
        }
      }
      forall r | r in roomsByCode.Values
        ensures Distinct(r.players)
        ensures forall p | p in r.players :: p.id in playersById && playersById[p.id] == p && p.room == r
      {
        if r == room {
          forall p | p in r.players
            ensures p.id in playersById && playersById[p.id] == p && p.room == r
          {
            if p != player {
              assert p in old(room.players);
            }
          }
        }
      }
    }

    /** joinRoom: fails when the code is unknown, when the room is not WAITING, or when the
        name matches a player's ignoring case; otherwise the room gains exactly one new,
        non-host player at the end of its list, and no existing player changes. */
    method JoinRoom(code: string, playerName: string) returns (result: Result<GamePlayer>)
      requires Valid()
      modifies this, RoomAt(code)
      ensures Valid()
      ensures code !in old(roomsByCode) ==> result == Err(RoomNotFound)
      ensures code in old(roomsByCode) && old(roomsByCode[code].status) != Waiting ==>
                result == Err(GameAlreadyStarted)
      ensures code in old(roomsByCode) && old(roomsByCode[code].status) == Waiting
              && NameTaken(Names(old(roomsByCode[code].players)), playerName) ==>
                result == Err(NameInUse)
      ensures code in old(roomsByCode) && old(roomsByCode[code].status) == Waiting
              && !NameTaken(Names(old(roomsByCode[code].players)), playerName)
              ==> result.Ok?
      ensures result.Err? ==> unchanged(this) && unchanged(RoomAt(code))
      ensures result.Ok? ==>
        && code in old(roomsByCode) && roomsByCode == old(roomsByCode)
        && (var room := roomsByCode[code];
            var player := result.value;
            && fresh(player) && player.name == playerName && player.room == room
            && player.State() == NewPlayer
            && room.State() == old(room.State()).(players := old(room.players) + [player])
            && player.id !in old(playersById)
            && playersById == old(playersById)[player.id := player]
            && events == old(events) + [Broadcast(code, PlayerJoined)])
    {
      if code !in roomsByCode {
        return Err(RoomNotFound);
      }
      var room := roomsByCode[code];
      if room.status != Waiting {
        return Err(GameAlreadyStarted);
      }
      if NameTaken(Names(room.players), playerName) {
        return Err(NameInUse);
      }
      var player := new GamePlayer(nextPlayerId, playerName, room);
      SaveJoinedPlayer(room, player);
      events := events + [Broadcast(code, PlayerJoined)];
      result := Ok(player);
    }

    // -------------------------------------------------------------- round assignment

    /** A room changed only in its non-player fields, its ledger still disjoint, keeps the
        service valid. */
    twostate lemma ValidAfterRoomUpdate()
      requires old(Valid())
      requires unchanged(this`roomsByCode, this`playersById, this`nextPlayerId)
      requires forall r | r in old(roomsByCode.Values) :: r.players == old(r.players)
      requires forall r | r in old(roomsByCode.Values) :: r.yesVotes !! r.noVotes
      ensures Valid()
    {
    }

    /** Reordering one room's player list keeps the service valid. */
    twostate lemma ValidAfterReorder(room: GameRoom)
      requires old(Valid()) && old(room in roomsByCode.Values)
      requires unchanged(this`roomsByCode, this`playersById, this`nextPlayerId)
      requires Distinct(room.players)
      requires forall p | p in old(room.players) :: p in room.players
      requires forall p | p in room.players :: p in old(room.players)
      requires forall r | r in old(roomsByCode.Values) && r != room :: r.players == old(r.players)
      requires forall r | r in old(roomsByCode.Values) :: r.yesVotes !! r.noVotes
      ensures Valid()
    {
    }

    /** The Guess-Who loop: player `i` receives item `i` of the deck and, as its place on
        the board, its position in the seating order. */
    static method DealItems(players: seq<GamePlayer>, deck: seq<CategoryItem>, seats: seq<GamePlayer>)
      requires Distinct(players) && |deck| >= |players|
      modifies set p | p in players
      ensures forall k | 0 <= k < |players| ::
        players[k].State() == old(players[k].State()).(assignedCharacter := Some(deck[k]),
                                                       visualOrder := IndexOf(seats, players[k]))
    {
      var i := 0;
      while i < |players|
        invariant 0 <= i <= |players|
        invariant forall k | 0 <= k < i ::
          players[k].State() == old(players[k].State()).(assignedCharacter := Some(deck[k]),
                                                         visualOrder := IndexOf(seats, players[k]))
        invariant forall k | i <= k < |players| :: players[k].State() == old(players[k].State())
      {
        var p := players[i];
        p.SetAssignedCharacter(Some(deck[i]));
        p.SetVisualOrder(IndexOf(seats, p));
        i := i + 1;
      }
    }

    /** A player's place in the shuffled copy of the list is where the seating permutation
        moved its index, so the loop's effect is the Guess-Who deal. */
    static lemma SeatedDeal(players: seq<GamePlayer>, before: seq<PlayerState>, after: seq<PlayerState>,
                            deck: seq<CategoryItem>, seatShuffle: seq<int>)
      requires Distinct(players) && IsPermutation(seatShuffle, |players|) && |deck| >= |players|
      requires |before| == |after| == |players|
      requires forall k | 0 <= k < |players| ::
        after[k] == before[k].(assignedCharacter := Some(deck[k]),
                               visualOrder := IndexOf(Permute(players, seatShuffle), players[k]))
      ensures after == GuessWhoDeal(before, deck, seatShuffle)
    {
      forall k | 0 <= k < |players|
        ensures after[k] == GuessWhoDeal(before, deck, seatShuffle)[k]
      {
        IndexOfPermuted(players, seatShuffle, k);
      }
    }

    /** The Guess-Who deal on a room whose pack is large enough. */
    static method DealGuessWho(room: GameRoom, characters: seq<CategoryItem>,
                               deckShuffle: seq<int>, seatShuffle: seq<int>)
      requires Distinct(room.players) && |characters| >= |room.players|
      requires IsPermutation(deckShuffle, |characters|)
      requires IsPermutation(seatShuffle, |room.players|)
      modifies room, room.players
      ensures room.State() == old(room.State()).(status := InGame)
      ensures States(room.players)
              == GuessWhoDeal(old(States(room.players)), Permute(characters, deckShuffle), seatShuffle)
    {
      var players := room.players;
      ghost var before := States(players);
      var deck := Permute(characters, deckShuffle);
      var seats := Permute(players, seatShuffle);
      DealItems(players, deck, seats);
      room.SetStatus(InGame);
      SeatedDeal(players, before, States(players), deck, seatShuffle);
    }

    /** startGuessWhoGame: fails when the room's pack has fewer items than the room has
        players; otherwise deals item `i` of the shuffled pack to player `i`, gives every
        player its place in an independently shuffled copy of the list as visual order,
        and starts the round. */
    method StartGuessWhoGame(room: GameRoom, deckShuffle: seq<int>, seatShuffle: seq<int>)
      returns (outcome: Outcome)
      requires Valid() && room in roomsByCode.Values
      requires IsPermutation(deckShuffle, |PackItems(room)|)
      requires IsPermutation(seatShuffle, |room.players|)
      modifies this`events, room, room.players
      ensures Valid()
      ensures |old(PackItems(room))| < |old(room.players)| ==>
        && outcome == Fail(NotEnoughCharacters(|old(PackItems(room))|, |old(room.players)|))
        && unchanged(this) && Untouched(room)
      ensures |old(PackItems(room))| >= |old(room.players)| ==>
        && outcome == Done
        && room.State() == old(room.State()).(status := InGame)
        && States(room.players)
           == GuessWhoDeal(old(States(room.players)), Permute(old(PackItems(room)), deckShuffle), seatShuffle)
        && events == old(events) + [Broadcast(room.roomCode, GameStarted)]
    {
      var characters := PackItems(room);
      if |characters| < |room.players| {
        return Fail(NotEnoughCharacters(|characters|, |room.players|));
      }
      DealGuessWho(room, characters, deckShuffle, seatShuffle);
      ValidAfterRoomUpdate();
      events := events + [Broadcast(room.roomCode, GameStarted)];
      outcome := Done;
    }

    /** The Impostor loop: the first `count` players are impostors and carry the hint when
        hints are on; everybody else is a crewmate with no pending guess. */
    static method MarkImpostors(players: seq<GamePlayer>, count: int, hints: bool, hint: string)
      requires Distinct(players)
      modifies set p | p in players
      ensures States(players) == Marked(old(States(players)), count, hints, hint)
    {
      var i := 0;
      while i < |players|
        invariant 0 <= i <= |players|
        invariant forall k | 0 <= k < i ::
          players[k].State()
          == old(players[k].State()).(impostor := k < count,
                                      pendingGuess := if k < count && hints then Some(hint) else None)
        invariant forall k | i <= k < |players| :: players[k].State() == old(players[k].State())
      {
        var p := players[i];
        p.SetImpostor(i < count);
        if p.impostor && hints {
          p.SetPendingGuess(Some(hint));
        } else {
          p.SetPendingGuess(None);
        }
        i := i + 1;
      }
      assert forall k | 0 <= k < |players| :: States(players)[k] == Marked(old(States(players)), count, hints, hint)[k];
    }

    /** The Impostor shuffle: the room's list is shuffled in place and the first `count`
        players of the new order are marked as impostors. */
    static method ShuffleAndMark(room: GameRoom, shuffle: seq<int>, count: int, hints: bool, hint: string)
      requires Distinct(room.players) && IsPermutation(shuffle, |room.players|)
      modifies room`players, room.players
      ensures room.players == Permute(old(room.players), shuffle)
      ensures States(room.players) == ImpostorDeal(old(States(room.players)), shuffle, count, hints, hint)
    {
      ghost var initial := States(room.players);
      StatesPermuted(room.players, shuffle);
      room.players := Permute(room.players, shuffle);
      var players := room.players;
      MarkImpostors(players, count, hints, hint);
      ImpostorDealMarksShuffled(initial, shuffle, count, hints, hint);
    }

    /** The Impostor deal: records the word, shuffles the player list in place, marks the
        first impostors and starts the round. */
    static method DealImpostor(room: GameRoom, word: ImpostorWord, shuffle: seq<int>)
      requires Distinct(room.players) && IsPermutation(shuffle, |room.players|)
      modifies room, room.players
      ensures room.State()
              == old(room.State()).(status := InGame, players := Permute(old(room.players), shuffle),
                                    currentCategory := Some(word.category),
                                    currentWord := Some(word.word))
      ensures States(room.players)
              == ImpostorDeal(old(States(room.players)), shuffle,
                              ImpostorCount(old(room.impostorCount), |old(room.players)|),
                              old(room.impostorHints), word.hint)
    {
      var count := ImpostorCount(room.impostorCount, |room.players|);
      room.SetCurrentCategory(Some(word.category));
      room.SetCurrentWord(Some(word.word));
      ShuffleAndMark(room, shuffle, count, room.impostorHints, word.hint);
      room.SetStatus(InGame);
    }

    /** startImpostorGame: fails when no word is configured; otherwise takes the drawn
        word, shuffles the room's player list in place, makes the first
        max(1, min(impostorCount, players - 1)) of it impostors, gives them the hint when
        hints are on, and starts the round. */
    method StartImpostorGame(room: GameRoom, wordPick: nat, playerShuffle: seq<int>)
      returns (outcome: Outcome)
      requires Valid() && room in roomsByCode.Values
      requires |impostorWords| > 0 ==> wordPick < |impostorWords|
      requires IsPermutation(playerShuffle, |room.players|)
      modifies this`events, room, room.players
      ensures Valid()
      ensures |impostorWords| == 0 ==>
        outcome == Fail(NoImpostorWords) && unchanged(this) && Untouched(room)
      ensures |impostorWords| > 0 ==>
        var word := impostorWords[wordPick];
        && outcome == Done
        && room.State()
           == old(room.State()).(status := InGame, players := Permute(old(room.players), playerShuffle),
                                 currentCategory := Some(word.category),
                                 currentWord := Some(word.word))
        && States(room.players)
           == ImpostorDeal(old(States(room.players)), playerShuffle,
                           ImpostorCount(old(room.impostorCount), |old(room.players)|),
                           old(room.impostorHints), word.hint)
        && events == old(events) + [Broadcast(room.roomCode, GameStarted)]
    {
      if |impostorWords| == 0 {
        return Fail(NoImpostorWords);
      }
      DealImpostor(room, impostorWords[wordPick], playerShuffle);
      ValidAfterReorder(room);
      events := events + [Broadcast(room.roomCode, GameStarted)];
      outcome := Done;
    }

    /** startGame: the room must exist; an Impostor room plays the Impostor deal, any other
        room the Guess-Who deal. The room's status is not checked. */
    method StartGame(code: string, deckShuffle: seq<int>, seatShuffle: seq<int>, wordPick: nat,
                     playerShuffle: seq<int>) returns (outcome: Outcome)
      requires Valid()
      requires code in roomsByCode ==>
        && IsPermutation(deckShuffle, |PackItems(roomsByCode[code])|)
        && IsPermutation(seatShuffle, |roomsByCode[code].players|)
        && IsPermutation(playerShuffle, |roomsByCode[code].players|)
        && (|impostorWords| > 0 ==> wordPick < |impostorWords|)
      modifies this`events, RoomAndPlayers(code)
      ensures Valid()
      ensures code !in roomsByCode ==> outcome == Fail(RoomNotFound) && unchanged(this)
      ensures code in roomsByCode && old(roomsByCode[code].gameType) == Impostor ==>
        var room := roomsByCode[code];
        && (|impostorWords| == 0 ==> outcome == Fail(NoImpostorWords) && unchanged(this) && Untouched(room))
        && (|impostorWords| > 0 ==>
              var word := impostorWords[wordPick];
              && outcome == Done
              && room.State()
                 == old(room.State()).(status := InGame, players := Permute(old(room.players), playerShuffle),
                                       currentCategory := Some(word.category),
                                       currentWord := Some(word.word))
              && States(room.players)
                 == ImpostorDeal(old(States(room.players)), playerShuffle,
                                 ImpostorCount(old(room.impostorCount), |old(room.players)|),
                                 old(room.impostorHints), word.hint)
              && events == old(events) + [Broadcast(code, GameStarted)])
      ensures code in roomsByCode && old(roomsByCode[code].gameType) != Impostor ==>
        var room := roomsByCode[code];
        && (|old(PackItems(room))| < |old(room.players)| ==>
              && outcome == Fail(NotEnoughCharacters(|old(PackItems(room))|, |old(room.players)|))
              && unchanged(this) && Untouched(room))
        && (|old(PackItems(room))| >= |old(room.players)| ==>
              && outcome == Done
              && room.State() == old(room.State()).(status := InGame)
              && States(room.players)
                 == GuessWhoDeal(old(States(room.players)), Permute(old(PackItems(room)), deckShuffle),
                                 seatShuffle)
              && events == old(events) + [Broadcast(code, GameStarted)])
    {
      if code !in roomsByCode {
        return Fail(RoomNotFound);
      }
      var room := roomsByCode[code];
      assert forall p | p in room.players :: p in RoomAndPlayers(code);
      if room.gameType == Impostor {
        outcome := StartImpostorGame(room, wordPick, playerShuffle);
      } else {
        outcome := StartGuessWhoGame(room, deckShuffle, seatShuffle);
      }
    }

    /** The replay loop: player `i` receives item `i` of the deck and loses its guessed
        flag, pending guess and place among the guessers. */
    static method RedealItems(players: seq<GamePlayer>, deck: seq<CategoryItem>)
      requires Distinct(players) && |deck| >= |players|
      modifies set p | p in players
      ensures States(players) == ResetDeal(old(States(players)), deck)
    {
      var i := 0;
      while i < |players|
        invariant 0 <= i <= |players|
        invariant forall k | 0 <= k < i ::
          players[k].State()
          == old(players[k].State()).(assignedCharacter := Some(deck[k]), guessed := false,
                                      pendingGuess := None, guessOrder := None)
        invariant forall k | i <= k < |players| :: players[k].State() == old(players[k].State())
      {
        var p := players[i];
        p.SetAssignedCharacter(Some(deck[i]));
        p.SetGuessed(false);
        p.SetPendingGuess(None);
        p.SetGuessOrder(None);
        i := i + 1;
      }
      assert forall k | 0 <= k < |players| :: States(players)[k] == ResetDeal(old(States(players)), deck)[k];
    }

    /** resetGame: whatever the game type, deals the Guess-Who items again from the room's
        pack, clears every player's guessed flag, pending guess and place, and starts the
        round; fails like startGuessWhoGame when the pack is too small. */
    method ResetGame(code: string, deckShuffle: seq<int>) returns (outcome: Outcome)
      requires Valid()
      requires code in roomsByCode ==> IsPermutation(deckShuffle, |PackItems(roomsByCode[code])|)
      modifies this`events, RoomAndPlayers(code)
      ensures Valid()
      ensures code !in roomsByCode ==> outcome == Fail(RoomNotFound) && unchanged(this)
      ensures code in roomsByCode ==>
        var room := roomsByCode[code];
        && (|old(PackItems(room))| < |old(room.players)| ==>
              && outcome == Fail(NotEnoughCharacters(|old(PackItems(room))|, |old(room.players)|))
              && unchanged(this) && Untouched(room))
        && (|old(PackItems(room))| >= |old(room.players)| ==>
              && outcome == Done
              && room.State() == old(room.State()).(status := InGame)
              && States(room.players)
                 == ResetDeal(old(States(room.players)), Permute(old(PackItems(room)), deckShuffle))
              && events == old(events) + [Broadcast(code, GameStarted)])
    {
      if code !in roomsByCode {
        return Fail(RoomNotFound);
      }
      var room := roomsByCode[code];
      var players := room.players;
      var characters := PackItems(room);
      if |characters| < |players| {
        return Fail(NotEnoughCharacters(|characters|, |players|));
      }
      assert Distinct(players);
      RedealItems(players, Permute(characters, deckShuffle));
      room.SetStatus(InGame);
      ValidAfterRoomUpdate();
      events := events + [Broadcast(code, GameStarted)];
      outcome := Done;
    }
  
    // -------------------------------------------------------------- guesses and changes

    /** submitGuess: the player must exist; records the guess as pending and announces it
        with the player's name and id. */
    method SubmitGuess(id: int, guess: string) returns (outcome: Outcome)
      requires Valid()
      modifies this`events, PlayerAt(id)
      ensures Valid()
      ensures id !in playersById ==> outcome == Fail(PlayerNotFound) && unchanged(this)
      ensures id in playersById ==>
        var player := playersById[id];
        && outcome == Done
        && player.State() == old(player.State()).(pendingGuess := Some(guess))
        && events == old(events) + [Broadcast(player.room.roomCode, GuessSubmitted(player.name, guess, id))]
    {
      if id !in playersById {
        return Fail(PlayerNotFound);
      }
      var player := playersById[id];
      player.SetPendingGuess(Some(guess));
      events := events + [Broadcast(player.room.roomCode, GuessSubmitted(player.name, guess, id))];
      outcome := Done;
    }

    /** executeValidateGuess, called by a closing GUESS vote on an existing player: the
        player's state becomes ValidateGuess of it, ranked against the places held in its
        room, and the verdict is announced. */
    method ExecuteValidateGuess(id: int, correct: bool)
      requires Valid() && id in playersById
      modifies this`events, PlayerAt(id)
      ensures Valid()
      ensures var player := playersById[id];
        && player.State()
           == ValidateGuess(old(player.State()), correct, old(Ranks(States(player.room.players))))
        && events == old(events) + [Broadcast(player.room.roomCode,
                                              if correct then GuessValidatedCorrect(player.name)
                                              else GuessValidatedIncorrect(player.name))]
    {
      var player := playersById[id];
      var ranks := Ranks(States(player.room.players));
      if correct {
        player.SetGuessed(true);
        player.SetPendingGuess(None);
        var currentMax := MaxGuessOrder(ranks);
        player.SetGuessOrder(Some(currentMax + 1));
        events := events + [Broadcast(player.room.roomCode, GuessValidatedCorrect(player.name))];
      } else {
        player.SetPendingGuess(None);
        events := events + [Broadcast(player.room.roomCode, GuessValidatedIncorrect(player.name))];
      }
    }

    /** proposeChange: both players must exist, the target first; announces the proposal
        on the target's room and changes nothing else. */
    method ProposeChange(targetId: int, requesterId: int) returns (outcome: Outcome)
      requires Valid()
      modifies this`events
      ensures Valid()
      ensures targetId !in playersById ==> outcome == Fail(TargetNotFound) && events == old(events)
      ensures targetId in playersById && requesterId !in playersById ==>
        outcome == Fail(RequesterNotFound) && events == old(events)
      ensures targetId in playersById && requesterId in playersById ==>
        var target := playersById[targetId];
        && outcome == Done
        && events == old(events) + [Broadcast(target.room.roomCode,
                                              ChangeProposed(target.name, targetId, playersById[requesterId].name))]
    {
      if targetId !in playersById {
        return Fail(TargetNotFound);
      }
      var target := playersById[targetId];
      if requesterId !in playersById {
        return Fail(RequesterNotFound);
      }
      var requester := playersById[requesterId];
      events := events + [Broadcast(target.room.roomCode, ChangeProposed(target.name, targetId, requester.name))];
      outcome := Done;
    }

    /** executeChange: the target must exist; it receives draw `pick` of its pack's items
        that no player of its room holds, or of the whole pack when none is free. An empty
        pack fails as the draw from an empty list does, changing nothing. */
    method ExecuteChange(targetId: int, pick: nat) returns (outcome: Outcome)
      requires Valid()
      requires targetId in playersById ==> ChangeDrawFits(playersById[targetId], pick)
      modifies this`events, PlayerAt(targetId)
      ensures Valid()
      ensures targetId !in playersById ==> outcome == Fail(TargetNotFound) && unchanged(this)
      ensures targetId in playersById ==>
        var target := playersById[targetId];
        var drawn := ChangePick(old(PackItems(target.room)), old(TakenIds(target.room)), pick);
        && (drawn.Err? ==> outcome == Fail(drawn.error) && unchanged(this) && unchanged(target))
        && (drawn.Ok? ==>
              && outcome == Done
              && target.State() == old(target.State()).(assignedCharacter := Some(drawn.value))
              && events == old(events) + [Broadcast(target.room.roomCode, ChangeExecuted(target.name))])
    {
      if targetId !in playersById {
        return Fail(TargetNotFound);
      }
      var target := playersById[targetId];
      var characters := PackItems(target.room);
      var drawn := ChangePick(characters, TakenIds(target.room), pick);
      if drawn.Err? {
        return Fail(drawn.error);
      }
      target.SetAssignedCharacter(Some(drawn.value));
      events := events + [Broadcast(target.room.roomCode, ChangeExecuted(target.name))];
      outcome := Done;
    }

    // -------------------------------------------------------------- the binary vote

    /** What a closed vote does to its target: a GUESS vote validates the pending guess; a
        change vote, when approved, executes the change, and a rejected vote or a change that
        fails is announced as rejected. */
    method SettleVote(target: GamePlayer, voteType: string, approved: bool, pick: nat)
      requires Valid() && target.id in playersById && playersById[target.id] == target
      requires voteType != "GUESS" ==> ChangeDrawFits(target, pick)
      modifies this`events, target
      ensures Valid()
      ensures voteType == "GUESS" ==>
        && target.State()
           == ValidateGuess(old(target.State()), approved, old(Ranks(States(target.room.players))))
        && events == old(events) + [Broadcast(target.room.roomCode,
                                              if approved then GuessValidatedCorrect(target.name)
                                              else GuessValidatedIncorrect(target.name))]
      ensures voteType != "GUESS" ==>
        var drawn := ChangePick(old(PackItems(target.room)), old(TakenIds(target.room)), pick);
        && (approved && drawn.Ok? ==>
              && target.State() == old(target.State()).(assignedCharacter := Some(drawn.value))
              && events == old(events) + [Broadcast(target.room.roomCode, ChangeExecuted(target.name))])
        && (!(approved && drawn.Ok?) ==>
              && target.State() == old(target.State())
              && events == old(events) + [Broadcast(target.room.roomCode, ChangeRejected(target.name))])
    {
      if voteType == "GUESS" {
        ExecuteValidateGuess(target.id, approved);
      } else if approved {
        var changed := ExecuteChange(target.id, pick);
        if changed.Fail? {
          events := events + [Broadcast(target.room.roomCode, ChangeRejected(target.name))];
        }
      } else {
        events := events + [Broadcast(target.room.roomCode, ChangeRejected(target.name))];
      }
    }

    /** Records the ballot in place and announces the progress: the ballots cast, and every
        player of the room but one as needed. */
    method RecordBallot(room: GameRoom, voterId: int, inFavour: bool, voteType: string)
      requires Valid() && room in roomsByCode.Values
      modifies this`events, room
      ensures Valid()
      ensures var ballots := RecordVote(old(room.yesVotes), old(room.noVotes), voterId, inFavour);
        && room.State() == old(room.State()).(yesVotes := ballots.0, noVotes := ballots.1)
        && events == old(events) + [Broadcast(room.roomCode, VoteProgress(|ballots.0| + |ballots.1|,
                                                                          |old(room.players)| - 1, voteType))]
    {
      ghost var ballots := RecordVote(room.yesVotes, room.noVotes, voterId, inFavour);
      assert ballots.0 !! ballots.1 by {
        BallotCount(room.yesVotes, room.noVotes, voterId, inFavour);
      }
      ghost var seats := room.players;
      room.CastBallot(voterId, inFavour);
      assert room.yesVotes == ballots.0 && room.noVotes == ballots.1 && room.players == seats;
      var needed := |room.players| - 1;
      var cast := |room.yesVotes| + |room.noVotes|;
      events := events + [Broadcast(room.roomCode, VoteProgress(cast, needed, voteType))];
      ValidAfterRoomUpdate();
    }

    /** Clears the ledger and the voting tags of a closed vote. */
    method CloseBallot(room: GameRoom)
      requires Valid() && room in roomsByCode.Values
      modifies room
      ensures Valid()
      ensures room.State() == old(room.State()).(yesVotes := {}, noVotes := {}, votingType := None,
                                                 votingTargetId := None)
    {
      room.ClearVotes();
      room.SetVotingType(None);
      room.SetVotingTargetId(None);
      ValidAfterRoomUpdate();
    }

    /** The ledger half of processVote: records the ballot, announces the progress and,
        once the vote closes, clears the ledger and the voting tags. The closing count is
        every player of the room but one, and a tie is rejected. */
    method TallyBallot(room: GameRoom, voterId: int, inFavour: bool, voteType: string)
      returns (closes: bool, approved: bool)
      requires Valid() && room in roomsByCode.Values
      modifies this`events, room
      ensures Valid()
      ensures room.yesVotes !! room.noVotes
      ensures var ballots := RecordVote(old(room.yesVotes), old(room.noVotes), voterId, inFavour);
        && ballots.0 !! ballots.1
        && closes == VoteCloses(ballots.0, ballots.1, |old(room.players)|)
        && approved == Approved(ballots.0, ballots.1)
        && events == old(events) + [Broadcast(room.roomCode, VoteProgress(|ballots.0| + |ballots.1|,
                                                                          |old(room.players)| - 1, voteType))]
        && (!closes ==> room.State() == old(room.State()).(yesVotes := ballots.0, noVotes := ballots.1))
        && (closes ==> room.State() == old(room.State()).(yesVotes := {}, noVotes := {}, votingType := None,
                                                          votingTargetId := None))
    {
      assert RecordVote(room.yesVotes, room.noVotes, voterId, inFavour).0
             !! RecordVote(room.yesVotes, room.noVotes, voterId, inFavour).1 by {
        BallotCount(room.yesVotes, room.noVotes, voterId, inFavour);
      }
      RecordBallot(room, voterId, inFavour, voteType);
      closes := |room.yesVotes| + |room.noVotes| >= |room.players| - 1;
      approved := |room.yesVotes| > |room.noVotes|;
      if closes {
        CloseBallot(room);
      }
    }

    /** The vote on a saved player: the ballot is recorded in its room and announced and,
        once the vote closes, the ledger is cleared and the vote settles for the player. */
    method CastVote(target: GamePlayer, voterId: int, inFavour: bool, voteType: string, pick: nat)
      requires Valid() && target.id in playersById && playersById[target.id] == target
      requires voteType != "GUESS" ==> ChangeDrawFits(target, pick)
      modifies this`events, target, target.room
      ensures Valid()
      ensures
        var room := target.room;
        var ballots := RecordVote(old(room.yesVotes), old(room.noVotes), voterId, inFavour);
        var progress := Broadcast(room.roomCode,
                                  VoteProgress(|ballots.0| + |ballots.1|, |old(room.players)| - 1, voteType));
        && |events| > |old(events)| && events[..|old(events)| + 1] == old(events) + [progress]
        && (!VoteCloses(ballots.0, ballots.1, |old(room.players)|) ==>
              && room.State() == old(room.State()).(yesVotes := ballots.0, noVotes := ballots.1)
              && target.State() == old(target.State())
              && events == old(events) + [progress])
        && (VoteCloses(ballots.0, ballots.1, |old(room.players)|) ==>
              && room.State() == old(room.State()).(yesVotes := {}, noVotes := {}, votingType := None,
                                                    votingTargetId := None)
              && |events| == |old(events)| + 2)
        && (VoteCloses(ballots.0, ballots.1, |old(room.players)|) && voteType == "GUESS" ==>
              && target.State()
                 == ValidateGuess(old(target.State()), Approved(ballots.0, ballots.1),
                                  old(Ranks(States(room.players))))
              && events[|old(events)| + 1]
                 == Broadcast(room.roomCode, if Approved(ballots.0, ballots.1) then GuessValidatedCorrect(target.name)
                                             else GuessValidatedIncorrect(target.name)))
        && (VoteCloses(ballots.0, ballots.1, |old(room.players)|) && voteType != "GUESS" ==>
              var drawn := ChangePick(old(PackItems(room)), old(TakenIds(room)), pick);
              && (Approved(ballots.0, ballots.1) && drawn.Ok? ==>
                    && target.State() == old(target.State()).(assignedCharacter := Some(drawn.value))
                    && events[|old(events)| + 1] == Broadcast(room.roomCode, ChangeExecuted(target.name)))
              && (!(Approved(ballots.0, ballots.1) && drawn.Ok?) ==>
                    && target.State() == old(target.State())
                    && events[|old(events)| + 1] == Broadcast(room.roomCode, ChangeRejected(target.name))))
    {
      var room := target.room;
      ghost var pack, taken, ranks := PackItems(room), TakenIds(room), Ranks(States(room.players));
      var closes, approved := TallyBallot(room, voterId, inFavour, voteType);
      if closes {
        assert PackItems(room) == pack && TakenIds(room) == taken && Ranks(States(room.players)) == ranks;
        SettleVote(target, voteType, approved, pick);
      }
    }

    /** processVote: the target must exist. The voter's ballot replaces any earlier one in
        the target's room and the progress is announced, counting every player of the room
        but one as needed. Once the ballots reach that number the vote closes: the ledger
        and the voting tags are cleared, and the vote settles for its target, approved on a
        strict majority of yes. */
    method ProcessVote(targetId: int, voterId: int, inFavour: bool, voteType: string, pick: nat)
      returns (outcome: Outcome)
      requires Valid()
      requires targetId in playersById && voteType != "GUESS" ==> ChangeDrawFits(playersById[targetId], pick)
      modifies this`events, PlayerAndRoom(targetId)
      ensures Valid()
      ensures targetId !in playersById ==> outcome == Fail(TargetNotFound) && unchanged(this)
      ensures targetId in playersById ==>
        var target := playersById[targetId];
        var room := target.room;
        var ballots := RecordVote(old(room.yesVotes), old(room.noVotes), voterId, inFavour);
        var progress := Broadcast(room.roomCode,
                                  VoteProgress(|ballots.0| + |ballots.1|, |old(room.players)| - 1, voteType));
        && outcome == Done
        && |events| > |old(events)| && events[..|old(events)| + 1] == old(events) + [progress]
        && (!VoteCloses(ballots.0, ballots.1, |old(room.players)|) ==>
              && room.State() == old(room.State()).(yesVotes := ballots.0, noVotes := ballots.1)
              && target.State() == old(target.State())
              && events == old(events) + [progress])
        && (VoteCloses(ballots.0, ballots.1, |old(room.players)|) ==>
              && room.State() == old(room.State()).(yesVotes := {}, noVotes := {}, votingType := None,
                                                    votingTargetId := None)
              && |events| == |old(events)| + 2)
        && (VoteCloses(ballots.0, ballots.1, |old(room.players)|) && voteType == "GUESS" ==>
              && target.State()
                 == ValidateGuess(old(target.State()), Approved(ballots.0, ballots.1),
                                  old(Ranks(States(room.players))))
              && events[|old(events)| + 1]
                 == Broadcast(room.roomCode, if Approved(ballots.0, ballots.1) then GuessValidatedCorrect(target.name)
                                             else GuessValidatedIncorrect(target.name)))
        && (VoteCloses(ballots.0, ballots.1, |old(room.players)|) && voteType != "GUESS" ==>
              var drawn := ChangePick(old(PackItems(room)), old(TakenIds(room)), pick);
              && (Approved(ballots.0, ballots.1) && drawn.Ok? ==>
                    && target.State() == old(target.State()).(assignedCharacter := Some(drawn.value))
                    && events[|old(events)| + 1] == Broadcast(room.roomCode, ChangeExecuted(target.name)))
              && (!(Approved(ballots.0, ballots.1) && drawn.Ok?) ==>
                    && target.State() == old(target.State())
                    && events[|old(events)| + 1] == Broadcast(room.roomCode, ChangeRejected(target.name))))
    {
      if targetId !in playersById {
        return Fail(TargetNotFound);
      }
      CastVote(playersById[targetId], voterId, inFavour, voteType, pick);
      outcome := Done;
    }
  }
}
