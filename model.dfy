/** The two entities GameService works on: a room and the players in it. Both are
    mutable objects whose fields change one setter at a time. */
module Model {
  import opened Common
  import opened Catalog
  import opened Rules

  /** A room is waiting for players, playing a round, or over. */
  datatype RoomStatus = Waiting | InGame | Finished

  datatype GameType = GuessWho | Impostor

  /** The fields of a room that change after it is created, as one value. */
  datatype RoomState = RoomState(
    status: RoomStatus,
    players: seq<GamePlayer>,
    votingTargetId: Option<int>,
    votingType: Option<string>,
    yesVotes: set<int>,
    noVotes: set<int>,
    gameType: GameType,
    selectedPack: Option<string>,
    impostorCount: int,
    impostorHints: bool,
    currentCategory: Option<string>,
    currentWord: Option<string>)

  /** The fields of a player that change after it joins, as one value. */
  datatype PlayerState = PlayerState(
    assignedCharacter: Option<CategoryItem>,
    host: bool,
    guessed: bool,
    pendingGuess: Option<string>,
    guessOrder: Option<int>,
    visualOrder: int,
    impostor: bool)

  /** The state of a player who has just been created. */
  const NewPlayer := PlayerState(None, false, false, None, None, 0, false)

  class GameRoom {
    /** Unique and never null; set once when the room is created. */
    const roomCode: string
    var status: RoomStatus
    /** The players in join order (until an Impostor round shuffles them). */
    var players: seq<GamePlayer>
    var votingTargetId: Option<int>
    var votingType: Option<string>
    /** Ids of the players who voted yes, and no, in the open binary vote. */
    var yesVotes: set<int>
    var noVotes: set<int>
    var gameType: GameType
    var selectedPack: Option<string>
    var impostorCount: int
    var impostorHints: bool
    var currentCategory: Option<string>
    var currentWord: Option<string>

    /** A new room waits for players, has none, and has no votes. */
    constructor (roomCode: string)
      ensures this.roomCode == roomCode
      ensures status == Waiting && players == []
      ensures yesVotes == {} && noVotes == {} && votingTargetId == None && votingType == None
      ensures gameType == GuessWho && selectedPack == None && impostorCount == 0 && !impostorHints
      ensures currentCategory == None && currentWord == None
    {
      this.roomCode := roomCode;
      status := Waiting;
      players := [];
      votingTargetId, votingType := None, None;
      yesVotes, noVotes := {}, {};
      gameType := GuessWho;
      selectedPack := None;
      impostorCount, impostorHints := 0, false;
      currentCategory, currentWord := None, None;
    }

    function State(): RoomState
      reads this
    {
      RoomState(status, players, votingTargetId, votingType, yesVotes, noVotes, gameType,
                selectedPack, impostorCount, impostorHints, currentCategory, currentWord)
    }

    method SetStatus(status: RoomStatus)
      modifies this
      ensures State() == old(State()).(status := status)
    {
      this.status := status;
    }

    method SetGameType(gameType: GameType)
      modifies this
      ensures State() == old(State()).(gameType := gameType)
    {
      this.gameType := gameType;
    }

    method SetSelectedPack(selectedPack: Option<string>)
      modifies this
      ensures State() == old(State()).(selectedPack := selectedPack)
    {
      this.selectedPack := selectedPack;
    }

    method SetImpostorCount(impostorCount: int)
      modifies this
      ensures State() == old(State()).(impostorCount := impostorCount)
    {
      this.impostorCount := impostorCount;
    }

    method SetImpostorHints(impostorHints: bool)
      modifies this
      ensures State() == old(State()).(impostorHints := impostorHints)
    {
      this.impostorHints := impostorHints;
    }

    method SetCurrentCategory(currentCategory: Option<string>)
      modifies this
      ensures State() == old(State()).(currentCategory := currentCategory)
    {
      this.currentCategory := currentCategory;
    }

    method SetCurrentWord(currentWord: Option<string>)
      modifies this
      ensures State() == old(State()).(currentWord := currentWord)
    {
      this.currentWord := currentWord;
    }

    method SetVotingType(votingType: Option<string>)
      modifies this
      ensures State() == old(State()).(votingType := votingType)
    {
      this.votingType := votingType;
    }

    method SetVotingTargetId(votingTargetId: Option<int>)
      modifies this
      ensures State() == old(State()).(votingTargetId := votingTargetId)
    {
      this.votingTargetId := votingTargetId;
    }

    /** Records `voter`'s ballot in the two sets in place: added to the side it chose and
        removed from the other. */
    method CastBallot(voter: int, inFavour: bool)
      modifies this
      ensures State() == old(State()).(yesVotes := RecordVote(old(yesVotes), old(noVotes), voter, inFavour).0,
                                       noVotes := RecordVote(old(yesVotes), old(noVotes), voter, inFavour).1)
    {
      if inFavour {
        yesVotes := yesVotes + {voter};
        noVotes := noVotes - {voter};
      } else {
        noVotes := noVotes + {voter};
        yesVotes := yesVotes - {voter};
      }
    }

    /** Empties both ballot sets in place. */
    method ClearVotes()
      modifies this
      ensures State() == old(State()).(yesVotes := {}, noVotes := {})
    {
      yesVotes := {};
      noVotes := {};
    }
  }

  class GamePlayer {
    /** The id the player repository gave it. */
    const id: int
    const name: string
    /** The one room the player belongs to; it never changes. */
    const room: GameRoom
    var assignedCharacter: Option<CategoryItem>
    var host: bool
    var guessed: bool
    /** A guess waiting for the vote, or, in an Impostor round, the impostor's hint. */
    var pendingGuess: Option<string>
    /** The player's place among correct guesses, once they have guessed. */
    var guessOrder: Option<int>
    var visualOrder: int
    var impostor: bool

    /** A new player is not the host, has not guessed, and has no pending guess and no place. */
    constructor (id: int, name: string, room: GameRoom)
      ensures this.id == id && this.name == name && this.room == room
      ensures State() == NewPlayer
    {
      this.id, this.name, this.room := id, name, room;
      assignedCharacter := None;
      host, guessed := false, false;
      pendingGuess, guessOrder := None, None;
      visualOrder := 0;
      impostor := false;
    }

    function State(): PlayerState
      reads this
    {
      PlayerState(assignedCharacter, host, guessed, pendingGuess, guessOrder, visualOrder, impostor)
    }

    method SetAssignedCharacter(assignedCharacter: Option<CategoryItem>)
      modifies this
      ensures State() == old(State()).(assignedCharacter := assignedCharacter)
    {
      this.assignedCharacter := assignedCharacter;
    }

    method SetHost(host: bool)
      modifies this
      ensures State() == old(State()).(host := host)
    {
      this.host := host;
    }

    method SetGuessed(guessed: bool)
      modifies this
      ensures State() == old(State()).(guessed := guessed)
    {
      this.guessed := guessed;
    }

    method SetPendingGuess(pendingGuess: Option<string>)
      modifies this
      ensures State() == old(State()).(pendingGuess := pendingGuess)
    {
      this.pendingGuess := pendingGuess;
    }

    method SetGuessOrder(guessOrder: Option<int>)
      modifies this
      ensures State() == old(State()).(guessOrder := guessOrder)
    {
      this.guessOrder := guessOrder;
    }

    method SetVisualOrder(visualOrder: int)
      modifies this
      ensures State() == old(State()).(visualOrder := visualOrder)
    {
      this.visualOrder := visualOrder;
    }

    method SetImpostor(impostor: bool)
      modifies this
      ensures State() == old(State()).(impostor := impostor)
    {
      this.impostor := impostor;
    }
  }
}
