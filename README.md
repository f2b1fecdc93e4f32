# soccergame: the room and round logic of GameService

This project models the session core of *soccergame*, a party game server with two games.
In Guess-Who, every player is dealt a secret item of a pack and tries to guess it. In
Impostor, a few players are secretly impostors who do not know the round's word.

The model covers:

- the `GameRoom` and `GamePlayer` entities, whose fields change one setter at a time;
- the `GameService` operations that create and join rooms;
- the operations that start, and replay, the rounds of both games;
- the binary yes/no vote that validates a guess or approves a change of item.

The Spring repositories become maps from room code and from player id. The websocket
broadcasts become an appended log of `Broadcast` values. Every shuffle and random draw is
an argument: a permutation or an index chosen by the caller.

Modules, in dependency order:

- `Common`: `Option`, `Result`, `Outcome`, and the errors the service throws.
- `Text`: `equalsIgnoreCase` over ASCII letters.
- `Catalog`: the pack items, the Impostor words, and `findByPackType`.
- `Permutations`: permutations, `Collections.shuffle` as `Permute`, `List.indexOf`, and inverse permutations.
- `Rules`: the parts of the service that only compute: the room settings, the impostor count, the vote ledger and its tally, the finishing order, and the draw of a change.
- `Model`: the two entity classes, each with a value snapshot (`State()`) of its mutable fields.
- `Rounds`: the deals, the validation of a guess and the change of item, as functions on the players' snapshots, with their properties.
- `Service`: the `GameService` class. Its invariant `Valid()` says that codes are unique, that every saved player is listed in its own room, that no room lists a player twice, and that no voter is on both sides of a room's ledger. Each public method preserves `Valid()` and states the new state of what it touches.

## Model

| member | source | states |
|---|---|---|
| Text.EqualsIgnoreCase | src/main/java/com/example/soccergame/service/GameService.java:73 | two strings match exactly when they are equal once every ASCII letter is upper-cased: letter case is ignored and nothing else; equal strings match, and matching strings have the same length |
| Text.EqualsIgnoreCaseSymmetric | src/main/java/com/example/soccergame/service/GameService.java:73 | the comparison gives the same answer with its arguments swapped |
| Text.MatchesCaseVariants | src/main/java/com/example/soccergame/service/GameService.java:73 | a string matches its all-upper-case and its all-lower-case spelling |
| Catalog.FindByPackType | src/main/java/com/example/soccergame/repository/CategoryItemRepository.java:8 | the rows found are exactly the catalog rows whose pack equals the requested one (a null pack finds the null rows); unique ids stay unique |
| Permutations.Permute | src/main/java/com/example/soccergame/service/GameService.java:109 | a shuffle keeps the length and the elements: every result element comes from the input and every input element is in the result; no repeats appear when the input has none |
| Permutations.PermuteKeepsMultiset | src/main/java/com/example/soccergame/service/GameService.java:109 | a shuffle is a permutation of the list: every element occurs as often after it as before |
| Permutations.IndexOf | src/main/java/com/example/soccergame/service/GameService.java:118 | the position of the first occurrence, -1 exactly when the element is absent |
| Permutations.InverseIsPermutation | src/main/java/com/example/soccergame/service/GameService.java:111-118 | the positions of 0..n-1 in a permutation form a permutation, and undo it |
| Permutations.IndexOfPermuted | src/main/java/com/example/soccergame/service/GameService.java:111-118 | in a shuffled copy of a list without repeats, element i sits at the inverse permutation's entry i |
| Rules.NameTaken | src/main/java/com/example/soccergame/service/GameService.java:72-73 | a name is taken exactly when some name of the room is equal to it once both are upper-cased, that is, ignoring letter case; a name already present is taken |
| Rules.IsImpostorType | src/main/java/com/example/soccergame/service/GameService.java:39 | a game type selects the Impostor game exactly when upper-casing it gives "IMPOSTOR", so any spelling in any case does; a string not eight characters long never does |
| Rules.ImpostorTypeSpellings | src/main/java/com/example/soccergame/service/GameService.java:39 | "Impostor" and "iMpOsToR" select the Impostor game; "IMPOSTER" and "GUESS_WHO" do not |
| Rules.PackOrDefault | src/main/java/com/example/soccergame/service/GameService.java:44 | the requested pack when one is given, "FUTBOL" otherwise |
| Rules.ConfiguredImpostors | src/main/java/com/example/soccergame/service/GameService.java:41 | the stored impostor count is the requested count when positive, and exactly 1 otherwise |
| Rules.ImpostorCount | src/main/java/com/example/soccergame/service/GameService.java:142-144 | the count is max(1, min(setting, players - 1)): at least one impostor, and at least one crewmate when there are two players or more |
| Rules.FirstMarkedCount | src/main/java/com/example/soccergame/service/GameService.java:146-148 | marking exactly the first k positions marks min(k, n) of them |
| Rules.RecordVote | src/main/java/com/example/soccergame/service/GameService.java:190-196 | after a ballot the voter is in exactly the set matching its choice, and nobody else's membership changes |
| Rules.BallotCount | src/main/java/com/example/soccergame/service/GameService.java:190-202 | the two sets stay disjoint, a voter who votes again is counted once, and the ballots cast are the size of the union of the two sets |
| Rules.VoteCloses | src/main/java/com/example/soccergame/service/GameService.java:199-205 | a room of one player or none closes the vote at once; with no ballot cast, the vote is closed exactly when the room has at most one player |
| Rules.Approved | src/main/java/com/example/soccergame/service/GameService.java:206 | a tie is never approved; yes ballots with no no ballots are approved |
| Rules.ClosesExactlyWhenAllVoted | src/main/java/com/example/soccergame/service/GameService.java:199-205 | when ballots come from the players - 1 eligible voters, the vote closes exactly when all of them have voted |
| Rules.MaxPresent | src/main/java/com/example/soccergame/service/GameService.java:240-243 | the largest guess order present, or none exactly when no player has one |
| Rules.MaxGuessOrder | src/main/java/com/example/soccergame/service/GameService.java:240-243 | bounds every present guess order from above, and is one of them or 0 when there is none |
| Rules.NextOrderExtendsGapless | src/main/java/com/example/soccergame/service/GameService.java:240-244 | when the places are 1..m without gaps, the next correct guess gets m + 1 |
| Rules.AssignedIds | src/main/java/com/example/soccergame/service/GameService.java:307-310 | the id of every held item is collected, and nothing else |
| Rules.FreeItems | src/main/java/com/example/soccergame/service/GameService.java:307-314 | the free items are exactly the pack items whose id no player holds |
| Rules.ChangePool | src/main/java/com/example/soccergame/service/GameService.java:312-319 | the pool lies in the pack; it holds only free items while one exists; it is empty exactly when the pack is |
| Rules.ChangePick | src/main/java/com/example/soccergame/service/GameService.java:312-324 | the drawn item belongs to the pack and is held by nobody while some item is free; an empty pack fails with an index error |
| Rules.ChangePickAsWritten | src/main/java/com/example/soccergame/service/GameService.java:312-324 | as the code stands, the draw fails whenever two or more items are free, and otherwise agrees with ChangePick |
| Rules.AsWrittenFailsWithTwoFree | src/main/java/com/example/soccergame/service/GameService.java:312-321 | with two free items the intended draw succeeds with a free item while the written code fails |
| Rules.AsWrittenRejectsExample | src/main/java/com/example/soccergame/service/GameService.java:312-321 | a three-item pack with one item held: the intended draw gives a free item, the written code rejects the change |
| Model.GameRoom.constructor | src/main/java/com/example/soccergame/model/GameRoom.java:16-32 | a new room is WAITING, with no players and empty yes and no sets |
| Model.GameRoom.SetStatus | src/main/java/com/example/soccergame/model/GameRoom.java:61-63 | changes the status and nothing else |
| Model.GameRoom.SetGameType | src/main/java/com/example/soccergame/service/GameService.java:46 | changes the game type and nothing else |
| Model.GameRoom.SetSelectedPack | src/main/java/com/example/soccergame/service/GameService.java:44 | changes the pack and nothing else |
| Model.GameRoom.SetImpostorCount | src/main/java/com/example/soccergame/service/GameService.java:41 | changes the impostor setting and nothing else |
| Model.GameRoom.SetImpostorHints | src/main/java/com/example/soccergame/service/GameService.java:42 | changes the hints setting and nothing else |
| Model.GameRoom.SetCurrentCategory | src/main/java/com/example/soccergame/service/GameService.java:135 | changes the round's category and nothing else |
| Model.GameRoom.SetCurrentWord | src/main/java/com/example/soccergame/service/GameService.java:136 | changes the round's word and nothing else |
| Model.GameRoom.SetVotingType | src/main/java/com/example/soccergame/model/GameRoom.java:85-87 | changes the voting type and nothing else |
| Model.GameRoom.SetVotingTargetId | src/main/java/com/example/soccergame/model/GameRoom.java:77-79 | changes the voting target and nothing else |
| Model.GameRoom.CastBallot | src/main/java/com/example/soccergame/service/GameService.java:190-196 | the two sets become those of RecordVote; nothing else of the room changes |
| Model.GameRoom.ClearVotes | src/main/java/com/example/soccergame/service/GameService.java:209-210 | both sets become empty; nothing else of the room changes |
| Model.GamePlayer.constructor | src/main/java/com/example/soccergame/model/GamePlayer.java:27-30 | a new player is not the host, has not guessed, and has no pending guess and no guess order |
| Model.GamePlayer.SetAssignedCharacter | src/main/java/com/example/soccergame/model/GamePlayer.java:63-65 | changes the held item and nothing else |
| Model.GamePlayer.SetHost | src/main/java/com/example/soccergame/model/GamePlayer.java:79-81 | changes the host flag and nothing else |
| Model.GamePlayer.SetGuessed | src/main/java/com/example/soccergame/model/GamePlayer.java:87-89 | changes the guessed flag and nothing else |
| Model.GamePlayer.SetPendingGuess | src/main/java/com/example/soccergame/model/GamePlayer.java:95-97 | changes the pending guess and nothing else |
| Model.GamePlayer.SetGuessOrder | src/main/java/com/example/soccergame/model/GamePlayer.java:103-105 | changes the guess order and nothing else |
| Model.GamePlayer.SetVisualOrder | src/main/java/com/example/soccergame/service/GameService.java:118 | changes the board place and nothing else |
| Model.GamePlayer.SetImpostor | src/main/java/com/example/soccergame/service/GameService.java:148 | changes the impostor flag and nothing else |
| Rounds.GuessWhoDeal | src/main/java/com/example/soccergame/service/GameService.java:114-120 | one state per player; its meaning is stated by GuessWhoDealIsFair |
| Rounds.GuessWhoDealHoldsDistinct | src/main/java/com/example/soccergame/service/GameService.java:114-116 | a deck without repeats gives every player an item, and no two players the same one |
| Rounds.GuessWhoDealSeatsEveryone | src/main/java/com/example/soccergame/service/GameService.java:111-118 | the board places are a permutation of 0..n-1 |
| Rounds.ShuffledPackDistinct | src/main/java/com/example/soccergame/service/GameService.java:102-109 | a shuffled pack of a catalog with unique ids has no repeated item |
| Rounds.GuessWhoDealIsFair | src/main/java/com/example/soccergame/service/GameService.java:99-120 | every player gets a different item of the room's pack, and the board places are 0..n-1, each once |
| Rounds.ImpostorDeal | src/main/java/com/example/soccergame/service/GameService.java:139-156 | one state per player, in the shuffled order |
| Rounds.ImpostorDealCount | src/main/java/com/example/soccergame/service/GameService.java:139-156 | exactly max(1, min(setting, n - 1)) players are impostors: at least one, and fewer than n when n >= 2 |
| Rounds.ImpostorDealHints | src/main/java/com/example/soccergame/service/GameService.java:146-154 | a player carries the hint exactly when it is an impostor and hints are on |
| Rounds.ImpostorDealKeepsHoldings | src/main/java/com/example/soccergame/service/GameService.java:139-140 | the shuffle moves players without losing or repeating anyone: the held items are permuted with them |
| Rounds.ResetDeal | src/main/java/com/example/soccergame/service/GameService.java:272-279 | one state per player |
| Rounds.ResetDealRestartsRanking | src/main/java/com/example/soccergame/service/GameService.java:272-279 | after a replay no item is held twice, nobody has guessed, nobody has a pending guess or a place, and the next correct guess is ranked 1 |
| Rounds.ValidateGuess | src/main/java/com/example/soccergame/service/GameService.java:233-255 | the pending guess is cleared; a correct guess marks the player guessed with place MaxGuessOrder + 1, above every place in the room; an incorrect guess changes nothing else |
| Rounds.ValidateGuessRanksNext | src/main/java/com/example/soccergame/service/GameService.java:240-244 | with places 1..m taken, a correct guess gets place m + 1 |
| Rounds.CorrectGuessKeepsRanksDistinct | src/main/java/com/example/soccergame/service/GameService.java:235-244 | validating a correct guess never gives a place that is already taken |
| Rounds.ChangeItem | src/main/java/com/example/soccergame/service/GameService.java:324 | the target holds the drawn item, and every other player is unchanged |
| Rounds.ChangeKeepsHoldsDistinct | src/main/java/com/example/soccergame/service/GameService.java:304-324 | while some item is free, an approved change succeeds and no two players end up holding the same item |
| Service.GameService.constructor | src/main/java/com/example/soccergame/service/GameService.java:13-28 | the service starts valid, with empty repositories and no broadcasts |
| Service.GameService.NewRoom | src/main/java/com/example/soccergame/service/GameService.java:34-46 | the new room is WAITING and empty; an "IMPOSTOR" room (any case) has no pack and the configured count and hints; any other room is Guess-Who with the requested pack or "FUTBOL" |
| Service.GameService.SaveNewRoom | src/main/java/com/example/soccergame/service/GameService.java:48-57 | filing a new room and its host keeps the service valid and adds exactly those two entries |
| Service.GameService.CreateRoom | src/main/java/com/example/soccergame/service/GameService.java:30-60 | a free code yields a WAITING room whose only player is its new host, with the settings of its game; a taken code fails and changes nothing |
| Service.GameService.SaveJoinedPlayer | src/main/java/com/example/soccergame/service/GameService.java:78-81 | saving a new player keeps the service valid, files it under a fresh id and lists it last in its room |
| Service.GameService.JoinRoom | src/main/java/com/example/soccergame/service/GameService.java:62-85 | fails on an unknown code, a room not WAITING, or a name already used ignoring case, changing nothing; a known WAITING room with a free name always succeeds, and the room gains exactly one new non-host player at the end and nothing else changes |
| Service.GameService.DealItems | src/main/java/com/example/soccergame/service/GameService.java:114-120 | player k holds item k of the deck and sits at its position in the seating list; nothing else of it changes |
| Service.GameService.SeatedDeal | src/main/java/com/example/soccergame/service/GameService.java:111-118 | giving every player its position in the shuffled copy of the list, as the loop does, is exactly the Guess-Who deal with that seating permutation |
| Service.GameService.DealGuessWho | src/main/java/com/example/soccergame/service/GameService.java:109-122 | the players' new states are GuessWhoDeal of the old ones and the room is IN_GAME |
| Service.GameService.StartGuessWhoGame | src/main/java/com/example/soccergame/service/GameService.java:99-125 | a pack smaller than the room fails with both sizes and changes nothing; otherwise the round is the Guess-Who deal, the room is IN_GAME, and GAME_STARTED is broadcast |
| Service.GameService.MarkImpostors | src/main/java/com/example/soccergame/service/GameService.java:146-156 | the players' new states are Marked of the old ones: player k is an impostor exactly when k < count, and holds the hint exactly when it is an impostor and hints are on |
| Service.GameService.ShuffleAndMark | src/main/java/com/example/soccergame/service/GameService.java:139-156 | the room's list becomes the shuffled list, in place, and the players' new states are ImpostorDeal of the old ones |
| Service.GameService.DealImpostor | src/main/java/com/example/soccergame/service/GameService.java:134-158 | the word is recorded, the room's list is shuffled in place, the players' states are ImpostorDeal of the old ones, and the room is IN_GAME |
| Service.GameService.StartImpostorGame | src/main/java/com/example/soccergame/service/GameService.java:127-161 | no words fails and changes nothing; otherwise the round is the Impostor deal with the drawn word, and GAME_STARTED is broadcast |
| Service.GameService.StartGame | src/main/java/com/example/soccergame/service/GameService.java:87-97 | an unknown code fails; an Impostor room starts an Impostor round and any other room a Guess-Who round |
| Service.GameService.RedealItems | src/main/java/com/example/soccergame/service/GameService.java:272-279 | the players' new states are ResetDeal of the old ones: player k holds item k of the deck and has not guessed, with no pending guess and no place |
| Service.GameService.ResetGame | src/main/java/com/example/soccergame/service/GameService.java:257-284 | an unknown code or a pack smaller than the room fails and changes nothing; otherwise, whatever the game type, the players' states are ResetDeal of the old ones, the room is IN_GAME, and GAME_STARTED is broadcast |
| Service.GameService.SubmitGuess | src/main/java/com/example/soccergame/service/GameService.java:172-181 | an unknown player fails; otherwise only the player's pending guess changes, and the guess is broadcast with its name and id |
| Service.GameService.ExecuteValidateGuess | src/main/java/com/example/soccergame/service/GameService.java:233-255 | the player's new state is ValidateGuess of the old one against its room's places, and the verdict is broadcast |
| Service.GameService.ProposeChange | src/main/java/com/example/soccergame/service/GameService.java:286-296 | an unknown target, then an unknown requester, fails; otherwise only the proposal is broadcast on the target's room |
| Service.GameService.ExecuteChange | src/main/java/com/example/soccergame/service/GameService.java:298-329 | an unknown target fails; an empty pack fails and changes nothing; otherwise the target holds the item of the corrected draw ChangePick, and CHANGE_EXECUTED is broadcast |
| Service.GameService.SettleVote | src/main/java/com/example/soccergame/service/GameService.java:215-228 | a GUESS vote validates the guess; an approved change executes the change with the corrected draw, and a rejected vote or a failed change broadcasts CHANGE_REJECTED and leaves the target unchanged |
| Service.GameService.RecordBallot | src/main/java/com/example/soccergame/service/GameService.java:190-203 | the ledger becomes RecordVote's and keeps its two sets disjoint; the progress is broadcast with the ballots cast and players - 1 needed; nothing else of the room changes |
| Service.GameService.CloseBallot | src/main/java/com/example/soccergame/service/GameService.java:208-213 | the ledger is emptied and the voting tags cleared; nothing else of the room changes |
| Service.GameService.TallyBallot | src/main/java/com/example/soccergame/service/GameService.java:190-213 | the ledger becomes RecordVote's, with its two sets disjoint, and the progress is broadcast with the ballots cast and players - 1 needed; the vote closes exactly at that number, approved on a strict majority of yes; on closing, the ledger and the voting tags are cleared |
| Service.GameService.CastVote | src/main/java/com/example/soccergame/service/GameService.java:187-230 | for a saved target: the progress is broadcast first; an open vote changes only the ledger; a closed vote clears the ledger and settles for the target as SettleVote says |
| Service.GameService.ProcessVote | src/main/java/com/example/soccergame/service/GameService.java:183-231 | an unknown target fails; otherwise the progress is broadcast first; an open vote changes only the ledger; a closed vote clears the ledger and settles for its target as SettleVote says, never failing |

## Left out

- I/O: the websocket transport is the `events` log. Persistence is the two maps, and a `save` is the in-place update itself.
- Transactions and concurrency: each public method is one atomic step.
- Randomness: `UUID.randomUUID` room codes, `Collections.shuffle` and `Random.nextInt` are arguments. Room codes are `CreateRoom`'s `code`, and a code already in use fails with `RoomCodeTaken`, as the unique column would. Shuffles are permutations, and draws are indices.
- The catalog is fixed: the admin and seed operations are not modelled. Neither are `updateNotes`, `deleteRoom`, the category CRUD and the player's notes fields.
- The accusation vote and the Impostor category preference: the controller calls them, but the service does not define them.
- The controllers, the browser client and the repositories' other queries are not modelled.
- Text.EqualsIgnoreCase: only ASCII letters are folded; Java's case folding of other Unicode letters is not modelled.
- `startImpostorGame` leaves guessed, guessOrder and the held item as they were, and `startGuessWhoGame` does not clear the per-round fields either. The model keeps both behaviours, as the code does.
- `GamePlayer.assignedCharacter` is declared as a `SoccerCharacter`, but the service stores a `CategoryItem` in it. The model uses `CategoryItem`. The fields the service uses but the entity classes do not declare (`visualOrder`, `impostor`, the game type, the pack, the impostor settings, the round's word) are added as the service uses them.
- Service.GameService.ExecuteValidateGuess: its caller guarantees that the player exists, so the model requires it; the source's `Optional.get` on a missing id is not modelled.
- Service.GameService.ProcessVote: the draw of an approved change is an argument `pick`; on a change vote it must fall within the pool the change draws from.
- Service.GameService.ProcessVote: an approved change is modelled with the corrected draw (see Findings). With the code as written, two or more free items always end in CHANGE_REJECTED.
- Service.GameService.ExecuteChange: uses the corrected draw `ChangePick`. With the code as written, two or more free items make `Collections.shuffle` throw UnsupportedOperationException (GameService.java:312-321); `Rules.ChangePickAsWritten` models that behaviour.
- Service.GameService.SettleVote: an approved change uses the corrected draw `ChangePick`. With the code as written, two or more free items make the change throw, and the vote ends in CHANGE_REJECTED.
- Integer widths: ids and counts are unbounded integers; the overflow of Java's `Long` and `int` is not modelled.
- joinRoom saves the player with its room reference, and the room's list is the inverse side of that reference. The model appends the saved player to the room's list, which is the persisted state; the stale in-memory list of the Java object is not modelled.

## Findings

| source | as written | input that shows it | evidently intended | confidence | as-written member | corrected member |
|---|---|---|---|---|---|---|
| src/main/java/com/example/soccergame/service/GameService.java:312-321 | `available` comes from `Stream.toList()`, an unmodifiable list, so `Collections.shuffle(available)` throws UnsupportedOperationException. `processVote` catches it and broadcasts CHANGE_REJECTED for an approved change. | a pack of three items with one of them held: two items are free, and the approved change is rejected | shuffle a modifiable copy, and give the target one of the free items | not executed | Rules.ChangePickAsWritten, Rules.AsWrittenRejectsExample | Rules.ChangePick |
