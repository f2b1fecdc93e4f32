/** Optional values and the failures the game service reports. */
module Common {

  /** A nullable Java reference (`String`, `Integer`, `Long`) without the null. */
  datatype Option<T> = None | Some(value: T)

  /** The RuntimeExceptions GameService throws, one constructor per cause. */
  datatype Error =
    | RoomNotFound                               // "Room not found"
    | GameAlreadyStarted                         // joinRoom on a room that is not WAITING
    | NameInUse                                  // "Nombre ya en uso en esta sala"
    | PlayerNotFound                             // submitGuess with an unknown player id
    | TargetNotFound                             // processVote / proposeChange / executeChange
    | RequesterNotFound                          // proposeChange with an unknown requester
    | NotEnoughCharacters(found: nat, needed: nat)
    | NoImpostorWords                            // "No words configured for Impostor Game"
    | RoomCodeTaken                              // the unique constraint on ROOMS.roomCode
    | IndexOutOfBounds                           // get(0) on an empty list
    | UnsupportedOperation                       // set() on an unmodifiable list

  datatype Result<T> = Ok(value: T) | Err(error: Error)

  /** The outcome of a `void` service method: it returns or it throws. */
  datatype Outcome = Done | Fail(error: Error)
}
