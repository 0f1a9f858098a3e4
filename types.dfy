/** Identifiers and error results shared by the tournament model. */
module Types {
  /** Serial ids that the database assigns to players and tournaments. */
  type PlayerId = int
  type TournamentId = int

  /** The conditions on which tournament.py gives up instead of returning a value. */
  datatype Error =
    | OddPlayerCount    // playerStandings: the tournament has an odd number of entrants
    | NoUniqueMatches   // swissPairings: not a single pair could be formed
    | MissingResultRow  // reportMatch: the loser has no result row in the tournament

  datatype Result<T> = Ok(value: T) | Err(error: Error)

  datatype Option<T> = None | Some(value: T)
}
