/**
  The provider data the scripts read from disk, handed to the model as
  values: the player directory (bootstrap-static.json), the per-gameweek
  score index (global/gw_N.json) and the league's entries
  (league-<id>-details.json).
 */
module Fpl {
  import opened PyLib

  /** A player of the directory; elementType is the category code 1..4
      (goalkeeper, defender, midfielder, forward). */
  datatype PlayerInfo = PlayerInfo(firstName: string, secondName: string, elementType: int)

  /** Player id -> directory entry. */
  type Directory = map<int, PlayerInfo>

  /** Gameweek -> (player id -> that gameweek's total_points). A gameweek
      missing from the index is a gameweek file that does not exist. */
  type ScoreIndex = map<int, map<int, int>>

  /** A league entry: team name and manager's names. */
  datatype LeagueEntry = LeagueEntry(entryName: string, playerFirstName: string, playerLastName: string)

  /** Team id -> league entry. */
  type Entries = map<int, LeagueEntry>

  /** get_player_name: "first second". */
  function FullName(info: PlayerInfo): string
  {
    info.firstName + " " + info.secondName
  }
}
