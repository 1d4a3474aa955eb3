// The records the draft engine keeps: a player's rating and ranked roles, a
// team's roster and average, and one undoable draft event.

module DraftTypes {

  /** One entry of a player's role list: a role name and its priority (1 is the favourite). */
  datatype RolePriority = RolePriority(role: string, priority: int)

  /** A pool member: rating ("MMR") and ordered role preferences. */
  datatype Player = Player(mmr: int, roles: seq<RolePriority>)

  /** One roster slot: the player and the role they were drafted into (or the captain marker). */
  datatype RosterEntry = RosterEntry(player: string, role: string)

  /** A team: its ordered roster and the average rating kept beside it. */
  datatype Team = Team(players: seq<RosterEntry>, averageMmr: real)

  /** The undo record pushed by every pick and every captain-add. */
  datatype DraftEvent = DraftEvent(teamId: string, playerName: string, role: string)

  /** Every name is a known player. */
  predicate AllKnown(names: seq<string>, allPlayers: map<string, Player>)
  {
    forall i :: 0 <= i < |names| ==> names[i] in allPlayers
  }

  /** The role recorded for a captain, in the roster and in the history. */
  const Captain: string := "(Captain)"
}
