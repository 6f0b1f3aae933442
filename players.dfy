/** Who a session belongs to. */
module Players {
  import opened Wrappers

  /**
    The value of session_to_steam, and the identifying columns of a sessions row:
    the steamid, the in-game username, and the Steam profile name if the lookup found one.
   */
  datatype Identity = Identity(steamId: string, username: string, steamName: Option<string>)
}
