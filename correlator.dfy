/**
  The in-memory correlation of the three-line handshake:
    `pending_connections`  steam id -> session token or None, in insertion order;
    `session_to_steam`     session token -> (steam id, username, steam name).
  The first is order-sensitive (the "Connected to userid" line binds the most recently
  accepted steam id), so it is a `PyDict`; the second is only looked up, so it is a map.
 */
module Correlation {
  import opened Wrappers
  import opened Players
  import opened PyDict
  import opened LogPatterns

  /** `pending_connections` */
  type Pending = seq<(string, Option<string>)>

  /** Every pending steam id was parsed from an "Accepted connection" line. */
  predicate PendingWellFormed(pending: Pending) {
    && KeysDistinct(pending)
    && forall i :: 0 <= i < |pending| ==> IsDigitString(pending[i].0)
  }

  /**
    The steam id handle_player_connected settles on: the first pending steam id whose
    token is `token`, if that id is non-empty; otherwise the one remembered in
    `session_to_steam`; otherwise none.
   */
  function ResolveSteamId(pending: Pending, active: map<string, Identity>, token: string): (r: Option<string>)
    ensures r.Some? ==>
      (exists i :: 0 <= i < |pending| && pending[i] == (r.value, Some(token)))
      || (token in active && active[token].steamId == r.value)
    ensures token !in active && (forall i :: 0 <= i < |pending| ==> pending[i].1 != Some(token)) ==> r.None?
  {
    var first := FirstKeyWith(pending, Some(token));
    if first.Some? && first.value != "" then first
    else if token in active then Some(active[token].steamId)
    else None
  }

  /**
    With well-formed pending ids the pending dict always wins: the result is the first
    pending id bound to `token` when there is one, the remembered id when there is none,
    and there is no result exactly when neither exists.
   */
  lemma ResolveSteamIdCases(pending: Pending, active: map<string, Identity>, token: string)
    requires PendingWellFormed(pending)
    ensures forall i :: (0 <= i < |pending| && pending[i].1 == Some(token)
      && (forall j :: 0 <= j < i ==> pending[j].1 != Some(token))) ==>
        ResolveSteamId(pending, active, token) == Some(pending[i].0)
    ensures (forall i :: 0 <= i < |pending| ==> pending[i].1 != Some(token)) ==>
      ResolveSteamId(pending, active, token) == (if token in active then Some(active[token].steamId) else None)
  {
    var f := FirstIndexWith(pending, Some(token));
    if f.Some? {
      assert IsDigitString(pending[f.value].0);
    }
  }

  /**
    The handshake: after "Accepted connection from <id>" for an id not yet pending and
    "Connected to userid:<token>", the token resolves to that id, unless an earlier
    pending id was already bound to the same token.
   */
  lemma HandshakeResolves(pending: Pending, active: map<string, Identity>, steamId: string, token: string)
    requires PendingWellFormed(pending) && IsDigitString(steamId)
    requires !HasKey(pending, steamId)
    requires forall i :: 0 <= i < |pending| ==> pending[i].1 != Some(token)
    ensures var p1 := Put(pending, steamId, None);
      && LastKey(p1) == steamId
      && ResolveSteamId(Put(p1, LastKey(p1), Some(token)), active, token) == Some(steamId)
  {
    var p1 := Put(pending, steamId, None);
    PutKeepsLastKey(p1, Some(token));
    var p2 := Put(p1, steamId, Some(token));
    assert p2 == pending + [(steamId, Some(token))];
    assert PendingWellFormed(p2);
    ResolveSteamIdCases(p2, active, token);
    assert p2[|pending|].1 == Some(token);
  }

  /** Both dicts, updated in place by the line handlers. */
  class Correlator {
    var pending: Pending
    var active: map<string, Identity>

    ghost predicate Valid()
      reads this
    {
      PendingWellFormed(pending)
    }

    /** Both dicts start empty when the process starts. */
    constructor ()
      ensures Valid() && pending == [] && active == map[]
    {
      pending, active := [], map[];
    }

    /** handle_accepted_connection: `pending_connections[steamid] = None`. */
    method OnAccepted(steamId: string)
      requires Valid() && IsDigitString(steamId)
      modifies this
      ensures Valid()
      ensures pending == Put(old(pending), steamId, None) && active == old(active)
    {
      pending := Put(pending, steamId, None);
    }

    /** handle_connected_to_userid: bind the token to a steam id that is still pending. */
    method OnLinked(steamId: string, token: string)
      requires Valid()
      modifies this
      ensures Valid() && active == old(active)
      ensures pending == if HasKey(old(pending), steamId) then Put(old(pending), steamId, Some(token)) else old(pending)
    {
      if HasKey(pending, steamId) {
        pending := Put(pending, steamId, Some(token));
      }
    }

    /** The scan of `pending_connections.items()` for the first steam id bound to `token`. */
    method FindSteamIdByToken(token: string) returns (r: Option<string>)
      ensures r == FirstKeyWith(pending, Some(token))
    {
      var i := 0;
      while i < |pending|
        invariant 0 <= i <= |pending|
        invariant forall j :: 0 <= j < i ==> pending[j].1 != Some(token)
      {
        if pending[i].1 == Some(token) {
          return Some(pending[i].0);
        }
        i := i + 1;
      }
      return None;
    }

    /** handle_player_connected's lookup, falling back to `session_to_steam`. */
    method ResolveSteamIdFor(token: string) returns (r: Option<string>)
      ensures r == ResolveSteamId(pending, active, token)
    {
      r := FindSteamIdByToken(token);
      if r.None? || r.value == "" {
        if token in active {
          r := Some(active[token].steamId);
        } else {
          r := None;
        }
      }
    }

    /** Remember the player under its token and drop its steam id from the pending dict. */
    method Bind(token: string, who: Identity)
      requires Valid()
      modifies this
      ensures Valid()
      ensures active == old(active)[token := who]
      ensures pending == Remove(old(pending), who.steamId)
    {
      active := active[token := who];
      pending := Remove(pending, who.steamId);
    }

    /** `del session_to_steam[session_userid]` */
    method Forget(token: string)
      requires Valid()
      modifies this
      ensures Valid() && pending == old(pending)
      ensures active == old(active) - {token}
    {
      active := active - {token};
    }
  }
}
