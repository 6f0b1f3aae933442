/**
  process_single_log and the two database handlers it calls, handle_player_connected
  and handle_disconnect, plus the batch loop of the /ingest route.

  `Step` is the whole effect of one log line on the server's state (the two dicts, the
  sessions table and the processed_logs ledger) as a function; the methods below run the
  same steps on the objects and are proved to compute exactly `Step`.
 */
module Ingest {
  import opened Wrappers
  import opened TimeOfDay
  import opened Players
  import opened LogPatterns
  import opened PyDict
  import opened SessionStore
  import opened Correlation
  import Ledger

  /**
    One log record as the handlers see it. `logId` is the id in effect after
    process_single_log's fallback: the payload's log_id, or, when that is missing or
    empty, the MD5 digest of the line and the clock that replaces it. `now` is the clock
    reading, and `steamName` what the Steam profile lookup returns for the player.
   */
  datatype LogLine = LogLine(raw: string, logId: string, now: Instant, steamName: Option<string>)

  /** The response of process_single_log, by its "action", "note", "error" or "skip" key. */
  datatype Outcome =
    | ActionPending(steamId: string)
    | ActionMapped(steamId: string, token: string)
    | NoteNoPendingConnection
    | ActionConnected(steamId: string, token: string)
    | NoteAlreadyConnected(token: string)
    | ErrorSteamIdNotFound(token: string)
    | ActionDisconnected(steamId: string, token: string)
    | NoteNotInMemory(token: string)
    | NoteNoOpenSession(token: string)
    | NoteAlreadyProcessed
    | SkipNoPattern

  /** `result.get("steamid")`: only the two successful handler outcomes carry one. */
  function SteamIdOf(o: Outcome): (r: Option<string>)
    ensures r.Some? <==> o.ActionConnected? || o.ActionDisconnected?
  {
    match o
    case ActionConnected(s, _) => Some(s)
    case ActionDisconnected(s, _) => Some(s)
    case _ => None
  }

  /** Everything a log line can change. */
  datatype World = World(
    pending: Pending,
    active: map<string, Identity>,
    table: Table,
    ledger: seq<Ledger.Entry>)

  const EmptyWorld := World([], map[], EmptyTable, [])

  predicate WorldValid(w: World) {
    PendingWellFormed(w.pending) && TableValid(w.table) && Ledger.LogIdsUnique(w.ledger)
  }

  /** The transaction runs on a new connection: last_insert_rowid() starts at 0. */
  function FreshConnection(w: World): World {
    w.(table := w.table.(lastInsertId := 0))
  }

  /**
    handle_player_connected, after the ledger check. The dicts are updated before the
    table: even an "already connected" answer leaves the player bound to the token.
   */
  function ConnectEffect(w: World, token: string, username: string, now: Instant, steamName: Option<string>): (r: (World, Outcome))
    ensures r.0.ledger == w.ledger
    ensures r.1 == ErrorSteamIdNotFound(token) || r.1 == NoteAlreadyConnected(token)
      || (r.1.ActionConnected? && r.1.token == token)
    ensures r.1.ErrorSteamIdNotFound? <==> ResolveSteamId(w.pending, w.active, token).None?
    ensures r.1.ErrorSteamIdNotFound? ==> r.0 == w
    ensures r.1.ActionConnected? ==> Some(r.1.steamId) == ResolveSteamId(w.pending, w.active, token)
  {
    match ResolveSteamId(w.pending, w.active, token)
    case None => (w, ErrorSteamIdNotFound(token))
    case Some(steamId) =>
      var who := Identity(steamId, username, steamName);
      var w1 := w.(active := w.active[token := who], pending := Remove(w.pending, steamId));
      var t1 := AfterSplit(w.table, token, who, now.day);
      if HasOpenOn(t1.rows, token, now.day) then (w1.(table := t1), NoteAlreadyConnected(token))
      else (w1.(table := AfterOpen(t1, token, who, now.day, now.secs)), ActionConnected(steamId, token))
  }

  /**
    handle_disconnect, after the ledger check. The token is forgotten only when an open
    row was found and closed.
   */
  function DisconnectEffect(w: World, token: string, now: Instant): (r: (World, Outcome))
    ensures r.0.ledger == w.ledger && r.0.pending == w.pending
    ensures r.1 == NoteNotInMemory(token) || r.1 == NoteNoOpenSession(token)
      || (r.1.ActionDisconnected? && r.1.token == token)
    ensures r.1.NoteNotInMemory? <==> token !in w.active
    ensures r.1.NoteNotInMemory? ==> r.0 == w
    ensures r.1.ActionDisconnected? ==> r.0.active == w.active - {token} && r.1.steamId == w.active[token].steamId
    ensures !r.1.ActionDisconnected? ==> r.0.active == w.active
    ensures token in w.active ==>
      (r.1.NoteNoOpenSession? <==> LatestOpen(AfterSplit(w.table, token, w.active[token], now.day).rows, token).None?)
    ensures r.1.NoteNoOpenSession? ==> r.0.table == AfterSplit(w.table, token, w.active[token], now.day)
  {
    if token !in w.active then (w, NoteNotInMemory(token))
    else
      var who := w.active[token];
      var t1 := AfterSplit(w.table, token, who, now.day);
      match LatestOpen(t1.rows, token)
      case None => (w.(table := t1), NoteNoOpenSession(token))
      case Some(r) =>
        (w.(table := AfterClose(t1, r.id, now.secs), active := w.active - {token}),
         ActionDisconnected(who.steamId, token))
  }

  /**
    A connect or disconnect line: nothing if its log id is already recorded, otherwise
    the handler's effect followed by a ledger entry, whatever the handler answered.
   */
  function Transaction(w: World, ev: Event, line: LogLine): (World, Outcome)
    requires ev.PlayerConnected? || ev.Disconnected?
  {
    if Ledger.Recorded(w.ledger, line.logId) then (w, NoteAlreadyProcessed)
    else
      var (w1, o) :=
        if ev.PlayerConnected? then ConnectEffect(FreshConnection(w), ev.token, ev.username, line.now, line.steamName)
        else DisconnectEffect(FreshConnection(w), ev.token, line.now);
      var action := if ev.PlayerConnected? then Ledger.Connected else Ledger.Disconnected;
      (w1.(ledger := w1.ledger + [Ledger.Entry(line.logId, line.now, SteamIdOf(o), ev.token, action)]), o)
  }

  /** process_single_log for a line already classified as `ev`. */
  function Apply(w: World, ev: Event, line: LogLine): (World, Outcome) {
    match ev
    case Accepted(steamId) => (w.(pending := Put(w.pending, steamId, None)), ActionPending(steamId))
    case Linked(token) =>
      if |w.pending| == 0 then (w, NoteNoPendingConnection)
      else
        var latest := LastKey(w.pending);
        var p := if HasKey(w.pending, latest) then Put(w.pending, latest, Some(token)) else w.pending;
        (w.(pending := p), ActionMapped(latest, token))
    case PlayerConnected(_, _) => Transaction(w, ev, line)
    case Disconnected(_) => Transaction(w, ev, line)
    case Unmatched => (w, SkipNoPattern)
  }

  /** process_single_log */
  function Step(w: World, line: LogLine): (World, Outcome) {
    Apply(w, Classify(line.raw), line)
  }

  /** The /ingest route on a list payload: the lines in order, one response each. */
  function Run(w: World, lines: seq<LogLine>): (World, seq<Outcome>)
    decreases |lines|
  {
    if |lines| == 0 then (w, [])
    else
      var (w1, os) := Run(w, lines[..|lines| - 1]);
      var (w2, o) := Step(w1, lines[|lines| - 1]);
      (w2, os + [o])
  }

  /** One more line: the run over the first i + 1 lines is a step after the run over the first i. */
  lemma RunExtends(w: World, lines: seq<LogLine>, i: nat)
    requires i < |lines|
    ensures var (w1, os) := Run(w, lines[..i]);
      var (w2, o) := Step(w1, lines[i]);
      Run(w, lines[..i + 1]) == (w2, os + [o])
  {
    assert lines[..i + 1][..i] == lines[..i];
  }

  // ---------------------------------------------------------------- properties

  /** handle_player_connected keeps the dicts and the table well formed. */
  lemma ConnectKeepsValid(w: World, token: string, username: string, now: Instant, steamName: Option<string>)
    requires WorldValid(w)
    ensures WorldValid(ConnectEffect(w, token, username, now, steamName).0)
  {
    match ResolveSteamId(w.pending, w.active, token)
    case None =>
    case Some(steamId) =>
      var who := Identity(steamId, username, steamName);
      var p := Remove(w.pending, steamId);
      assert forall i :: 0 <= i < |p| ==> IsDigitString(p[i].0) by {
        forall i | 0 <= i < |p| ensures IsDigitString(p[i].0) {
          assert p[i] in w.pending;
        }
      }
      SplitKeepsValid(w.table, token, who, now.day);
      OpenKeepsValid(AfterSplit(w.table, token, who, now.day), token, who, now.day, now.secs);
  }

  /** handle_disconnect keeps the dicts and the table well formed. */
  lemma DisconnectKeepsValid(w: World, token: string, now: Instant)
    requires WorldValid(w)
    ensures WorldValid(DisconnectEffect(w, token, now).0)
  {
    if token in w.active {
      var who := w.active[token];
      SplitKeepsValid(w.table, token, who, now.day);
      var t1 := AfterSplit(w.table, token, who, now.day);
      match LatestOpen(t1.rows, token)
      case None =>
      case Some(r) => CloseKeepsValid(t1, r.id, now.secs);
    }
  }

  /** A transactional line keeps the state well formed; its ledger entry has a new log id. */
  lemma TransactionKeepsValid(w: World, ev: Event, line: LogLine)
    requires WorldValid(w) && (ev.PlayerConnected? || ev.Disconnected?)
    ensures WorldValid(Transaction(w, ev, line).0)
  {
    if !Ledger.Recorded(w.ledger, line.logId) {
      var w0 := FreshConnection(w);
      var (w1, o) :=
        if ev.PlayerConnected? then ConnectEffect(w0, ev.token, ev.username, line.now, line.steamName)
        else DisconnectEffect(w0, ev.token, line.now);
      if ev.PlayerConnected? {
        ConnectKeepsValid(w0, ev.token, ev.username, line.now, line.steamName);
      } else {
        DisconnectKeepsValid(w0, ev.token, line.now);
      }
      var action := if ev.PlayerConnected? then Ledger.Connected else Ledger.Disconnected;
      Ledger.RecordKeepsUnique(w1.ledger, Ledger.Entry(line.logId, line.now, SteamIdOf(o), ev.token, action));
    }
  }

  /** Every line keeps the dicts, the sessions table and the ledger well formed. */
  lemma StepKeepsValid(w: World, line: LogLine)
    requires WorldValid(w)
    ensures WorldValid(Step(w, line).0)
  {
    var ev := Classify(line.raw);
    match ev
    case Accepted(steamId) =>
      var p := Put(w.pending, steamId, None);
      forall i | 0 <= i < |p| ensures IsDigitString(p[i].0) {
        if i < |w.pending| {
          assert p[i].0 == w.pending[i].0;
        }
      }
    case Linked(_) =>
    case Unmatched =>
    case PlayerConnected(_, _) => TransactionKeepsValid(w, ev, line);
    case Disconnected(_) => TransactionKeepsValid(w, ev, line);
  }

  /** A batch keeps the state well formed, and answers once per line. */
  lemma {:induction false} RunKeepsValid(w: World, lines: seq<LogLine>)
    requires WorldValid(w)
    ensures WorldValid(Run(w, lines).0)
    ensures |Run(w, lines).1| == |lines|
    decreases |lines|
  {
    if |lines| > 0 {
      RunKeepsValid(w, lines[..|lines| - 1]);
      StepKeepsValid(Run(w, lines[..|lines| - 1]).0, lines[|lines| - 1]);
    }
  }

  // ---------------------------------------------------------------- one open row per token

  /**
    handle_player_connected keeps at most one open row per token and none dated after
    the line's day, provided no open row was dated after it before.
   */
  lemma ConnectKeepsOneOpen(w: World, token: string, username: string, now: Instant, steamName: Option<string>)
    requires WorldValid(w) && w.table.lastInsertId == 0
    requires OneOpenPerToken(w.table.rows) && OpenNotAfter(w.table.rows, now.day)
    ensures var rows := ConnectEffect(w, token, username, now, steamName).0.table.rows;
      OneOpenPerToken(rows) && OpenNotAfter(rows, now.day)
  {
    match ResolveSteamId(w.pending, w.active, token)
    case None =>
    case Some(steamId) =>
      var who := Identity(steamId, username, steamName);
      SplitSettlesToken(w.table, token, who, now.day);
      var t1 := AfterSplit(w.table, token, who, now.day);
      if !HasOpenOn(t1.rows, token, now.day) && !Collides(t1.rows, token, now.day, now.secs) {
        var rows := AfterOpen(t1, token, who, now.day, now.secs).rows;
        assert rows == t1.rows + [NewRow(t1, token, who, now.day, now.secs)];
        forall i, j | 0 <= i < j < |rows| && rows[i].IsOpen() && rows[j].IsOpen()
          ensures rows[i].token != rows[j].token
        {
          assert rows[i] == t1.rows[i];
          if j < |t1.rows| {
            assert rows[j] == t1.rows[j];
          }
        }
      }
  }

  /** handle_disconnect keeps at most one open row per token and none dated after the line's day. */
  lemma DisconnectKeepsOneOpen(w: World, token: string, now: Instant)
    requires WorldValid(w) && w.table.lastInsertId == 0
    requires OneOpenPerToken(w.table.rows) && OpenNotAfter(w.table.rows, now.day)
    ensures var rows := DisconnectEffect(w, token, now).0.table.rows;
      OneOpenPerToken(rows) && OpenNotAfter(rows, now.day)
  {
    if token in w.active {
      var who := w.active[token];
      SplitSettlesToken(w.table, token, who, now.day);
      SplitKeepsValid(w.table, token, who, now.day);
      var t1 := AfterSplit(w.table, token, who, now.day);
      match LatestOpen(t1.rows, token)
      case None =>
      case Some(r) => CloseKeepsOneOpen(t1, r.id, now.secs, now.day);
    }
  }

  /**
    Every line keeps at most one open row per token, and no open row dated after the
    line's day, when no open row was dated after that day before it.
   */
  lemma StepKeepsOneOpen(w: World, line: LogLine)
    requires WorldValid(w) && OneOpenPerToken(w.table.rows) && OpenNotAfter(w.table.rows, line.now.day)
    ensures var rows := Step(w, line).0.table.rows;
      OneOpenPerToken(rows) && OpenNotAfter(rows, line.now.day)
  {
    var ev := Classify(line.raw);
    if (ev.PlayerConnected? || ev.Disconnected?) && !Ledger.Recorded(w.ledger, line.logId) {
      var w0 := FreshConnection(w);
      if ev.PlayerConnected? {
        ConnectKeepsOneOpen(w0, ev.token, ev.username, line.now, line.steamName);
      } else {
        DisconnectKeepsOneOpen(w0, ev.token, line.now);
      }
    }
  }

  /** The day of the batch's last line, or `day0` for an empty batch. */
  function LastDay(day0: int, lines: seq<LogLine>): int {
    if |lines| == 0 then day0 else lines[|lines| - 1].now.day
  }

  /** Line times that never go back to an earlier day, none before `day0`. */
  predicate DaysFrom(day0: int, lines: seq<LogLine>) {
    && (forall i :: 0 <= i < |lines| ==> day0 <= lines[i].now.day)
    && (forall i, j :: 0 <= i < j < |lines| ==> lines[i].now.day <= lines[j].now.day)
  }

  /**
    Over a batch whose clock never goes back, no token ever has two open rows, and no
    open row is dated after the last line's day: so AtMostOneOpen, which the long-gap
    lemmas ask for, holds for every token in every state a run reaches.
   */
  lemma {:induction false} RunKeepsOneOpen(w: World, day0: int, lines: seq<LogLine>)
    requires WorldValid(w) && OneOpenPerToken(w.table.rows) && OpenNotAfter(w.table.rows, day0)
    requires DaysFrom(day0, lines)
    ensures var rows := Run(w, lines).0.table.rows;
      && OneOpenPerToken(rows) && OpenNotAfter(rows, LastDay(day0, lines))
      && forall token :: AtMostOneOpen(rows, token)
    decreases |lines|
  {
    if |lines| > 0 {
      var init := lines[..|lines| - 1];
      var last := lines[|lines| - 1];
      assert DaysFrom(day0, init);
      RunKeepsOneOpen(w, day0, init);
      RunKeepsValid(w, init);
      var w1 := Run(w, init).0;
      assert LastDay(day0, init) <= last.now.day;
      StepKeepsOneOpen(w1, last);
    }
  }

  /** A line is a connect or disconnect line: it goes through a database transaction. */
  predicate IsTransactional(line: LogLine) {
    Classify(line.raw).PlayerConnected? || Classify(line.raw).Disconnected?
  }

  /**
    The ledger: a transactional line with a new log id appends exactly one entry, with
    the handler's steam id and the line's action; anything else leaves the ledger as it was.
   */
  lemma LedgerEffect(w: World, line: LogLine)
    ensures var (w1, o) := Step(w, line);
      if IsTransactional(line) && !Ledger.Recorded(w.ledger, line.logId) then
        var ev := Classify(line.raw);
        w1.ledger == w.ledger + [Ledger.Entry(line.logId, line.now, SteamIdOf(o), ev.token,
          if ev.PlayerConnected? then Ledger.Connected else Ledger.Disconnected)]
      else w1.ledger == w.ledger
  {
  }

  /**
    Re-sending a connect or disconnect line (same log id) is answered "already
    processed" and changes nothing, whatever the first delivery did.
   */
  lemma ReplayIsNoop(w: World, line: LogLine)
    requires IsTransactional(line)
    ensures var w1 := Step(w, line).0;
      Step(w1, line) == (w1, NoteAlreadyProcessed)
  {
    var w1 := Step(w, line).0;
    if !Ledger.Recorded(w.ledger, line.logId) {
      LedgerEffect(w, line);
      assert w1.ledger[|w.ledger|].logId == line.logId;
    }
  }

  /**
    The handshake lines ("Accepted connection", "Connected to userid") and unmatched
    lines touch neither the database nor `session_to_steam`.
   */
  lemma HandshakeLeavesStoreAlone(w: World, line: LogLine)
    requires !IsTransactional(line)
    ensures Step(w, line).0.table == w.table
    ensures Step(w, line).0.ledger == w.ledger
    ensures Step(w, line).0.active == w.active
  {
  }

  /** A line no parser matches is answered "skip" and changes nothing. */
  lemma UnmatchedChangesNothing(w: World, line: LogLine)
    requires Classify(line.raw).Unmatched?
    ensures Step(w, line) == (w, SkipNoPattern)
  {
  }

  /**
    "Connected to userid:<token>" binds the token to the most recently accepted steam id,
    replacing any token it had and moving nothing; with nothing pending it changes nothing.
   */
  lemma LinkedBindsLastKey(w: World, token: string, line: LogLine)
    requires WorldValid(w)
    ensures |w.pending| == 0 ==> Apply(w, Linked(token), line) == (w, NoteNoPendingConnection)
    ensures |w.pending| > 0 ==>
      var (w1, o) := Apply(w, Linked(token), line);
      && o == ActionMapped(LastKey(w.pending), token)
      && |w1.pending| == |w.pending|
      && w1.pending[|w.pending| - 1] == (LastKey(w.pending), Some(token))
      && (forall i :: 0 <= i < |w.pending| - 1 ==> w1.pending[i] == w.pending[i])
      && w1.active == w.active && w1.table == w.table && w1.ledger == w.ledger
  {
    if |w.pending| > 0 {
      PutKeepsLastKey(w.pending, Some(token));
      assert IndexOf(w.pending, LastKey(w.pending)) == Some(|w.pending| - 1);
    }
  }

  /** A connect or disconnect line whose log id is recorded is answered "already processed" and changes nothing. */
  lemma AlreadyProcessedChangesNothing(w: World, line: LogLine)
    requires IsTransactional(line) && Ledger.Recorded(w.ledger, line.logId)
    ensures Step(w, line) == (w, NoteAlreadyProcessed)
  {
  }

  /**
    A resolved player with no open row dated today (after the split) gets a new open row
    at the line's time, unless a unique key drops it; the answer is "connected" either way.
   */
  lemma ConnectOpensRow(w: World, token: string, username: string, now: Instant, steamName: Option<string>, steamId: string)
    requires WorldValid(w) && w.table.lastInsertId == 0
    requires forall i :: 0 <= i < |w.table.rows| && w.table.rows[i].token == token && w.table.rows[i].IsOpen() ==>
      w.table.rows[i].date <= now.day
    requires ResolveSteamId(w.pending, w.active, token) == Some(steamId)
    requires !HasOpenOn(AfterSplit(w.table, token, Identity(steamId, username, steamName), now.day).rows, token, now.day)
    ensures var who := Identity(steamId, username, steamName);
      var t1 := AfterSplit(w.table, token, who, now.day);
      var (w1, o) := ConnectEffect(w, token, username, now, steamName);
      && o == ActionConnected(steamId, token)
      && w1.active == w.active[token := who]
      && (forall i :: 0 <= i < |w1.pending| ==> w1.pending[i].0 != steamId)
      && (Collides(t1.rows, token, now.day, now.secs) ==> w1.table == t1)
      && (!Collides(t1.rows, token, now.day, now.secs) ==>
            w1.table.rows == t1.rows + [Row(t1.nextId, who, token, now.day, now.secs, None, 0)]
            && LatestOpen(w1.table.rows, token) == Some(Row(t1.nextId, who, token, now.day, now.secs, None, 0)))
  {
    var who := Identity(steamId, username, steamName);
    var t1 := AfterSplit(w.table, token, who, now.day);
    var (w1, o) := ConnectEffect(w, token, username, now, steamName);
    assert w1.table == AfterOpen(t1, token, who, now.day, now.secs);
    assert w1.pending == Remove(w.pending, steamId);
    if !Collides(t1.rows, token, now.day, now.secs) {
      SplitKeepsValid(w.table, token, who, now.day);
      SplitBoundsOpenDates(w.table, token, who, now.day);
      LatestOpenOfFreshRow(t1, token, who, now.day, now.secs);
    }
  }

  /**
    On a valid table where the token has no open row on or after `day`, a row opened on
    `day` becomes the token's latest open row.
   */
  lemma LatestOpenOfFreshRow(t: Table, token: string, who: Identity, day: int, ct: Secs)
    requires TableValid(t) && !Collides(t.rows, token, day, ct)
    requires !HasOpenOn(t.rows, token, day)
    requires forall i :: 0 <= i < |t.rows| && t.rows[i].token == token && t.rows[i].IsOpen() ==> t.rows[i].date <= day
    ensures LatestOpen(AfterOpen(t, token, who, day, ct).rows, token) == Some(NewRow(t, token, who, day, ct))
  {
    var n := NewRow(t, token, who, day, ct);
    var rows := t.rows + [n];
    var l := LatestOpen(rows, token);
    assert n in rows;
    var k :| 0 <= k < |rows| && rows[k] == l.value;
  }

  /**
    Connecting when an open row dated today already exists (after any split) answers
    "already connected" and inserts nothing, but still binds the player in memory.
   */
  lemma ConnectWhileOpenToday(w: World, token: string, username: string, now: Instant, steamName: Option<string>, steamId: string)
    requires PendingWellFormed(w.pending)
    requires ResolveSteamId(w.pending, w.active, token) == Some(steamId)
    requires HasOpenOn(AfterSplit(w.table, token, Identity(steamId, username, steamName), now.day).rows, token, now.day)
    ensures var (w1, o) := ConnectEffect(w, token, username, now, steamName);
      && o == NoteAlreadyConnected(token)
      && w1.table == AfterSplit(w.table, token, Identity(steamId, username, steamName), now.day)
      && w1.active == w.active[token := Identity(steamId, username, steamName)]
      && forall i :: 0 <= i < |w1.pending| ==> w1.pending[i].0 != steamId
  {
  }

  /**
    A disconnect on the same day as the player's only open row closes that row at the
    disconnect time, with playtime secs_between(connect, disconnect), and forgets the token.
   */
  lemma DisconnectSameDay(w: World, token: string, now: Instant, r: Row)
    requires WorldValid(w) && token in w.active
    requires LatestOpen(w.table.rows, token) == Some(r) && r.date == now.day
    ensures var (w1, o) := DisconnectEffect(w, token, now);
      && o == ActionDisconnected(w.active[token].steamId, token)
      && w1.table == AfterClose(w.table, r.id, now.secs)
      && w1.active == w.active - {token}
      && w1.pending == w.pending
  {
  }

  /**
    When an open row remains after the split, the disconnect closes the latest one at the
    line's time, with playtime secs_between(connect, disconnect), and forgets the token.
   */
  lemma DisconnectClosesLatest(w: World, token: string, now: Instant)
    requires WorldValid(w) && token in w.active
    requires LatestOpen(AfterSplit(w.table, token, w.active[token], now.day).rows, token).Some?
    ensures var t1 := AfterSplit(w.table, token, w.active[token], now.day);
      var r := LatestOpen(t1.rows, token).value;
      var (w1, o) := DisconnectEffect(w, token, now);
      && o == ActionDisconnected(w.active[token].steamId, token)
      && w1.active == w.active - {token}
      && |w1.table.rows| == |t1.rows|
      && (forall i :: 0 <= i < |t1.rows| ==>
            w1.table.rows[i] == if t1.rows[i].id == r.id then ClosedAt(t1.rows[i], now.secs) else t1.rows[i])
      && (forall i :: 0 <= i < |t1.rows| && t1.rows[i].id == r.id ==>
            w1.table.rows[i].playtime == SecsBetween(r.connectTime, now.secs))
  {
    var t1 := AfterSplit(w.table, token, w.active[token], now.day);
    var r := LatestOpen(t1.rows, token).value;
    SplitKeepsValid(w.table, token, w.active[token], now.day);
    CloseEffect(t1, r.id, now.secs);
    forall i | 0 <= i < |t1.rows| && t1.rows[i].id == r.id
      ensures t1.rows[i] == r
    {
      var k :| 0 <= k < |t1.rows| && t1.rows[k] == r;
    }
  }

  /**
    A disconnect two or more days after the player's only open row finds no open row:
    the split closed it and the row it may add is closed too. The answer is "no open
    session" and the token stays in `session_to_steam`.
   */
  lemma DisconnectAfterLongGap(w: World, token: string, now: Instant, r: Row)
    requires WorldValid(w) && token in w.active && w.table.lastInsertId == 0
    requires AtMostOneOpen(w.table.rows, token)
    requires LatestOpen(w.table.rows, token) == Some(r) && r.date + 1 < now.day
    ensures var (w1, o) := DisconnectEffect(w, token, now);
      && o == NoteNoOpenSession(token)
      && w1.active == w.active
      && w1.table == AfterSplit(w.table, token, w.active[token], now.day)
  {
    LongGapClosesEverything(w.table, token, w.active[token], now.day);
  }

  /**
    A disconnect one or more days after the open row, for a token that already has a
    00:00:00 row: a visit that connected at exactly 00:00:00, or one an earlier split
    carried over midnight. The split only closes the open row at 23:59:59, and the
    disconnect answers "no open session".
   */
  lemma DisconnectWithMidnightRow(w: World, token: string, now: Instant, r: Row)
    requires WorldValid(w) && token in w.active && w.table.lastInsertId == 0
    requires AtMostOneOpen(w.table.rows, token) && HasMidnightRow(w.table.rows, token)
    requires LatestOpen(w.table.rows, token) == Some(r) && r.date < now.day
    ensures var (w1, o) := DisconnectEffect(w, token, now);
      && o == NoteNoOpenSession(token)
      && w1.active == w.active
      && w1.table.rows == AfterClose(w.table, r.id, LastSecond).rows
  {
    MidnightRowClosesEverything(w.table, token, w.active[token], now.day);
  }

  /**
    A visit across one midnight: the disconnect splits the open row at 23:59:59 and
    closes the 00:00:00 row of the new day, so the visit is two rows whose playtimes are
    the time to midnight and the time since midnight. A connect at exactly 00:00:00 is
    excluded: that row's own connect time would block the midnight insert.
   */
  lemma OvernightVisitTwoRows(w: World, token: string, now: Instant, r: Row)
    requires WorldValid(w) && token in w.active && w.table.lastInsertId == 0
    requires w.table.rows == [r] && r.token == token && r.IsOpen()
    requires r.date + 1 == now.day && r.connectTime != Midnight
    ensures var who := w.active[token];
      var (w1, o) := DisconnectEffect(w, token, now);
      && o == ActionDisconnected(who.steamId, token)
      && w1.table.rows == [ClosedAt(r, LastSecond),
                           Row(w.table.nextId, who, token, now.day, Midnight, Some(now.secs), now.secs)]
  {
    var who := w.active[token];
    var t := w.table;
    OvernightSplit(t, token, who, now.day, r);
    var n := Row(t.nextId, who, token, now.day, Midnight, None, 0);
    DisconnectClosesLatest(w, token, now);
    assert r.id < n.id;
  }

  /** The split half of OvernightVisitTwoRows: the open row is closed at 23:59:59 and a row opens at 00:00:00. */
  lemma OvernightSplit(t: Table, token: string, who: Identity, today: int, r: Row)
    requires TableValid(t) && t.lastInsertId == 0
    requires t.rows == [r] && r.token == token && r.IsOpen()
    requires r.date + 1 == today && r.connectTime != Midnight
    ensures var n := Row(t.nextId, who, token, today, Midnight, None, 0);
      var after := AfterSplit(t, token, who, today);
      && after.rows == [ClosedAt(r, LastSecond), n]
      && LatestOpen(after.rows, token) == Some(n)
  {
    assert LatestOpen(t.rows, token) == Some(r) by {
      assert t.rows[1..] == [];
    }
    assert !HasMidnightRow(t.rows, token);
    assert RecloseIsNoop(t);
    OneDayGapOpensToday(t, token, who, today);
    SplitAfterPastRow(t, token, who, today, r);
    assert IndexOfId(t.rows, r.id) == Some(0);
  }

  /**
    The common case end to end: from a fresh start, the four lines of one visit on one
    day leave exactly one row, closed at the disconnect time with playtime
    secs_between(connect, disconnect), and empty dicts.
   */
  lemma OneVisitOneRow(steamId: string, token: string, username: string, steamName: Option<string>,
                       day: int, t1: Secs, t2: Secs, line: LogLine, line2: LogLine)
    requires IsDigitString(steamId)
    requires line.logId != line2.logId && line.now == Instant(day, t1) && line2.now == Instant(day, t2)
    requires line.steamName == steamName
    ensures var w1 := Apply(EmptyWorld, Accepted(steamId), line).0;
      var w2 := Apply(w1, Linked(token), line).0;
      var (w3, o3) := Apply(w2, PlayerConnected(token, username), line);
      var (w4, o4) := Apply(w3, Disconnected(token), line2);
      && o3 == ActionConnected(steamId, token)
      && o4 == ActionDisconnected(steamId, token)
      && w4.table.rows == [Row(1, Identity(steamId, username, steamName), token, day, t1, Some(t2), SecsBetween(t1, t2))]
      && w4.pending == [] && w4.active == map[]
  {
    var who := Identity(steamId, username, steamName);
    FirstVisitConnects(steamId, token, username, steamName, day, t1, line);
    var w3 := Apply(Apply(Apply(EmptyWorld, Accepted(steamId), line).0, Linked(token), line).0,
                    PlayerConnected(token, username), line).0;
    FirstVisitDisconnects(w3, who, token, day, t1, t2, line2);
  }

  /** The first three lines of a visit from a fresh start open one row and empty the pending dict. */
  lemma FirstVisitConnects(steamId: string, token: string, username: string, steamName: Option<string>,
                           day: int, t1: Secs, line: LogLine)
    requires IsDigitString(steamId)
    requires line.now == Instant(day, t1) && line.steamName == steamName
    ensures var w1 := Apply(EmptyWorld, Accepted(steamId), line).0;
      var w2 := Apply(w1, Linked(token), line).0;
      var (w3, o3) := Apply(w2, PlayerConnected(token, username), line);
      var who := Identity(steamId, username, steamName);
      && o3 == ActionConnected(steamId, token)
      && w3.table.rows == [Row(1, who, token, day, t1, None, 0)]
      && w3.pending == [] && w3.active == map[token := who]
      && forall id :: Ledger.Recorded(w3.ledger, id) ==> id == line.logId
  {
    FirstHandshake(steamId, token, line);
    var w2 := World([(steamId, Some(token))], map[], EmptyTable, []);
    FirstConnect(FreshConnection(w2), steamId, token, username, line.now, steamName);
  }

  /** The accepted and linked lines of a first visit leave one pending id, bound to the token. */
  lemma FirstHandshake(steamId: string, token: string, line: LogLine)
    ensures var w1 := Apply(EmptyWorld, Accepted(steamId), line).0;
      Apply(w1, Linked(token), line).0 == World([(steamId, Some(token))], map[], EmptyTable, [])
  {
    var w1 := Apply(EmptyWorld, Accepted(steamId), line).0;
    assert w1.pending == [(steamId, None)];
  }

  /** The connect of a first visit: the one pending id resolves, and the empty table gets its first row. */
  lemma FirstConnect(w: World, steamId: string, token: string, username: string, now: Instant, steamName: Option<string>)
    requires IsDigitString(steamId)
    requires w.pending == [(steamId, Some(token))] && w.active == map[] && w.table == EmptyTable.(lastInsertId := 0)
    ensures var (w1, o) := ConnectEffect(w, token, username, now, steamName);
      var who := Identity(steamId, username, steamName);
      && o == ActionConnected(steamId, token)
      && w1.table.rows == [Row(1, who, token, now.day, now.secs, None, 0)]
      && w1.pending == [] && w1.active == map[token := who]
  {
    assert ResolveSteamId(w.pending, w.active, token) == Some(steamId) by {
      assert FirstIndexWith(w.pending, Some(token)) == Some(0);
    }
    var who := Identity(steamId, username, steamName);
    assert AfterSplit(w.table, token, who, now.day) == w.table;
    assert IndexOf(w.pending, steamId) == Some(0);
  }

  /** The disconnect line of that visit, on the same day, closes the row and forgets the token. */
  lemma FirstVisitDisconnects(w3: World, who: Identity, token: string, day: int, t1: Secs, t2: Secs, line2: LogLine)
    requires w3.table.rows == [Row(1, who, token, day, t1, None, 0)]
    requires w3.pending == [] && w3.active == map[token := who]
    requires !Ledger.Recorded(w3.ledger, line2.logId) && line2.now == Instant(day, t2)
    ensures var (w4, o4) := Apply(w3, Disconnected(token), line2);
      && o4 == ActionDisconnected(who.steamId, token)
      && w4.table.rows == [Row(1, who, token, day, t1, Some(t2), SecsBetween(t1, t2))]
      && w4.pending == [] && w4.active == map[]
  {
    var row := Row(1, who, token, day, t1, None, 0);
    var t3 := w3.table.(lastInsertId := 0);
    assert LatestOpen(t3.rows, token) == Some(row) by {
      assert t3.rows[1..] == [];
    }
    assert AfterSplit(t3, token, who, day) == t3;
    assert IndexOfId(t3.rows, 1) == Some(0);
  }
}
