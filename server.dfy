/**
  The running service: the two dicts, the sessions table and the ledger as objects that
  the handlers update in place. Each method is proved to leave the objects exactly as the
  corresponding function of module `Ingest` says.
 */
module Server {
  import opened Wrappers
  import opened TimeOfDay
  import opened Players
  import opened LogPatterns
  import opened PyDict
  import opened SessionStore
  import opened Correlation
  import opened Ingest
  import Ledger

  /** The objects' contents as a `World`. */
  function Snapshot(c: Correlator, s: SessionTable, l: Ledger.ProcessedLogs): World
    reads c, s, l
  {
    World(c.pending, c.active, s.State(), l.entries)
  }

  /** handle_player_connected (the Steam profile lookup's answer is `steamName`). */
  method HandlePlayerConnected(c: Correlator, s: SessionTable, l: Ledger.ProcessedLogs,
                               token: string, username: string, now: Instant, steamName: Option<string>)
    returns (o: Outcome)
    requires c.Valid() && s.Valid()
    modifies c, s
    ensures c.Valid() && s.Valid()
    ensures (Snapshot(c, s, l), o) == ConnectEffect(old(Snapshot(c, s, l)), token, username, now, steamName)
  {
    var steamId := c.ResolveSteamIdFor(token);
    if steamId.None? {
      return ErrorSteamIdNotFound(token);
    }
    var who := Identity(steamId.value, username, steamName);
    c.Bind(token, who);
    s.SplitIfNeeded(token, who, now.day);
    if s.HasOpenRowOn(token, now.day) {
      return NoteAlreadyConnected(token);
    }
    s.OpenRow(token, who, now.day, now.secs);
    return ActionConnected(steamId.value, token);
  }

  /** handle_disconnect */
  method HandleDisconnect(c: Correlator, s: SessionTable, l: Ledger.ProcessedLogs, token: string, now: Instant)
    returns (o: Outcome)
    requires c.Valid() && s.Valid()
    modifies c, s
    ensures c.Valid() && s.Valid()
    ensures (Snapshot(c, s, l), o) == DisconnectEffect(old(Snapshot(c, s, l)), token, now)
  {
    if token !in c.active {
      return NoteNotInMemory(token);
    }
    var who := c.active[token];
    s.SplitIfNeeded(token, who, now.day);
    var row := s.GetOpenRow(token);
    if row.None? {
      return NoteNoOpenSession(token);
    }
    s.CloseRow(row.value.id, now.secs);
    c.Forget(token);
    return ActionDisconnected(who.steamId, token);
  }

  /** process_single_log */
  method ProcessSingleLog(c: Correlator, s: SessionTable, l: Ledger.ProcessedLogs, line: LogLine)
    returns (o: Outcome)
    requires c.Valid() && s.Valid() && l.Valid()
    modifies c, s, l
    ensures c.Valid() && s.Valid() && l.Valid()
    ensures (Snapshot(c, s, l), o) == Step(old(Snapshot(c, s, l)), line)
  {
    var steamId := ParseSteamId(line.raw);
    if steamId.Some? {
      c.OnAccepted(steamId.value);
      return ActionPending(steamId.value);
    }
    var linked := ParseLinkedToken(line.raw);
    if linked.Some? {
      if |c.pending| > 0 {
        var latest := LastKey(c.pending);
        c.OnLinked(latest, linked.value);
        return ActionMapped(latest, linked.value);
      }
      return NoteNoPendingConnection;
    }
    var player := ParsePlayerConnected(line.raw);
    if player.Some? {
      var (token, username) := player.value;
      if l.Contains(line.logId) {
        return NoteAlreadyProcessed;
      }
      s.Reconnect();
      o := HandlePlayerConnected(c, s, l, token, username, line.now, line.steamName);
      l.Record(Ledger.Entry(line.logId, line.now, SteamIdOf(o), token, Ledger.Connected));
      return;
    }
    var gone := ParseDisconnectToken(line.raw);
    if gone.Some? {
      if l.Contains(line.logId) {
        return NoteAlreadyProcessed;
      }
      s.Reconnect();
      o := HandleDisconnect(c, s, l, gone.value, line.now);
      l.Record(Ledger.Entry(line.logId, line.now, SteamIdOf(o), gone.value, Ledger.Disconnected));
      return;
    }
    return SkipNoPattern;
  }

  /** The /ingest route with a list payload: each line in turn, collecting the responses. */
  method IngestBatch(c: Correlator, s: SessionTable, l: Ledger.ProcessedLogs, lines: seq<LogLine>)
    returns (results: seq<Outcome>)
    requires c.Valid() && s.Valid() && l.Valid()
    modifies c, s, l
    ensures c.Valid() && s.Valid() && l.Valid()
    ensures (Snapshot(c, s, l), results) == Run(old(Snapshot(c, s, l)), lines)
  {
    ghost var start := Snapshot(c, s, l);
    results := [];
    var i := 0;
    while i < |lines|
      invariant 0 <= i <= |lines|
      invariant c.Valid() && s.Valid() && l.Valid()
      invariant Run(start, lines[..i]) == (Snapshot(c, s, l), results)
    {
      var o := ProcessSingleLog(c, s, l, lines[i]);
      RunExtends(start, lines, i);
      results := results + [o];
      i := i + 1;
    }
    assert lines[..i] == lines;
  }
}
