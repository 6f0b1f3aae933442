/**
  The `sessions` table and the operations that write it: close_row, open_row,
  get_open_row and split_if_needed.

  The table is a sequence of rows in rowid order. Its two unique keys are part of its
  behaviour, because open_row swallows the IntegrityError they raise:
    - UNIQUE(session_userid, connect_time)  — note that the date is NOT part of this key;
    - the partial unique index on (session_userid, date) WHERE disconnect_time IS NULL.
  Each operation is first given as a function on a `Table` value; the class
  `SessionTable` holds the same state in fields and its methods are proved to
  compute exactly those functions.
 */
module SessionStore {
  import opened Wrappers
  import opened TimeOfDay
  import opened Players

  /** One row: id, the identifying columns, token (session_userid), date, connect/disconnect time, playtime. */
  datatype Row = Row(
    id: int,
    who: Identity,
    token: string,
    date: int,
    connectTime: Secs,
    disconnectTime: Option<Secs>,
    playtime: int)
  {
    predicate IsOpen() {
      disconnectTime.None?
    }
  }

  /**
    The table's rows in rowid order, the next AUTOINCREMENT id, and the connection's
    last_insert_rowid() (0 on a fresh connection).
   */
  datatype Table = Table(rows: seq<Row>, nextId: int, lastInsertId: int)

  /** The table of a freshly bootstrapped database, seen from a fresh connection. */
  const EmptyTable := Table([], 1, 0)

  /** PRIMARY KEY AUTOINCREMENT: ids are distinct, positive and below the next id. */
  predicate IdsFresh(rows: seq<Row>, nextId: int) {
    && (forall i :: 0 <= i < |rows| ==> 1 <= rows[i].id < nextId)
    && (forall i, j :: 0 <= i < j < |rows| ==> rows[i].id != rows[j].id)
  }

  /** UNIQUE(session_userid, connect_time) */
  predicate ConnectKeyUnique(rows: seq<Row>) {
    forall i, j :: 0 <= i < j < |rows| ==>
      !(rows[i].token == rows[j].token && rows[i].connectTime == rows[j].connectTime)
  }

  /** UNIQUE INDEX ON sessions(session_userid, date) WHERE disconnect_time IS NULL */
  predicate OpenKeyUnique(rows: seq<Row>) {
    forall i, j :: 0 <= i < j < |rows| && rows[i].IsOpen() && rows[j].IsOpen() ==>
      !(rows[i].token == rows[j].token && rows[i].date == rows[j].date)
  }

  /** Both unique keys of the table. */
  predicate UniqueKeys(rows: seq<Row>) {
    ConnectKeyUnique(rows) && OpenKeyUnique(rows)
  }

  /** An open row has playtime 0 (the insert's default); a closed one has secs_between(connect, disconnect). */
  predicate PlaytimeConsistent(r: Row) {
    if r.IsOpen() then r.playtime == 0
    else r.playtime == SecsBetween(r.connectTime, r.disconnectTime.value)
  }

  /** The table invariant. */
  predicate TableValid(t: Table) {
    && t.nextId >= 1
    && IdsFresh(t.rows, t.nextId)
    && UniqueKeys(t.rows)
    && (forall i :: 0 <= i < |t.rows| ==> PlaytimeConsistent(t.rows[i]))
  }

  /** Every playtime in a valid table lies in [0, 86399]. */
  lemma PlaytimeBounds(t: Table, i: int)
    requires TableValid(t) && 0 <= i < |t.rows|
    ensures 0 <= t.rows[i].playtime <= LastSecond
  {
  }

  // ---------------------------------------------------------------- close_row

  /** `SELECT * FROM sessions WHERE id=?`: the position of the row with this id. */
  function IndexOfId(rows: seq<Row>, id: int): (k: Option<nat>)
    ensures k.Some? ==> k.value < |rows| && rows[k.value].id == id
    ensures k.None? ==> forall i :: 0 <= i < |rows| ==> rows[i].id != id
  {
    if |rows| == 0 then None
    else if rows[|rows| - 1].id == id then Some(|rows| - 1)
    else IndexOfId(rows[..|rows| - 1], id)
  }

  /** The row closed at `at`: disconnect_time set and playtime computed from its own connect time. */
  function ClosedAt(r: Row, at: Secs): Row {
    r.(disconnectTime := Some(at), playtime := SecsBetween(r.connectTime, at))
  }

  /** close_row(row_id, disconnect_time): a missing id changes nothing. */
  function AfterClose(t: Table, id: int, at: Secs): Table {
    match IndexOfId(t.rows, id)
    case None => t
    case Some(k) => t.(rows := t.rows[k := ClosedAt(t.rows[k], at)])
  }

  /**
    close_row touches only the row with that id, and only its disconnect_time and playtime;
    with an id that is not in the table it changes nothing.
   */
  lemma CloseEffect(t: Table, id: int, at: Secs)
    requires IdsFresh(t.rows, t.nextId)
    ensures var r := AfterClose(t, id, at);
      && |r.rows| == |t.rows| && r.nextId == t.nextId && r.lastInsertId == t.lastInsertId
      && (forall i :: 0 <= i < |t.rows| ==>
            r.rows[i] == if t.rows[i].id == id then ClosedAt(t.rows[i], at) else t.rows[i])
      && ((forall i :: 0 <= i < |t.rows| ==> t.rows[i].id != id) ==> r == t)
  {
  }

  /** close_row keeps the table invariant. */
  lemma CloseKeepsValid(t: Table, id: int, at: Secs)
    requires TableValid(t)
    ensures TableValid(AfterClose(t, id, at))
  {
    match IndexOfId(t.rows, id)
    case None =>
    case Some(k) =>
      var r := AfterClose(t, id, at);
      assert forall i :: 0 <= i < |t.rows| ==>
        r.rows[i].id == t.rows[i].id && r.rows[i].token == t.rows[i].token
        && r.rows[i].connectTime == t.rows[i].connectTime && r.rows[i].date == t.rows[i].date
        && (r.rows[i].IsOpen() ==> t.rows[i].IsOpen());
  }

  // ---------------------------------------------------------------- open_row

  /**
    The INSERT would raise IntegrityError: some row of this token has the same connect
    time (on any date), or is open on the same date.
   */
  predicate Collides(rows: seq<Row>, token: string, date: int, ct: Secs) {
    exists i :: 0 <= i < |rows| && rows[i].token == token
      && (rows[i].connectTime == ct || (rows[i].IsOpen() && rows[i].date == date))
  }

  /** The row open_row inserts: open, playtime 0, with the next id. */
  function NewRow(t: Table, token: string, who: Identity, date: int, ct: Secs): Row {
    Row(t.nextId, who, token, date, ct, None, 0)
  }

  /** open_row: insert an open row, or nothing at all if a unique key objects. */
  function AfterOpen(t: Table, token: string, who: Identity, date: int, ct: Secs): Table {
    if Collides(t.rows, token, date, ct) then t
    else Table(t.rows + [NewRow(t, token, who, date, ct)], t.nextId + 1, t.nextId)
  }

  /**
    The insert is dropped exactly when the appended row would break one of the two unique
    keys; otherwise the row is appended and becomes last_insert_rowid().
   */
  lemma OpenDroppedIffKeyViolated(t: Table, token: string, who: Identity, date: int, ct: Secs)
    requires TableValid(t)
    ensures Collides(t.rows, token, date, ct) <==> !UniqueKeys(t.rows + [NewRow(t, token, who, date, ct)])
    ensures Collides(t.rows, token, date, ct) ==> AfterOpen(t, token, who, date, ct) == t
    ensures !Collides(t.rows, token, date, ct) ==>
      AfterOpen(t, token, who, date, ct).rows == t.rows + [NewRow(t, token, who, date, ct)]
      && AfterOpen(t, token, who, date, ct).lastInsertId == t.nextId
  {
    var n := NewRow(t, token, who, date, ct);
    var rows := t.rows + [n];
    if Collides(t.rows, token, date, ct) {
      var i :| 0 <= i < |t.rows| && t.rows[i].token == token
        && (t.rows[i].connectTime == ct || (t.rows[i].IsOpen() && t.rows[i].date == date));
      assert rows[i] == t.rows[i] && rows[|t.rows|] == n;
    } else {
      forall i, j | 0 <= i < j < |rows|
        ensures !(rows[i].token == rows[j].token && rows[i].connectTime == rows[j].connectTime)
        ensures rows[i].IsOpen() && rows[j].IsOpen() ==> !(rows[i].token == rows[j].token && rows[i].date == rows[j].date)
      {
        if j < |t.rows| {
          assert rows[i] == t.rows[i] && rows[j] == t.rows[j];
        } else {
          assert rows[i] == t.rows[i] && rows[j] == n;
        }
      }
    }
  }

  /** open_row keeps the table invariant, whether the insert happens or is dropped. */
  lemma OpenKeepsValid(t: Table, token: string, who: Identity, date: int, ct: Secs)
    requires TableValid(t)
    ensures TableValid(AfterOpen(t, token, who, date, ct))
  {
    OpenDroppedIffKeyViolated(t, token, who, date, ct);
    var r := AfterOpen(t, token, who, date, ct);
    if !Collides(t.rows, token, date, ct) {
      assert forall i :: 0 <= i < |t.rows| ==> r.rows[i] == t.rows[i];
    }
  }

  // ---------------------------------------------------------------- get_open_row

  /** ORDER BY date DESC, connect_time DESC: row `a` sorts before row `b`. */
  predicate Later(a: Row, b: Row) {
    a.date > b.date || (a.date == b.date && a.connectTime > b.connectTime)
  }

  /**
    get_open_row: the open row of this token that is latest by date, then connect time
    (LIMIT 1), or None when the token has no open row.
   */
  function LatestOpen(rows: seq<Row>, token: string): (r: Option<Row>)
    ensures r.Some? ==> r.value in rows && r.value.token == token && r.value.IsOpen()
    ensures r.Some? ==> forall x :: x in rows && x.token == token && x.IsOpen() ==> !Later(x, r.value)
    ensures r.None? ==> forall x :: x in rows ==> !(x.token == token && x.IsOpen())
  {
    if |rows| == 0 then None
    else
      var rest := LatestOpen(rows[1..], token);
      var x := rows[0];
      assert forall y :: y in rows ==> y == x || y in rows[1..];
      if x.token == token && x.IsOpen() && (rest.None? || Later(x, rest.value)) then Some(x)
      else rest
  }

  /**
    `SELECT 1 FROM sessions WHERE session_userid=? AND date=? AND disconnect_time IS NULL`
   */
  predicate HasOpenOn(rows: seq<Row>, token: string, date: int) {
    exists i :: 0 <= i < |rows| && rows[i].token == token && rows[i].date == date && rows[i].IsOpen()
  }

  // ---------------------------------------------------------------- split_if_needed

  /**
    The loop of split_if_needed from day `d` on: insert an open 00:00:00 row on `d`; on the
    last day stop there, on an earlier day close last_insert_rowid() at 23:59:59 and go on.
   */
  function FillDays(t: Table, token: string, who: Identity, d: int, today: int): Table
    requires d <= today
    decreases today - d
  {
    if d == today then AfterOpen(t, token, who, d, Midnight)
    else FillDays(PastDay(t, token, who, d), token, who, d + 1, today)
  }

  /** A day before today: open_row at 00:00:00, then close_row(last_insert_rowid(), 23:59:59). */
  function PastDay(t: Table, token: string, who: Identity, d: int): Table {
    var t1 := AfterOpen(t, token, who, d, Midnight);
    AfterClose(t1, t1.lastInsertId, LastSecond)
  }

  /** The table after the past-day rounds for days `first` through `d - 1`, in order. */
  function PastRounds(t: Table, token: string, who: Identity, first: int, d: int): Table
    requires first <= d
    decreases d - first
  {
    if d == first then t else PastDay(PastRounds(t, token, who, first, d - 1), token, who, d - 1)
  }

  /** Running the rounds up to day `d` first and the day loop from `d` on is the whole day loop. */
  lemma {:induction false} FillDaysAfterRounds(t: Table, token: string, who: Identity, first: int, d: int, today: int)
    requires first <= d <= today
    ensures FillDays(t, token, who, first, today) == FillDays(PastRounds(t, token, who, first, d), token, who, d, today)
    decreases d - first
  {
    if d > first {
      FillDaysAfterRounds(t, token, who, first, d - 1, today);
    }
  }

  /**
    split_if_needed: if the token's latest open row is dated before today, close it at
    23:59:59 and run the day loop from the next day through today; otherwise nothing.
   */
  function AfterSplit(t: Table, token: string, who: Identity, today: int): Table {
    match LatestOpen(t.rows, token)
    case None => t
    case Some(r) =>
      if r.date >= today then t
      else FillDays(AfterClose(t, r.id, LastSecond), token, who, r.date + 1, today)
  }

  /** Some row of this token starts at 00:00:00 (on any date). */
  predicate HasMidnightRow(rows: seq<Row>, token: string) {
    exists i :: 0 <= i < |rows| && rows[i].token == token && rows[i].connectTime == Midnight
  }

  /** Re-closing last_insert_rowid() at 23:59:59 would change nothing. */
  predicate RecloseIsNoop(t: Table) {
    forall i :: 0 <= i < |t.rows| && t.rows[i].id == t.lastInsertId ==>
      t.rows[i] == ClosedAt(t.rows[i], LastSecond)
  }

  /**
    The row a split inserts, if it inserts one: dated the day after the open row,
    starting at 00:00:00; closed at 23:59:59 with playtime 86399 when that day is before
    today, left open with playtime 0 when that day is today.
   */
  function DayAfterRow(t: Table, token: string, who: Identity, day: int, today: int): Row {
    if day == today then Row(t.nextId, who, token, day, Midnight, None, 0)
    else Row(t.nextId, who, token, day, Midnight, Some(LastSecond), 86399)
  }

  /** When every midnight insert is bound to collide, the day loop changes nothing. */
  lemma {:induction false} FillDaysIdle(t: Table, token: string, who: Identity, d: int, today: int)
    requires d <= today
    requires HasMidnightRow(t.rows, token)
    requires RecloseIsNoop(t)
    ensures FillDays(t, token, who, d, today) == t
    decreases today - d
  {
    assert AfterOpen(t, token, who, d, Midnight) == t;
    if d < today {
      assert AfterClose(t, t.lastInsertId, LastSecond) == t by {
        match IndexOfId(t.rows, t.lastInsertId)
        case None =>
        case Some(k) => assert t.rows[k := t.rows[k]] == t.rows;
      }
      FillDaysIdle(t, token, who, d + 1, today);
    }
  }

  /**
    What split_if_needed does, in full. With no open row, or an open row dated today or
    later, nothing changes. Otherwise the latest open row is closed at 23:59:59 and at most
    ONE row is added: UNIQUE(session_userid, connect_time) ignores the date, so once a
    00:00:00 row exists for the token every later 00:00:00 insert is silently dropped. The
    row is added exactly when the token had no 00:00:00 row, and it is dated the day after
    the closed row (closed 00:00:00-23:59:59, playtime 86399, unless that day is today).
    `RecloseIsNoop` holds on a fresh connection, where last_insert_rowid() is 0.
   */
  lemma SplitOutcome(t: Table, token: string, who: Identity, today: int)
    requires TableValid(t) && RecloseIsNoop(t)
    ensures LatestOpen(t.rows, token).None? ==> AfterSplit(t, token, who, today) == t
    ensures LatestOpen(t.rows, token).Some? && LatestOpen(t.rows, token).value.date >= today ==>
      AfterSplit(t, token, who, today) == t
    ensures LatestOpen(t.rows, token).Some? && LatestOpen(t.rows, token).value.date < today ==>
      var r := LatestOpen(t.rows, token).value;
      var closed := AfterClose(t, r.id, LastSecond);
      AfterSplit(t, token, who, today).rows ==
        if HasMidnightRow(t.rows, token) then closed.rows
        else closed.rows + [DayAfterRow(t, token, who, r.date + 1, today)]
  {
    match LatestOpen(t.rows, token)
    case None =>
    case Some(r) =>
      if r.date < today {
        SplitAfterPastRow(t, token, who, today, r);
      }
  }

  /** The case of SplitOutcome where the latest open row is from an earlier day. */
  lemma SplitAfterPastRow(t: Table, token: string, who: Identity, today: int, r: Row)
    requires TableValid(t) && RecloseIsNoop(t)
    requires LatestOpen(t.rows, token) == Some(r) && r.date < today
    ensures var closed := AfterClose(t, r.id, LastSecond);
      AfterSplit(t, token, who, today).rows ==
        if HasMidnightRow(t.rows, token) then closed.rows
        else closed.rows + [DayAfterRow(t, token, who, r.date + 1, today)]
  {
    var closed := AfterClose(t, r.id, LastSecond);
    assert AfterSplit(t, token, who, today) == FillDays(closed, token, who, r.date + 1, today);
    CloseLatest(t, token, r);
    if HasMidnightRow(t.rows, token) {
      FillDaysIdle(closed, token, who, r.date + 1, today);
    } else {
      FillFromFreshMidnight(closed, token, who, r.date + 1, today);
      assert DayAfterRow(closed, token, who, r.date + 1, today) == DayAfterRow(t, token, who, r.date + 1, today);
    }
  }

  /**
    Closing the latest open row of a token keeps the table valid and re-closing harmless,
    keeps the token's 00:00:00 rows, and leaves the token no open row after that row's date.
   */
  lemma CloseLatest(t: Table, token: string, r: Row)
    requires TableValid(t) && RecloseIsNoop(t)
    requires LatestOpen(t.rows, token) == Some(r)
    ensures var closed := AfterClose(t, r.id, LastSecond);
      && TableValid(closed) && RecloseIsNoop(closed) && closed.nextId == t.nextId
      && (HasMidnightRow(closed.rows, token) <==> HasMidnightRow(t.rows, token))
      && forall i :: 0 <= i < |closed.rows| && closed.rows[i].token == token && closed.rows[i].IsOpen() ==>
           closed.rows[i].date <= r.date
  {
    var closed := AfterClose(t, r.id, LastSecond);
    CloseEffect(t, r.id, LastSecond);
    CloseKeepsValid(t, r.id, LastSecond);
    forall i | 0 <= i < |closed.rows| && closed.rows[i].id == closed.lastInsertId
      ensures closed.rows[i] == ClosedAt(closed.rows[i], LastSecond)
    {
      if t.rows[i].id == r.id {
        assert closed.rows[i] == ClosedAt(t.rows[i], LastSecond);
      }
    }
    forall i | 0 <= i < |closed.rows| && closed.rows[i].token == token && closed.rows[i].IsOpen()
      ensures closed.rows[i].date <= r.date
    {
      assert t.rows[i] in t.rows;
    }
    CloseKeepsMidnightRows(t, r.id, LastSecond, token);
  }

  /** Closing a row changes no token and no connect time, so the 00:00:00 rows stay. */
  lemma CloseKeepsMidnightRows(t: Table, id: int, at: Secs, token: string)
    requires IdsFresh(t.rows, t.nextId)
    ensures HasMidnightRow(AfterClose(t, id, at).rows, token) <==> HasMidnightRow(t.rows, token)
  {
    var closed := AfterClose(t, id, at);
    CloseEffect(t, id, at);
    if HasMidnightRow(t.rows, token) {
      var i :| 0 <= i < |t.rows| && t.rows[i].token == token && t.rows[i].connectTime == Midnight;
      assert closed.rows[i].token == token && closed.rows[i].connectTime == Midnight;
    }
    if HasMidnightRow(closed.rows, token) {
      var i :| 0 <= i < |closed.rows| && closed.rows[i].token == token && closed.rows[i].connectTime == Midnight;
      assert t.rows[i].token == token && t.rows[i].connectTime == Midnight;
    }
  }

  /**
    When the token has no 00:00:00 row and no open row on day `d` or later, the day loop
    inserts exactly one row, on day `d`, and every later insert collides with it.
   */
  lemma FillFromFreshMidnight(t: Table, token: string, who: Identity, d: int, today: int)
    requires TableValid(t) && d <= today
    requires !HasMidnightRow(t.rows, token)
    requires forall i :: 0 <= i < |t.rows| && t.rows[i].token == token && t.rows[i].IsOpen() ==> t.rows[i].date < d
    ensures FillDays(t, token, who, d, today).rows == t.rows + [DayAfterRow(t, token, who, d, today)]
  {
    var t1 := AfterOpen(t, token, who, d, Midnight);
    var n := NewRow(t, token, who, d, Midnight);
    assert !Collides(t.rows, token, d, Midnight);
    if d < today {
      OpenThenClose(t, token, who, d);
      FillDaysIdle(AfterClose(t1, t1.lastInsertId, LastSecond), token, who, d + 1, today);
    }
  }

  /**
    One round of the day loop when the 00:00:00 insert succeeds: the new row is appended
    already closed at 23:59:59, and closing last_insert_rowid() again would change nothing.
   */
  lemma OpenThenClose(t: Table, token: string, who: Identity, d: int)
    requires TableValid(t) && !Collides(t.rows, token, d, Midnight)
    ensures var t1 := AfterOpen(t, token, who, d, Midnight);
      var t2 := AfterClose(t1, t1.lastInsertId, LastSecond);
      && t2.rows == t.rows + [ClosedAt(NewRow(t, token, who, d, Midnight), LastSecond)]
      && HasMidnightRow(t2.rows, token)
      && RecloseIsNoop(t2)
  {
    var t1 := AfterOpen(t, token, who, d, Midnight);
    var n := NewRow(t, token, who, d, Midnight);
    assert t1.rows == t.rows + [n];
    var t2 := AfterClose(t1, t1.lastInsertId, LastSecond);
    OpenKeepsValid(t, token, who, d, Midnight);
    CloseEffect(t1, t1.lastInsertId, LastSecond);
    assert t2.rows == t.rows + [ClosedAt(n, LastSecond)];
    assert t2.rows[|t.rows|].token == token;
    forall i | 0 <= i < |t2.rows| && t2.rows[i].id == t2.lastInsertId
      ensures t2.rows[i] == ClosedAt(t2.rows[i], LastSecond)
    {
      assert t1.rows[i].id == t1.lastInsertId;
    }
  }

  /**
    A split across two or more midnights leaves the token no open row dated today: the
    only row it can add is dated the day after the old one, and it is closed.
   */
  lemma LongGapLeavesNothingOpenToday(t: Table, token: string, who: Identity, today: int)
    requires TableValid(t) && RecloseIsNoop(t)
    requires LatestOpen(t.rows, token).Some? && LatestOpen(t.rows, token).value.date + 1 < today
    ensures !HasOpenOn(AfterSplit(t, token, who, today).rows, token, today)
  {
    var r := LatestOpen(t.rows, token).value;
    var closed := AfterClose(t, r.id, LastSecond);
    SplitOutcome(t, token, who, today);
    CloseLatest(t, token, r);
    var rows := AfterSplit(t, token, who, today).rows;
    forall i | 0 <= i < |rows| && rows[i].token == token && rows[i].IsOpen()
      ensures rows[i].date != today
    {
      if i < |closed.rows| {
        assert rows[i] == closed.rows[i];
      }
    }
  }

  /** The token has at most one open row. */
  predicate AtMostOneOpen(rows: seq<Row>, token: string) {
    forall i, j :: 0 <= i < j < |rows| && rows[i].token == token && rows[j].token == token ==>
      !(rows[i].IsOpen() && rows[j].IsOpen())
  }

  /** With at most one open row per token, an open row rules out every other open row of its token. */
  lemma OnlyOneOpen(rows: seq<Row>, token: string, k: int, i: int)
    requires AtMostOneOpen(rows, token)
    requires 0 <= k < |rows| && 0 <= i < |rows| && k != i
    requires rows[k].token == token && rows[i].token == token && rows[k].IsOpen()
    ensures !rows[i].IsOpen()
  {
  }

  /**
    For a token with a single open row, a split across two or more midnights leaves it
    no open row at all.
   */
  lemma LongGapClosesEverything(t: Table, token: string, who: Identity, today: int)
    requires TableValid(t) && RecloseIsNoop(t) && AtMostOneOpen(t.rows, token)
    requires LatestOpen(t.rows, token).Some? && LatestOpen(t.rows, token).value.date + 1 < today
    ensures LatestOpen(AfterSplit(t, token, who, today).rows, token).None?
  {
    var r := LatestOpen(t.rows, token).value;
    var closed := AfterClose(t, r.id, LastSecond);
    var rows := AfterSplit(t, token, who, today).rows;
    SplitOutcome(t, token, who, today);
    CloseEffect(t, r.id, LastSecond);
    var k :| 0 <= k < |t.rows| && t.rows[k] == r;
    forall i | 0 <= i < |rows| && rows[i].token == token
      ensures !rows[i].IsOpen()
    {
      if i < |closed.rows| && t.rows[i].id != r.id {
        assert rows[i] == t.rows[i];
        OnlyOneOpen(t.rows, token, k, i);
      }
    }
  }

  /**
    For a token with a single open row and a 00:00:00 row already (its own open row, or
    one an earlier split inserted), a split after any number of midnights only closes the
    open row at 23:59:59: every insert hits the connect-time key, so the token is left
    with no open row.
   */
  lemma MidnightRowClosesEverything(t: Table, token: string, who: Identity, today: int)
    requires TableValid(t) && RecloseIsNoop(t) && AtMostOneOpen(t.rows, token)
    requires LatestOpen(t.rows, token).Some? && LatestOpen(t.rows, token).value.date < today
    requires HasMidnightRow(t.rows, token)
    ensures var r := LatestOpen(t.rows, token).value;
      AfterSplit(t, token, who, today).rows == AfterClose(t, r.id, LastSecond).rows
    ensures LatestOpen(AfterSplit(t, token, who, today).rows, token).None?
  {
    var r := LatestOpen(t.rows, token).value;
    SplitOutcome(t, token, who, today);
    CloseNoOpenLeft(t, token, r);
  }

  /**
    A split one midnight later, for a token with no 00:00:00 row yet, leaves it exactly one
    open row dated today, starting at 00:00:00.
   */
  lemma OneDayGapOpensToday(t: Table, token: string, who: Identity, today: int)
    requires TableValid(t) && RecloseIsNoop(t)
    requires LatestOpen(t.rows, token).Some? && LatestOpen(t.rows, token).value.date + 1 == today
    requires !HasMidnightRow(t.rows, token)
    ensures var after := AfterSplit(t, token, who, today);
      && HasOpenOn(after.rows, token, today)
      && LatestOpen(after.rows, token) == Some(Row(t.nextId, who, token, today, Midnight, None, 0))
  {
    var r := LatestOpen(t.rows, token).value;
    var closed := AfterClose(t, r.id, LastSecond);
    SplitOutcome(t, token, who, today);
    CloseLatest(t, token, r);
    var after := AfterSplit(t, token, who, today);
    SplitKeepsValid(t, token, who, today);
    var n := Row(t.nextId, who, token, today, Midnight, None, 0);
    assert after.rows[|closed.rows|] == n;
    var l := LatestOpen(after.rows, token);
    assert l.Some?;
    var k :| 0 <= k < |after.rows| && after.rows[k] == l.value;
  }

  /** A split never leaves the token an open row dated after today, if it had none before. */
  lemma SplitBoundsOpenDates(t: Table, token: string, who: Identity, today: int)
    requires TableValid(t) && RecloseIsNoop(t)
    requires forall i :: 0 <= i < |t.rows| && t.rows[i].token == token && t.rows[i].IsOpen() ==> t.rows[i].date <= today
    ensures var rows := AfterSplit(t, token, who, today).rows;
      forall i :: 0 <= i < |rows| && rows[i].token == token && rows[i].IsOpen() ==> rows[i].date <= today
  {
    match LatestOpen(t.rows, token)
    case None =>
    case Some(r) =>
      if r.date < today {
        PastRowSplitBoundsOpenDates(t, token, who, today, r);
      }
  }

  /** The case of SplitBoundsOpenDates where the latest open row is from an earlier day. */
  lemma PastRowSplitBoundsOpenDates(t: Table, token: string, who: Identity, today: int, r: Row)
    requires TableValid(t) && RecloseIsNoop(t)
    requires LatestOpen(t.rows, token) == Some(r) && r.date < today
    ensures var rows := AfterSplit(t, token, who, today).rows;
      forall i :: 0 <= i < |rows| && rows[i].token == token && rows[i].IsOpen() ==> rows[i].date <= today
  {
    var closed := AfterClose(t, r.id, LastSecond);
    SplitAfterPastRow(t, token, who, today, r);
    CloseLatest(t, token, r);
    var rows := AfterSplit(t, token, who, today).rows;
    forall i | 0 <= i < |rows| && rows[i].token == token && rows[i].IsOpen()
      ensures rows[i].date <= today
    {
      if i < |closed.rows| {
        assert rows[i] == closed.rows[i];
      }
    }
  }

  // ---------------------------------------------------------------- one open row per token

  /** No token has two open rows: what the partial unique index aims at, on any date. */
  predicate OneOpenPerToken(rows: seq<Row>) {
    forall i, j :: 0 <= i < j < |rows| && rows[i].IsOpen() && rows[j].IsOpen() ==> rows[i].token != rows[j].token
  }

  /** No open row is dated after `day`. */
  predicate OpenNotAfter(rows: seq<Row>, day: int) {
    forall i :: 0 <= i < |rows| && rows[i].IsOpen() ==> rows[i].date <= day
  }

  /** close_row only ever closes a row, so it keeps both properties. */
  lemma CloseKeepsOneOpen(t: Table, id: int, at: Secs, day: int)
    requires IdsFresh(t.rows, t.nextId) && OneOpenPerToken(t.rows) && OpenNotAfter(t.rows, day)
    ensures OneOpenPerToken(AfterClose(t, id, at).rows) && OpenNotAfter(AfterClose(t, id, at).rows, day)
  {
    CloseEffect(t, id, at);
  }

  /**
    With at most one open row per token and none dated after today, split_if_needed keeps
    both, and every open row it leaves the token is dated today.
   */
  lemma SplitSettlesToken(t: Table, token: string, who: Identity, today: int)
    requires TableValid(t) && RecloseIsNoop(t)
    requires OneOpenPerToken(t.rows) && OpenNotAfter(t.rows, today)
    ensures var rows := AfterSplit(t, token, who, today).rows;
      && OneOpenPerToken(rows) && OpenNotAfter(rows, today)
      && forall i :: 0 <= i < |rows| && rows[i].token == token && rows[i].IsOpen() ==> rows[i].date == today
  {
    match LatestOpen(t.rows, token)
    case None =>
    case Some(r) =>
      if r.date < today {
        PastRowSplitSettlesToken(t, token, who, today, r);
      } else {
        forall i | 0 <= i < |t.rows| && t.rows[i].token == token && t.rows[i].IsOpen()
          ensures t.rows[i].date == today
        {
          assert t.rows[i] in t.rows;
        }
      }
  }

  /** The case of SplitSettlesToken where the latest open row is from an earlier day. */
  lemma PastRowSplitSettlesToken(t: Table, token: string, who: Identity, today: int, r: Row)
    requires TableValid(t) && RecloseIsNoop(t)
    requires OneOpenPerToken(t.rows) && OpenNotAfter(t.rows, today)
    requires LatestOpen(t.rows, token) == Some(r) && r.date < today
    ensures var rows := AfterSplit(t, token, who, today).rows;
      && OneOpenPerToken(rows) && OpenNotAfter(rows, today)
      && forall i :: 0 <= i < |rows| && rows[i].token == token && rows[i].IsOpen() ==> rows[i].date == today
  {
    var closed := AfterClose(t, r.id, LastSecond);
    assert AtMostOneOpen(t.rows, token);
    CloseNoOpenLeft(t, token, r);
    CloseKeepsOneOpen(t, r.id, LastSecond, today);
    SplitAfterPastRow(t, token, who, today, r);
    var rows := AfterSplit(t, token, who, today).rows;
    forall i, j | 0 <= i < j < |rows| && rows[i].IsOpen() && rows[j].IsOpen()
      ensures rows[i].token != rows[j].token
    {
      if j < |closed.rows| {
        assert rows[i] == closed.rows[i] && rows[j] == closed.rows[j];
      } else {
        assert rows[i] == closed.rows[i];
      }
    }
    forall i | 0 <= i < |rows| && rows[i].IsOpen()
      ensures rows[i].date <= today
      ensures rows[i].token == token ==> rows[i].date == today
    {
      if i < |closed.rows| {
        assert rows[i] == closed.rows[i];
      }
    }
  }

  /** Closing the token's only open row leaves it no open row. */
  lemma CloseNoOpenLeft(t: Table, token: string, r: Row)
    requires IdsFresh(t.rows, t.nextId) && AtMostOneOpen(t.rows, token)
    requires LatestOpen(t.rows, token) == Some(r)
    ensures var rows := AfterClose(t, r.id, LastSecond).rows;
      forall i :: 0 <= i < |rows| ==> !(rows[i].token == token && rows[i].IsOpen())
  {
    var rows := AfterClose(t, r.id, LastSecond).rows;
    CloseEffect(t, r.id, LastSecond);
    var k :| 0 <= k < |t.rows| && t.rows[k] == r;
    forall i | 0 <= i < |rows| && rows[i].token == token
      ensures !rows[i].IsOpen()
    {
      if t.rows[i].id != r.id {
        assert i != k && rows[i] == t.rows[i];
      }
    }
  }

  /** The day loop keeps the table invariant. */
  lemma {:induction false} FillDaysKeepsValid(t: Table, token: string, who: Identity, d: int, today: int)
    requires d <= today && TableValid(t)
    ensures TableValid(FillDays(t, token, who, d, today))
    decreases today - d
  {
    var t1 := AfterOpen(t, token, who, d, Midnight);
    OpenKeepsValid(t, token, who, d, Midnight);
    if d < today {
      CloseKeepsValid(t1, t1.lastInsertId, LastSecond);
      FillDaysKeepsValid(AfterClose(t1, t1.lastInsertId, LastSecond), token, who, d + 1, today);
    }
  }

  /** split_if_needed keeps the table invariant, however many days have passed. */
  lemma SplitKeepsValid(t: Table, token: string, who: Identity, today: int)
    requires TableValid(t)
    ensures TableValid(AfterSplit(t, token, who, today))
  {
    match LatestOpen(t.rows, token)
    case None =>
    case Some(r) =>
      if r.date < today {
        CloseKeepsValid(t, r.id, LastSecond);
        FillDaysKeepsValid(AfterClose(t, r.id, LastSecond), token, who, r.date + 1, today);
      }
  }

  // ---------------------------------------------------------------- the table object

  class SessionTable {
    var rows: seq<Row>
    var nextId: int
    var lastInsertId: int

    /** The table as a value. */
    function State(): Table
      reads this
    {
      Table(rows, nextId, lastInsertId)
    }

    ghost predicate Valid()
      reads this
    {
      TableValid(State())
    }

    /** init_db on an empty database. */
    constructor ()
      ensures Valid() && State() == EmptyTable
    {
      rows, nextId, lastInsertId := [], 1, 0;
    }

    /** db(): every transaction runs on a new connection, whose last_insert_rowid() is 0. */
    method Reconnect()
      requires Valid()
      modifies this
      ensures Valid() && State() == old(State()).(lastInsertId := 0)
    {
      lastInsertId := 0;
    }

    /** close_row */
    method CloseRow(id: int, at: Secs)
      requires Valid()
      modifies this
      ensures Valid() && State() == AfterClose(old(State()), id, at)
    {
      CloseKeepsValid(State(), id, at);
      var k := IndexOfId(rows, id);
      if k.Some? {
        var row := rows[k.value];
        var pt := SecsBetween(row.connectTime, at);
        rows := rows[k.value := row.(disconnectTime := Some(at), playtime := pt)];
      }
    }

    /** open_row: an IntegrityError leaves the table as it was. */
    method OpenRow(token: string, who: Identity, date: int, ct: Secs)
      requires Valid()
      modifies this
      ensures Valid() && State() == AfterOpen(old(State()), token, who, date, ct)
    {
      OpenKeepsValid(State(), token, who, date, ct);
      if !Collides(rows, token, date, ct) {
        rows := rows + [Row(nextId, who, token, date, ct, None, 0)];
        lastInsertId := nextId;
        nextId := nextId + 1;
      }
    }

    /** get_open_row */
    function GetOpenRow(token: string): (r: Option<Row>)
      reads this
      ensures r.Some? ==> r.value in rows && r.value.token == token && r.value.IsOpen()
      ensures r.Some? ==> forall x :: x in rows && x.token == token && x.IsOpen() ==> !Later(x, r.value)
      ensures r.None? ==> forall x :: x in rows ==> !(x.token == token && x.IsOpen())
    {
      LatestOpen(rows, token)
    }

    /** The "already connected" query of handle_player_connected. */
    function HasOpenRowOn(token: string, date: int): (b: bool)
      reads this
      ensures b <==> exists x :: x in rows && x.token == token && x.date == date && x.IsOpen()
    {
      HasOpenOn(rows, token, date)
    }

    /** split_if_needed */
    method SplitIfNeeded(token: string, who: Identity, today: int)
      requires Valid()
      modifies this
      ensures Valid() && State() == AfterSplit(old(State()), token, who, today)
    {
      var open := GetOpenRow(token);
      if open.None? {
        return;
      }
      var openDate := open.value.date;
      if openDate >= today {
        return;
      }
      CloseRow(open.value.id, LastSecond);
      FillDaysFrom(token, who, openDate + 1, today);
    }

    /**
      The day loop of split_if_needed, from day `first` through `today`. The source loops
      while d <= today and breaks after opening the row of today; here the last round is
      written after the loop.
     */
    method FillDaysFrom(token: string, who: Identity, first: int, today: int)
      requires Valid() && first <= today
      modifies this
      ensures Valid() && State() == FillDays(old(State()), token, who, first, today)
    {
      ghost var start := State();
      var d := first;
      while d < today
        invariant first <= d <= today
        invariant Valid() && State() == PastRounds(start, token, who, first, d)
        decreases today - d
      {
        FillPastDay(token, who, d);
        d := d + 1;
      }
      FillDaysAfterRounds(start, token, who, first, today, today);
      OpenRow(token, who, today, Midnight);
    }

    /** One day before `today`: a row opened at midnight and closed at 23:59:59 at once. */
    method FillPastDay(token: string, who: Identity, d: int)
      requires Valid()
      modifies this
      ensures Valid() && State() == PastDay(old(State()), token, who, d)
    {
      OpenRow(token, who, d, Midnight);
      var newId := lastInsertId;
      CloseRow(newId, LastSecond);
    }
  }
}
