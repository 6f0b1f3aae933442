/**
  The `processed_logs` table: one entry per connect or disconnect line that reached a
  handler, keyed by log id. It is what makes a re-sent line harmless.
 */
module Ledger {
  import opened Wrappers
  import opened TimeOfDay

  /** The `action` column. */
  datatype Action = Connected | Disconnected

  /** A row: log_id, processed_at, steamid (NULL when the handler reported none), session_userid, action. */
  datatype Entry = Entry(logId: string, processedAt: Instant, steamId: Option<string>, token: string, action: Action)

  /** log_id is the PRIMARY KEY. */
  predicate LogIdsUnique(entries: seq<Entry>) {
    forall i, j :: 0 <= i < j < |entries| ==> entries[i].logId != entries[j].logId
  }

  /** `SELECT 1 FROM processed_logs WHERE log_id=?` finds a row. */
  predicate Recorded(entries: seq<Entry>, logId: string) {
    exists i :: 0 <= i < |entries| && entries[i].logId == logId
  }

  /** Recording a new log id keeps the key unique, and the id is then found. */
  lemma RecordKeepsUnique(entries: seq<Entry>, e: Entry)
    requires LogIdsUnique(entries) && !Recorded(entries, e.logId)
    ensures LogIdsUnique(entries + [e])
    ensures Recorded(entries + [e], e.logId)
    ensures forall id :: Recorded(entries + [e], id) <==> Recorded(entries, id) || id == e.logId
  {
    var r := entries + [e];
    assert r[|entries|] == e;
    forall id | Recorded(r, id) ensures Recorded(entries, id) || id == e.logId {
      var i :| 0 <= i < |r| && r[i].logId == id;
      if i < |entries| {
        assert entries[i] == r[i];
      }
    }
    forall id | Recorded(entries, id) ensures Recorded(r, id) {
      var i :| 0 <= i < |entries| && entries[i].logId == id;
      assert r[i] == entries[i];
    }
  }

  class ProcessedLogs {
    var entries: seq<Entry>

    ghost predicate Valid()
      reads this
    {
      LogIdsUnique(entries)
    }

    constructor ()
      ensures Valid() && entries == []
    {
      entries := [];
    }

    /** The "already processed" query. */
    predicate Contains(logId: string)
      reads this
    {
      Recorded(entries, logId)
    }

    /** The INSERT into processed_logs; the primary key demands a new log id. */
    method Record(e: Entry)
      requires Valid() && !Contains(e.logId)
      modifies this
      ensures Valid() && entries == old(entries) + [e]
    {
      RecordKeepsUnique(entries, e);
      entries := entries + [e];
    }
  }
}
