/** The log extractor: filters the event log down to song plays and builds the
    `users` and `time` dimension tables from them (`process_log_data`, up to the join). */
module LogExtractor {
  import opened Nulls
  import opened Strings
  import opened Frames

  /** One event of the application log; `ts` is the event time in epoch milliseconds. */
  datatype LogEvent = LogEvent(
    ts: int,
    page: Option<string>,
    userId: Option<string>,
    firstName: Option<string>,
    lastName: Option<string>,
    gender: Option<string>,
    level: Option<string>,
    sessionId: Option<int>,
    location: Option<string>,
    userAgent: Option<string>,
    song: Option<string>,
    artist: Option<string>)

  /** The calendar fields derived from a timestamp: hour, day of month, week of
      year, month, year and day of week. */
  datatype Calendar = Calendar(hour: int, day: int, week: int, month: int, year: int, weekday: int)

  /** A row of the `time` table. */
  datatype TimeRow = TimeRow(
    start_time: int, hour: int, day: int, week: int, month: int, year: int, weekday: int)

  /** A play event with the columns added at the timestamp derivation: the
      event's own columns, and `start_time` with its calendar fields. */
  datatype EnrichedEvent = EnrichedEvent(event: LogEvent, time: TimeRow)

  /** A row of the `users` table. */
  datatype UserRow = UserRow(
    user_id: string,
    first_name: Option<string>,
    last_name: Option<string>,
    gender: Option<string>,
    level: Option<string>)

  // ----------------------------------------------------------------- plays

  /** The filter `page == 'NextSong'`: the event is a song play. */
  predicate IsPlay(e: LogEvent) {
    EqualsLiteral(e.page, "NextSong")
  }

  /** The song plays of the log, in log order; every later table is built from these. */
  function Plays(log: seq<LogEvent>): (plays: seq<LogEvent>)
    ensures forall e :: e in plays ==> e in log && IsPlay(e)
    ensures forall e :: e in log && IsPlay(e) ==> e in plays
  {
    Filter(log, IsPlay)
  }

  /** The plays of two consecutive stretches of the log are the plays of each. */
  lemma PlaysConcat(a: seq<LogEvent>, b: seq<LogEvent>)
    ensures Plays(a + b) == Plays(a) + Plays(b)
  {
    FilterConcat(a, b, IsPlay);
  }

  /** An event that is not a song play, wherever it stands in the log, changes nothing downstream. */
  lemma PlaysIgnoreOtherPages(before: seq<LogEvent>, e: LogEvent, after: seq<LogEvent>)
    requires !IsPlay(e)
    ensures Plays(before + [e] + after) == Plays(before + after)
  {
    FilterConcat(before + [e], after, IsPlay);
    FilterConcat(before, [e], IsPlay);
    FilterConcat(before, after, IsPlay);
    assert Filter([e], IsPlay) == [];
  }

  // ----------------------------------------------------------------- users

  /** The filter `userId != ''`. */
  predicate HasUserId(e: LogEvent) {
    NotEqualsLiteral(e.userId, "")
  }

  function UserIdOf(e: LogEvent): Option<string> {
    e.userId
  }

  function RowUserId(row: UserRow): string {
    row.user_id
  }

  /** Trim both names, then select and rename the user columns. */
  function ToUserRow(e: LogEvent): UserRow
    requires HasUserId(e)
  {
    UserRow(e.userId.value, TrimColumn(e.firstName), TrimColumn(e.lastName), e.gender, e.level)
  }

  /** The `users` table: from the plays, filter `userId != ''`,
      dropDuplicates(['userId']), trim the names, select and rename. */
  function UsersTable(log: seq<LogEvent>): seq<UserRow> {
    var kept := DropDuplicates(Filter(Plays(log), HasUserId), UserIdOf);
    seq(|kept|, i requires 0 <= i < |kept| => ToUserRow(kept[i]))
  }

  /** The non-empty user ids of the song plays. */
  ghost function PlayUserIds(log: seq<LogEvent>): set<string> {
    set e | e in log && IsPlay(e) && HasUserId(e) :: e.userId.value
  }

  /** Every users row is the trimmed, renamed projection of one song play with that non-empty `userId`. */
  lemma UsersTableProvenance(log: seq<LogEvent>)
    ensures forall row :: row in UsersTable(log) ==>
      exists e :: e in log && IsPlay(e) && HasUserId(e) && row == ToUserRow(e)
  {
    var kept := DropDuplicates(Filter(Plays(log), HasUserId), UserIdOf);
    forall row | row in UsersTable(log)
      ensures exists e :: e in log && IsPlay(e) && HasUserId(e) && row == ToUserRow(e)
    {
      var i :| 0 <= i < |kept| && UsersTable(log)[i] == row;
      assert kept[i] in kept;
    }
  }

  /** The `user_id`s of the users table are exactly the non-empty `userId`s of
      the song plays, each on exactly one row. */
  lemma UsersTableKeys(log: seq<LogEvent>)
    ensures KeySet(UsersTable(log), RowUserId) == PlayUserIds(log)
    ensures DistinctKeys(UsersTable(log), RowUserId)
    ensures |UsersTable(log)| == |PlayUserIds(log)|
    ensures forall row :: row in UsersTable(log) ==> row.user_id != ""
  {
    var filtered := Filter(Plays(log), HasUserId);
    var kept := DropDuplicates(filtered, UserIdOf);
    var table := UsersTable(log);
    assert DistinctKeys(table, RowUserId) by {
      forall i, j | 0 <= i < j < |table|
        ensures RowUserId(table[i]) != RowUserId(table[j])
      {
        assert kept[i] in kept && kept[j] in kept;
        assert DistinctKeys(kept, UserIdOf);
        assert UserIdOf(kept[i]) != UserIdOf(kept[j]);
      }
    }
    forall id | id in KeySet(table, RowUserId)
      ensures id in PlayUserIds(log)
    {
      var row :| row in table && row.user_id == id;
      var i :| 0 <= i < |table| && table[i] == row;
      assert kept[i] in kept;
    }
    forall id | id in PlayUserIds(log)
      ensures id in KeySet(table, RowUserId)
    {
      var e :| e in log && IsPlay(e) && HasUserId(e) && e.userId.value == id;
      assert UserIdOf(e) in KeySet(filtered, UserIdOf);
      var k :| k in kept && UserIdOf(k) == UserIdOf(e);
      var i :| 0 <= i < |kept| && kept[i] == k;
      assert RowUserId(table[i]) == id;
    }
    DistinctKeysCardinality(table, RowUserId);
    forall row | row in table
      ensures row.user_id != ""
    {
      assert RowUserId(row) in KeySet(table, RowUserId);
    }
  }

  // ------------------------------------------------------------------ time

  /** `start_time` and the calendar fields for timestamp ts, where cal is the
      host's conversion of epoch milliseconds to calendar fields. */
  function TimeRowOf(cal: int -> Calendar, ts: int): TimeRow {
    var c := cal(ts);
    TimeRow(ts, c.hour, c.day, c.week, c.month, c.year, c.weekday)
  }

  /** The timestamp columns added to every play: `start_time` and the calendar fields of its `ts`. */
  function Enrich(cal: int -> Calendar, plays: seq<LogEvent>): seq<EnrichedEvent>
  {
    seq(|plays|, i requires 0 <= i < |plays| => EnrichedEvent(plays[i], TimeRowOf(cal, plays[i].ts)))
  }

  lemma EnrichConcat(cal: int -> Calendar, a: seq<LogEvent>, b: seq<LogEvent>)
    ensures Enrich(cal, a + b) == Enrich(cal, a) + Enrich(cal, b)
  {
  }

  function EnrichedTs(x: EnrichedEvent): int {
    x.event.ts
  }

  function StartTime(row: TimeRow): int {
    row.start_time
  }

  /** The time columns of the plays left after dropDuplicates(['ts']). */
  function TimeColumns(byTs: seq<EnrichedEvent>): seq<TimeRow>
  {
    seq(|byTs|, i requires 0 <= i < |byTs| => byTs[i].time)
  }

  /** The plays, enriched with their time columns, one per distinct `ts`. */
  function PlaysByTs(cal: int -> Calendar, log: seq<LogEvent>): seq<EnrichedEvent> {
    DropDuplicates(Enrich(cal, Plays(log)), EnrichedTs)
  }

  /** The `time` table: dropDuplicates(['ts']) over the enriched plays, then
      `SELECT DISTINCT` of the time columns. */
  function TimeTable(cal: int -> Calendar, log: seq<LogEvent>): seq<TimeRow> {
    Distinct(TimeColumns(PlaysByTs(cal, log)))
  }

  /** The timestamps of the song plays. */
  ghost function PlayTimestamps(log: seq<LogEvent>): set<int> {
    set e | e in log && IsPlay(e) :: e.ts
  }

  /** After dropDuplicates(['ts']) every row is already distinct, because all
      time columns are functions of `ts`: the `SELECT DISTINCT` removes nothing. */
  lemma TimeTableDistinctRemovesNothing(cal: int -> Calendar, log: seq<LogEvent>)
    ensures TimeTable(cal, log) == TimeColumns(PlaysByTs(cal, log))
    ensures DistinctKeys(TimeTable(cal, log), StartTime)
  {
    var byTs := PlaysByTs(cal, log);
    var rows := TimeColumns(byTs);
    assert DistinctKeys(rows, StartTime) by {
      forall i, j | 0 <= i < j < |rows|
        ensures StartTime(rows[i]) != StartTime(rows[j])
      {
        assert byTs[i] in byTs && byTs[j] in byTs;
        assert DistinctKeys(byTs, EnrichedTs);
        assert EnrichedTs(byTs[i]) != EnrichedTs(byTs[j]);
      }
    }
    assert DistinctKeys(rows, Whole) by {
      forall i, j | 0 <= i < j < |rows|
        ensures Whole(rows[i]) != Whole(rows[j])
      {
        assert StartTime(rows[i]) != StartTime(rows[j]);
      }
    }
    DropDuplicatesOfDistinct(rows, Whole, {});
  }

  /** Every time row holds the calendar fields of its own `start_time`, which is
      the `ts` of a song play; the `start_time`s are exactly the distinct
      timestamps of the song plays, each on exactly one row. */
  lemma TimeTableKeys(cal: int -> Calendar, log: seq<LogEvent>)
    ensures forall row :: row in TimeTable(cal, log) ==> row == TimeRowOf(cal, row.start_time)
    ensures KeySet(TimeTable(cal, log), StartTime) == PlayTimestamps(log)
    ensures DistinctKeys(TimeTable(cal, log), StartTime)
    ensures |TimeTable(cal, log)| == |PlayTimestamps(log)|
  {
    var plays := Plays(log);
    var enriched := Enrich(cal, plays);
    var byTs := PlaysByTs(cal, log);
    var table := TimeTable(cal, log);
    TimeTableDistinctRemovesNothing(cal, log);
    forall row | row in table
      ensures row == TimeRowOf(cal, row.start_time)
      ensures row.start_time in PlayTimestamps(log)
    {
      var i :| 0 <= i < |table| && table[i] == row;
      assert byTs[i] in enriched;
      var k :| 0 <= k < |enriched| && enriched[k] == byTs[i];
      assert plays[k] in plays;
    }
    forall ts | ts in PlayTimestamps(log)
      ensures ts in KeySet(table, StartTime)
    {
      var e :| e in log && IsPlay(e) && e.ts == ts;
      assert e in plays;
      var k :| 0 <= k < |plays| && plays[k] == e;
      assert EnrichedTs(enriched[k]) in KeySet(enriched, EnrichedTs);
      var x :| x in byTs && EnrichedTs(x) == ts;
      var i :| 0 <= i < |byTs| && byTs[i] == x;
      assert StartTime(table[i]) == ts by {
        assert x in enriched;
        var m :| 0 <= m < |enriched| && enriched[m] == x;
      }
    }
    DistinctKeysCardinality(table, StartTime);
  }

  /** For every timestamp of a song play, the time table has exactly one row
      with that `start_time`, and it carries the calendar fields of that timestamp. */
  lemma TimeTableOneRowPerTimestamp(cal: int -> Calendar, log: seq<LogEvent>, ts: int)
    requires exists e :: e in log && IsPlay(e) && e.ts == ts
    ensures |set i | 0 <= i < |TimeTable(cal, log)| && TimeTable(cal, log)[i].start_time == ts| == 1
    ensures TimeRowOf(cal, ts) in TimeTable(cal, log)
  {
    var table := TimeTable(cal, log);
    TimeTableKeys(cal, log);
    assert ts in PlayTimestamps(log);
    var row :| row in table && StartTime(row) == ts;
    var i :| 0 <= i < |table| && table[i] == row;
    var hits := set j | 0 <= j < |table| && table[j].start_time == ts;
    assert hits == {i} by {
      forall j | j in hits
        ensures j == i
      {
      }
    }
  }
}
