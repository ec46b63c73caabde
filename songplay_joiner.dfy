/** The songplay joiner: the inner equi-join of the enriched song plays with the
    songs table on `log.song == song.title`, projected to the `songplays` fact table. */
module SongplayJoiner {
  import opened Nulls
  import opened SongExtractor
  import opened LogExtractor

  /** A row of the `songplays` table. The surrogate `songplay_id` is added
      before the projection but not selected, so it is not a column here. */
  datatype SongplayRow = SongplayRow(
    start_time: int,
    user_id: Option<string>,
    level: Option<string>,
    song_id: string,
    artist_id: Option<string>,
    session_id: Option<int>,
    location: Option<string>,
    user_agent: Option<string>,
    year: int,
    month: int)

  /** The join condition `song.title == log.song`, on the log's `song` as it
      was read (the trim of the log side is computed and discarded). */
  predicate TitleMatches(e: EnrichedEvent, s: SongRow) {
    ColumnsEqual(s.title, e.event.song)
  }

  /** The projection of one joined pair: `ts` renamed `start_time`, user,
      session, location, agent and `year`/`month` from the log side; `song_id`
      and `artist_id` from the song side. */
  function Combine(e: EnrichedEvent, s: SongRow): SongplayRow {
    SongplayRow(e.event.ts, e.event.userId, e.event.level, s.song_id, s.artist_id,
                e.event.sessionId, e.event.location, e.event.userAgent, e.time.year, e.time.month)
  }

  /** The joined rows of one event: one per matching song, in songs order. */
  function JoinEvent(e: EnrichedEvent, songs: seq<SongRow>): seq<SongplayRow> {
    if songs == [] then []
    else
      var n := |songs| - 1;
      JoinEvent(e, songs[..n]) + (if TitleMatches(e, songs[n]) then [Combine(e, songs[n])] else [])
  }

  /** The inner join of the events with the songs, event by event. */
  function Join(events: seq<EnrichedEvent>, songs: seq<SongRow>): seq<SongplayRow> {
    if events == [] then []
    else
      var n := |events| - 1;
      Join(events[..n], songs) + JoinEvent(events[n], songs)
  }

  /** Every row joined for event e combines e with a song whose title equals
      its `song`, and every such song is joined. */
  lemma {:induction false} JoinEventRows(e: EnrichedEvent, songs: seq<SongRow>)
    ensures forall row :: row in JoinEvent(e, songs) ==>
      exists j :: 0 <= j < |songs| && TitleMatches(e, songs[j]) && row == Combine(e, songs[j])
    ensures forall j :: 0 <= j < |songs| && TitleMatches(e, songs[j]) ==> Combine(e, songs[j]) in JoinEvent(e, songs)
  {
    if songs != [] {
      var n := |songs| - 1;
      JoinEventRows(e, songs[..n]);
      assert forall j :: 0 <= j < n ==> songs[..n][j] == songs[j];
    }
  }

  /** Every joined row combines an event with a song whose title equals the
      event's `song` (log-side columns from the event, `song_id` and
      `artist_id` from the song), and every such pair is joined. */
  lemma {:induction false} JoinRows(events: seq<EnrichedEvent>, songs: seq<SongRow>)
    ensures forall row :: row in Join(events, songs) ==>
      exists i, j :: 0 <= i < |events| && 0 <= j < |songs| &&
        TitleMatches(events[i], songs[j]) && row == Combine(events[i], songs[j])
    ensures forall i, j :: 0 <= i < |events| && 0 <= j < |songs| && TitleMatches(events[i], songs[j]) ==>
      Combine(events[i], songs[j]) in Join(events, songs)
  {
    if events != [] {
      var n := |events| - 1;
      JoinRows(events[..n], songs);
      JoinEventRows(events[n], songs);
      assert forall i :: 0 <= i < n ==> events[..n][i] == events[i];
    }
  }

  /** The `songplays` table: the join of the enriched song plays of the log
      with the songs table. */
  function SongplaysTable(cal: int -> Calendar, log: seq<LogEvent>, songs: seq<SongRow>): seq<SongplayRow> {
    Join(Enrich(cal, Plays(log)), songs)
  }

  // ------------------------------------------------------------ cardinality

  /** The (event, song) index pairs whose titles are equal. */
  ghost function MatchingPairs(events: seq<EnrichedEvent>, songs: seq<SongRow>): set<(int, int)> {
    set i, j | 0 <= i < |events| && 0 <= j < |songs| && TitleMatches(events[i], songs[j]) :: (i, j)
  }

  /** The pairs of event i (standing for e) with the songs that match it. */
  ghost function EventPairs(i: int, e: EnrichedEvent, songs: seq<SongRow>): set<(int, int)> {
    set j | 0 <= j < |songs| && TitleMatches(e, songs[j]) :: (i, j)
  }

  lemma {:induction false} JoinEventSize(i: int, e: EnrichedEvent, songs: seq<SongRow>)
    ensures |JoinEvent(e, songs)| == |EventPairs(i, e, songs)|
  {
    if songs != [] {
      var n := |songs| - 1;
      JoinEventSize(i, e, songs[..n]);
      var last := if TitleMatches(e, songs[n]) then {(i, n)} else {};
      assert EventPairs(i, e, songs) == EventPairs(i, e, songs[..n]) + last by {
        forall p | p in EventPairs(i, e, songs)
          ensures p in EventPairs(i, e, songs[..n]) + last
        {
          var j := p.1;
          if j < n {
            assert songs[..n][j] == songs[j];
          }
        }
        forall p | p in EventPairs(i, e, songs[..n])
          ensures p in EventPairs(i, e, songs)
        {
          var j := p.1;
          assert songs[..n][j] == songs[j];
        }
      }
      assert (i, n) !in EventPairs(i, e, songs[..n]);
    }
  }

  /** The join has exactly one row per (event, song) pair whose titles are equal. */
  lemma {:induction false} JoinSize(events: seq<EnrichedEvent>, songs: seq<SongRow>)
    ensures |Join(events, songs)| == |MatchingPairs(events, songs)|
  {
    if events != [] {
      var n := |events| - 1;
      JoinSize(events[..n], songs);
      JoinEventSize(n, events[n], songs);
      var front := MatchingPairs(events[..n], songs);
      var row := EventPairs(n, events[n], songs);
      assert MatchingPairs(events, songs) == front + row by {
        forall p | p in MatchingPairs(events, songs)
          ensures p in front + row
        {
          var (i, j) := p;
          if i < n {
            assert events[..n][i] == events[i];
          }
        }
        forall p | p in front
          ensures p in MatchingPairs(events, songs)
        {
          var (i, j) := p;
          assert events[..n][i] == events[i];
        }
      }
      assert front !! row;
    }
  }

  /** An event yields no row exactly when no song's title equals its `song`. */
  lemma JoinEventEmpty(e: EnrichedEvent, songs: seq<SongRow>)
    ensures JoinEvent(e, songs) == [] <==> forall j :: 0 <= j < |songs| ==> !TitleMatches(e, songs[j])
  {
    JoinEventRows(e, songs);
    if JoinEvent(e, songs) != [] {
      assert JoinEvent(e, songs)[0] in JoinEvent(e, songs);
    }
  }

  /** The join of a union of two event batches is the union of their joins. */
  lemma {:induction false} JoinConcat(a: seq<EnrichedEvent>, b: seq<EnrichedEvent>, songs: seq<SongRow>)
    ensures Join(a + b, songs) == Join(a, songs) + Join(b, songs)
  {
    if b == [] {
      assert a + b == a;
    } else {
      var n := |b| - 1;
      var ab := a + b;
      assert ab[..|ab| - 1] == a + b[..n];
      assert ab[|ab| - 1] == b[n];
      JoinConcat(a, b[..n], songs);
      calc {
        Join(ab, songs);
        Join(ab[..|ab| - 1], songs) + JoinEvent(ab[|ab| - 1], songs);
        Join(a + b[..n], songs) + JoinEvent(b[n], songs);
        (Join(a, songs) + Join(b[..n], songs)) + JoinEvent(b[n], songs);
        Join(a, songs) + (Join(b[..n], songs) + JoinEvent(b[n], songs));
        Join(a, songs) + Join(b, songs);
      }
    }
  }

  /** An empty songs table yields an empty songplays table. */
  lemma {:induction false} JoinWithoutSongs(events: seq<EnrichedEvent>)
    ensures Join(events, []) == []
  {
    if events != [] {
      JoinWithoutSongs(events[..|events| - 1]);
    }
  }

  /** No two songs share a title. */
  ghost predicate DistinctTitles(songs: seq<SongRow>) {
    forall j, k :: 0 <= j < k < |songs| && songs[j].title.Some? ==> songs[j].title != songs[k].title
  }

  lemma {:induction false} JoinEventAtMostOne(e: EnrichedEvent, songs: seq<SongRow>)
    requires DistinctTitles(songs)
    ensures |JoinEvent(e, songs)| <= 1
  {
    if songs != [] {
      var n := |songs| - 1;
      assert DistinctTitles(songs[..n]) by {
        forall j, k | 0 <= j < k < n && songs[..n][j].title.Some?
          ensures songs[..n][j].title != songs[..n][k].title
        {
          assert songs[..n][j] == songs[j] && songs[..n][k] == songs[k];
        }
      }
      JoinEventAtMostOne(e, songs[..n]);
      if TitleMatches(e, songs[n]) {
        JoinEventEmpty(e, songs[..n]);
        assert forall j :: 0 <= j < n ==> songs[..n][j] == songs[j];
      }
    }
  }

  /** When no two songs share a title, each event yields at most one row, so
      the join has at most as many rows as there are events. */
  lemma {:induction false} JoinBoundedByEvents(events: seq<EnrichedEvent>, songs: seq<SongRow>)
    requires DistinctTitles(songs)
    ensures |Join(events, songs)| <= |events|
  {
    if events != [] {
      var n := |events| - 1;
      JoinBoundedByEvents(events[..n], songs);
      JoinEventAtMostOne(events[n], songs);
    }
  }

  lemma JoinSkipsEmpty(eb: seq<EnrichedEvent>, em: seq<EnrichedEvent>, ea: seq<EnrichedEvent>, songs: seq<SongRow>)
    requires Join(em, songs) == []
    ensures Join(eb + em + ea, songs) == Join(eb + ea, songs)
  {
    JoinConcat(eb + em, ea, songs);
    JoinConcat(eb, em, songs);
    JoinConcat(eb, ea, songs);
  }

  /** A song play whose `song` equals no song title contributes no songplays
      row, wherever it stands in the log. */
  lemma UnmatchedPlayContributesNothing(cal: int -> Calendar, before: seq<LogEvent>, e: LogEvent,
                                        after: seq<LogEvent>, songs: seq<SongRow>)
    requires forall j :: 0 <= j < |songs| ==> !ColumnsEqual(songs[j].title, e.song)
    ensures SongplaysTable(cal, before + [e] + after, songs) == SongplaysTable(cal, before + after, songs)
  {
    var pb, pm, pa := Plays(before), Plays([e]), Plays(after);
    assert Plays(before + [e] + after) == pb + pm + pa by {
      PlaysConcat(before + [e], after);
      PlaysConcat(before, [e]);
    }
    assert Plays(before + after) == pb + pa by {
      PlaysConcat(before, after);
    }
    var eb, em, ea := Enrich(cal, pb), Enrich(cal, pm), Enrich(cal, pa);
    assert Enrich(cal, pb + pm + pa) == eb + em + ea by {
      EnrichConcat(cal, pb + pm, pa);
      EnrichConcat(cal, pb, pm);
    }
    assert Enrich(cal, pb + pa) == eb + ea by {
      EnrichConcat(cal, pb, pa);
    }
    assert Join(em, songs) == [] by {
      if pm != [] {
        assert em == [em[0]] && em[..0] == [];
        JoinEventEmpty(em[0], songs);
      }
    }
    JoinSkipsEmpty(eb, em, ea, songs);
  }
}
