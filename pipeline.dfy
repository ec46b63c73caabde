/** The whole run: the song extractor, then the log extractor, then the join
    against the songs table the song extractor wrote (read back unchanged). */
module Pipeline {
  import opened Nulls
  import opened Strings
  import opened SongExtractor
  import opened LogExtractor
  import opened SongplayJoiner

  /** The five output tables of one run. */
  datatype Tables = Tables(
    songs: seq<SongRow>,
    artists: seq<ArtistRow>,
    users: seq<UserRow>,
    time: seq<TimeRow>,
    songplays: seq<SongplayRow>)

  /** One run over the song records and the event log; cal converts a
      timestamp to its calendar fields. */
  function Run(cal: int -> Calendar, songData: seq<SongRecord>, logData: seq<LogEvent>): Tables {
    var songs := SongsTable(songData);
    Tables(songs, ArtistsTable(songData), UsersTable(logData), TimeTable(cal, logData),
           SongplaysTable(cal, logData, songs))
  }

  /** Events whose page is not "NextSong" affect no table. */
  lemma OtherPagesIgnored(cal: int -> Calendar, songData: seq<SongRecord>,
                          before: seq<LogEvent>, e: LogEvent, after: seq<LogEvent>)
    requires !IsPlay(e)
    ensures Run(cal, songData, before + [e] + after) == Run(cal, songData, before + after)
  {
    PlaysIgnoreOtherPages(before, e, after);
  }

  /** Every songplays row pairs a song play of the log with a songs-table row
      whose title equals the play's `song`: `start_time`, user, level, session,
      location, agent, year and month come from the play, `song_id` and
      `artist_id` from the song row. */
  lemma SongplaysProvenance(cal: int -> Calendar, songData: seq<SongRecord>, logData: seq<LogEvent>)
    ensures forall row :: row in Run(cal, songData, logData).songplays ==>
      exists e, s ::
        e in logData && IsPlay(e) && s in SongsTable(songData) &&
        ColumnsEqual(s.title, e.song) && row == Combine(EnrichedEvent(e, TimeRowOf(cal, e.ts)), s)
  {
    var plays := Plays(logData);
    var events := Enrich(cal, plays);
    var songs := SongsTable(songData);
    JoinRows(events, songs);
    forall row | row in Run(cal, songData, logData).songplays
      ensures exists e, s ::
                e in logData && IsPlay(e) && s in songs &&
                ColumnsEqual(s.title, e.song) && row == Combine(EnrichedEvent(e, TimeRowOf(cal, e.ts)), s)
    {
      var i, j :| 0 <= i < |events| && 0 <= j < |songs| &&
        TitleMatches(events[i], songs[j]) && row == Combine(events[i], songs[j]);
      assert plays[i] in plays;
      assert songs[j] in songs;
    }
  }

  /** When the song records yield an empty songs table, the songplays table is empty. */
  lemma NoSongsNoSongplays(cal: int -> Calendar, songData: seq<SongRecord>, logData: seq<LogEvent>)
    requires SongsTable(songData) == []
    ensures Run(cal, songData, logData).songplays == []
  {
    JoinWithoutSongs(Enrich(cal, Plays(logData)));
  }

  /** The log's `song` is joined untrimmed while song titles are trimmed: a
      play whose `song` starts or ends with a space matches no song and adds
      no songplays row. */
  lemma UntrimmedSongNeverJoins(cal: int -> Calendar, songData: seq<SongRecord>,
                                before: seq<LogEvent>, e: LogEvent, after: seq<LogEvent>)
    requires e.song.Some? && !NoEdgeSpaces(e.song.value)
    ensures Run(cal, songData, before + [e] + after).songplays == Run(cal, songData, before + after).songplays
  {
    var songs := SongsTable(songData);
    SongsTableProvenance(songData);
    forall j | 0 <= j < |songs|
      ensures !ColumnsEqual(songs[j].title, e.song)
    {
      assert songs[j] in songs;
    }
    UnmatchedPlayContributesNothing(cal, before, e, after, songs);
  }
}
