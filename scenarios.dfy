/** Worked examples of the pipeline on small inputs. */
module Scenarios {
  import opened Nulls
  import opened Strings
  import opened Frames
  import opened SongExtractor
  import opened LogExtractor
  import opened SongplayJoiner

  /** A song record with only its song columns set. */
  function Song(id: string, title: string, artist: string, year: int, duration: real): SongRecord {
    SongRecord(Some(id), Some(title), Some(artist), Some(year), Some(duration), None, None, None, None)
  }

  /** A "NextSong" event at ts for user u playing song. */
  function PlayAt(ts: int, u: string, song: string): LogEvent {
    LogEvent(ts, Some("NextSong"), Some(u), None, None, None, None, None, None, None, Some(song), None)
  }

  lemma OneSongTable(rec: SongRecord)
    requires HasSongId(rec)
    ensures SongsTable([rec]) == [ToSongRow(rec)]
  {
    assert [rec][1..] == [];
    assert Filter([rec], HasSongId) == [rec] + Filter([], HasSongId);
    assert DropDuplicatesFrom([rec], SongIdOf, {}) == [rec] + DropDuplicatesFrom([], SongIdOf, {SongIdOf(rec)});
    var row := ToSongRow(rec);
    assert ProjectedSongs([rec]) == [row] by {
      assert ToSongRows([rec]) == [row];
    }
    assert [row][1..] == [];
    assert SortBySongId([row]) == InsertBySongId(row, SortBySongId([]));
  }

  /** A record with an empty `song_id` is dropped and the kept title is trimmed. */
  lemma SongTitleTrimmedAndEmptyIdDropped()
    ensures SongsTable([Song("S1", " A ", "AR1", 2000, 1.0), Song("", "bad", "AR2", 1999, 2.0)])
         == [SongRow("S1", Some("A"), Some("AR1"), Some(2000), Some(1.0))]
  {
    var a := Song("S1", " A ", "AR1", 2000, 1.0);
    var b := Song("", "bad", "AR2", 1999, 2.0);
    EmptyIdFilteredOut(a, b);
    OneSongTable(a);
    SpacedTitleTrimmed();
  }

  lemma SpacedTitleTrimmed()
    ensures Trim(" A ") == "A"
  {
    assert " A " == " " + "A" + " ";
    TrimOfPadded(" ", "A", " ");
  }

  lemma EmptyIdFilteredOut(a: SongRecord, b: SongRecord)
    requires HasSongId(a) && b.song_id == Some("")
    ensures SongsTable([a, b]) == SongsTable([a])
  {
    assert [a, b][1..] == [b] && [b][1..] == [] && [a][1..] == [];
    assert Filter([b], HasSongId) == Filter([], HasSongId);
    assert Filter([a, b], HasSongId) == Filter([a], HasSongId);
  }

  /** Two plays at the same timestamp give one time row. */
  lemma SameTimestampOneTimeRow(cal: int -> Calendar)
    ensures TimeTable(cal, [PlayAt(1000, "1", "A"), PlayAt(1000, "2", "B")]) == [TimeRowOf(cal, 1000)]
  {
    var log := [PlayAt(1000, "1", "A"), PlayAt(1000, "2", "B")];
    assert Plays(log) == log by {
      assert log[1..] == [log[1]] && [log[1]][1..] == [];
      assert Filter([log[1]], IsPlay) == [log[1]] + Filter([], IsPlay);
    }
    var enriched := Enrich(cal, log);
    var e0, e1 := enriched[0], enriched[1];
    assert EnrichedTs(e0) == 1000 && EnrichedTs(e1) == 1000;
    assert DropDuplicates(enriched, EnrichedTs) == [e0] by {
      assert enriched[1..] == [e1] && [e1][1..] == [];
      assert DropDuplicatesFrom([e1], EnrichedTs, {1000}) == DropDuplicatesFrom([], EnrichedTs, {1000});
      assert DropDuplicatesFrom(enriched, EnrichedTs, {}) == [e0] + DropDuplicatesFrom([e1], EnrichedTs, {1000});
    }
    assert TimeColumns([e0]) == [TimeRowOf(cal, 1000)];
    TimeTableDistinctRemovesNothing(cal, log);
  }

  /** A play of "A" joins the one song titled "A"; a play of "B" with no such title joins nothing. */
  lemma MatchingTitleJoinsOnce(cal: int -> Calendar)
    ensures SongplaysTable(cal, [PlayAt(1000, "1", "A"), PlayAt(2000, "1", "B")],
                           [SongRow("S1", Some("A"), Some("AR1"), Some(2000), Some(1.0))])
         == [Combine(EnrichedEvent(PlayAt(1000, "1", "A"), TimeRowOf(cal, 1000)),
                     SongRow("S1", Some("A"), Some("AR1"), Some(2000), Some(1.0)))]
  {
    var log := [PlayAt(1000, "1", "A"), PlayAt(2000, "1", "B")];
    var song := SongRow("S1", Some("A"), Some("AR1"), Some(2000), Some(1.0));
    assert Plays(log) == log by {
      assert log[1..] == [log[1]] && [log[1]][1..] == [];
      assert Filter([log[1]], IsPlay) == [log[1]] + Filter([], IsPlay);
    }
    var events := Enrich(cal, log);
    var e0, e1 := events[0], events[1];
    assert e0 == EnrichedEvent(PlayAt(1000, "1", "A"), TimeRowOf(cal, 1000));
    assert [song][..0] == [];
    assert JoinEvent(e0, [song]) == [Combine(e0, song)] by {
      assert TitleMatches(e0, song);
      assert JoinEvent(e0, [song]) == JoinEvent(e0, []) + [Combine(e0, song)];
    }
    assert JoinEvent(e1, [song]) == [] by {
      assert !TitleMatches(e1, song);
      assert JoinEvent(e1, [song]) == JoinEvent(e1, []) + [];
    }
    assert events[..1] == [e0] && [e0][..0] == [];
    assert Join([e0], [song]) == Join([], [song]) + JoinEvent(e0, [song]);
    assert Join(events, [song]) == Join([e0], [song]) + JoinEvent(e1, [song]);
  }

  /** Two songs sharing a title both join one play of that title, so the
      songplays table can have more rows than there are plays. */
  lemma SharedTitleOutnumbersPlays(cal: int -> Calendar)
    ensures |SongplaysTable(cal, [PlayAt(1000, "1", "A")],
                            [SongRow("S1", Some("A"), Some("AR1"), None, None),
                             SongRow("S2", Some("A"), Some("AR2"), None, None)])| == 2
    ensures |Plays([PlayAt(1000, "1", "A")])| == 1
  {
    var log := [PlayAt(1000, "1", "A")];
    var s1, s2 := SongRow("S1", Some("A"), Some("AR1"), None, None), SongRow("S2", Some("A"), Some("AR2"), None, None);
    var songs := [s1, s2];
    assert Plays(log) == log by {
      assert log[1..] == [];
    }
    var events := Enrich(cal, log);
    var e0 := events[0];
    assert TitleMatches(e0, s1) && TitleMatches(e0, s2);
    assert songs[..1] == [s1] && [s1][..0] == [];
    assert JoinEvent(e0, [s1]) == JoinEvent(e0, []) + [Combine(e0, s1)];
    assert JoinEvent(e0, songs) == JoinEvent(e0, [s1]) + [Combine(e0, s2)];
    assert events[..0] == [];
    assert Join(events, songs) == Join([], songs) + JoinEvent(e0, songs);
  }
}
