/** The song extractor: builds the `songs` and `artists` dimension tables from
    the song-metadata records (`process_song_data`). */
module SongExtractor {
  import opened Nulls
  import opened Strings
  import opened Frames

  /** One song-metadata record. The same record carries the song's and its
      artist's fields, and every field may be null. */
  datatype SongRecord = SongRecord(
    song_id: Option<string>,
    title: Option<string>,
    artist_id: Option<string>,
    year: Option<int>,
    duration: Option<real>,
    artist_name: Option<string>,
    artist_location: Option<string>,
    artist_latitude: Option<real>,
    artist_longitude: Option<real>)

  /** A row of the `songs` table. */
  datatype SongRow = SongRow(
    song_id: string,
    title: Option<string>,
    artist_id: Option<string>,
    year: Option<int>,
    duration: Option<real>)

  /** A row of the `artists` table. */
  datatype ArtistRow = ArtistRow(
    artist_id: string,
    name: Option<string>,
    location: Option<string>,
    latitude: Option<real>,
    longitude: Option<real>)

  // ---------------------------------------------------------------- songs

  /** The filter `song_id != ''`. */
  predicate HasSongId(rec: SongRecord) {
    NotEqualsLiteral(rec.song_id, "")
  }

  function SongIdOf(rec: SongRecord): Option<string> {
    rec.song_id
  }

  function RowSongId(row: SongRow): string {
    row.song_id
  }

  /** `withColumn('title', trim(title))` followed by the projection onto the songs columns. */
  function ToSongRow(rec: SongRecord): SongRow
    requires HasSongId(rec)
  {
    SongRow(rec.song_id.value, TrimColumn(rec.title), rec.artist_id, rec.year, rec.duration)
  }

  /** Rows in strictly ascending `song_id` order. */
  ghost predicate AscendingBySongId(rows: seq<SongRow>) {
    forall i, j :: 0 <= i < j < |rows| ==> LexLess(rows[i].song_id, rows[j].song_id)
  }

  /** Places row in front of the first row whose `song_id` is not smaller. */
  function InsertBySongId(row: SongRow, rows: seq<SongRow>): (r: seq<SongRow>)
    ensures multiset(r) == multiset(rows) + multiset{row}
  {
    if rows == [] || !LexLess(rows[0].song_id, row.song_id) then [row] + rows
    else
      assert rows == [rows[0]] + rows[1..];
      [rows[0]] + InsertBySongId(row, rows[1..])
  }

  /** `orderBy('song_id')`: a permutation of the rows. */
  function SortBySongId(rows: seq<SongRow>): (r: seq<SongRow>)
    ensures multiset(r) == multiset(rows)
  {
    if rows == [] then []
    else
      assert rows == [rows[0]] + rows[1..];
      InsertBySongId(rows[0], SortBySongId(rows[1..]))
  }

  lemma {:induction false} InsertKeepsAscending(row: SongRow, rows: seq<SongRow>)
    requires AscendingBySongId(rows)
    requires forall x :: x in rows ==> x.song_id != row.song_id
    ensures AscendingBySongId(InsertBySongId(row, rows))
  {
    if rows == [] || !LexLess(rows[0].song_id, row.song_id) {
      var r := [row] + rows;
      if rows != [] {
        LexLessTotal(rows[0].song_id, row.song_id);
        forall j | 1 <= j < |r|
          ensures LexLess(row.song_id, r[j].song_id)
        {
          if j > 1 {
            LexLessTransitive(row.song_id, rows[0].song_id, rows[j - 1].song_id);
          }
        }
      }
    } else {
      var tail := InsertBySongId(row, rows[1..]);
      InsertKeepsAscending(row, rows[1..]);
      var r := [rows[0]] + tail;
      forall j | 1 <= j < |r|
        ensures LexLess(rows[0].song_id, r[j].song_id)
      {
        assert r[j] in multiset(tail);
        assert r[j] == row || r[j] in rows[1..];
      }
    }
  }

  /** Sorting rows with distinct `song_id`s yields strictly ascending `song_id`s. */
  lemma {:induction false} SortIsAscending(rows: seq<SongRow>)
    requires DistinctKeys(rows, RowSongId)
    ensures AscendingBySongId(SortBySongId(rows))
  {
    if rows != [] {
      assert DistinctKeys(rows[1..], RowSongId) by {
        forall i, j | 0 <= i < j < |rows[1..]|
          ensures RowSongId(rows[1..][i]) != RowSongId(rows[1..][j])
        {
          assert rows[1..][i] == rows[i + 1] && rows[1..][j] == rows[j + 1];
        }
      }
      SortIsAscending(rows[1..]);
      var sorted := SortBySongId(rows[1..]);
      forall x | x in sorted
        ensures x.song_id != rows[0].song_id
      {
        assert x in multiset(rows[1..]);
        var k :| 0 <= k < |rows[1..]| && rows[1..][k] == x;
        assert RowSongId(rows[0]) != RowSongId(rows[k + 1]);
      }
      InsertKeepsAscending(rows[0], sorted);
    }
  }

  /** The projected songs, one per kept record, in the order of the kept records. */
  function ToSongRows(kept: seq<SongRecord>): seq<SongRow>
    requires forall rec :: rec in kept ==> HasSongId(rec)
  {
    seq(|kept|, i requires 0 <= i < |kept| => ToSongRow(kept[i]))
  }

  /** The songs before ordering: filter, dropDuplicates(['song_id']), trim the
      title, select the song columns. */
  function ProjectedSongs(records: seq<SongRecord>): seq<SongRow> {
    ToSongRows(DropDuplicates(Filter(records, HasSongId), SongIdOf))
  }

  /** The `songs` table: the projected songs ordered by `song_id`. */
  function SongsTable(records: seq<SongRecord>): seq<SongRow> {
    SortBySongId(ProjectedSongs(records))
  }

  /** The non-empty song ids of the input. */
  ghost function InputSongIds(records: seq<SongRecord>): set<string> {
    set rec | rec in records && HasSongId(rec) :: rec.song_id.value
  }

  lemma ProjectedSongsKeys(records: seq<SongRecord>)
    ensures DistinctKeys(ProjectedSongs(records), RowSongId)
    ensures KeySet(ProjectedSongs(records), RowSongId) == InputSongIds(records)
  {
    var filtered := Filter(records, HasSongId);
    var kept := DropDuplicates(filtered, SongIdOf);
    var rows := ProjectedSongs(records);
    assert DistinctKeys(rows, RowSongId) by {
      forall i, j | 0 <= i < j < |rows|
        ensures RowSongId(rows[i]) != RowSongId(rows[j])
      {
        assert kept[i] in kept && kept[j] in kept;
        assert DistinctKeys(kept, SongIdOf);
        assert SongIdOf(kept[i]) != SongIdOf(kept[j]);
      }
    }
    forall id | id in KeySet(rows, RowSongId)
      ensures id in InputSongIds(records)
    {
      var row :| row in rows && row.song_id == id;
      var i :| 0 <= i < |rows| && rows[i] == row;
      assert kept[i] in kept;
    }
    forall id | id in InputSongIds(records)
      ensures id in KeySet(rows, RowSongId)
    {
      var rec :| rec in records && HasSongId(rec) && rec.song_id.value == id;
      assert SongIdOf(rec) in KeySet(filtered, SongIdOf);
      var k :| k in kept && SongIdOf(k) == SongIdOf(rec);
      var i :| 0 <= i < |kept| && kept[i] == k;
      assert RowSongId(rows[i]) == id;
    }
  }

  /** Every songs row is the trimmed projection of an input record with that non-empty `song_id`. */
  lemma SongsTableProvenance(records: seq<SongRecord>)
    ensures forall row :: row in SongsTable(records) ==>
      exists rec :: rec in records && HasSongId(rec) && row == ToSongRow(rec)
  {
    var kept := DropDuplicates(Filter(records, HasSongId), SongIdOf);
    var rows := ProjectedSongs(records);
    forall row | row in SongsTable(records)
      ensures exists rec :: rec in records && HasSongId(rec) && row == ToSongRow(rec)
    {
      assert row in multiset(rows);
      var i :| 0 <= i < |rows| && rows[i] == row;
      assert kept[i] in kept;
    }
  }

  /** The songs table is in strictly ascending `song_id` order. */
  lemma SongsTableSorted(records: seq<SongRecord>)
    ensures AscendingBySongId(SongsTable(records))
  {
    ProjectedSongsKeys(records);
    SortIsAscending(ProjectedSongs(records));
  }

  /** The `song_id`s of the songs table are exactly the non-empty `song_id`s
      of the input, each on exactly one row. */
  lemma SongsTableKeys(records: seq<SongRecord>)
    ensures KeySet(SongsTable(records), RowSongId) == InputSongIds(records)
    ensures DistinctKeys(SongsTable(records), RowSongId)
    ensures |SongsTable(records)| == |InputSongIds(records)|
    ensures forall row :: row in SongsTable(records) ==> row.song_id != ""
  {
    var rows := ProjectedSongs(records);
    var table := SongsTable(records);
    ProjectedSongsKeys(records);
    SongsTableSorted(records);
    assert DistinctKeys(table, RowSongId) by {
      forall i, j | 0 <= i < j < |table|
        ensures RowSongId(table[i]) != RowSongId(table[j])
      {
        LexLessIrreflexive(table[i].song_id);
      }
    }
    assert KeySet(table, RowSongId) == KeySet(rows, RowSongId) by {
      assert multiset(table) == multiset(rows);
      forall x
        ensures x in table <==> x in rows
      {
        assert x in table <==> x in multiset(table);
      }
    }
    DistinctKeysCardinality(table, RowSongId);
    forall row | row in table
      ensures row.song_id != ""
    {
      assert RowSongId(row) in KeySet(table, RowSongId);
    }
  }

  // -------------------------------------------------------------- artists

  /** The filter `artist_id != ''`. */
  predicate HasArtistId(rec: SongRecord) {
    NotEqualsLiteral(rec.artist_id, "")
  }

  function ArtistIdOf(rec: SongRecord): Option<string> {
    rec.artist_id
  }

  function RowArtistId(row: ArtistRow): string {
    row.artist_id
  }

  /** `withColumn('artist_name', trim(artist_name))` followed by the renaming projection. */
  function ToArtistRow(rec: SongRecord): ArtistRow
    requires HasArtistId(rec)
  {
    ArtistRow(rec.artist_id.value, TrimColumn(rec.artist_name), rec.artist_location,
              rec.artist_latitude, rec.artist_longitude)
  }

  /** The `artists` table: filter, dropDuplicates(['artist_id']), trim the
      name, select and rename the artist columns. */
  function ArtistsTable(records: seq<SongRecord>): seq<ArtistRow> {
    var kept := DropDuplicates(Filter(records, HasArtistId), ArtistIdOf);
    seq(|kept|, i requires 0 <= i < |kept| => ToArtistRow(kept[i]))
  }

  /** The non-empty artist ids of the input. */
  ghost function InputArtistIds(records: seq<SongRecord>): set<string> {
    set rec | rec in records && HasArtistId(rec) :: rec.artist_id.value
  }

  /** Every artists row is the trimmed, renamed projection of one input record
      with that non-empty `artist_id`. */
  lemma ArtistsTableProvenance(records: seq<SongRecord>)
    ensures forall row :: row in ArtistsTable(records) ==>
      exists rec :: rec in records && HasArtistId(rec) && row == ToArtistRow(rec)
  {
    var kept := DropDuplicates(Filter(records, HasArtistId), ArtistIdOf);
    forall row | row in ArtistsTable(records)
      ensures exists rec :: rec in records && HasArtistId(rec) && row == ToArtistRow(rec)
    {
      var i :| 0 <= i < |kept| && ArtistsTable(records)[i] == row;
      assert kept[i] in kept;
    }
  }

  /** The `artist_id`s of the artists table are exactly the non-empty
      `artist_id`s of the input, each on exactly one row. */
  lemma ArtistsTableKeys(records: seq<SongRecord>)
    ensures KeySet(ArtistsTable(records), RowArtistId) == InputArtistIds(records)
    ensures DistinctKeys(ArtistsTable(records), RowArtistId)
    ensures |ArtistsTable(records)| == |InputArtistIds(records)|
    ensures forall row :: row in ArtistsTable(records) ==> row.artist_id != ""
  {
    var filtered := Filter(records, HasArtistId);
    var kept := DropDuplicates(filtered, ArtistIdOf);
    var table := ArtistsTable(records);
    assert DistinctKeys(table, RowArtistId) by {
      forall i, j | 0 <= i < j < |table|
        ensures RowArtistId(table[i]) != RowArtistId(table[j])
      {
        assert kept[i] in kept && kept[j] in kept;
        assert DistinctKeys(kept, ArtistIdOf);
        assert ArtistIdOf(kept[i]) != ArtistIdOf(kept[j]);
      }
    }
    assert KeySet(table, RowArtistId) == InputArtistIds(records) by {
      forall id | id in KeySet(table, RowArtistId)
        ensures id in InputArtistIds(records)
      {
        var row :| row in table && row.artist_id == id;
        var i :| 0 <= i < |table| && table[i] == row;
        assert kept[i] in kept;
      }
      forall id | id in InputArtistIds(records)
        ensures id in KeySet(table, RowArtistId)
      {
        var rec :| rec in records && HasArtistId(rec) && rec.artist_id.value == id;
        assert ArtistIdOf(rec) in KeySet(filtered, ArtistIdOf);
        var k :| k in kept && ArtistIdOf(k) == ArtistIdOf(rec);
        var i :| 0 <= i < |kept| && kept[i] == k;
        assert RowArtistId(table[i]) == id;
      }
    }
    DistinctKeysCardinality(table, RowArtistId);
    forall row | row in table
      ensures row.artist_id != ""
    {
      assert RowArtistId(row) in KeySet(table, RowArtistId);
    }
  }
}
