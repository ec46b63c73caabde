# Song-play ETL pipeline, modelled in Dafny

This project models the transformation core of a PySpark ETL job (`etl.py`).
The job turns two raw JSON streams into a star schema. Song-metadata records
become the `songs` and `artists` dimension tables. Application event logs
become the `users` and `time` dimension tables and the `songplays` fact table.

Each DataFrame is a finite sequence of rows. Each chained DataFrame expression
is a pure function. There is one module per component:

- `Nulls`: nullable columns (`Option`) and Spark's null-aware comparisons. A
  null never satisfies `!=`, `==` or a join condition, so such rows are dropped.
- `Strings`: Spark's `trim`, which strips the space character (U+0020) from
  both ends. Also the ascending string order used by `orderBy`: lexicographic
  by code point, with a proper prefix first.
- `Frames`: `filter`, `dropDuplicates` on one key column, and `SELECT DISTINCT`.
- `SongExtractor`: the `songs` table (filter `song_id != ''`, dropDuplicates,
  trim `title`, select, `orderBy('song_id')`) and the `artists` table.
- `LogExtractor`: the `page == 'NextSong'` filter, the `users` table, the
  timestamp enrichment and the `time` table.
- `SongplayJoiner`: the inner equi-join `song.title == log.song` and the
  projection to `songplays`.
- `Pipeline`: one whole run. The songs table that the song extractor writes is
  joined as it is; reading it back from the sink is the identity.
- `Scenarios`: worked examples on small inputs.

Two quirks of the code are kept on purpose:

- The log-side `trim(df.song)` at etl.py:173 is never assigned, so the join
  compares the untrimmed `song` with the trimmed `title`. A song with a leading
  or trailing space never joins (`Pipeline.UntrimmedSongNeverJoins`).
- `songplay_id` is added at etl.py:176 but not selected, so `SongplayRow` has
  no such column.

`dropDuplicates` does not promise which duplicate survives. The model keeps
the first occurrence. No lemma names a survivor. The lemmas state only that
keys are unique, that every kept row is an input row, and that every key
value of the input is kept.

One natural expectation is that `songplays` has at most one row per play.
That does not hold for this code. The inner join emits one row per matching
(play, song) pair, and two songs can share a title.
`Scenarios.SharedTitleOutnumbersPlays` shows this. The bound holds only when
song titles are distinct (`SongplayJoiner.JoinBoundedByEvents`).

## Model

| member | source | states |
|---|---|---|
| Frames.Filter | etl.py:64 | every kept row is an input row that meets the condition, and every input row that meets it is kept |
| Frames.DropDuplicates | etl.py:65 | kept rows are input rows; no two share the key; the set of key values equals the input's |
| Frames.DropDuplicatesOfDistinct | etl.py:151-157 | rows whose keys are already distinct are all kept unchanged |
| Frames.DistinctKeysCardinality | etl.py:65 | a table with distinct keys has exactly as many rows as distinct key values |
| Frames.Distinct | etl.py:154-157 | `SELECT DISTINCT` keeps every input row value once, and no two output rows are equal |
| Strings.Trim | etl.py:66 | the result has no space at either end and is the piece of the input surrounded only by spaces |
| Strings.TrimColumn | etl.py:66 | null stays null; a non-null value becomes the piece of it surrounded only by spaces, with no space at either end |
| Strings.TrimOfPadded | etl.py:66 | trimming spaces + t + spaces gives back exactly t, when t has no edge spaces |
| Strings.TrimIdempotent | etl.py:66 | trimming twice is the same as trimming once |
| Strings.LexLessIrreflexive | etl.py:68 | no string sorts before itself |
| Strings.LexLessTransitive | etl.py:68 | the string order is transitive |
| Strings.LexLessTotal | etl.py:68 | any two different strings are ordered one way or the other |
| SongExtractor.SortBySongId | etl.py:68 | `orderBy('song_id')` returns a permutation (same multiset) of its rows |
| SongExtractor.SortIsAscending | etl.py:68 | sorting rows with distinct `song_id`s gives strictly ascending `song_id`s |
| SongExtractor.SongsTableProvenance | etl.py:64-67 | every songs row is an input record with a non-empty `song_id`: its `title` trimmed, and its `artist_id`, `year` and `duration` unchanged |
| SongExtractor.SongsTableKeys | etl.py:64-65 | the `song_id`s are exactly the input's non-empty ones, pairwise distinct, one row each |
| SongExtractor.SongsTableSorted | etl.py:68 | the songs table is strictly ascending by `song_id` |
| SongExtractor.ArtistsTableProvenance | etl.py:79-88 | every artists row is one input record with a non-empty `artist_id`: `artist_name` trimmed into `name`, and `location`, `latitude` and `longitude` taken from the same record |
| SongExtractor.ArtistsTableKeys | etl.py:79-80 | the `artist_id`s are exactly the input's non-empty ones, pairwise distinct, one row each |
| LogExtractor.Plays | etl.py:118 | the plays are exactly the log events whose `page` is "NextSong" |
| LogExtractor.PlaysIgnoreOtherPages | etl.py:118 | inserting a non-"NextSong" event anywhere in the log leaves the plays unchanged |
| LogExtractor.UsersTableProvenance | etl.py:122-132 | every users row is one play with a non-empty `userId`: names trimmed, and `gender` and `level` from the same event |
| LogExtractor.UsersTableKeys | etl.py:122-123 | the `user_id`s are exactly the non-empty `userId`s of the plays, pairwise distinct, one row each |
| LogExtractor.TimeTableDistinctRemovesNothing | etl.py:151-157 | after dropDuplicates on `ts`, the `SELECT DISTINCT` removes no row, and `start_time`s are distinct |
| LogExtractor.TimeTableKeys | etl.py:140-157 | each time row equals the calendar fields of its own `start_time`; the `start_time`s are exactly the plays' timestamps, one row each |
| LogExtractor.TimeTableOneRowPerTimestamp | etl.py:143-157 | for every play timestamp there is exactly one row with that `start_time`, and it is Cal(ts) |
| SongplayJoiner.JoinEventRows | etl.py:174 | an event's joined rows are exactly its combinations with the songs whose title equals its `song` |
| SongplayJoiner.JoinRows | etl.py:173-188 | every songplays row combines an event and a song with equal titles, log-side columns from the event and `song_id`/`artist_id` from the song; every such pair appears |
| SongplayJoiner.JoinSize | etl.py:174 | the join has exactly one row per matching (event, song) index pair |
| SongplayJoiner.JoinEventEmpty | etl.py:174 | an event yields no row if and only if no song's title equals its `song` |
| SongplayJoiner.JoinConcat | etl.py:174 | joining two event batches together equals joining each and concatenating |
| SongplayJoiner.JoinWithoutSongs | etl.py:174 | an empty songs table yields an empty join |
| SongplayJoiner.JoinBoundedByEvents | etl.py:174 | when no two songs share a title, the join has at most one row per event |
| SongplayJoiner.UnmatchedPlayContributesNothing | etl.py:173-174 | a play whose `song` equals no title adds no songplays row, wherever it stands in the log |
| Pipeline.OtherPagesIgnored | etl.py:118 | a non-"NextSong" event changes none of the five tables |
| Pipeline.SongplaysProvenance | etl.py:167-188 | every songplays row pairs a play of the log with a songs-table row whose title equals the play's untrimmed `song` |
| Pipeline.NoSongsNoSongplays | etl.py:167-174 | an empty songs table gives an empty songplays table |
| Pipeline.UntrimmedSongNeverJoins | etl.py:173-174 | a play whose `song` has a leading or trailing space never joins, because every songs title is trimmed |
| Scenarios.SongTitleTrimmedAndEmptyIdDropped | etl.py:64-68 | the records (S1, " A ") and ("", "bad") give the single row (S1, "A") |
| Scenarios.SameTimestampOneTimeRow | etl.py:151-157 | two plays at ts 1000 give the single time row Cal(1000) |
| Scenarios.MatchingTitleJoinsOnce | etl.py:174-188 | a play of "A" joins the one song titled "A" once; a play of "B" joins nothing |
| Scenarios.SharedTitleOutnumbersPlays | etl.py:174 | one play and two songs with its title give two songplays rows |

## Left out

- Spark session creation, `configparser` and the AWS credentials in the environment (etl.py:11-22, 197-211). These are configuration.
- The `log` helper (etl.py:25-39). It only prints and does not change the data.
- JSON and parquet reads and writes, overwrite mode and `partitionBy` (etl.py:57, 74, 94, 113, 137, 163, 167, 194). These are sink I/O. Reading the songs table back (etl.py:167) is the identity on the table.
- The calendar arithmetic: `datetime.fromtimestamp(ts / 1000)` and Spark's `hour`, `dayofmonth`, `weekofyear`, `month`, `year` and `dayofweek` (etl.py:140-149). They use float division and the host timezone. They are the parameter `cal: int -> Calendar`, which is deterministic by construction. The intermediate `time` timestamp column is not modelled.
- `monotonically_increasing_id` (etl.py:176). It is a nondeterministic distributed generator, and its column is not selected.
- `orderBy('ts')` at etl.py:151. The `SELECT DISTINCT` that follows does not keep row order in Spark, so the time table's order is unspecified. No property here depends on it.
- Which duplicate `dropDuplicates` keeps, and the row order of a join. Both are engine-internal. The model keeps the first duplicate and joins event by event. Only `SongplayJoiner.JoinConcat` relies on that order.
- Partition-level parallelism of the engine.
- `ts` is an integer that is never null. A null `ts` would make the timestamp conversion fail, and that path is not modelled.
- Floating-point columns (`duration`, `artist_latitude`, `artist_longitude`) are `real`. They are only carried through, never computed.
- Strings.Trim: strips U+0020 only, as Spark's `trim` does. Other whitespace is kept.
