/**
  The two stages run one after the other: `process_song_data` builds the
  songs and artists tables, then `process_log_data` builds users, time and
  songplays, joining the log against the songs table the first stage wrote.
 */
module Etl {
  import opened Wrappers
  import opened Relational
  import opened Schema
  import opened UtcTime
  import opened SongData
  import opened LogData

  /** The five tables of one run. */
  datatype Warehouse = Warehouse(
    songs: seq<Song>, artists: seq<Artist>, users: seq<User>,
    tables: Result<LogTables, UdfError>)

  /**
    `main`: the song stage, then the log stage on the songs it produced.
    `songIds` and `playIds` stand for the ids `monotonically_increasing_id`
    hands out in the two stages.
   */
  function RunPipeline(catalog: seq<JsonObject>, log: seq<Event>, songIds: Allocator, playIds: Allocator): Warehouse {
    var s := ProcessSongData(catalog, songIds);
    var l := ProcessLogData(log, s.songs, playIds);
    Warehouse(s.songs, s.artists, l.users, l.tables)
  }

  /**
    Every songplay of a successful run names a song row of the same run whose
    title is the song of a NextSong record, and carries that row's song_id
    and artist_id.
   */
  lemma SongplaysReferenceSongs(catalog: seq<JsonObject>, log: seq<Event>, songIds: Allocator, playIds: Allocator)
    requires RunPipeline(catalog, log, songIds, playIds).tables.Success?
    ensures var w := RunPipeline(catalog, log, songIds, playIds);
      forall x :: x in w.tables.value.songplays ==>
        exists e, s :: e in log && IsNextSong(e) && s in w.songs && e.song.Some? && s.title == e.song
          && x.song_id == s.song_id && x.artist_id == s.artist_id
  {
    var songs := ProcessSongData(catalog, songIds).songs;
    ProcessLogDataSongplaysSound(log, songs, playIds);
  }

  /**
    Every songplay of a successful run carries the artist_id of some row of
    the artists table of the same run.
   */
  lemma SongplaysReferenceArtists(catalog: seq<JsonObject>, log: seq<Event>, songIds: Allocator, playIds: Allocator)
    requires RunPipeline(catalog, log, songIds, playIds).tables.Success?
    ensures var w := RunPipeline(catalog, log, songIds, playIds);
      forall x :: x in w.tables.value.songplays ==> ListsArtistId(w.artists, x.artist_id)
  {
    var out := ProcessSongData(catalog, songIds);
    ProcessLogDataSongplaysFromSongRows(log, out.songs, playIds);
    SongArtistsListed(Select(catalog, ParseCatalog), songIds);
    forall x | x in ProcessLogData(log, out.songs, playIds).tables.value.songplays
      ensures ListsArtistId(out.artists, x.artist_id)
    {
      ArtistOfSongRow(x, out.songs, out.artists);
    }
  }

  lemma ArtistOfSongRow(x: Songplay, songs: seq<Song>, artists: seq<Artist>)
    requires FromSongRow(x, songs)
    requires forall s :: s in songs ==> ListsArtistId(artists, s.artist_id)
    ensures ListsArtistId(artists, x.artist_id)
  {
    var s :| s in songs && x.song_id == s.song_id && x.artist_id == s.artist_id;
    assert ListsArtistId(artists, s.artist_id);
  }

  /** A catalog of one record gives one song row, the record's key with the first id. */
  lemma SingleCatalogRecord(r: CatalogRecord, songIds: Allocator)
    requires IntegersFit(r)
    ensures ProcessSongData([CatalogJson(r)], songIds).songs == [WithSongId(SongKeyOf(r), songIds(0))]
  {
    ParseCatalogJson(r);
    assert Select([CatalogJson(r)], ParseCatalog) == [r];
    SingleSongTable(r, songIds);
  }

  lemma SingleSongTable(r: CatalogRecord, songIds: Allocator)
    ensures SongTable([r], songIds) == [WithSongId(SongKeyOf(r), songIds(0))]
  {
    var key := SongKeyOf(r);
    assert Select([r], SongKeyOf) == [key];
    DistinctOfNoDuplicates([key]);
  }

  lemma SingleNextSong(e: Event)
    requires IsNextSong(e)
    ensures NextSongEvents([e]) == [e]
  {
    DistinctOfNoDuplicates([e]);
    FilterSnoc([], IsNextSong, e);
    assert [] + [e] == [e];
  }

  /** A log of one record the udf accepts is stamped with the udf's instant. */
  lemma SingleRecordStamped(e: Event, t: Instant)
    requires GetTimestamp(e.ts) == Success(t)
    ensures WithStartTime([e]) == Success([Stamped(e, t)])
  {
    assert [e][..0] == [];
    assert WithStartTime([]) == Success([]);
    assert [] + [Stamped(e, t)] == [Stamped(e, t)];
  }

  lemma SingleTimeTable(x: Stamped)
    ensures TimeTable([x]) == [TimeRowOf(x)]
  {
    assert Select([x], TimeRowOf) == [TimeRowOf(x)];
    DistinctOfNoDuplicates([TimeRowOf(x)]);
  }

  lemma SingleSongJoin(x: Stamped, song: Song)
    requires TitleMatches(x.event, song)
    ensures SongJoin([x], [song]) == [Play(x, song)]
  {
    assert [x][..0] == [];
    assert [song][..0] == [];
    assert JoinOne(x, [song]) == [Play(x, song)];
  }

  lemma SingleSongplay(x: Stamped, song: Song, playIds: Allocator)
    requires WellStamped(x) && TitleMatches(x.event, song)
    ensures Songplays([x], [song], playIds) == [SongplayOf(Play(x, song), playIds(0))]
  {
    SongplaysAreTheMatches([x], [song], playIds);
    SingleSongJoin(x, song);
    SingleNumberedSongplay(Play(x, song), playIds);
  }

  lemma SingleNumberedSongplay(p: Play, playIds: Allocator)
    ensures NumberedSongplays([p], playIds) == [SongplayOf(p, playIds(0))]
  {
    var sp := NumberedSongplays([p], playIds);
    assert |sp| == 1;
    assert sp[0] == SongplayOf(p, playIds(0));
  }

  /** A log of one NextSong record gives its time row and, against a song of its title, one songplay. */
  lemma SingleLogRecord(e: Event, t: Instant, song: Song, playIds: Allocator)
    requires IsNextSong(e) && GetTimestamp(e.ts) == Success(t) && TitleMatches(e, song)
    ensures ProcessLogData([e], [song], playIds).tables
      == Success(LogTables([TimeRowOf(Stamped(e, t))], [SongplayOf(Play(Stamped(e, t), song), playIds(0))]))
  {
    var x := Stamped(e, t);
    SingleNextSong(e);
    SingleRecordStamped(e, t);
    SingleTimeTable(x);
    WellStampedIsTheUdf(x);
    SingleSongplay(x, song, playIds);
  }

  /**
    One catalog record and one NextSong record that plays its title give one
    time row and exactly one songplay, which carries the song row's id.
   */
  lemma SingleRecordRun(r: CatalogRecord, e: Event, t: Instant, songIds: Allocator, playIds: Allocator)
    requires IntegersFit(r) && IsNextSong(e) && GetTimestamp(e.ts) == Success(t)
    requires e.song.Some? && e.song == r.title
    ensures var w := RunPipeline([CatalogJson(r)], [e], songIds, playIds);
      var song := WithSongId(SongKeyOf(r), songIds(0));
      && w.songs == [song]
      && w.tables == Success(LogTables([TimeRowOf(Stamped(e, t))], [SongplayOf(Play(Stamped(e, t), song), playIds(0))]))
  {
    var song := WithSongId(SongKeyOf(r), songIds(0));
    SingleCatalogRecord(r, songIds);
    SingleLogRecord(e, t, song, playIds);
  }

  // Scenario: one catalog record titled "Test" and one NextSong record that plays it at 2000-01-01T00:00:00Z.

  const TestRecord := CatalogRecord(Some("A1"), None, None, None, None, Some(200.0 as real), None, Some("Test"), Some(2000))

  const TestEvent := Event(None, None, None, None, None, Some("NextSong"), Some(5), Some("Test"), Some(946_684_800_000),
                           None, Some("1"), map[])

  const Y2KInstant: Instant := DateTime(2000, 1, 1, 0, 0, 0, 0)

  /** The song stage gives the one Test song row. */
  lemma TestSongs(songIds: Allocator)
    ensures ProcessSongData([CatalogJson(TestRecord)], songIds).songs == [WithSongId(SongKeyOf(TestRecord), songIds(0))]
  {
    SingleCatalogRecord(TestRecord, songIds);
  }

  /**
    The run emits exactly one songplay: the Test song's id and artist, the
    record's user and session, at 2000-01-01T00:00:00Z, year 2000, month 1;
    and one time row for it, a Saturday in ISO week 52.
   */
  lemma OneRecordOneSongplay(songIds: Allocator, playIds: Allocator)
    ensures var w := RunPipeline([CatalogJson(TestRecord)], [TestEvent], songIds, playIds);
      && |w.songs| == 1 && w.songs[0].title == Some("Test")
      && w.tables == Success(LogTables(
           [TimeRow(Some(946_684_800_000), Y2KInstant, 0, 1, 52, 1, 2000, 7)],
           [Songplay(playIds(0), Y2KInstant, Some("1"), None, w.songs[0].song_id, Some("A1"), Some(5), None, None, 2000, 1)]))
  {
    var song := WithSongId(SongKeyOf(TestRecord), songIds(0));
    TestSongs(songIds);
    TestEventStamp();
    SingleLogRecord(TestEvent, Y2KInstant, song, playIds);
    TestTimeRow();
    TestSongplay(songIds, playIds);
  }

  lemma TestEventStamp()
    ensures GetTimestamp(TestEvent.ts) == Success(Y2KInstant)
  {
    Y2K();
    GetTimestampOfUtc(946_684_800_000, Y2KInstant);
  }

  lemma TestTimeRow()
    ensures TimeRowOf(Stamped(TestEvent, Y2KInstant)) == TimeRow(Some(946_684_800_000), Y2KInstant, 0, 1, 52, 1, 2000, 7)
  {
    Y2K();
  }

  lemma TestSongplay(songIds: Allocator, playIds: Allocator)
    ensures SongplayOf(Play(Stamped(TestEvent, Y2KInstant), WithSongId(SongKeyOf(TestRecord), songIds(0))), playIds(0))
      == Songplay(playIds(0), Y2KInstant, Some("1"), None, songIds(0), Some("A1"), Some(5), None, None, 2000, 1)
  {
  }

  lemma SongTablesHaveSameRows(catalog: seq<JsonObject>, a: Allocator, b: Allocator)
    ensures SameSongRows(ProcessSongData(catalog, a).songs, ProcessSongData(catalog, b).songs)
  {
    var records := Select(catalog, ParseCatalog);
    var s1, s2 := SongTable(records, a), SongTable(records, b);
    SongTableRowsIgnoreIds(records, a, b);
    assert |s1| == |Select(s1, KeyOf)| == |Select(s2, KeyOf)| == |s2|;
    forall i | 0 <= i < |s1| ensures KeyOf(s1[i]) == KeyOf(s2[i]) {
      assert Select(s1, KeyOf)[i] == Select(s2, KeyOf)[i];
    }
  }

  /**
    Re-running the pipeline on the same inputs gives the same tables up to
    surrogate ids: the same song rows, artists, users and time rows, the
    same failure if any, and songplays that agree row by row once
    songplay_id and song_id are set aside.
   */
  lemma RerunsAgreeUpToIds(catalog: seq<JsonObject>, log: seq<Event>, a1: Allocator, b1: Allocator, a2: Allocator, b2: Allocator)
    ensures var w1, w2 := RunPipeline(catalog, log, a1, b1), RunPipeline(catalog, log, a2, b2);
      && SameSongRows(w1.songs, w2.songs)
      && w1.artists == w2.artists && w1.users == w2.users
      && w1.tables.Success? == w2.tables.Success?
      && (w1.tables.Failure? ==> w1.tables == w2.tables)
      && (w1.tables.Success? ==>
            w1.tables.value.time == w2.tables.value.time
            && Select(w1.tables.value.songplays, WithoutIds) == Select(w2.tables.value.songplays, WithoutIds))
  {
    var s1, s2 := ProcessSongData(catalog, a1).songs, ProcessSongData(catalog, a2).songs;
    SongTablesHaveSameRows(catalog, a1, a2);
    var df := NextSongEvents(log);
    if WithStartTime(df).Success? {
      var stamped := WithStartTime(df).value;
      StampedRecordsSound(df, stamped);
      SongplaysIgnoreIds(stamped, s1, s2, b1, b2);
    }
  }
}
