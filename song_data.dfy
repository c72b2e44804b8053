/**
  `process_song_data`: reads the catalog records under `song_schema` and
  builds the songs dimension (distinct (title, artist_id, year, duration)
  rows with a surrogate `song_id`) and the artists dimension (distinct
  five-column artist rows).
 */
module SongData {
  import opened Wrappers
  import opened Relational
  import opened Schema

  /** The columns `select('title', 'artist_id', 'year', 'duration')` keeps. */
  datatype SongKey = SongKey(
    title: Option<string>, artist_id: Option<string>, year: Option<int>, duration: Option<real>)

  /** A row of the songs table. */
  datatype Song = Song(
    title: Option<string>, artist_id: Option<string>, year: Option<int>, duration: Option<real>,
    song_id: int)

  /** A row of the artists table. */
  datatype Artist = Artist(
    artist_id: Option<string>, artist_name: Option<string>, artist_location: Option<string>,
    artist_latitude: Option<real>, artist_longitude: Option<real>)

  function SongKeyOf(r: CatalogRecord): SongKey {
    SongKey(r.title, r.artist_id, r.year, r.duration)
  }

  /** A song row without its surrogate id. */
  function KeyOf(s: Song): SongKey {
    SongKey(s.title, s.artist_id, s.year, s.duration)
  }

  function WithSongId(k: SongKey, id: int): Song {
    Song(k.title, k.artist_id, k.year, k.duration, id)
  }

  function ArtistOf(r: CatalogRecord): Artist {
    Artist(r.artist_id, r.artist_name, r.artist_location, r.artist_latitude, r.artist_longitude)
  }

  /** Numbers the rows of a table with the allocator, in table order. */
  function NumberSongs(keys: seq<SongKey>, alloc: Allocator): (songs: seq<Song>)
    ensures |songs| == |keys|
    ensures forall i :: 0 <= i < |keys| ==> KeyOf(songs[i]) == keys[i]
    ensures forall i, j :: 0 <= i < j < |songs| ==> songs[i].song_id < songs[j].song_id
  {
    seq(|keys|, i requires 0 <= i < |keys| => WithSongId(keys[i], alloc(i)))
  }

  lemma NumberedKeys(keys: seq<SongKey>, songs: seq<Song>)
    requires |songs| == |keys| && forall i :: 0 <= i < |keys| ==> KeyOf(songs[i]) == keys[i]
    ensures forall s :: s in songs ==> KeyOf(s) in keys
    ensures forall k :: k in keys ==> exists s :: s in songs && KeyOf(s) == k
  {
    forall k | k in keys ensures exists s :: s in songs && KeyOf(s) == k {
      var i :| 0 <= i < |keys| && keys[i] == k;
      assert songs[i] in songs;
    }
  }

  /** Every row of a table of keys drawn from the records is one record's key, and back. */
  lemma KeysOfRecords(records: seq<CatalogRecord>, songs: seq<Song>)
    requires forall s :: s in songs ==> KeyOf(s) in Select(records, SongKeyOf)
    requires forall k :: k in Select(records, SongKeyOf) ==> exists s :: s in songs && KeyOf(s) == k
    ensures forall s :: s in songs ==> exists r :: r in records && KeyOf(s) == SongKeyOf(r)
    ensures forall r :: r in records ==> exists s :: s in songs && KeyOf(s) == SongKeyOf(r)
  {
    SelectElements(records, SongKeyOf);
  }

  /**
    `song_table`: the projection to (title, artist_id, year, duration), duplicates
    dropped, then `withColumn('song_id', monotonically_increasing_id())`.
   */
  function SongTable(records: seq<CatalogRecord>, alloc: Allocator): (songs: seq<Song>)
    ensures forall i, j :: 0 <= i < j < |songs| ==> KeyOf(songs[i]) != KeyOf(songs[j])
    ensures forall i, j :: 0 <= i < j < |songs| ==> songs[i].song_id != songs[j].song_id
    ensures forall s :: s in songs ==> exists r :: r in records && KeyOf(s) == SongKeyOf(r)
    ensures forall r :: r in records ==> exists s :: s in songs && KeyOf(s) == SongKeyOf(r)
  {
    var keys := Distinct(Select(records, SongKeyOf));
    var songs := NumberSongs(keys, alloc);
    NumberedKeys(keys, songs);
    KeysOfRecords(records, songs);
    songs
  }

  /** Which ids the allocator hands out does not change the rows themselves. */
  lemma SongTableRowsIgnoreIds(records: seq<CatalogRecord>, a: Allocator, b: Allocator)
    ensures Select(SongTable(records, a), KeyOf) == Select(SongTable(records, b), KeyOf)
    ensures Select(SongTable(records, a), KeyOf) == Distinct(Select(records, SongKeyOf))
  {
    assert Select(SongTable(records, a), KeyOf) == Distinct(Select(records, SongKeyOf));
    assert Select(SongTable(records, b), KeyOf) == Distinct(Select(records, SongKeyOf));
  }

  /** `artist_table`: the five artist columns, duplicate rows dropped. */
  function ArtistTable(records: seq<CatalogRecord>): (artists: seq<Artist>)
    ensures NoDuplicates(artists)
    ensures forall a :: a in artists <==> exists r :: r in records && a == ArtistOf(r)
  {
    var projected := Select(records, ArtistOf);
    SelectElements(records, ArtistOf);
    Distinct(projected)
  }

  /** Some row of the artists table has this artist_id. */
  predicate ListsArtistId(artists: seq<Artist>, id: Option<string>) {
    exists a :: a in artists && a.artist_id == id
  }

  lemma ArtistOfListed(records: seq<CatalogRecord>, r: CatalogRecord)
    requires r in records
    ensures ArtistOf(r) in ArtistTable(records)
  {
  }

  lemma SongArtistListed(records: seq<CatalogRecord>, alloc: Allocator, s: Song)
    requires s in SongTable(records, alloc)
    ensures ListsArtistId(ArtistTable(records), s.artist_id)
  {
    var r :| r in records && KeyOf(s) == SongKeyOf(r);
    ArtistOfListed(records, r);
  }

  /** The artist_id of every song row is that of some row of the artists table built from the same records. */
  lemma SongArtistsListed(records: seq<CatalogRecord>, alloc: Allocator)
    ensures forall s :: s in SongTable(records, alloc) ==> ListsArtistId(ArtistTable(records), s.artist_id)
  {
    forall s | s in SongTable(records, alloc) ensures ListsArtistId(ArtistTable(records), s.artist_id) {
      SongArtistListed(records, alloc, s);
    }
  }

  /** Both tables of one run. */
  datatype SongOutput = SongOutput(songs: seq<Song>, artists: seq<Artist>)

  /** `process_song_data` without the reads and writes: records in, songs and artists out. */
  function ProcessSongData(json: seq<JsonObject>, alloc: Allocator): SongOutput {
    var df := Select(json, ParseCatalog);
    SongOutput(SongTable(df, alloc), ArtistTable(df))
  }

  /**
    Duplicate elimination is on the whole artist row, so one artist_id shows
    up once per distinct (name, location, latitude, longitude) it is listed with.
   */
  lemma ArtistIdCanRepeat(r1: CatalogRecord, r2: CatalogRecord)
    requires r1.artist_id == r2.artist_id && ArtistOf(r1) != ArtistOf(r2)
    ensures ArtistTable([r1, r2]) == [ArtistOf(r1), ArtistOf(r2)]
    ensures ArtistTable([r1, r2])[0].artist_id == ArtistTable([r1, r2])[1].artist_id
  {
    var x1, x2 := ArtistOf(r1), ArtistOf(r2);
    assert Select([r1, r2], ArtistOf) == [x1, x2];
    assert NoDuplicates([x1, x2]);
    DistinctOfNoDuplicates([x1, x2]);
  }
}
