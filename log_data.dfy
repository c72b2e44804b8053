/**
  `process_log_data`: the log records, duplicates dropped and restricted to
  `page == 'NextSong'`, give the users dimension, the time dimension (the
  udf `get_timestamp` turns `ts` into `start_time`, which is decomposed into
  calendar fields) and the songplays fact table (log records inner-joined
  to the songs table on title, numbered, inner-joined to the time table on
  start_time, duplicates dropped).
 */
module LogData {
  import opened Wrappers
  import opened Relational
  import opened Schema
  import opened UtcTime
  import opened SongData

  /**
    A log record as read with an inferred schema. The columns the
    transformation never names (artist, auth, length, ...) are kept in
    `others`, so that whole-row duplicate elimination still sees them.
   */
  datatype Event = Event(
    firstName: Option<string>, gender: Option<string>, lastName: Option<string>,
    level: Option<string>, location: Option<string>, page: Option<string>,
    sessionId: Option<int>, song: Option<string>, ts: Option<int>,
    userAgent: Option<string>, userId: Option<string>,
    others: map<string, Json>)

  /** `df.page == 'NextSong'`; a NULL page compares to NULL and is dropped. */
  predicate IsNextSong(e: Event) {
    e.page == Some("NextSong")
  }

  /** `drop_duplicates()` on the raw log, then `filter(df.page == 'NextSong')`. */
  function NextSongEvents(raw: seq<Event>): (df: seq<Event>)
    ensures NoDuplicates(df)
    ensures forall e :: e in df <==> e in raw && IsNextSong(e)
  {
    FilterDistinctCommute(raw, IsNextSong);
    Filter(Distinct(raw), IsNextSong)
  }

  /** Only the NextSong records of the raw log decide what reaches the tables, in order and multiplicity. */
  lemma NextSongEventsOnlySeeNextSongs(raw: seq<Event>)
    ensures NextSongEvents(raw) == Distinct(Filter(raw, IsNextSong))
    ensures NextSongEvents(Filter(raw, IsNextSong)) == NextSongEvents(raw)
  {
    FilterDistinctCommute(raw, IsNextSong);
    FilterDistinctCommute(Filter(raw, IsNextSong), IsNextSong);
    FilterIdempotent(raw, IsNextSong);
  }

  /** A row of the users table: `selectExpr(["userId", "firstName", "lastName", "gender", "level"])`. */
  datatype User = User(
    userId: Option<string>, firstName: Option<string>, lastName: Option<string>,
    gender: Option<string>, level: Option<string>)

  function UserOf(e: Event): User {
    User(e.userId, e.firstName, e.lastName, e.gender, e.level)
  }

  /** `users_table`: the five user columns, duplicate rows dropped. */
  function UsersTable(df: seq<Event>): (users: seq<User>)
    ensures NoDuplicates(users)
    ensures forall u :: u in users <==> exists e :: e in df && u == UserOf(e)
  {
    SelectElements(df, UserOf);
    Distinct(Select(df, UserOf))
  }

  /**
    Duplicate elimination is on the whole user row, so a user whose level
    changed appears once per level.
   */
  lemma UserCanRepeatWithAnotherLevel(e1: Event, e2: Event)
    requires e1.userId == e2.userId && e1.level != e2.level
    ensures UsersTable([e1, e2]) == [UserOf(e1), UserOf(e2)]
    ensures UsersTable([e1, e2])[0].userId == UsersTable([e1, e2])[1].userId
  {
    var u1, u2 := UserOf(e1), UserOf(e2);
    assert Select([e1, e2], UserOf) == [u1, u2];
    assert NoDuplicates([u1, u2]);
    DistinctOfNoDuplicates([u1, u2]);
  }

  /** What the udf raises: `int(None)` is a TypeError; a year outside 1 .. 9999 is a ValueError. */
  datatype UdfError = TypeError | ValueError(ts: int)

  /** A ts the udf accepts: present, and from 0001-01-01T00:00:00.000Z to 9999-12-31T23:59:59.999Z. */
  predicate InUdfRange(ts: Option<int>) {
    ts.Some? && -62_135_596_800_000 <= ts.value <= 253_402_300_799_999
  }

  /** The udf `get_timestamp`: `datetime.utcfromtimestamp(int(ts) / 1000)`. */
  function GetTimestamp(ts: Option<int>): (r: Result<Instant, UdfError>)
    ensures r.Success? ==> ts.Some? && ToEpochMillis(r.value) == ts.value
    ensures r == Failure(TypeError) <==> ts == None
    ensures r.Failure? && ts.Some? ==> r.error == ValueError(ts.value)
    ensures r.Success? <==> InUdfRange(ts)
  {
    match ts
    case None => Failure(TypeError)
    case Some(ms) =>
      UtcFromTimestampDomain(ms);
      match UtcFromTimestamp(ms)
      case Some(t) => Success(t)
      case None => Failure(ValueError(ms))
  }

  /** The udf returns what `utcfromtimestamp` returns for a present ts. */
  lemma GetTimestampOfUtc(ms: int, t: Instant)
    requires UtcFromTimestamp(ms) == Some(t)
    ensures GetTimestamp(Some(ms)) == Success(t)
  {
  }

  /** A log record with its `start_time` column. */
  datatype Stamped = Stamped(event: Event, start_time: Instant)

  /** `start_time` names the instant of the record's own `ts`, in the years the udf accepts. */
  predicate WellStamped(s: Stamped) {
    && s.event.ts.Some?
    && ToEpochMillis(s.start_time) == s.event.ts.value
    && MinYear <= s.start_time.year <= MaxYear
  }

  /** Being well stamped is exactly carrying what the udf returns. */
  lemma WellStampedIsTheUdf(s: Stamped)
    ensures WellStamped(s) <==> GetTimestamp(s.event.ts) == Success(s.start_time)
  {
    if s.event.ts.Some? {
      var ms := s.event.ts.value;
      UtcFromTimestampDomain(ms);
      if ToEpochMillis(s.start_time) == ms {
        FromToEpochMillis(s.start_time);
      }
    }
  }

  /**
    `df.withColumn('start_time', get_timestamp('ts'))`, forced: every row
    stamped, or the first error the udf raises.
   */
  function WithStartTime(df: seq<Event>): (r: Result<seq<Stamped>, UdfError>)
    ensures r.Success? <==> forall e :: e in df ==> InUdfRange(e.ts)
    ensures r.Success? ==> |r.value| == |df|
    ensures r.Success? ==> forall i :: 0 <= i < |df| ==> r.value[i].event == df[i] && WellStamped(r.value[i])
    ensures r.Failure? ==> exists e :: e in df && GetTimestamp(e.ts) == Failure(r.error)
  {
    if df == [] then Success([])
    else
      var last := df[|df| - 1];
      assert df == df[..|df| - 1] + [last];
      match WithStartTime(df[..|df| - 1])
      case Failure(err) => Failure(err)
      case Success(prefix) =>
        match GetTimestamp(last.ts)
        case Failure(err) => Failure(err)
        case Success(t) =>
          WellStampedIsTheUdf(Stamped(last, t));
          Success(prefix + [Stamped(last, t)])
  }

  /** A row of the time table. */
  datatype TimeRow = TimeRow(
    ts: Option<int>, start_time: Instant, hour: int, day: int, week: int,
    month: int, year: int, weekday: int)

  /** `hour`, `dayofmonth`, `weekofyear`, `month`, `year` and `dayofweek` of `start_time`. */
  function TimeRowOf(s: Stamped): TimeRow {
    var t := s.start_time;
    TimeRow(s.event.ts, t, t.hour, t.day, WeekOfYear(t), t.month, t.year, Weekday(t))
  }

  /**
    What a time row promises: start_time is the UTC instant of its own ts;
    hour, day, month and year are that instant's fields, week its ISO 8601
    week and weekday its `dayofweek` (1 = Sunday); every field is in range.
   */
  predicate TimeRowFacts(row: TimeRow) {
    && row.ts.Some?
    && row.start_time == FromEpochMillis(row.ts.value)
    && 0 <= row.hour <= 23 && 1 <= row.day <= 31 && 1 <= row.week <= 53
    && 1 <= row.month <= 12 && 1 <= row.weekday <= 7
    && 1 <= row.year <= 9999
    && row.year == row.start_time.year && row.month == row.start_time.month
    && row.hour == row.start_time.hour && row.day == row.start_time.day
    && row.week == WeekOfYear(row.start_time) && row.weekday == Weekday(row.start_time)
  }

  lemma TimeRowOfFacts(s: Stamped)
    requires WellStamped(s)
    ensures TimeRowFacts(TimeRowOf(s))
  {
    FromToEpochMillis(s.start_time);
  }

  /** `time_table`: one row per distinct record of the stamped log, duplicates dropped. */
  function TimeTable(stamped: seq<Stamped>): (time: seq<TimeRow>)
    ensures NoDuplicates(time)
    ensures forall t :: t in time <==> exists s :: s in stamped && t == TimeRowOf(s)
  {
    SelectElements(stamped, TimeRowOf);
    Distinct(Select(stamped, TimeRowOf))
  }

  /**
    Every time row is the UTC decomposition of its ts, and since the row is
    determined by ts, neither ts nor start_time repeats in the table.
   */
  lemma TimeTableFacts(stamped: seq<Stamped>)
    requires forall s :: s in stamped ==> WellStamped(s)
    ensures forall t :: t in TimeTable(stamped) ==> TimeRowFacts(t)
    ensures forall t :: t in TimeTable(stamped) ==> exists s :: s in stamped && t.ts == s.event.ts && t.start_time == s.start_time
    ensures var time := TimeTable(stamped);
      forall i, j :: 0 <= i < j < |time| ==> time[i].ts != time[j].ts && time[i].start_time != time[j].start_time
  {
    var time := TimeTable(stamped);
    forall t | t in time ensures TimeRowFacts(t) {
      var s :| s in stamped && t == TimeRowOf(s);
      TimeRowOfFacts(s);
    }
    forall i, j | 0 <= i < j < |time| ensures time[i].ts != time[j].ts && time[i].start_time != time[j].start_time {
      assert time[i] in time && time[j] in time;
      var si :| si in stamped && time[i] == TimeRowOf(si);
      var sj :| sj in stamped && time[j] == TimeRowOf(sj);
      TimeRowOfFacts(si);
      TimeRowOfFacts(sj);
      FromToEpochMillis(time[i].start_time);
      FromToEpochMillis(time[j].start_time);
    }
  }

  /** A row of `df.join(song_df, df.song == song_df.title, how='inner')`. */
  datatype Play = Play(event: Stamped, song: Song)

  /** The join condition; a NULL on either side matches nothing. */
  predicate TitleMatches(e: Event, s: Song) {
    e.song.Some? && s.title == e.song
  }

  /** The joined rows of one log record, in the order of the songs table. */
  function JoinOne(x: Stamped, songs: seq<Song>): (plays: seq<Play>)
    ensures forall p :: p in plays <==> p.event == x && p.song in songs && TitleMatches(x.event, p.song)
    ensures NoDuplicates(songs) ==> NoDuplicates(plays)
  {
    if songs == [] then []
    else
      var rest := JoinOne(x, songs[..|songs| - 1]);
      var s := songs[|songs| - 1];
      assert songs == songs[..|songs| - 1] + [s];
      if TitleMatches(x.event, s) then
        assert NoDuplicates(songs) ==> NoDuplicates(rest + [Play(x, s)]) by {
          if NoDuplicates(songs) {
            assert NoDuplicates(songs[..|songs| - 1]);
            NoDuplicatesConcat(rest, [Play(x, s)]);
          }
        }
        rest + [Play(x, s)]
      else rest
  }

  /**
    The inner join of the stamped log with the songs table: exactly the
    pairs whose titles match, each once when neither side has duplicates.
   */
  function SongJoin(df: seq<Stamped>, songs: seq<Song>): (plays: seq<Play>)
    ensures forall p :: p in plays <==> p.event in df && p.song in songs && TitleMatches(p.event.event, p.song)
    ensures NoDuplicates(df) && NoDuplicates(songs) ==> NoDuplicates(plays)
  {
    if df == [] then []
    else
      var prefix := df[..|df| - 1];
      var x := df[|df| - 1];
      assert df == prefix + [x];
      var rest := SongJoin(prefix, songs);
      assert NoDuplicates(df) && NoDuplicates(songs) ==> NoDuplicates(rest + JoinOne(x, songs)) by {
        if NoDuplicates(df) && NoDuplicates(songs) {
          assert NoDuplicates(prefix);
          assert x !in prefix by {
            forall k | 0 <= k < |prefix| ensures prefix[k] != x {
              assert df[k] == prefix[k];
            }
          }
          NoDuplicatesConcat(rest, JoinOne(x, songs));
        }
      }
      rest + JoinOne(x, songs)
  }

  /** A row of the first songplays projection, before the time join. */
  datatype PlayRow = PlayRow(
    songplay_id: int, start_time: Instant, user_id: Option<string>, level: Option<string>,
    song_id: int, artist_id: Option<string>, session_id: Option<int>,
    location: Option<string>, user_agent: Option<string>)

  function PlayRowOf(p: Play, id: int): PlayRow {
    var e := p.event.event;
    PlayRow(id, p.event.start_time, e.userId, e.level, p.song.song_id, p.song.artist_id,
            e.sessionId, e.location, e.userAgent)
  }

  /** `monotonically_increasing_id().alias("songplay_id")` over the joined rows. */
  function NumberPlays(plays: seq<Play>, alloc: Allocator): seq<PlayRow> {
    seq(|plays|, i requires 0 <= i < |plays| => PlayRowOf(plays[i], alloc(i)))
  }

  /** A row of the songplays table. */
  datatype Songplay = Songplay(
    songplay_id: int, start_time: Instant, user_id: Option<string>, level: Option<string>,
    song_id: int, artist_id: Option<string>, session_id: Option<int>,
    location: Option<string>, user_agent: Option<string>, year: int, month: int)

  /** The final projection: the play row's columns, `year` and `month` from the time row. */
  function WithTimeColumns(r: PlayRow, t: TimeRow): Songplay {
    Songplay(r.songplay_id, r.start_time, r.user_id, r.level, r.song_id, r.artist_id,
             r.session_id, r.location, r.user_agent, t.year, t.month)
  }

  /** The time join condition `songplays_table.start_time == time_table.start_time`. */
  function SameStart(st: Instant): TimeRow -> bool {
    (t: TimeRow) => t.start_time == st
  }

  /** The inner join of the play rows with the time table on start_time, row by row. */
  function TimeJoin(rows: seq<PlayRow>, time: seq<TimeRow>): seq<Songplay> {
    if rows == [] then []
    else
      var r := rows[|rows| - 1];
      TimeJoin(rows[..|rows| - 1], time) + Select(Filter(time, SameStart(r.start_time)), (t: TimeRow) => WithTimeColumns(r, t))
  }

  /** The songplay a play row becomes when `year` and `month` are its own start_time's. */
  function WithOwnCalendar(r: PlayRow): Songplay {
    Songplay(r.songplay_id, r.start_time, r.user_id, r.level, r.song_id, r.artist_id,
             r.session_id, r.location, r.user_agent, r.start_time.year, r.start_time.month)
  }

  /** Some row of the time table has start_time `st`. */
  predicate HasStart(time: seq<TimeRow>, st: Instant) {
    exists k :: 0 <= k < |time| && time[k].start_time == st
  }

  /** A time table in which start_time is a key and year and month are start_time's. */
  predicate KeyedOnStart(time: seq<TimeRow>) {
    && (forall i, j :: 0 <= i < j < |time| ==> time[i].start_time != time[j].start_time)
    && (forall t :: t in time ==> t.year == t.start_time.year && t.month == t.start_time.month)
  }

  lemma TimeJoinOneRow(r: PlayRow, time: seq<TimeRow>, k: int)
    requires KeyedOnStart(time)
    requires 0 <= k < |time| && time[k].start_time == r.start_time
    ensures Select(Filter(time, SameStart(r.start_time)), (t: TimeRow) => WithTimeColumns(r, t)) == [WithOwnCalendar(r)]
  {
    FilterSingle(time, SameStart(r.start_time), k);
    assert time[k] in time;
  }

  /**
    When every play row finds its start_time in a time table keyed on
    start_time, the time join keeps each row exactly once, in order, and
    adds that row's own year and month.
   */
  lemma {:induction false} TimeJoinOneToOne(rows: seq<PlayRow>, time: seq<TimeRow>)
    requires KeyedOnStart(time)
    requires forall i :: 0 <= i < |rows| ==> HasStart(time, rows[i].start_time)
    ensures TimeJoin(rows, time) == Select(rows, WithOwnCalendar)
  {
    if rows != [] {
      var p, r := rows[..|rows| - 1], rows[|rows| - 1];
      assert rows == p + [r];
      assert forall i :: 0 <= i < |p| ==> p[i] == rows[i];
      TimeJoinOneToOne(p, time);
      var k :| 0 <= k < |time| && time[k].start_time == r.start_time;
      TimeJoinOneRow(r, time, k);
      assert TimeJoin(rows, time) == TimeJoin(p, time) + [WithOwnCalendar(r)];
      SelectSnoc(p, WithOwnCalendar, r);
    }
  }

  /** A songplay row as the join promises it: the record's and the song's columns, the given id. */
  function SongplayOf(p: Play, id: int): Songplay {
    WithOwnCalendar(PlayRowOf(p, id))
  }

  /** The joined pairs as songplay rows, numbered by the allocator in join order. */
  function NumberedSongplays(m: seq<Play>, alloc: Allocator): seq<Songplay> {
    seq(|m|, i requires 0 <= i < |m| => SongplayOf(m[i], alloc(i)))
  }

  /** `songplays_table`, including its final `drop_duplicates()`. */
  function Songplays(stamped: seq<Stamped>, songs: seq<Song>, alloc: Allocator): seq<Songplay> {
    Distinct(TimeJoin(NumberPlays(SongJoin(stamped, songs), alloc), TimeTable(stamped)))
  }

  lemma TimeTableKeyedOnStart(stamped: seq<Stamped>)
    requires forall s :: s in stamped ==> WellStamped(s)
    ensures KeyedOnStart(TimeTable(stamped))
    ensures forall s :: s in stamped ==> HasStart(TimeTable(stamped), s.start_time)
  {
    var time := TimeTable(stamped);
    TimeTableFacts(stamped);
    forall s | s in stamped ensures HasStart(time, s.start_time) {
      assert TimeRowOf(s) in time;
    }
  }

  lemma PlayRowsFindTheirTime(stamped: seq<Stamped>, m: seq<Play>, alloc: Allocator, time: seq<TimeRow>)
    requires forall p :: p in m ==> p.event in stamped
    requires forall s :: s in stamped ==> HasStart(time, s.start_time)
    ensures forall i :: 0 <= i < |m| ==> HasStart(time, NumberPlays(m, alloc)[i].start_time)
  {
    var rows := NumberPlays(m, alloc);
    forall i | 0 <= i < |m| ensures HasStart(time, rows[i].start_time) {
      assert m[i] in m;
      assert rows[i].start_time == m[i].event.start_time;
    }
  }

  lemma NumberedSongplaysSelect(m: seq<Play>, alloc: Allocator)
    ensures Select(NumberPlays(m, alloc), WithOwnCalendar) == NumberedSongplays(m, alloc)
  {
  }

  lemma NumberedSongplaysDistinctIds(m: seq<Play>, alloc: Allocator)
    ensures var sp := NumberedSongplays(m, alloc);
      forall i, j :: 0 <= i < j < |sp| ==> sp[i].songplay_id < sp[j].songplay_id
    ensures NoDuplicates(NumberedSongplays(m, alloc))
  {
    var sp := NumberedSongplays(m, alloc);
    forall i, j | 0 <= i < j < |sp| ensures sp[i] != sp[j] {
      assert sp[i].songplay_id == alloc(i) < alloc(j) == sp[j].songplay_id;
    }
  }

  /**
    The songplays table is one row per matching (record, song) pair, in join
    order, numbered by the allocator, with year and month of its own
    start_time: the time join neither drops nor duplicates a row, and the
    final duplicate elimination removes nothing.
   */
  lemma SongplaysAreTheMatches(stamped: seq<Stamped>, songs: seq<Song>, alloc: Allocator)
    requires forall s :: s in stamped ==> WellStamped(s)
    ensures Songplays(stamped, songs, alloc) == NumberedSongplays(SongJoin(stamped, songs), alloc)
  {
    var m := SongJoin(stamped, songs);
    var rows := NumberPlays(m, alloc);
    var time := TimeTable(stamped);
    TimeTableKeyedOnStart(stamped);
    PlayRowsFindTheirTime(stamped, m, alloc, time);
    TimeJoinOneToOne(rows, time);
    var sp := NumberedSongplays(m, alloc);
    NumberedSongplaysSelect(m, alloc);
    NumberedSongplaysDistinctIds(m, alloc);
    DistinctOfNoDuplicates(sp);
  }

  /** The songplay `x` carries the columns of record `e` and song `s`, and the record's year and month. */
  predicate Describes(x: Songplay, e: Stamped, s: Song) {
    && x.start_time == e.start_time && x.user_id == e.event.userId && x.level == e.event.level
    && x.song_id == s.song_id && x.artist_id == s.artist_id && x.session_id == e.event.sessionId
    && x.location == e.event.location && x.user_agent == e.event.userAgent
    && x.year == e.start_time.year && x.month == e.start_time.month
  }

  /** Row `i` of the numbered songplays describes joined pair `i`. */
  lemma NumberedSongplaysDescribe(m: seq<Play>, alloc: Allocator)
    ensures |NumberedSongplays(m, alloc)| == |m|
    ensures forall i :: 0 <= i < |m| ==> Describes(NumberedSongplays(m, alloc)[i], m[i].event, m[i].song)
  {
  }

  /** The songplays table has one row per joined pair, with strictly increasing ids. */
  lemma SongplaysCount(stamped: seq<Stamped>, songs: seq<Song>, alloc: Allocator)
    requires forall s :: s in stamped ==> WellStamped(s)
    ensures var sp := Songplays(stamped, songs, alloc);
      && |sp| == |SongJoin(stamped, songs)|
      && (forall i, j :: 0 <= i < j < |sp| ==> sp[i].songplay_id < sp[j].songplay_id)
  {
    SongplaysAreTheMatches(stamped, songs, alloc);
    NumberedSongplaysDistinctIds(SongJoin(stamped, songs), alloc);
  }

  /**
    Every songplay comes from a stamped record and a song with the same
    title, and carries their columns and the record's own year and month.
   */
  lemma SongplaysSound(stamped: seq<Stamped>, songs: seq<Song>, alloc: Allocator)
    requires forall s :: s in stamped ==> WellStamped(s)
    ensures forall x :: x in Songplays(stamped, songs, alloc) ==>
      exists e, s :: e in stamped && s in songs && TitleMatches(e.event, s) && Describes(x, e, s)
  {
    var m := SongJoin(stamped, songs);
    var sp := NumberedSongplays(m, alloc);
    SongplaysAreTheMatches(stamped, songs, alloc);
    NumberedSongplaysDescribe(m, alloc);
    forall x | x in sp
      ensures exists e, s :: e in stamped && s in songs && TitleMatches(e.event, s) && Describes(x, e, s)
    {
      var i :| 0 <= i < |sp| && sp[i] == x;
      var p := m[i];
      assert p in m;
      assert Describes(x, p.event, p.song);
    }
  }

  /** Every stamped record and song with the same title give a songplay. */
  lemma SongplaysComplete(stamped: seq<Stamped>, songs: seq<Song>, alloc: Allocator)
    requires forall s :: s in stamped ==> WellStamped(s)
    ensures forall e, s :: e in stamped && s in songs && TitleMatches(e.event, s) ==>
      exists x :: x in Songplays(stamped, songs, alloc) && Describes(x, e, s)
  {
    var m := SongJoin(stamped, songs);
    var sp := NumberedSongplays(m, alloc);
    SongplaysAreTheMatches(stamped, songs, alloc);
    NumberedSongplaysDescribe(m, alloc);
    forall e, s | e in stamped && s in songs && TitleMatches(e.event, s)
      ensures exists x :: x in sp && Describes(x, e, s)
    {
      assert Play(e, s) in m;
      var i :| 0 <= i < |m| && m[i] == Play(e, s);
      assert sp[i] in sp;
    }
  }

  /** The time table has exactly one row with the songplay's start_time, and that row has its year and month. */
  predicate MeetsOneTimeRow(x: Songplay, time: seq<TimeRow>) {
    exists k :: 0 <= k < |time| && time[k].start_time == x.start_time
      && time[k].year == x.year && time[k].month == x.month
      && (forall j :: 0 <= j < |time| && time[j].start_time == x.start_time ==> j == k)
  }

  lemma SongplaysMeetOneTimeRow(stamped: seq<Stamped>, songs: seq<Song>, alloc: Allocator)
    requires forall s :: s in stamped ==> WellStamped(s)
    ensures forall x :: x in Songplays(stamped, songs, alloc) ==> MeetsOneTimeRow(x, TimeTable(stamped))
  {
    var time := TimeTable(stamped);
    TimeTableKeyedOnStart(stamped);
    SongplaysSound(stamped, songs, alloc);
    forall x | x in Songplays(stamped, songs, alloc) ensures MeetsOneTimeRow(x, time) {
      var e, s :| e in stamped && s in songs && TitleMatches(e.event, s) && Describes(x, e, s);
      assert HasStart(time, e.start_time);
      var k :| 0 <= k < |time| && time[k].start_time == e.start_time;
      assert time[k] in time;
    }
  }

  lemma {:induction false} JoinOneUnmatched(x: Stamped, songs: seq<Song>)
    requires forall s :: s in songs ==> !TitleMatches(x.event, s)
    ensures JoinOne(x, songs) == []
  {
    if songs != [] {
      var p := songs[..|songs| - 1];
      assert songs == p + [songs[|songs| - 1]];
      JoinOneUnmatched(x, p);
    }
  }

  lemma SongJoinUnmatched(stamped: seq<Stamped>, x: Stamped, songs: seq<Song>)
    requires forall s :: s in songs ==> !TitleMatches(x.event, s)
    ensures SongJoin(stamped + [x], songs) == SongJoin(stamped, songs)
  {
    assert (stamped + [x])[..|stamped|] == stamped;
    JoinOneUnmatched(x, songs);
    assert SongJoin(stamped + [x], songs) == SongJoin(stamped, songs) + JoinOne(x, songs);
  }

  /** The song join distributes over concatenation of the log. */
  lemma {:induction false} SongJoinConcat(a: seq<Stamped>, b: seq<Stamped>, songs: seq<Song>)
    ensures SongJoin(a + b, songs) == SongJoin(a, songs) + SongJoin(b, songs)
  {
    if b != [] {
      var p, x := b[..|b| - 1], b[|b| - 1];
      assert (a + b)[..|a + b| - 1] == a + p;
      assert (a + b)[|a + b| - 1] == x;
      SongJoinConcat(a, p, songs);
    } else {
      assert a + b == a;
    }
  }

  lemma SongJoinWithoutUnmatched(before: seq<Stamped>, x: Stamped, after: seq<Stamped>, songs: seq<Song>)
    requires forall s :: s in songs ==> !TitleMatches(x.event, s)
    ensures SongJoin(before + [x] + after, songs) == SongJoin(before + after, songs)
  {
    SongJoinUnmatched([], x, songs);
    assert [] + [x] == [x];
    SongJoinConcat(before, [x], songs);
    SongJoinConcat(before + [x], after, songs);
    SongJoinConcat(before, after, songs);
  }

  /** A stamped record whose title matches no song adds no songplay, wherever it stands in the log. */
  lemma UnmatchedRecordAddsNoSongplay(before: seq<Stamped>, x: Stamped, after: seq<Stamped>, songs: seq<Song>, alloc: Allocator)
    requires forall s :: s in before ==> WellStamped(s)
    requires forall s :: s in after ==> WellStamped(s)
    requires WellStamped(x)
    requires forall s :: s in songs ==> !TitleMatches(x.event, s)
    ensures Songplays(before + [x] + after, songs, alloc) == Songplays(before + after, songs, alloc)
  {
    var with, without := before + [x] + after, before + after;
    forall s | s in with ensures WellStamped(s) {
      assert s in before || s == x || s in after;
    }
    forall s | s in without ensures WellStamped(s) {
      assert s in before || s in after;
    }
    SongplaysAreTheMatches(with, songs, alloc);
    SongplaysAreTheMatches(without, songs, alloc);
    SongJoinWithoutUnmatched(before, x, after, songs);
  }

  /** The time table and the songplays table of one run. */
  datatype LogTables = LogTables(time: seq<TimeRow>, songplays: seq<Songplay>)

  /**
    The users table does not depend on the udf; the time and songplays tables
    need `start_time`, and fail with the udf's error.
   */
  datatype LogOutput = LogOutput(users: seq<User>, tables: Result<LogTables, UdfError>)

  /** `process_log_data` without the reads and writes, given the songs table. */
  function ProcessLogData(raw: seq<Event>, songs: seq<Song>, alloc: Allocator): LogOutput {
    var df := NextSongEvents(raw);
    var users := UsersTable(df);
    match WithStartTime(df)
    case Failure(err) => LogOutput(users, Failure(err))
    case Success(stamped) => LogOutput(users, Success(LogTables(TimeTable(stamped), Songplays(stamped, songs, alloc))))
  }

  /** Only the NextSong records of the log decide any of the three tables. */
  lemma ProcessLogDataSeesOnlyNextSongs(raw: seq<Event>, songs: seq<Song>, alloc: Allocator)
    ensures ProcessLogData(Filter(raw, IsNextSong), songs, alloc) == ProcessLogData(raw, songs, alloc)
  {
    NextSongEventsOnlySeeNextSongs(raw);
  }

  /** A record with another page, wherever it sits in the log, contributes no row to any table. */
  lemma OtherPageContributesNothing(before: seq<Event>, e: Event, after: seq<Event>, songs: seq<Song>, alloc: Allocator)
    requires !IsNextSong(e)
    ensures ProcessLogData(before + [e] + after, songs, alloc) == ProcessLogData(before + after, songs, alloc)
  {
    FilterConcat(before + [e], after, IsNextSong);
    FilterConcat(before, [e], IsNextSong);
    FilterConcat(before, after, IsNextSong);
    FilterSnoc([], IsNextSong, e);
    assert [] + [e] == [e];
    ProcessLogDataSeesOnlyNextSongs(before + [e] + after, songs, alloc);
    ProcessLogDataSeesOnlyNextSongs(before + after, songs, alloc);
  }

  /** The time and songplays tables fail exactly when the udf fails on some NextSong record, with its error. */
  lemma ProcessLogDataFails(raw: seq<Event>, songs: seq<Song>, alloc: Allocator)
    ensures var out := ProcessLogData(raw, songs, alloc);
      out.tables.Failure? <==> exists e :: e in raw && IsNextSong(e) && !InUdfRange(e.ts)
    ensures var out := ProcessLogData(raw, songs, alloc);
      out.tables.Failure? ==> exists e :: e in raw && IsNextSong(e) && GetTimestamp(e.ts) == Failure(out.tables.error)
    ensures ProcessLogData(raw, songs, alloc).users == UsersTable(NextSongEvents(raw))
  {
    var df := NextSongEvents(raw);
    var r := WithStartTime(df);
    if r.Failure? {
      var e :| e in df && GetTimestamp(e.ts) == Failure(r.error);
    }
  }

  /** The stamped log holds exactly the records of the log, each well stamped. */
  lemma StampedRecordsSound(df: seq<Event>, stamped: seq<Stamped>)
    requires WithStartTime(df) == Success(stamped)
    ensures forall x :: x in stamped ==> x.event in df && WellStamped(x)
  {
    forall x | x in stamped ensures x.event in df && WellStamped(x) {
      var i :| 0 <= i < |stamped| && stamped[i] == x;
      assert df[i] == x.event;
    }
  }

  lemma StampedRecordsComplete(df: seq<Event>, stamped: seq<Stamped>)
    requires WithStartTime(df) == Success(stamped)
    ensures forall e :: e in df ==> exists x :: x in stamped && x.event == e
  {
    forall e | e in df ensures exists x :: x in stamped && x.event == e {
      var i :| 0 <= i < |df| && df[i] == e;
      assert stamped[i] in stamped;
    }
  }

  /** `x` is the songplay of log record `e` and song `s`: its start_time is what the udf makes of e's ts. */
  predicate SongplayOfRecord(x: Songplay, e: Event, s: Song) {
    WellStamped(Stamped(e, x.start_time)) && Describes(x, Stamped(e, x.start_time), s)
  }

  /**
    When the run succeeds, every songplay comes from a NextSong record of the
    log and a song of the same title.
   */
  lemma ProcessLogDataSongplaysSound(raw: seq<Event>, songs: seq<Song>, alloc: Allocator)
    requires ProcessLogData(raw, songs, alloc).tables.Success?
    ensures forall x :: x in ProcessLogData(raw, songs, alloc).tables.value.songplays ==>
      exists e, s :: e in raw && IsNextSong(e) && s in songs && TitleMatches(e, s) && SongplayOfRecord(x, e, s)
  {
    var df := NextSongEvents(raw);
    var stamped := WithStartTime(df).value;
    StampedRecordsSound(df, stamped);
    SongplaysSound(stamped, songs, alloc);
    forall x | x in Songplays(stamped, songs, alloc)
      ensures exists e, s :: e in raw && IsNextSong(e) && s in songs && TitleMatches(e, s) && SongplayOfRecord(x, e, s)
    {
      var st, s :| st in stamped && s in songs && TitleMatches(st.event, s) && Describes(x, st, s);
      assert st == Stamped(st.event, x.start_time);
    }
  }

  /**
    When the run succeeds, every NextSong record of the log and every song of
    the same title give a songplay.
   */
  lemma ProcessLogDataSongplaysComplete(raw: seq<Event>, songs: seq<Song>, alloc: Allocator)
    requires ProcessLogData(raw, songs, alloc).tables.Success?
    ensures forall e, s :: e in raw && IsNextSong(e) && s in songs && TitleMatches(e, s) ==>
      exists x :: x in ProcessLogData(raw, songs, alloc).tables.value.songplays && SongplayOfRecord(x, e, s)
  {
    var df := NextSongEvents(raw);
    var stamped := WithStartTime(df).value;
    StampedRecordsSound(df, stamped);
    StampedRecordsComplete(df, stamped);
    SongplaysComplete(stamped, songs, alloc);
    forall e, s | e in raw && IsNextSong(e) && s in songs && TitleMatches(e, s)
      ensures exists x :: x in Songplays(stamped, songs, alloc) && SongplayOfRecord(x, e, s)
    {
      var st :| st in stamped && st.event == e;
      var x :| x in Songplays(stamped, songs, alloc) && Describes(x, st, s);
      assert st == Stamped(e, x.start_time);
    }
  }

  /** When the run succeeds, every time row is the UTC decomposition of some NextSong record's ts. */
  lemma ProcessLogDataTimeRows(raw: seq<Event>, songs: seq<Song>, alloc: Allocator)
    requires ProcessLogData(raw, songs, alloc).tables.Success?
    ensures forall t :: t in ProcessLogData(raw, songs, alloc).tables.value.time ==>
      TimeRowFacts(t) && exists e :: e in raw && IsNextSong(e) && e.ts == t.ts
  {
    var df := NextSongEvents(raw);
    var stamped := WithStartTime(df).value;
    StampedRecordsSound(df, stamped);
    TimeTableFacts(stamped);
    forall t | t in TimeTable(stamped) ensures exists e :: e in raw && IsNextSong(e) && e.ts == t.ts {
      var x :| x in stamped && t.ts == x.event.ts && t.start_time == x.start_time;
      assert x.event in df;
    }
  }

  /** When the run succeeds, every songplay meets exactly one time row, with its year and month. */
  lemma ProcessLogDataSongplaysMeetTime(raw: seq<Event>, songs: seq<Song>, alloc: Allocator)
    requires ProcessLogData(raw, songs, alloc).tables.Success?
    ensures var tables := ProcessLogData(raw, songs, alloc).tables.value;
      forall x :: x in tables.songplays ==> MeetsOneTimeRow(x, tables.time)
  {
    var df := NextSongEvents(raw);
    var stamped := WithStartTime(df).value;
    StampedRecordsSound(df, stamped);
    SongplaysMeetOneTimeRow(stamped, songs, alloc);
  }

  /** The song_id and artist_id of a songplay are those of one row of the songs table. */
  predicate FromSongRow(x: Songplay, songs: seq<Song>) {
    exists s :: s in songs && x.song_id == s.song_id && x.artist_id == s.artist_id
  }

  lemma ProcessLogDataSongplaysFromSongRows(raw: seq<Event>, songs: seq<Song>, alloc: Allocator)
    requires ProcessLogData(raw, songs, alloc).tables.Success?
    ensures forall x :: x in ProcessLogData(raw, songs, alloc).tables.value.songplays ==> FromSongRow(x, songs)
  {
    ProcessLogDataSongplaysSound(raw, songs, alloc);
    forall x | x in ProcessLogData(raw, songs, alloc).tables.value.songplays ensures FromSongRow(x, songs) {
      var e, s :| e in raw && IsNextSong(e) && s in songs && TitleMatches(e, s) && SongplayOfRecord(x, e, s);
    }
  }

  /** None of the three tables holds a row twice. */
  lemma ProcessLogDataNoDuplicateRows(raw: seq<Event>, songs: seq<Song>, alloc: Allocator)
    ensures NoDuplicates(ProcessLogData(raw, songs, alloc).users)
    ensures var out := ProcessLogData(raw, songs, alloc);
      out.tables.Success? ==> NoDuplicates(out.tables.value.time) && NoDuplicates(out.tables.value.songplays)
  {
  }

  /** Two songs tables with the same rows, row by row, whatever their ids. */
  predicate SameSongRows(s1: seq<Song>, s2: seq<Song>) {
    |s1| == |s2| && forall i :: 0 <= i < |s1| ==> KeyOf(s1[i]) == KeyOf(s2[i])
  }

  /** A joined row without the song's surrogate id. */
  function PlayKey(p: Play): (Stamped, SongKey) {
    (p.event, KeyOf(p.song))
  }

  /** A songplay row without its two surrogate ids. */
  function WithoutIds(x: Songplay): Songplay {
    x.(songplay_id := 0, song_id := 0)
  }

  lemma {:induction false} JoinOneIgnoresIds(x: Stamped, s1: seq<Song>, s2: seq<Song>)
    requires SameSongRows(s1, s2)
    ensures Select(JoinOne(x, s1), PlayKey) == Select(JoinOne(x, s2), PlayKey)
  {
    if s1 != [] {
      var n := |s1|;
      var p1, p2 := s1[..n - 1], s2[..n - 1];
      assert SameSongRows(p1, p2) by {
        forall i | 0 <= i < n - 1 ensures KeyOf(p1[i]) == KeyOf(p2[i]) {
          assert p1[i] == s1[i] && p2[i] == s2[i];
        }
      }
      JoinOneIgnoresIds(x, p1, p2);
      JoinOneKeysSnoc(x, s1);
      JoinOneKeysSnoc(x, s2);
      assert KeyOf(s1[n - 1]) == KeyOf(s2[n - 1]);
    }
  }

  /** The keys JoinOne adds for the last song row: its pair, when its title matches. */
  lemma JoinOneKeysSnoc(x: Stamped, songs: seq<Song>)
    requires songs != []
    ensures var a := songs[|songs| - 1];
      Select(JoinOne(x, songs), PlayKey)
      == Select(JoinOne(x, songs[..|songs| - 1]), PlayKey)
         + (if TitleMatches(x.event, a) then [(x, KeyOf(a))] else [])
  {
    var a := songs[|songs| - 1];
    if TitleMatches(x.event, a) {
      SelectSnoc(JoinOne(x, songs[..|songs| - 1]), PlayKey, Play(x, a));
    }
  }

  /** The song join does not look at song ids: with the same song rows it joins the same pairs. */
  lemma {:induction false} SongJoinIgnoresIds(df: seq<Stamped>, s1: seq<Song>, s2: seq<Song>)
    requires SameSongRows(s1, s2)
    ensures Select(SongJoin(df, s1), PlayKey) == Select(SongJoin(df, s2), PlayKey)
  {
    if df != [] {
      var p, x := df[..|df| - 1], df[|df| - 1];
      SongJoinIgnoresIds(p, s1, s2);
      JoinOneIgnoresIds(x, s1, s2);
      SelectConcat(SongJoin(p, s1), JoinOne(x, s1), PlayKey);
      SelectConcat(SongJoin(p, s2), JoinOne(x, s2), PlayKey);
    }
  }

  lemma NumberedSongplaysIgnoreIds(m1: seq<Play>, m2: seq<Play>, a: Allocator, b: Allocator)
    requires Select(m1, PlayKey) == Select(m2, PlayKey)
    ensures Select(NumberedSongplays(m1, a), WithoutIds) == Select(NumberedSongplays(m2, b), WithoutIds)
  {
    assert |m1| == |Select(m1, PlayKey)|;
    var sp1, sp2 := NumberedSongplays(m1, a), NumberedSongplays(m2, b);
    forall i | 0 <= i < |m1| ensures WithoutIds(sp1[i]) == WithoutIds(sp2[i]) {
      assert PlayKey(m1[i]) == Select(m1, PlayKey)[i] == PlayKey(m2[i]);
    }
  }

  /**
    Which ids the allocators hand out changes no songplay but for its two
    ids: against songs tables with the same rows, the songplays agree row by
    row once the ids are set aside.
   */
  lemma SongplaysIgnoreIds(stamped: seq<Stamped>, s1: seq<Song>, s2: seq<Song>, a: Allocator, b: Allocator)
    requires forall s :: s in stamped ==> WellStamped(s)
    requires SameSongRows(s1, s2)
    ensures Select(Songplays(stamped, s1, a), WithoutIds) == Select(Songplays(stamped, s2, b), WithoutIds)
  {
    SongplaysAreTheMatches(stamped, s1, a);
    SongplaysAreTheMatches(stamped, s2, b);
    SongJoinIgnoresIds(stamped, s1, s2);
    NumberedSongplaysIgnoreIds(SongJoin(stamped, s1), SongJoin(stamped, s2), a, b);
  }
}
