/**
  The fixed schema catalog records are read with (`song_schema`) and what
  reading a JSON record under it yields: one typed, nullable column per
  schema field, NULL wherever the key is missing, holds JSON null, or holds a
  token the declared type does not accept.
 */
module Schema {
  import opened Wrappers

  /** A JSON value as the reader tokenises it; these records hold no nested objects or arrays. */
  datatype Json = JNull | JBool(b: bool) | JInt(i: int) | JFloat(x: real) | JString(s: string)

  type JsonObject = map<string, Json>

  datatype FieldType = StringType | DoubleType | IntegerType

  datatype StructField = StructField(name: string, dataType: FieldType)

  /** `song_schema`, in declaration order. */
  const SongSchema: seq<StructField> := [
    StructField("artist_id", StringType),
    StructField("artist_latitude", DoubleType),
    StructField("artist_location", StringType),
    StructField("artist_longitude", DoubleType),
    StructField("artist_name", StringType),
    StructField("duration", DoubleType),
    StructField("num_songs", IntegerType),
    StructField("title", StringType),
    StructField("year", IntegerType)
  ]

  /** A typed column value. Doubles are kept as exact reals and only compared for equality. */
  datatype Value = VString(s: string) | VDouble(x: real) | VInt(i: int)

  /** IntegerType is a signed 32-bit integer. */
  const IntegerMin := -0x8000_0000
  const IntegerMax := 0x7fff_ffff

  predicate FitsInteger(i: int) {
    IntegerMin <= i <= IntegerMax
  }

  predicate HasType(v: Value, t: FieldType) {
    match t
    case StringType => v.VString?
    case DoubleType => v.VDouble?
    case IntegerType => v.VInt? && FitsInteger(v.i)
  }

  /** A decimal digit. */
  function DigitChar(d: int): char
    requires 0 <= d < 10
  {
    "0123456789"[d]
  }

  predicate AllDigits(s: string) {
    forall k :: 0 <= k < |s| ==> '0' <= s[k] <= '9'
  }

  /** The decimal text of a natural number, without leading zeros. */
  function NatText(n: nat): (s: string)
    ensures |s| >= 1 && AllDigits(s)
    decreases n
  {
    if n < 10 then [DigitChar(n)] else NatText(n / 10) + [DigitChar(n % 10)]
  }

  /** The JSON text of an integer token, as the reader copies it: an optional minus sign, then decimal digits. */
  function IntText(i: int): string {
    if i < 0 then "-" + NatText(-i) else NatText(i)
  }

  /** The value of a string of decimal digits. */
  function DigitsValue(s: string): nat
    requires AllDigits(s)
  {
    if s == [] then 0 else DigitsValue(s[..|s| - 1]) * 10 + (s[|s| - 1] - '0') as int
  }

  /** Reading decimal text back as an integer. */
  function ParseIntText(s: string): Option<int> {
    if |s| >= 2 && s[0] == '-' && AllDigits(s[1..]) then
      var magnitude: int := DigitsValue(s[1..]);
      Some(-magnitude)
    else if |s| >= 1 && AllDigits(s) then Some(DigitsValue(s))
    else None
  }

  lemma {:induction false} NatTextValue(n: nat)
    ensures DigitsValue(NatText(n)) == n
    decreases n
  {
    if n >= 10 {
      NatTextValue(n / 10);
      var t := NatText(n);
      assert t[..|t| - 1] == NatText(n / 10);
      assert t[|t| - 1] == DigitChar(n % 10);
    }
  }

  /** The text of an integer reads back as that integer, so distinct integers have distinct texts. */
  lemma IntTextRoundTrip(i: int)
    ensures ParseIntText(IntText(i)) == Some(i)
  {
    var s := IntText(i);
    if i < 0 {
      var t := NatText(-i);
      NatTextValue(-i);
      assert s == "-" + t;
      assert s[1..] == t;
    } else {
      NatTextValue(i);
      assert '0' <= s[0] <= '9';
      assert !(|s| >= 2 && s[0] == '-');
    }
  }

  /**
    One JSON token read under a declared type, as the JSON reader does from
    Spark 3.0 on. A StringType column takes a string token as it is and any
    other non-null token as its JSON text. A DoubleType column takes a
    number of either kind. An IntegerType column takes an integer that fits
    in 32 bits. Everything else reads as NULL, for that field alone.
   */
  function ReadToken(j: Json, t: FieldType): (r: Option<Value>)
    ensures r.Some? ==> j != JNull && HasType(r.value, t)
    ensures t == StringType ==> (r.Some? <==> j != JNull && !j.JFloat?)
    ensures t == StringType && j.JString? ==> r == Some(VString(j.s))
    ensures t == DoubleType ==> (r.Some? <==> j.JInt? || j.JFloat?)
    ensures t == DoubleType && r.Some? ==> r.value.x == if j.JInt? then j.i as real else j.x
    ensures t == IntegerType ==> (r.Some? <==> j.JInt? && FitsInteger(j.i))
    ensures t == IntegerType && r.Some? ==> r.value.i == j.i
  {
    match (j, t)
    case (JString(s), StringType) => Some(VString(s))
    case (JInt(i), StringType) => Some(VString(IntText(i)))
    case (JBool(b), StringType) => Some(VString(if b then "true" else "false"))
    case (JFloat(x), DoubleType) => Some(VDouble(x))
    case (JInt(i), DoubleType) => Some(VDouble(i as real))
    case (JInt(i), IntegerType) => if FitsInteger(i) then Some(VInt(i)) else None
    case _ => None
  }

  /** An integer token in a StringType column reads as text that parses back to the integer. */
  lemma ReadIntegerAsString(i: int)
    ensures ReadToken(JInt(i), StringType).Some?
    ensures ParseIntText(ReadToken(JInt(i), StringType).value.s) == Some(i)
  {
    IntTextRoundTrip(i);
  }

  /** One field of a record: NULL when its key is missing. */
  function ReadField(obj: JsonObject, f: StructField): Option<Value> {
    if f.name in obj then ReadToken(obj[f.name], f.dataType) else None
  }

  /** A record read with an explicit schema: its columns, in schema order. */
  function ReadRow(obj: JsonObject, schema: seq<StructField>): seq<Option<Value>> {
    seq(|schema|, i requires 0 <= i < |schema| => ReadField(obj, schema[i]))
  }

  /** The JSON token a column is written as; NULL becomes JSON null. */
  function ValueJson(v: Option<Value>): Json {
    match v
    case None => JNull
    case Some(VString(s)) => JString(s)
    case Some(VDouble(x)) => JFloat(x)
    case Some(VInt(i)) => JInt(i)
  }

  /** Reading a written column under its own type gives the column back. */
  lemma ReadTokenOfValueJson(v: Option<Value>, t: FieldType)
    requires v == None || HasType(v.value, t)
    ensures ReadToken(ValueJson(v), t) == v
  {
  }

  predicate NamesDistinct(schema: seq<StructField>) {
    forall i, j :: 0 <= i < j < |schema| ==> schema[i].name != schema[j].name
  }

  /** Every column is NULL or of its field's declared type. */
  predicate Conforms(row: seq<Option<Value>>, schema: seq<StructField>) {
    |row| == |schema| && forall i :: 0 <= i < |row| ==> row[i] == None || HasType(row[i].value, schema[i].dataType)
  }

  /** A row written as a JSON record, one key per schema field. */
  function WriteRow(row: seq<Option<Value>>, schema: seq<StructField>): JsonObject
    requires |row| == |schema| && NamesDistinct(schema)
  {
    map i | 0 <= i < |schema| :: schema[i].name := ValueJson(row[i])
  }

  /** Writing a conforming row and reading it back under the same schema is the identity. */
  lemma ReadRowOfWriteRow(row: seq<Option<Value>>, schema: seq<StructField>)
    requires NamesDistinct(schema) && Conforms(row, schema)
    ensures ReadRow(WriteRow(row, schema), schema) == row
  {
    var obj := WriteRow(row, schema);
    forall k | 0 <= k < |schema| ensures ReadField(obj, schema[k]) == row[k] {
      assert schema[k].name in obj;
      assert obj[schema[k].name] == ValueJson(row[k]);
      ReadTokenOfValueJson(row[k], schema[k].dataType);
    }
  }

  /** One catalog record after reading, its fields named and ordered as in `song_schema`. */
  datatype CatalogRecord = CatalogRecord(
    artist_id: Option<string>,
    artist_latitude: Option<real>,
    artist_location: Option<string>,
    artist_longitude: Option<real>,
    artist_name: Option<string>,
    duration: Option<real>,
    num_songs: Option<int>,
    title: Option<string>,
    year: Option<int>)

  function AsString(v: Option<Value>): Option<string> {
    if v.Some? && v.value.VString? then Some(v.value.s) else None
  }

  function AsDouble(v: Option<Value>): Option<real> {
    if v.Some? && v.value.VDouble? then Some(v.value.x) else None
  }

  function AsInteger(v: Option<Value>): Option<int> {
    if v.Some? && v.value.VInt? then Some(v.value.i) else None
  }

  /** `spark.read.json(song_data, schema=song_schema)`, for one record. */
  function ParseCatalog(obj: JsonObject): CatalogRecord {
    var row := ReadRow(obj, SongSchema);
    CatalogRecord(
      AsString(row[0]), AsDouble(row[1]), AsString(row[2]), AsDouble(row[3]),
      AsString(row[4]), AsDouble(row[5]), AsInteger(row[6]), AsString(row[7]),
      AsInteger(row[8]))
  }

  function StringColumn(v: Option<string>): Option<Value> {
    if v.Some? then Some(VString(v.value)) else None
  }

  function DoubleColumn(v: Option<real>): Option<Value> {
    if v.Some? then Some(VDouble(v.value)) else None
  }

  function IntegerColumn(v: Option<int>): Option<Value> {
    if v.Some? then Some(VInt(v.value)) else None
  }

  /** The columns of a record, in schema order. */
  function CatalogRow(r: CatalogRecord): seq<Option<Value>> {
    [StringColumn(r.artist_id), DoubleColumn(r.artist_latitude), StringColumn(r.artist_location),
     DoubleColumn(r.artist_longitude), StringColumn(r.artist_name), DoubleColumn(r.duration),
     IntegerColumn(r.num_songs), StringColumn(r.title), IntegerColumn(r.year)]
  }

  /** The typed record keeps every column the schema reads, each under its own name. */
  lemma CatalogRecordIsTheSchemaRow(obj: JsonObject)
    ensures CatalogRow(ParseCatalog(obj)) == ReadRow(obj, SongSchema)
  {
    var row := ReadRow(obj, SongSchema);
    forall i | 0 <= i < |SongSchema|
      ensures CatalogRow(ParseCatalog(obj))[i] == row[i]
    {
      assert row[i] == None || HasType(row[i].value, SongSchema[i].dataType);
    }
  }

  lemma SongSchemaNamesDistinct()
    ensures NamesDistinct(SongSchema)
  {
  }

  /** The JSON record a catalog record is written as; NULL fields become JSON null. */
  function CatalogJson(r: CatalogRecord): JsonObject {
    SongSchemaNamesDistinct();
    WriteRow(CatalogRow(r), SongSchema)
  }

  predicate IntegersFit(r: CatalogRecord) {
    (r.num_songs.Some? ==> FitsInteger(r.num_songs.value)) && (r.year.Some? ==> FitsInteger(r.year.value))
  }

  /** Reading back a written record gives the record, whenever its integers fit in 32 bits. */
  lemma ParseCatalogJson(r: CatalogRecord)
    requires IntegersFit(r)
    ensures ParseCatalog(CatalogJson(r)) == r
  {
    SongSchemaNamesDistinct();
    CatalogRowConforms(r);
    ReadRowOfWriteRow(CatalogRow(r), SongSchema);
  }

  lemma CatalogRowConforms(r: CatalogRecord)
    requires IntegersFit(r)
    ensures Conforms(CatalogRow(r), SongSchema)
  {
  }

  /** Keys outside the schema are ignored. */
  lemma ParseCatalogIgnoresOtherKeys(obj: JsonObject, key: string, v: Json)
    requires forall f :: f in SongSchema ==> f.name != key
    ensures ParseCatalog(obj[key := v]) == ParseCatalog(obj)
  {
    assert ReadRow(obj[key := v], SongSchema) == ReadRow(obj, SongSchema);
  }
}
