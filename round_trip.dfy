/**
 * What the readers recover from the bytes `TemplightProtobufWriter` writes.
 *
 * The older reader gets back the header, and from each Begin its kind, name,
 * time stamp and memory, and from each End everything. Its location layout
 * is not the writer's: it takes field 2 (the writer's file id) as the line
 * and field 3 (the writer's line) as the column, ignores the column, and
 * sees the file name only where the writer inlined it.
 */
module RoundTrip {

  import opened ThinProtobuf
  import opened Entries
  import opened ProtobufWriter
  import V1 = ReaderV1

  /** Names short enough that every frame stays below 4 GiB. */
  predicate ShortNames(e: Begin)
  {
    |e.name| < 0x1000_0000 && |e.fileName| < 0x1000_0000
  }

  /** The file id a location gets: its recorded id, or the next one. */
  function FileId(fileNameMap: map<Bytes, nat>, fileName: Bytes): nat
  {
    if fileName in fileNameMap then fileNameMap[fileName] else |fileNameMap|
  }

  lemma LocationSize(fileNameMap: map<Bytes, nat>, e: Begin)
    requires FileTableValid(fileNameMap) && |fileNameMap| < TWO_31 && ShortNames(e)
    ensures |LocationContents(fileNameMap, e.fileName, e.line, e.column)| <= 80 + |e.fileName|
    ensures FileId(fileNameMap, e.fileName) < TWO_31
  {
    FieldSizes(1, FileId(fileNameMap, e.fileName), e.fileName, ZERO_DOUBLE);
    FieldSizes(3, ToUInt64(e.line), [], ZERO_DOUBLE);
    FieldSizes(4, ToUInt64(e.column), [], ZERO_DOUBLE);
  }

  lemma BeginSize(fileNameMap: map<Bytes, nat>, e: Begin)
    requires FileTableValid(fileNameMap) && |fileNameMap| < TWO_31 && ShortNames(e) && ValidBegin(e)
    ensures |BeginContents(e, LocationContents(fileNameMap, e.fileName, e.line, e.column))|
            <= 200 + |e.name| + |e.fileName|
  {
    var loc := LocationContents(fileNameMap, e.fileName, e.line, e.column);
    LocationSize(fileNameMap, e);
    FieldSizes(1, ToUInt64(e.kind), e.name, e.timeStamp);
    FieldSizes(3, e.memory, loc, e.timeStamp);
    FieldSizes(5, e.memory, [], e.timeStamp);
  }

  // ---------------------------------------------------------------------
  // The older reader

  /** `initialize`'s frame reads back as version 1 and the source name. */
  lemma HeaderReadV1(sourceName: Bytes, rest: Bytes, s: V1.ReaderState)
    requires |sourceName| < 0x1000_0000
    ensures V1.NextState(s.(buffer := HeaderFrame(sourceName) + rest))
            == s.(buffer := rest, lastChunk := V1.Header, version := 1, sourceName := sourceName)
  {
    var tail := if sourceName == [] then [] else FieldString(2, sourceName);
    FieldSizes(2, 1, sourceName, ZERO_DOUBLE);
    FieldSizes(1, 1, [], ZERO_DOUBLE);
    FrameRead(1, HeaderContents(sourceName), rest);
    FieldVarIntRead(1, 1, tail);
    ModSmall(VarIntWire(1), TWO_32);
    if sourceName != [] {
      FieldStringRead(2, sourceName, []);
      ModSmall(StringWire(2), TWO_32);
      assert FieldString(2, sourceName) + [] == FieldString(2, sourceName);
      assert V1.HeaderFields(tail, 1, []) == (1, sourceName);
    }
  }

  /** How each written location field moves the older reader's loop on. */
  lemma LocationStepsV1(name: Bytes, u: nat, rest: Bytes, f: Bytes, l: int, c: int)
    requires |name| < TWO_32 && u < TWO_64
    ensures V1.LocationFields(FieldString(1, name) + rest, f, l, c) == V1.LocationFields(rest, name, l, c)
    ensures V1.LocationFields(FieldVarInt(2, u) + rest, f, l, c) == V1.LocationFields(rest, f, ToInt32(u), c)
    ensures V1.LocationFields(FieldVarInt(3, u) + rest, f, l, c) == V1.LocationFields(rest, f, l, ToInt32(u))
    ensures V1.LocationFields(FieldVarInt(4, u) + rest, f, l, c) == V1.LocationFields(rest, f, l, c)
  {
    FieldStringRead(1, name, rest);
    ModSmall(StringWire(1), TWO_32);
    FieldVarIntRead(2, u, rest);
    ModSmall(VarIntWire(2), TWO_32);
    FieldVarIntRead(3, u, rest);
    ModSmall(VarIntWire(3), TWO_32);
    FieldVarIntRead(4, u, rest);
    ModSmall(VarIntWire(4), TWO_32);
    SkipVarIntExact(u, rest);
  }

  /** The id, line and column fields of a written location, as the older
      reader sees them: the id lands in the line, the line in the column. */
  lemma LocationTailV1(name: Bytes, id: nat, line: int, column: int)
    requires id < TWO_31 && IsInt32(line)
    ensures V1.LocationFields(FieldVarInt(2, id) + (FieldVarInt(3, ToUInt64(line)) + FieldVarInt(4, ToUInt64(column))), name, 0, 0)
            == (name, id, line)
  {
    var lineField := FieldVarInt(3, ToUInt64(line));
    var columnField := FieldVarInt(4, ToUInt64(column));
    Int32RoundTrip(line);
    ModSmall(id, TWO_32);
    assert ToInt32(id) == id;
    LocationStepsV1([], ToUInt64(column), [], name, id, line);
    assert columnField + [] == columnField;
    LocationStepsV1([], ToUInt64(line), columnField, name, id, 0);
    LocationStepsV1([], id, lineField + columnField, name, 0, 0);
  }

  /** One written location as the older reader sees it. */
  lemma LocationReadV1(fileNameMap: map<Bytes, nat>, e: Begin)
    requires FileTableValid(fileNameMap) && |fileNameMap| < TWO_31 && ShortNames(e) && ValidBegin(e)
    ensures V1.Location(LocationContents(fileNameMap, e.fileName, e.line, e.column))
            == (if e.fileName in fileNameMap then [] else e.fileName, FileId(fileNameMap, e.fileName), e.line)
  {
    var id := FileId(fileNameMap, e.fileName);
    LocationSize(fileNameMap, e);
    var tail := FieldVarInt(3, ToUInt64(e.line)) + FieldVarInt(4, ToUInt64(e.column));
    if e.fileName in fileNameMap {
      assert LocationContents(fileNameMap, e.fileName, e.line, e.column) == FieldVarInt(2, id) + tail;
      LocationTailV1([], id, e.line, e.column);
    } else {
      assert LocationContents(fileNameMap, e.fileName, e.line, e.column)
          == FieldString(1, e.fileName) + (FieldVarInt(2, id) + tail);
      LocationStepsV1(e.fileName, 0, FieldVarInt(2, id) + tail, [], 0, 0);
      LocationTailV1(e.fileName, id, e.line, e.column);
    }
  }

  /** How each written Begin field moves the older reader's loop on. */
  lemma BeginScalarStepsV1(u: nat, d: Fixed64, rest: Bytes, e: Begin)
    requires u < TWO_64
    ensures V1.BeginFields(FieldVarInt(1, u) + rest, e) == V1.BeginFields(rest, e.(kind := ToInt32(u)))
    ensures V1.BeginFields(FieldDouble(4, d) + rest, e) == V1.BeginFields(rest, e.(timeStamp := d))
    ensures V1.BeginFields(FieldVarInt(5, u) + rest, e) == V1.BeginFields(rest, e.(memory := u))
  {
    FieldVarIntRead(1, u, rest);
    ModSmall(VarIntWire(1), TWO_32);
    FieldDoubleRead(4, d, rest);
    ModSmall(DoubleWire(4), TWO_32);
    FieldVarIntRead(5, u, rest);
    ModSmall(VarIntWire(5), TWO_32);
  }

  lemma BeginStringStepsV1(s: Bytes, rest: Bytes, e: Begin)
    requires |s| < TWO_32
    ensures V1.BeginFields(FieldString(2, s) + rest, e) == V1.BeginFields(rest, e.(name := s))
    ensures V1.BeginFields(FieldString(3, s) + rest, e)
            == V1.BeginFields(rest, e.(fileName := V1.Location(s).0, line := V1.Location(s).1, column := V1.Location(s).2))
  {
    FieldStringRead(2, s, rest);
    ModSmall(StringWire(2), TWO_32);
    FrameRead(3, s, rest);
  }

  lemma BeginHeadV1(kind: int, name: Bytes, tail: Bytes, e: Begin)
    requires IsInt32(kind) && |name| < TWO_32
    ensures V1.BeginFields(FieldVarInt(1, ToUInt64(kind)) + (FieldString(2, name) + tail), e)
            == V1.BeginFields(tail, e.(kind := kind, name := name))
  {
    Int32RoundTrip(kind);
    BeginStringStepsV1(name, tail, e.(kind := kind));
    BeginScalarStepsV1(ToUInt64(kind), ZERO_DOUBLE, FieldString(2, name) + tail, e);
  }

  lemma BeginTailV1(loc: Bytes, timeStamp: Fixed64, memory: nat, e: Begin)
    requires |loc| < TWO_32 && memory < TWO_64 && e.memory == 0
    ensures V1.BeginFields(FieldString(3, loc) + (FieldDouble(4, timeStamp)
              + (if memory > 0 then FieldVarInt(5, memory) else [])), e)
            == e.(fileName := V1.Location(loc).0, line := V1.Location(loc).1, column := V1.Location(loc).2,
                  timeStamp := timeStamp, memory := memory)
  {
    var memoryField := if memory > 0 then FieldVarInt(5, memory) else [];
    var e3 := e.(fileName := V1.Location(loc).0, line := V1.Location(loc).1, column := V1.Location(loc).2);
    var e4 := e3.(timeStamp := timeStamp);
    if memory > 0 {
      BeginScalarStepsV1(memory, timeStamp, [], e4);
      assert memoryField + [] == memoryField;
    }
    assert V1.BeginFields(memoryField, e4) == e4.(memory := memory);
    BeginScalarStepsV1(0, timeStamp, memoryField, e3);
    BeginStringStepsV1(loc, FieldDouble(4, timeStamp) + memoryField, e);
  }

  /** The fields of a Begin message, grouped from the right. */
  lemma BeginContentsNested(e: Begin, loc: Bytes)
    ensures var tail := FieldString(3, loc) + (FieldDouble(4, e.timeStamp)
                        + (if e.memory > 0 then FieldVarInt(5, e.memory) else []));
            BeginContents(e, loc) == FieldVarInt(1, ToUInt64(e.kind)) + (FieldString(2, e.name) + tail)
  {
    var a, b, c := FieldVarInt(1, ToUInt64(e.kind)), FieldString(2, e.name), FieldString(3, loc);
    var d, m := FieldDouble(4, e.timeStamp), if e.memory > 0 then FieldVarInt(5, e.memory) else [];
    AppendAssoc(a + b + c, d, m);
    AppendAssoc(a + b, c, d + m);
    AppendAssoc(a, b, c + (d + m));
  }

  /** A written Begin message, read by the older reader from a reset entry. */
  lemma BeginContentsReadV1(fileNameMap: map<Bytes, nat>, e: Begin, e0: Begin)
    requires FileTableValid(fileNameMap) && |fileNameMap| < TWO_31 && ShortNames(e) && ValidBegin(e)
    requires e0.memory == 0
    ensures V1.BeginFields(BeginContents(e, LocationContents(fileNameMap, e.fileName, e.line, e.column)), e0)
            == e0.(kind := e.kind, name := e.name,
                   fileName := if e.fileName in fileNameMap then [] else e.fileName,
                   line := FileId(fileNameMap, e.fileName), column := e.line,
                   timeStamp := e.timeStamp, memory := e.memory)
  {
    var loc := LocationContents(fileNameMap, e.fileName, e.line, e.column);
    LocationSize(fileNameMap, e);
    LocationReadV1(fileNameMap, e);
    var tail := FieldString(3, loc) + (FieldDouble(4, e.timeStamp)
                + (if e.memory > 0 then FieldVarInt(5, e.memory) else []));
    BeginContentsNested(e, loc);
    BeginHeadV1(e.kind, e.name, tail, e0);
    BeginTailV1(loc, e.timeStamp, e.memory, e0.(kind := e.kind, name := e.name));
  }

  /** The older reader reads a Begin frame as written, except for the
      location: the file name only where it was inlined, the file id as the
      line and the line as the column. */
  lemma BeginReadV1(fileNameMap: map<Bytes, nat>, e: Begin, rest: Bytes, s: V1.ReaderState)
    requires FileTableValid(fileNameMap) && |fileNameMap| < TWO_31 && ShortNames(e) && ValidBegin(e)
    ensures V1.NextState(s.(buffer := BeginFrame(fileNameMap, e) + rest))
            == s.(buffer := rest, lastChunk := V1.BeginEntry,
                  lastBegin := s.lastBegin.(kind := e.kind, name := e.name,
                    fileName := if e.fileName in fileNameMap then [] else e.fileName,
                    line := FileId(fileNameMap, e.fileName), column := e.line,
                    timeStamp := e.timeStamp, memory := e.memory))
  {
    var contents := BeginContents(e, LocationContents(fileNameMap, e.fileName, e.line, e.column));
    BeginSize(fileNameMap, e);
    FieldSizes(1, 0, contents, ZERO_DOUBLE);
    V1.EntryFrameDispatch(1, contents, rest, s);
    BeginContentsReadV1(fileNameMap, e, V1.ResetBegin(s.lastBegin));
  }

  /** The older reader reads an End frame exactly as written. */
  lemma EndReadV1(e: End, rest: Bytes, s: V1.ReaderState)
    requires ValidEnd(e)
    ensures V1.NextState(s.(buffer := EndFrame(e) + rest))
            == s.(buffer := rest, lastChunk := V1.EndEntry, lastEnd := e)
  {
    var memoryField := if e.memory > 0 then FieldVarInt(2, e.memory) else [];
    FieldSizes(1, e.memory, [], e.timeStamp);
    FieldSizes(2, e.memory, [], e.timeStamp);
    FieldSizes(2, 0, EndContents(e), ZERO_DOUBLE);
    V1.EntryFrameDispatch(2, EndContents(e), rest, s);
    if e.memory > 0 {
      FieldVarIntRead(2, e.memory, []);
      ModSmall(VarIntWire(2), TWO_32);
      assert memoryField + [] == memoryField;
      assert EncodeVarInt(e.memory) + [] == EncodeVarInt(e.memory);
    }
    assert V1.EndFields(memoryField, EMPTY_END.(timeStamp := e.timeStamp)) == e;
    FieldDoubleRead(1, e.timeStamp, memoryField);
    ModSmall(DoubleWire(1), TWO_32);
  }

  /** A trace as `dumpOnStream` writes it opens with its header: the older
      reader reports version 1 and the source name, with the trace's entry
      frames next in line and the bytes after the trace kept for later. */
  lemma DumpedTraceOpensV1(sourceName: Bytes, entries: Bytes, more: Bytes, s: V1.ReaderState)
    requires |sourceName| < 0x1000_0000 && |HeaderFrame(sourceName) + entries| < TWO_32
    ensures V1.StartState(FieldString(1, HeaderFrame(sourceName) + entries) + more, s)
            == s.(buffer := entries, remainder := more, lastChunk := V1.Header,
                  version := 1, sourceName := sourceName)
  {
    V1.StartOnTrace(HeaderFrame(sourceName) + entries, more, s);
    HeaderReadV1(sourceName, entries, s.(remainder := more));
  }
}
