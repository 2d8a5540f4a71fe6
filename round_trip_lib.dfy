/**
 * What the newer reader recovers from the bytes `TemplightProtobufWriter`
 * writes. Its location layout is the writer's: with the file table kept
 * in step with the writer's (`Consistent`), every location reads back as
 * written and the tables stay in step. The writer puts a Begin's name in
 * field 2 as plain bytes, whereas the newer reader decodes field 2 as a
 * nested template-name message, so the name comes back as that decoding
 * of the bytes, not as the bytes themselves.
 */
module RoundTripLib {

  import opened ThinProtobuf
  import opened Entries
  import opened ProtobufWriter
  import opened RoundTrip
  import L = LibReader

  /** The reader's file table lists the writer's names by id. */
  ghost predicate Consistent(fileNameMap: map<Bytes, nat>, files: seq<Bytes>)
  {
    FileTableValid(fileNameMap) && |files| == |fileNameMap|
    && forall n | n in fileNameMap :: fileNameMap[n] < |files| && files[fileNameMap[n]] == n
  }

  /** The empty tables a trace starts with are consistent. */
  lemma ConsistentStart()
    ensures Consistent(map[], [])
  {
  }

  /** How each written location field moves the newer reader's loop on. */
  lemma LocationStepsLib(name: Bytes, u: nat, rest: Bytes, f: Bytes, id: nat, l: int, c: int)
    requires |name| < TWO_32 && u < TWO_64
    ensures L.LocationFields(FieldString(1, name) + rest, f, id, l, c) == L.LocationFields(rest, name, id, l, c)
    ensures L.LocationFields(FieldVarInt(2, u) + rest, f, id, l, c) == L.LocationFields(rest, f, u, l, c)
    ensures L.LocationFields(FieldVarInt(3, u) + rest, f, id, l, c) == L.LocationFields(rest, f, id, ToInt32(u), c)
    ensures L.LocationFields(FieldVarInt(4, u) + rest, f, id, l, c) == L.LocationFields(rest, f, id, l, ToInt32(u))
  {
    FieldStringRead(1, name, rest);
    ModSmall(StringWire(1), TWO_32);
    FieldVarIntRead(2, u, rest);
    ModSmall(VarIntWire(2), TWO_32);
    FieldVarIntRead(3, u, rest);
    ModSmall(VarIntWire(3), TWO_32);
    FieldVarIntRead(4, u, rest);
    ModSmall(VarIntWire(4), TWO_32);
  }

  /** The id, line and column fields of a written location. */
  lemma LocationTailLib(name: Bytes, id: nat, line: int, column: int)
    requires id < TWO_31 && IsInt32(line) && IsInt32(column)
    ensures L.LocationFields(FieldVarInt(2, id) + (FieldVarInt(3, ToUInt64(line)) + FieldVarInt(4, ToUInt64(column))),
                             name, L.NO_FILE_ID, 0, 0)
            == (name, id, line, column)
  {
    var lineField := FieldVarInt(3, ToUInt64(line));
    var columnField := FieldVarInt(4, ToUInt64(column));
    Int32RoundTrip(line);
    Int32RoundTrip(column);
    LocationStepsLib([], ToUInt64(column), [], name, id, line, 0);
    assert columnField + [] == columnField;
    LocationStepsLib([], ToUInt64(line), columnField, name, id, 0, 0);
    LocationStepsLib([], id, lineField + columnField, name, L.NO_FILE_ID, 0, 0);
  }

  /** The fields of one written location as the newer reader's loop
      collects them: the name only where it was inlined, then id, line and
      column as written. */
  lemma LocationFieldsReadLib(fileNameMap: map<Bytes, nat>, e: Begin)
    requires FileTableValid(fileNameMap) && |fileNameMap| < TWO_31 && ShortNames(e) && ValidBegin(e)
    ensures L.LocationFields(LocationContents(fileNameMap, e.fileName, e.line, e.column), [], L.NO_FILE_ID, 0, 0)
            == (if e.fileName in fileNameMap then [] else e.fileName, FileId(fileNameMap, e.fileName), e.line, e.column)
  {
    var id := FileId(fileNameMap, e.fileName);
    LocationSize(fileNameMap, e);
    var tail := FieldVarInt(3, ToUInt64(e.line)) + FieldVarInt(4, ToUInt64(e.column));
    if e.fileName in fileNameMap {
      assert LocationContents(fileNameMap, e.fileName, e.line, e.column) == FieldVarInt(2, id) + tail;
      LocationTailLib([], id, e.line, e.column);
    } else {
      assert LocationContents(fileNameMap, e.fileName, e.line, e.column)
          == FieldString(1, e.fileName) + (FieldVarInt(2, id) + tail);
      LocationStepsLib(e.fileName, 0, FieldVarInt(2, id) + tail, [], L.NO_FILE_ID, 0, 0);
      LocationTailLib(e.fileName, id, e.line, e.column);
    }
  }

  /** A new file name, stored at the next id, keeps the tables consistent. */
  lemma ConsistentRecord(fileNameMap: map<Bytes, nat>, files: seq<Bytes>, fileName: Bytes)
    requires Consistent(fileNameMap, files) && fileName !in fileNameMap
    ensures Consistent(RecordFile(fileNameMap, fileName), files + [fileName])
  {
    RecordFileValid(fileNameMap, fileName);
    var m' := RecordFile(fileNameMap, fileName);
    var files' := files + [fileName];
    forall n | n in m'
      ensures m'[n] < |files'| && files'[m'[n]] == n
    {
      if n != fileName {
        assert n in fileNameMap;
      }
    }
  }

  /** One written location as the newer reader sees it: file name, line and
      column as written, and the reader's file table after it is consistent
      with the writer's table after it. */
  lemma LocationReadLib(fileNameMap: map<Bytes, nat>, files: seq<Bytes>, e: Begin)
    requires Consistent(fileNameMap, files) && |fileNameMap| < TWO_31 && ShortNames(e) && ValidBegin(e)
    ensures var (f, l, c, files') := L.Location(LocationContents(fileNameMap, e.fileName, e.line, e.column), files);
            f == e.fileName && l == e.line && c == e.column
            && Consistent(RecordFile(fileNameMap, e.fileName), files')
  {
    var id := FileId(fileNameMap, e.fileName);
    LocationSize(fileNameMap, e);
    LocationFieldsReadLib(fileNameMap, e);
    if e.fileName !in fileNameMap {
      var grown := L.Grow(files, id);
      assert grown == files + [[]];
      assert (if e.fileName != [] then grown[id := e.fileName] else grown) == files + [e.fileName];
      ConsistentRecord(fileNameMap, files, e.fileName);
    }
  }

  /** How each written Begin field moves the newer reader's loop on. */
  lemma BeginScalarStepsLib(u: nat, d: Fixed64, rest: Bytes, e: Begin, files: seq<Bytes>, names: seq<Bytes>,
                            inflate: Bytes -> L.Option<Bytes>)
    requires u < TWO_64
    ensures L.BeginFields(FieldVarInt(1, u) + rest, e, files, names, inflate)
            == L.BeginFields(rest, e.(kind := ToInt32(u)), files, names, inflate)
    ensures L.BeginFields(FieldDouble(4, d) + rest, e, files, names, inflate)
            == L.BeginFields(rest, e.(timeStamp := d), files, names, inflate)
    ensures L.BeginFields(FieldVarInt(5, u) + rest, e, files, names, inflate)
            == L.BeginFields(rest, e.(memory := u), files, names, inflate)
  {
    FieldVarIntRead(1, u, rest);
    ModSmall(VarIntWire(1), TWO_32);
    FieldDoubleRead(4, d, rest);
    ModSmall(DoubleWire(4), TWO_32);
    FieldVarIntRead(5, u, rest);
    ModSmall(VarIntWire(5), TWO_32);
  }

  lemma BeginStringStepsLib(x: Bytes, rest: Bytes, e: Begin, files: seq<Bytes>, names: seq<Bytes>,
                            inflate: Bytes -> L.Option<Bytes>)
    requires |x| < TWO_32
    ensures L.BeginFields(FieldString(2, x) + rest, e, files, names, inflate)
            == L.BeginFields(rest, e.(name := L.TemplateNameFields(x, [], names, inflate)), files, names, inflate)
    ensures var (f, l, c, files') := L.Location(x, files);
            L.BeginFields(FieldString(3, x) + rest, e, files, names, inflate)
            == L.BeginFields(rest, e.(fileName := f, line := l, column := c), files', names, inflate)
  {
    FrameRead(2, x, rest);
    FrameRead(3, x, rest);
  }

  lemma BeginHeadLib(kind: int, name: Bytes, tail: Bytes, e: Begin, files: seq<Bytes>, names: seq<Bytes>,
                     inflate: Bytes -> L.Option<Bytes>)
    requires IsInt32(kind) && |name| < TWO_32
    ensures L.BeginFields(FieldVarInt(1, ToUInt64(kind)) + (FieldString(2, name) + tail), e, files, names, inflate)
            == L.BeginFields(tail, e.(kind := kind, name := L.TemplateNameFields(name, [], names, inflate)),
                             files, names, inflate)
  {
    Int32RoundTrip(kind);
    BeginStringStepsLib(name, tail, e.(kind := kind), files, names, inflate);
    BeginScalarStepsLib(ToUInt64(kind), ZERO_DOUBLE, FieldString(2, name) + tail, e, files, names, inflate);
  }

  lemma BeginTailLib(loc: Bytes, timeStamp: Fixed64, memory: nat, e: Begin, files: seq<Bytes>, names: seq<Bytes>,
                     inflate: Bytes -> L.Option<Bytes>)
    requires |loc| < TWO_32 && memory < TWO_64 && e.memory == 0
    ensures var (f, l, c, files') := L.Location(loc, files);
            L.BeginFields(FieldString(3, loc) + (FieldDouble(4, timeStamp)
              + (if memory > 0 then FieldVarInt(5, memory) else [])), e, files, names, inflate)
            == (e.(fileName := f, line := l, column := c, timeStamp := timeStamp, memory := memory), files')
  {
    var (f, l, c, files') := L.Location(loc, files);
    var memoryField := if memory > 0 then FieldVarInt(5, memory) else [];
    var e3 := e.(fileName := f, line := l, column := c);
    var e4 := e3.(timeStamp := timeStamp);
    if memory > 0 {
      BeginScalarStepsLib(memory, timeStamp, [], e4, files', names, inflate);
      assert memoryField + [] == memoryField;
    }
    assert L.BeginFields(memoryField, e4, files', names, inflate) == (e4.(memory := memory), files');
    BeginScalarStepsLib(0, timeStamp, memoryField, e3, files', names, inflate);
    BeginStringStepsLib(loc, FieldDouble(4, timeStamp) + memoryField, e, files, names, inflate);
  }

  /** A written Begin message, read by the newer reader from a reset entry:
      kind, location, time stamp and memory as written, the name decoded as
      a template-name message, and the file tables still in step. */
  lemma BeginContentsReadLib(fileNameMap: map<Bytes, nat>, files: seq<Bytes>, names: seq<Bytes>,
                             inflate: Bytes -> L.Option<Bytes>, e: Begin, e0: Begin)
    requires Consistent(fileNameMap, files) && |fileNameMap| < TWO_31 && ShortNames(e) && ValidBegin(e)
    requires e0.memory == 0
    ensures var (r, files') := L.BeginFields(BeginContents(e, LocationContents(fileNameMap, e.fileName, e.line, e.column)),
                                             e0, files, names, inflate);
            r == e0.(kind := e.kind, name := L.TemplateNameFields(e.name, [], names, inflate),
                     fileName := e.fileName, line := e.line, column := e.column,
                     timeStamp := e.timeStamp, memory := e.memory)
            && Consistent(RecordFile(fileNameMap, e.fileName), files')
  {
    var loc := LocationContents(fileNameMap, e.fileName, e.line, e.column);
    LocationSize(fileNameMap, e);
    LocationReadLib(fileNameMap, files, e);
    var tail := FieldString(3, loc) + (FieldDouble(4, e.timeStamp)
                + (if e.memory > 0 then FieldVarInt(5, e.memory) else []));
    BeginContentsNested(e, loc);
    BeginHeadLib(e.kind, e.name, tail, e0, files, names, inflate);
    BeginTailLib(loc, e.timeStamp, e.memory,
                 e0.(kind := e.kind, name := L.TemplateNameFields(e.name, [], names, inflate)), files, names, inflate);
  }

  /** The newer reader reads a written Begin frame as written, except that
      the name is decoded as a template-name message; its file table stays
      consistent with the writer's, and nothing else changes. */
  lemma BeginReadLib(fileNameMap: map<Bytes, nat>, e: Begin, rest: Bytes, s: L.ReaderState,
                     inflate: Bytes -> L.Option<Bytes>)
    requires Consistent(fileNameMap, s.fileNameMap) && |fileNameMap| < TWO_31 && ShortNames(e) && ValidBegin(e)
    ensures var s' := L.NextState(s.(buffer := BeginFrame(fileNameMap, e) + rest), inflate);
            s' == s.(buffer := rest, lastChunk := L.BeginEntry, fileNameMap := s'.fileNameMap,
                     lastBegin := s.lastBegin.(kind := e.kind, name := L.TemplateNameFields(e.name, [], s.templateNameMap, inflate),
                       fileName := e.fileName, line := e.line, column := e.column,
                       timeStamp := e.timeStamp, memory := e.memory))
            && Consistent(RecordFile(fileNameMap, e.fileName), s'.fileNameMap)
  {
    var contents := BeginContents(e, LocationContents(fileNameMap, e.fileName, e.line, e.column));
    BeginSize(fileNameMap, e);
    FieldSizes(1, 0, contents, ZERO_DOUBLE);
    L.EntryFrameDispatch(1, contents, rest, s, inflate);
    BeginContentsReadLib(fileNameMap, s.fileNameMap, s.templateNameMap, inflate, e, L.ResetBegin(s.lastBegin));
  }

  /** The newer reader reads an End frame exactly as written. */
  lemma EndReadLib(e: End, rest: Bytes, s: L.ReaderState, inflate: Bytes -> L.Option<Bytes>)
    requires ValidEnd(e)
    ensures L.NextState(s.(buffer := EndFrame(e) + rest), inflate)
            == s.(buffer := rest, lastChunk := L.EndEntry, lastEnd := e)
  {
    var memoryField := if e.memory > 0 then FieldVarInt(2, e.memory) else [];
    FieldSizes(1, e.memory, [], e.timeStamp);
    FieldSizes(2, e.memory, [], e.timeStamp);
    FieldSizes(2, 0, EndContents(e), ZERO_DOUBLE);
    L.EntryFrameDispatch(2, EndContents(e), rest, s, inflate);
    if e.memory > 0 {
      FieldVarIntRead(2, e.memory, []);
      ModSmall(VarIntWire(2), TWO_32);
      assert memoryField + [] == memoryField;
      assert EncodeVarInt(e.memory) + [] == EncodeVarInt(e.memory);
    }
    assert L.EndFields(memoryField, EMPTY_END.(timeStamp := e.timeStamp)) == e;
    FieldDoubleRead(1, e.timeStamp, memoryField);
    ModSmall(DoubleWire(1), TWO_32);
  }

  /** `initialize`'s frame reads back as version 1 and the source name. */
  lemma HeaderReadLib(sourceName: Bytes, rest: Bytes, s: L.ReaderState, inflate: Bytes -> L.Option<Bytes>)
    requires |sourceName| < 0x1000_0000
    ensures L.NextState(s.(buffer := HeaderFrame(sourceName) + rest), inflate)
            == s.(buffer := rest, lastChunk := L.Header, version := 1, sourceName := sourceName)
  {
    var tail := if sourceName == [] then [] else FieldString(2, sourceName);
    FieldSizes(2, 1, sourceName, ZERO_DOUBLE);
    FieldSizes(1, 1, [], ZERO_DOUBLE);
    FrameRead(1, HeaderContents(sourceName), rest);
    FieldVarIntRead(1, 1, tail);
    ModSmall(VarIntWire(1), TWO_32);
    if sourceName != [] {
      FieldStringRead(2, sourceName, []);
      ModSmall(StringWire(2), TWO_32);
      assert FieldString(2, sourceName) + [] == FieldString(2, sourceName);
      assert L.HeaderFields(tail, 1, []) == (1, sourceName);
    }
  }

  /** A dumped trace opens with its header and an empty file table, which
      is consistent with the writer's fresh table. */
  lemma DumpedTraceOpensLib(sourceName: Bytes, entries: Bytes, more: Bytes, s: L.ReaderState,
                            inflate: Bytes -> L.Option<Bytes>)
    requires |sourceName| < 0x1000_0000 && |HeaderFrame(sourceName) + entries| < TWO_32
    ensures L.StartState(FieldString(1, HeaderFrame(sourceName) + entries) + more, s, inflate)
            == s.(buffer := entries, remainder := more, lastChunk := L.Header, fileNameMap := [],
                  version := 1, sourceName := sourceName)
  {
    L.StartOnTrace(HeaderFrame(sourceName) + entries, more, s, inflate);
    HeaderReadLib(sourceName, entries, s.(fileNameMap := [], remainder := more), inflate);
  }

  /** The writer's plain-bytes name is not a template-name message: the
      one-letter name "A" (byte 65, read as the key of field 8 with wire
      type 1) reads back as the empty name. */
  lemma PlainNameMisread(names: seq<Bytes>, inflate: Bytes -> L.Option<Bytes>)
    ensures L.TemplateNameFields([65], [], names, inflate) == []
  {
    assert VarInt([65]) == (65, []);
    assert L.Key([65]) == (65, []);
    assert SkipData([], 65) == [];
  }
}
