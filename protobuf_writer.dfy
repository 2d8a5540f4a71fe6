/**
 * `TemplightProtobufWriter`: the trace being written is one growing byte
 * buffer. `initialize` appends the header frame, each `printEntry` appends one
 * entry frame, and `dumpOnStream` wraps the whole buffer as one trace of the
 * top-level repeated `traces` field. File names are written once and then
 * referred to by an id; `fileNameMap` hands out ids in first-seen order.
 *
 * Frame layout (field numbers):
 *   trace file  : traces = 1 (length-delimited, repeated)
 *   trace       : header = 1, entries = 2 (repeated)
 *   header      : version = 1 (varint), source_file = 2 (string, optional)
 *   entry       : begin = 1 | end = 2
 *   begin       : kind = 1, name = 2, location = 3, time_stamp = 4 (64-bit),
 *                 memory_usage = 5 (only when non-zero)
 *   end         : time_stamp = 1 (64-bit), memory_usage = 2 (only when non-zero)
 *   location    : file_name = 1 (first use only), file_id = 2, line = 3, column = 4
 */
module ProtobufWriter {

  import opened ThinProtobuf
  import opened Entries

  /** The header message: version 1, and the source file only when named. */
  function HeaderContents(sourceName: Bytes): Bytes
  {
    FieldVarInt(1, 1) + (if sourceName == [] then [] else FieldString(2, sourceName))
  }

  /** The header as `initialize` appends it: field 1 of the trace. */
  function HeaderFrame(sourceName: Bytes): Bytes
  {
    FieldString(1, HeaderContents(sourceName))
  }

  /** The file table after a location naming `fileName` was written. */
  function RecordFile(fileNameMap: map<Bytes, nat>, fileName: Bytes): map<Bytes, nat>
  {
    if fileName in fileNameMap then fileNameMap else fileNameMap[fileName := |fileNameMap|]
  }

  /** The location message: the file name and a new id on first use, only the
      id afterwards; line and column are `int`s widened to `uint64_t`. */
  function LocationContents(fileNameMap: map<Bytes, nat>, fileName: Bytes, line: int, column: int): Bytes
  {
    (if fileName in fileNameMap then FieldVarInt(2, fileNameMap[fileName])
     else FieldString(1, fileName) + FieldVarInt(2, |fileNameMap|))
    + FieldVarInt(3, ToUInt64(line)) + FieldVarInt(4, ToUInt64(column))
  }

  function BeginContents(e: Begin, location: Bytes): Bytes
  {
    FieldVarInt(1, ToUInt64(e.kind)) + FieldString(2, e.name) + FieldString(3, location)
    + FieldDouble(4, e.timeStamp) + (if e.memory > 0 then FieldVarInt(5, e.memory) else [])
  }

  function EndContents(e: End): Bytes
  {
    FieldDouble(1, e.timeStamp) + (if e.memory > 0 then FieldVarInt(2, e.memory) else [])
  }

  /** An entry: the Begin (1) or End (2) alternative, inside field 2 of the trace. */
  function EntryFrame(alternative: nat, contents: Bytes): Bytes
    requires alternative == 1 || alternative == 2
  {
    FieldString(2, FieldString(alternative, contents))
  }

  function BeginFrame(fileNameMap: map<Bytes, nat>, e: Begin): Bytes
  {
    EntryFrame(1, BeginContents(e, LocationContents(fileNameMap, e.fileName, e.line, e.column)))
  }

  function EndFrame(e: End): Bytes
  {
    EntryFrame(2, EndContents(e))
  }

  /** Ids are distinct and below the table size, so they are exactly
      0 .. |table| - 1. */
  ghost predicate FileTableValid(fileNameMap: map<Bytes, nat>)
  {
    (forall n | n in fileNameMap :: fileNameMap[n] < |fileNameMap|)
    && (forall a, b | a in fileNameMap && b in fileNameMap && a != b :: fileNameMap[a] != fileNameMap[b])
  }

  /** Recording a file keeps ids dense and distinct, never changes an id
      already handed out, and gives a new name the next id. */
  lemma RecordFileValid(fileNameMap: map<Bytes, nat>, fileName: Bytes)
    requires FileTableValid(fileNameMap)
    ensures FileTableValid(RecordFile(fileNameMap, fileName))
    ensures fileName in RecordFile(fileNameMap, fileName)
    ensures forall n | n in fileNameMap :: n in RecordFile(fileNameMap, fileName)
                                          && RecordFile(fileNameMap, fileName)[n] == fileNameMap[n]
    ensures fileName !in fileNameMap ==>
              RecordFile(fileNameMap, fileName)[fileName] == |fileNameMap|
              && |RecordFile(fileNameMap, fileName)| == |fileNameMap| + 1
    ensures fileName in fileNameMap ==> RecordFile(fileNameMap, fileName) == fileNameMap
  {
  }

  /** The writer object: the encoded trace so far and the file table. */
  class Writer {
    var buffer: Bytes
    var fileNameMap: map<Bytes, nat>

    ghost predicate Valid()
      reads this
    {
      FileTableValid(fileNameMap)
    }

    constructor()
      ensures Valid() && buffer == [] && fileNameMap == map[]
    {
      buffer := [];
      fileNameMap := map[];
    }

    /** `initialize`: appends the header frame. */
    method Initialize(sourceName: Bytes)
      modifies this
      ensures buffer == old(buffer) + HeaderFrame(sourceName)
      ensures fileNameMap == old(fileNameMap)
    {
      var contents := FieldVarInt(1, 1);
      if sourceName != [] {
        contents := contents + FieldString(2, sourceName);
      }
      buffer := buffer + FieldString(1, contents);
    }

    /** `finalize`: the trace written so far. */
    method Finalize() returns (r: Bytes)
      ensures r == buffer
    {
      r := buffer;
    }

    /** `dumpOnStream`: what is written to the stream, one `traces` element. */
    method DumpOnStream() returns (out: Bytes)
      ensures out == FieldString(1, buffer)
    {
      out := FieldString(1, buffer);
    }

    /** `printEntryLocation`: encodes a location, recording a new file name. */
    method PrintEntryLocation(fileName: Bytes, line: int, column: int) returns (contents: Bytes)
      requires Valid()
      modifies this
      ensures Valid()
      ensures contents == LocationContents(old(fileNameMap), fileName, line, column)
      ensures fileNameMap == RecordFile(old(fileNameMap), fileName)
      ensures buffer == old(buffer)
    {
      RecordFileValid(fileNameMap, fileName);
      if fileName !in fileNameMap {
        var fileId := |fileNameMap|;
        contents := FieldString(1, fileName) + FieldVarInt(2, fileId);
        fileNameMap := fileNameMap[fileName := fileId];
      } else {
        contents := FieldVarInt(2, fileNameMap[fileName]);
      }
      contents := contents + FieldVarInt(3, ToUInt64(line)) + FieldVarInt(4, ToUInt64(column));
    }

    /** `printEntry` for a Begin: appends one entry frame. */
    method PrintBegin(e: Begin)
      requires Valid()
      modifies this
      ensures Valid()
      ensures buffer == old(buffer) + BeginFrame(old(fileNameMap), e)
      ensures fileNameMap == RecordFile(old(fileNameMap), e.fileName)
    {
      var location := PrintEntryLocation(e.fileName, e.line, e.column);
      var contents := BeginContents(e, location);
      buffer := buffer + EntryFrame(1, contents);
    }

    /** `printEntry` for an End: appends one entry frame. */
    method PrintEnd(e: End)
      modifies this
      ensures buffer == old(buffer) + EndFrame(e)
      ensures fileNameMap == old(fileNameMap)
    {
      buffer := buffer + EntryFrame(2, EndContents(e));
    }
  }
}
