/**
 * The older `TemplightProtobufReader`: a pull parser over a trace file made
 * of repeated `traces` frames. `startOnBuffer` opens one trace (and keeps the
 * bytes after it as the remainder), `next` decodes one top-level frame of the
 * open trace and reports what it was; an exhausted trace moves on to the
 * remainder. This version knows no file table and no name dictionary, and
 * reads a location as file name (1), line (2), column (3).
 *
 * Every `unsigned int cur_wire` is the decoded key modulo 2^32; `int` fields
 * take the low 32 bits of the decoded value (`ToInt32`). Varints are read
 * with the 64-bit decoder (see the findings of `ThinProtobuf`).
 */
module ReaderV1 {

  import opened ThinProtobuf
  import opened Entries

  datatype Chunk = EndOfFile | Header | BeginEntry | EndEntry

  /** The key of the next field, as the `unsigned int` the loops switch on. */
  function Key(buf: Bytes): (r: (nat, Bytes))
    ensures r.0 < TWO_32 && |r.1| <= |buf| && (buf != [] ==> |r.1| < |buf|)
  {
    var (k, rest) := VarInt(buf);
    (k % TWO_32, rest)
  }

  /** `loadHeader`'s loop from the given field values on: version (1) and
      source file (2); anything else is skipped. */
  function HeaderFields(sub: Bytes, version: nat, sourceName: Bytes): (nat, Bytes)
    decreases |sub|
  {
    if sub == [] then (version, sourceName)
    else
      var (key, rest) := Key(sub);
      if key == VarIntWire(1) then
        var (v, rest') := VarInt(rest);
        HeaderFields(rest', v % TWO_32, sourceName)
      else if key == StringWire(2) then
        var (s, rest') := LoadString(rest);
        HeaderFields(rest', version, s)
      else HeaderFields(SkipData(rest, key), version, sourceName)
  }

  /** `loadLocation`'s loop: file name (1), line (2), column (3). */
  function LocationFields(sub: Bytes, fileName: Bytes, line: int, column: int): (Bytes, int, int)
    decreases |sub|
  {
    if sub == [] then (fileName, line, column)
    else
      var (key, rest) := Key(sub);
      if key == StringWire(1) then
        var (s, rest') := LoadString(rest);
        LocationFields(rest', s, line, column)
      else if key == VarIntWire(2) then
        var (v, rest') := VarInt(rest);
        LocationFields(rest', fileName, ToInt32(v), column)
      else if key == VarIntWire(3) then
        var (v, rest') := VarInt(rest);
        LocationFields(rest', fileName, line, ToInt32(v))
      else LocationFields(SkipData(rest, key), fileName, line, column)
  }

  /** A location message read from its defaults "", 0, 0. */
  function Location(sub: Bytes): (Bytes, int, int)
  {
    LocationFields(sub, [], 0, 0)
  }

  /** `loadBeginEntry`'s loop: kind (1), name (2), location (3, a nested
      message of the declared size), time stamp (4), memory (5). */
  function BeginFields(sub: Bytes, e: Begin): Begin
    decreases |sub|
  {
    if sub == [] then e
    else
      var (key, rest) := Key(sub);
      if key == VarIntWire(1) then
        var (v, rest') := VarInt(rest);
        BeginFields(rest', e.(kind := ToInt32(v)))
      else if key == StringWire(2) then
        var (s, rest') := LoadString(rest);
        BeginFields(rest', e.(name := s))
      else if key == StringWire(3) then
        var (size, rest') := VarInt(rest);
        var (f, l, c) := Location(Slice(rest', 0, size));
        BeginFields(DropFront(rest', size), e.(fileName := f, line := l, column := c))
      else if key == DoubleWire(4) then
        var (d, rest') := LoadDouble(rest);
        BeginFields(rest', e.(timeStamp := d))
      else if key == VarIntWire(5) then
        var (v, rest') := VarInt(rest);
        BeginFields(rest', e.(memory := v))
      else BeginFields(SkipData(rest, key), e)
  }

  /** `loadEndEntry`'s loop: time stamp (1), memory (2). */
  function EndFields(sub: Bytes, e: End): End
    decreases |sub|
  {
    if sub == [] then e
    else
      var (key, rest) := Key(sub);
      if key == DoubleWire(1) then
        var (d, rest') := LoadDouble(rest);
        EndFields(rest', e.(timeStamp := d))
      else if key == VarIntWire(2) then
        var (v, rest') := VarInt(rest);
        EndFields(rest', e.(memory := v))
      else EndFields(SkipData(rest, key), e)
  }

  /** Everything a reader holds between calls. */
  datatype ReaderState = ReaderState(
    buffer: Bytes,
    remainder: Bytes,
    lastChunk: Chunk,
    version: nat,
    sourceName: Bytes,
    lastBegin: Begin,
    lastEnd: End)

  /** A Begin entry starts from kind 0, "", 0.0 and no memory; the location
      fields keep their previous values until a location is read. */
  function ResetBegin(e: Begin): Begin
  {
    e.(kind := 0, name := [], timeStamp := ZERO_DOUBLE, memory := 0)
  }

  function HeaderState(sub: Bytes, s: ReaderState): ReaderState
  {
    var (v, n) := HeaderFields(sub, 0, []);
    s.(version := v, sourceName := n, lastChunk := Header)
  }

  function BeginState(sub: Bytes, s: ReaderState): ReaderState
  {
    s.(lastBegin := BeginFields(sub, ResetBegin(s.lastBegin)), lastChunk := BeginEntry)
  }

  function EndState(sub: Bytes, s: ReaderState): ReaderState
  {
    s.(lastEnd := EndFields(sub, EMPTY_END), lastChunk := EndEntry)
  }

  /** `startOnBuffer`: unless the bytes open with a `traces` key, the reader is
      emptied and reports the end of file; otherwise the declared frame
      becomes the buffer, the rest the remainder, and `next` runs. */
  function StartState(a: Bytes, s: ReaderState): ReaderState
    decreases |a|, 0
  {
    var (key, rest) := Key(a);
    if key != StringWire(1) then
      s.(buffer := [], remainder := [], lastChunk := EndOfFile)
    else
      var (size, rest') := VarInt(rest);
      SliceSplit(rest', size);
      NextState(s.(buffer := Slice(rest', 0, size), remainder := Slice(rest', size, |rest'|)))
  }

  /** `next`: one top-level frame of the open trace. */
  function NextState(s: ReaderState): ReaderState
    decreases |s.buffer| + |s.remainder|, 1
  {
    if s.buffer == [] then
      if s.remainder == [] then s.(lastChunk := EndOfFile)
      else StartState(s.remainder, s)
    else
      var (key, rest) := Key(s.buffer);
      if key == StringWire(1) then
        var (size, rest') := VarInt(rest);
        HeaderState(Slice(rest', 0, size), s.(buffer := DropFront(rest', size)))
      else if key == StringWire(2) then
        var (size, rest') := VarInt(rest);
        var sub := Slice(rest', 0, size);
        var s' := s.(buffer := DropFront(rest', size));
        var (inner, sub') := Key(sub);
        var (_, sub'') := VarInt(sub');
        if inner == StringWire(1) then BeginState(sub'', s')
        else if inner == StringWire(2) then EndState(sub'', s')
        else s'
      else NextState(s.(buffer := SkipData(rest, key)))
  }

  /** Every call consumes: the bytes left in the open trace and the
      remainder together never grow, and shrink unless both were empty. A
      caller that pumps `next` until the end of file therefore stops. */
  lemma {:induction false} NextConsumes(s: ReaderState)
    ensures |NextState(s).buffer| + |NextState(s).remainder| <= |s.buffer| + |s.remainder|
    ensures s.buffer != [] || s.remainder != [] ==>
              |NextState(s).buffer| + |NextState(s).remainder| < |s.buffer| + |s.remainder|
    decreases |s.buffer| + |s.remainder|, 1
  {
    if s.buffer == [] {
      if s.remainder != [] {
        StartConsumes(s.remainder, s);
      }
    } else {
      var (key, rest) := Key(s.buffer);
      if key != StringWire(1) && key != StringWire(2) {
        NextConsumes(s.(buffer := SkipData(rest, key)));
      }
    }
  }

  lemma {:induction false} StartConsumes(a: Bytes, s: ReaderState)
    ensures |StartState(a, s).buffer| + |StartState(a, s).remainder| <= |a|
    ensures a != [] ==> |StartState(a, s).buffer| + |StartState(a, s).remainder| < |a|
    decreases |a|, 0
  {
    var (key, rest) := Key(a);
    if key == StringWire(1) {
      var (size, rest') := VarInt(rest);
      SliceSplit(rest', size);
      NextConsumes(s.(buffer := Slice(rest', 0, size), remainder := Slice(rest', size, |rest'|)));
    }
  }

  /** The end of file: with both cursors empty `next` reports it and changes
      nothing else, so it keeps reporting it; and it is reported with
      non-empty cursors only if it was already the last chunk (an entry
      frame of an unknown kind leaves the last chunk as it was). */
  lemma {:induction false} NextEndOfFile(s: ReaderState)
    ensures s.buffer == [] && s.remainder == [] ==> NextState(s) == s.(lastChunk := EndOfFile)
    ensures NextState(s).lastChunk == EndOfFile ==>
              (NextState(s).buffer == [] && NextState(s).remainder == []) || s.lastChunk == EndOfFile
    decreases |s.buffer| + |s.remainder|, 1
  {
    if s.buffer == [] {
      if s.remainder != [] {
        StartEndOfFile(s.remainder, s);
      }
    } else {
      var (key, rest) := Key(s.buffer);
      if key != StringWire(1) && key != StringWire(2) {
        NextEndOfFile(s.(buffer := SkipData(rest, key)));
      }
    }
  }

  lemma {:induction false} StartEndOfFile(a: Bytes, s: ReaderState)
    ensures StartState(a, s).lastChunk == EndOfFile ==>
              (StartState(a, s).buffer == [] && StartState(a, s).remainder == []) || s.lastChunk == EndOfFile
    decreases |a|, 0
  {
    var (key, rest) := Key(a);
    if key == StringWire(1) {
      var (size, rest') := VarInt(rest);
      SliceSplit(rest', size);
      NextEndOfFile(s.(buffer := Slice(rest', 0, size), remainder := Slice(rest', size, |rest'|)));
    }
  }

  /** `startOnBuffer` on a `traces` frame opens exactly that frame and keeps
      what follows for later. */
  lemma StartOnTrace(trace: Bytes, more: Bytes, s: ReaderState)
    requires |trace| < TWO_32
    ensures StartState(FieldString(1, trace) + more, s) == NextState(s.(buffer := trace, remainder := more))
  {
    FrameRead(1, trace, more);
  }

  /** Forward compatibility: a top-level frame with another field number
      (such as a newer writer's dictionary frame, 3) is skipped whole and
      reading goes on with the next frame. */
  lemma UnknownFrameSkipped(field: nat, contents: Bytes, rest: Bytes, s: ReaderState)
    requires IsFieldNumber(field) && field != 1 && field != 2 && |contents| < TWO_32
    ensures NextState(s.(buffer := FieldString(field, contents) + rest)) == NextState(s.(buffer := rest))
  {
    FrameRead(field, contents, rest);
    SkipStringExact(contents, rest);
    assert FieldString(field, contents) + rest == EncodeVarInt(StringWire(field)) + (SaveString(contents) + rest);
  }

  /** An entry frame is classified by the key of its alternative: Begin (1)
      and End (2) are decoded from their message; any other alternative is
      consumed and leaves everything else, the last chunk included, as it was. */
  lemma EntryFrameDispatch(alternative: nat, contents: Bytes, rest: Bytes, s: ReaderState)
    requires IsFieldNumber(alternative)
    requires |FieldString(alternative, contents)| < TWO_32 && |contents| < TWO_32
    ensures NextState(s.(buffer := FieldString(2, FieldString(alternative, contents)) + rest))
            == if alternative == 1 then BeginState(contents, s.(buffer := rest))
               else if alternative == 2 then EndState(contents, s.(buffer := rest))
               else s.(buffer := rest)
  {
    var inner := FieldString(alternative, contents);
    FrameRead(2, inner, rest);
    FrameRead(alternative, contents, []);
    assert inner + [] == inner;
    assert contents + [] == contents;
  }

  /** The static `loadLocation`, with its loop. */
  method LoadLocation(sub: Bytes) returns (fileName: Bytes, line: int, column: int)
    ensures (fileName, line, column) == Location(sub)
  {
    fileName, line, column := [], 0, 0;
    var cursor := sub;
    while cursor != []
      invariant LocationFields(cursor, fileName, line, column) == Location(sub)
      decreases |cursor|
    {
      var k, rest := LoadVarInt(cursor);
      var key := k % TWO_32;
      if key == StringWire(1) {
        fileName, cursor := LoadString(rest).0, LoadString(rest).1;
      } else if key == VarIntWire(2) {
        var v;
        v, cursor := LoadVarInt(rest);
        line := ToInt32(v);
      } else if key == VarIntWire(3) {
        var v;
        v, cursor := LoadVarInt(rest);
        column := ToInt32(v);
      } else {
        cursor := SkipData(rest, key);
      }
    }
  }

  class Reader {
    var buffer: Bytes
    var remainder: Bytes
    var lastChunk: Chunk
    var version: nat
    var sourceName: Bytes
    var lastBegin: Begin
    var lastEnd: End

    function Snapshot(): ReaderState
      reads this
    {
      ReaderState(buffer, remainder, lastChunk, version, sourceName, lastBegin, lastEnd)
    }

    constructor()
      ensures Snapshot() == ReaderState([], [], EndOfFile, 0, [], EMPTY_BEGIN, EMPTY_END)
    {
      buffer, remainder, lastChunk := [], [], EndOfFile;
      version, sourceName := 0, [];
      lastBegin, lastEnd := EMPTY_BEGIN, EMPTY_END;
    }

    method LoadHeader(sub: Bytes)
      modifies this
      ensures Snapshot() == HeaderState(sub, old(Snapshot()))
    {
      var v: nat, n: Bytes := 0, [];
      var cursor := sub;
      while cursor != []
        invariant HeaderFields(cursor, v, n) == HeaderFields(sub, 0, [])
        invariant unchanged(this)
        decreases |cursor|
      {
        var k, rest := LoadVarInt(cursor);
        var key := k % TWO_32;
        if key == VarIntWire(1) {
          var u;
          u, cursor := LoadVarInt(rest);
          v := u % TWO_32;
        } else if key == StringWire(2) {
          n, cursor := LoadString(rest).0, LoadString(rest).1;
        } else {
          cursor := SkipData(rest, key);
        }
      }
      version, sourceName, lastChunk := v, n, Header;
    }

    method LoadBeginEntry(sub: Bytes)
      modifies this
      ensures Snapshot() == BeginState(sub, old(Snapshot()))
    {
      var e := ResetBegin(lastBegin);
      var cursor := sub;
      while cursor != []
        invariant BeginFields(cursor, e) == BeginFields(sub, ResetBegin(lastBegin))
        invariant unchanged(this)
        decreases |cursor|
      {
        var k, rest := LoadVarInt(cursor);
        var key := k % TWO_32;
        if key == VarIntWire(1) {
          var v;
          v, cursor := LoadVarInt(rest);
          e := e.(kind := ToInt32(v));
        } else if key == StringWire(2) {
          e, cursor := e.(name := LoadString(rest).0), LoadString(rest).1;
        } else if key == StringWire(3) {
          var size, rest' := LoadVarInt(rest);
          var f, l, c := LoadLocation(Slice(rest', 0, size));
          e := e.(fileName := f, line := l, column := c);
          cursor := DropFront(rest', size);
        } else if key == DoubleWire(4) {
          e, cursor := e.(timeStamp := LoadDouble(rest).0), LoadDouble(rest).1;
        } else if key == VarIntWire(5) {
          var v;
          v, cursor := LoadVarInt(rest);
          e := e.(memory := v);
        } else {
          cursor := SkipData(rest, key);
        }
      }
      lastBegin, lastChunk := e, BeginEntry;
    }

    method LoadEndEntry(sub: Bytes)
      modifies this
      ensures Snapshot() == EndState(sub, old(Snapshot()))
    {
      var e := EMPTY_END;
      var cursor := sub;
      while cursor != []
        invariant EndFields(cursor, e) == EndFields(sub, EMPTY_END)
        invariant unchanged(this)
        decreases |cursor|
      {
        var k, rest := LoadVarInt(cursor);
        var key := k % TWO_32;
        if key == DoubleWire(1) {
          e, cursor := e.(timeStamp := LoadDouble(rest).0), LoadDouble(rest).1;
        } else if key == VarIntWire(2) {
          var v;
          v, cursor := LoadVarInt(rest);
          e := e.(memory := v);
        } else {
          cursor := SkipData(rest, key);
        }
      }
      lastEnd, lastChunk := e, EndEntry;
    }

    method StartOnBuffer(a: Bytes) returns (c: Chunk)
      modifies this
      ensures Snapshot() == StartState(a, old(Snapshot())) && c == lastChunk
      decreases |a|, 0
    {
      buffer := a;
      var k, rest := LoadVarInt(buffer);
      buffer := rest;
      if k % TWO_32 != StringWire(1) {
        buffer, remainder, lastChunk := [], [], EndOfFile;
        return lastChunk;
      }
      var size, rest' := LoadVarInt(buffer);
      SliceSplit(rest', size);
      remainder := Slice(rest', size, |rest'|);
      buffer := Slice(rest', 0, size);
      c := Next();
    }

    method Next() returns (c: Chunk)
      modifies this
      ensures Snapshot() == NextState(old(Snapshot())) && c == lastChunk
      decreases |buffer| + |remainder|, 1
    {
      if buffer == [] {
        if remainder == [] {
          lastChunk := EndOfFile;
          return lastChunk;
        }
        c := StartOnBuffer(remainder);
        return;
      }
      var k, rest := LoadVarInt(buffer);
      var key := k % TWO_32;
      if key == StringWire(1) {
        var size, rest' := LoadVarInt(rest);
        LoadHeader(Slice(rest', 0, size));
        buffer := DropFront(rest', size);
        return lastChunk;
      } else if key == StringWire(2) {
        var size, rest' := LoadVarInt(rest);
        var sub := Slice(rest', 0, size);
        buffer := DropFront(rest', size);
        var inner, sub' := LoadVarInt(sub);
        var _, sub'' := LoadVarInt(sub');
        if inner % TWO_32 == StringWire(1) {
          LoadBeginEntry(sub'');
        } else if inner % TWO_32 == StringWire(2) {
          LoadEndEntry(sub'');
        }
        return lastChunk;
      } else {
        buffer := SkipData(rest, key);
        c := Next();
      }
    }
  }
}
