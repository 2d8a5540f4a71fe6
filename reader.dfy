/**
 * The newer `TemplightProtobufReader` (the library version). It reads the
 * same trace frames as the older one and in addition
 *  - keeps a file table per trace: a location that carries a file name
 *    stores it at its file id, one that carries only the id reads it back;
 *  - keeps a template-name dictionary: a dictionary frame (field 3 of the
 *    trace) holds a name with '\0' placeholders and the dictionary indices
 *    that fill them; a Begin's name is a nested message holding either a
 *    literal name (1), a zlib-compressed name (2) or a dictionary index (3);
 *  - reads an optional template-origin location (field 6 of a Begin).
 *
 * `std::vector` indexing past the end is undefined in the source; the model
 * reads "" there (`Lookup`). zlib is a parameter of the reader (`inflate`).
 */
module LibReader {

  import opened ThinProtobuf
  import opened Entries

  datatype Option<T> = None | Some(value: T)

  datatype Chunk = EndOfFile | Header | BeginEntry | EndEntry | Other

  /** `std::numeric_limits<std::size_t>::max()`, the "no file id" marker. */
  const NO_FILE_ID: nat := TWO_64 - 1

  function Key(buf: Bytes): (r: (nat, Bytes))
    ensures r.0 < TWO_32 && |r.1| <= |buf| && (buf != [] ==> |r.1| < |buf|)
  {
    var (k, rest) := VarInt(buf);
    (k % TWO_32, rest)
  }

  /** `table[i]`, with "" past the end. */
  function Lookup(table: seq<Bytes>, i: nat): Bytes
  {
    if i < |table| then table[i] else []
  }

  // ---------------------------------------------------------------------
  // Header

  function HeaderFields(sub: Bytes, version: nat, sourceName: Bytes): (nat, Bytes)
    decreases |sub|
  {
    if sub == [] then (version, sourceName)
    else
      var (key, rest) := Key(sub);
      if key == VarIntWire(1) then
        var (v, rest') := VarInt(rest);
        HeaderFields(rest', v % TWO_32, sourceName)
      else if key == StringWire(2) then
        var (s, rest') := LoadString(rest);
        HeaderFields(rest', version, s)
      else HeaderFields(SkipData(rest, key), version, sourceName)
  }

  // ---------------------------------------------------------------------
  // Dictionary entries

  /** `loadDictionaryEntry`'s field loop: the name (1) and the markers (2),
      kept in arrival order. */
  function DictionaryFields(sub: Bytes, name: Bytes, markers: seq<nat>): (Bytes, seq<nat>)
    decreases |sub|
  {
    if sub == [] then (name, markers)
    else
      var (key, rest) := Key(sub);
      if key == StringWire(1) then
        var (s, rest') := LoadString(rest);
        DictionaryFields(rest', s, markers)
      else if key == VarIntWire(2) then
        var (v, rest') := VarInt(rest);
        DictionaryFields(rest', name, markers + [v])
      else DictionaryFields(SkipData(rest, key), name, markers)
  }

  /** The offset of the first '\0' of `s`, or `|s|`. */
  function FirstZero(s: Bytes): (r: nat)
    ensures r <= |s| && (r < |s| ==> s[r] == 0)
  {
    if s == [] then 0 else if s[0] == 0 then 0 else 1 + FirstZero(s[1..])
  }

  /** `std::find(name.begin() + from, name.end(), '\0')`. */
  function FindZero(name: Bytes, from: nat): (r: nat)
    requires from <= |name|
    ensures from <= r <= |name| && (r < |name| ==> name[r] == 0)
  {
    from + FirstZero(name[from..])
  }

  /** The placeholder loop: while a '\0' was found at `at` and markers
      remain, replace it by the next marker's dictionary entry and search
      again from the same offset. */
  function ResolveFrom(name: Bytes, at: nat, markers: seq<nat>, table: seq<Bytes>): Bytes
    requires at <= |name|
    decreases |markers|
  {
    if at == |name| || markers == [] then name
    else
      var name' := name[..at] + Lookup(table, markers[0]) + name[at + 1..];
      ResolveFrom(name', FindZero(name', at), markers[1..], table)
  }

  function Resolve(name: Bytes, markers: seq<nat>, table: seq<Bytes>): Bytes
  {
    ResolveFrom(name, FindZero(name, 0), markers, table)
  }

  /** The dictionary after a dictionary frame: the resolved name appended. */
  function DictionaryEntry(sub: Bytes, table: seq<Bytes>): (r: seq<Bytes>)
    ensures |r| == |table| + 1 && r[..|table|] == table
  {
    var (name, markers) := DictionaryFields(sub, [], []);
    table + [Resolve(name, markers, table)]
  }

  /** The intended meaning of the placeholders, as a reference: one pass
      over the name, each '\0' in turn taking the next marker's entry, the
      rest of the name copied; once the markers run out nothing changes. */
  function Expand(q: Bytes, markers: seq<nat>, table: seq<Bytes>): Bytes
    decreases |q|
  {
    if q == [] then []
    else if q[0] == 0 && markers != [] then Lookup(table, markers[0]) + Expand(q[1..], markers[1..], table)
    else [q[0]] + Expand(q[1..], markers, table)
  }

  /** Dictionary entries without placeholders of their own. */
  predicate ZeroFreeTable(table: seq<Bytes>)
  {
    forall i :: 0 <= i < |table| ==> 0 !in table[i]
  }

  lemma {:induction false} FirstZeroAppend(z: Bytes, q: Bytes)
    requires 0 !in z
    ensures FirstZero(z + q) == |z| + FirstZero(q)
  {
    if z == [] {
      assert z + q == q;
    } else {
      assert z[0] in z;
      assert (z + q)[1..] == z[1..] + q;
      FirstZeroAppend(z[1..], q);
    }
  }

  lemma {:induction false} FirstZeroPrefix(q: Bytes)
    ensures 0 !in q[..FirstZero(q)]
  {
    if q != [] && q[0] != 0 {
      FirstZeroPrefix(q[1..]);
      assert q[..FirstZero(q)] == [q[0]] + q[1..][..FirstZero(q[1..])];
    }
  }

  lemma {:induction false} ExpandZeroFree(z: Bytes, q: Bytes, markers: seq<nat>, table: seq<Bytes>)
    requires 0 !in z
    ensures Expand(z + q, markers, table) == z + Expand(q, markers, table)
  {
    if z == [] {
      assert z + q == q;
    } else {
      assert z[0] in z;
      assert (z + q)[1..] == z[1..] + q;
      ExpandZeroFree(z[1..], q, markers, table);
      assert z == [z[0]] + z[1..];
      AppendAssoc([z[0]], z[1..], Expand(q, markers, table));
    }
  }

  lemma {:induction false} ExpandNoMarkers(q: Bytes, table: seq<Bytes>)
    ensures Expand(q, [], table) == q
  {
    if q != [] {
      ExpandNoMarkers(q[1..], table);
    }
  }

  /** One replacement: the entry goes in at `at`, and the next search
      lands on the next '\0' after the original one. */
  lemma ReplaceStep(name: Bytes, at: nat, r: Bytes)
    requires at < |name| && 0 !in r
    ensures var q := name[at + 1..];
            var name' := name[..at] + r + q;
            var at' := FindZero(name', at);
            at' == at + |r| + FirstZero(q)
            && name'[..at'] == name[..at] + r + q[..FirstZero(q)]
            && name'[at'..] == q[FirstZero(q)..]
  {
    var q := name[at + 1..];
    var name' := name[..at] + r + q;
    assert name'[at..] == r + q;
    FirstZeroAppend(r, q);
  }

  /** A placeholder takes the next marker's entry. */
  lemma ExpandAtZero(t: Bytes, markers: seq<nat>, table: seq<Bytes>)
    requires t != [] && t[0] == 0 && markers != []
    ensures Expand(t, markers, table) == Lookup(table, markers[0]) + Expand(t[1..], markers[1..], table)
  {
  }

  /** The run before the first placeholder is copied. */
  lemma ExpandRun(q: Bytes, markers: seq<nat>, table: seq<Bytes>)
    ensures Expand(q, markers, table) == q[..FirstZero(q)] + Expand(q[FirstZero(q)..], markers, table)
  {
    var j := FirstZero(q);
    FirstZeroPrefix(q);
    ExpandZeroFree(q[..j], q[j..], markers, table);
    assert q[..j] + q[j..] == q;
  }

  /** The reference reading of a suffix that starts at a placeholder. */
  lemma ExpandStep(name: Bytes, at: nat, markers: seq<nat>, table: seq<Bytes>)
    requires at < |name| && name[at] == 0 && markers != []
    ensures var q := name[at + 1..];
            Expand(name[at..], markers, table)
            == Lookup(table, markers[0]) + q[..FirstZero(q)] + Expand(q[FirstZero(q)..], markers[1..], table)
  {
    var q := name[at + 1..];
    ExpandAtZero(name[at..], markers, table);
    assert name[at..][1..] == q;
    ExpandRun(q, markers[1..], table);
  }

  lemma LookupZeroFree(table: seq<Bytes>, i: nat)
    requires ZeroFreeTable(table)
    ensures 0 !in Lookup(table, i)
  {
  }

  /** One round of the placeholder loop, given the rounds after it. */
  lemma ResolveStep(name: Bytes, at: nat, markers: seq<nat>, table: seq<Bytes>, name': Bytes, at': nat)
    requires at < |name| && name[at] == 0 && markers != [] && 0 !in Lookup(table, markers[0])
    requires name' == name[..at] + Lookup(table, markers[0]) + name[at + 1..] && at' == FindZero(name', at)
    requires ResolveFrom(name', at', markers[1..], table) == name'[..at'] + Expand(name'[at'..], markers[1..], table)
    ensures ResolveFrom(name, at, markers, table) == name[..at] + Expand(name[at..], markers, table)
  {
    var r := Lookup(table, markers[0]);
    var q := name[at + 1..];
    var left, run, tail := name[..at], q[..FirstZero(q)], q[FirstZero(q)..];
    ReplaceStep(name, at, r);
    assert name'[..at'] == left + r + run && name'[at'..] == tail;
    ExpandStep(name, at, markers, table);
    var e := Expand(tail, markers[1..], table);
    assert Expand(name[at..], markers, table) == r + run + e;
    assert ResolveFrom(name, at, markers, table) == ResolveFrom(name', at', markers[1..], table);
    AppendAssoc(left + r, run, e);
    AppendAssoc(left, r, run + e);
    AppendAssoc(r, run, e);
  }

  lemma {:induction false} ResolveFromExpand(name: Bytes, at: nat, markers: seq<nat>, table: seq<Bytes>)
    requires ZeroFreeTable(table) && at <= |name| && (at < |name| ==> name[at] == 0)
    ensures ResolveFrom(name, at, markers, table) == name[..at] + Expand(name[at..], markers, table)
    decreases |markers|
  {
    if at == |name| {
      assert name[..at] == name;
    } else if markers == [] {
      ExpandNoMarkers(name[at..], table);
      assert name[..at] + name[at..] == name;
    } else {
      var name' := name[..at] + Lookup(table, markers[0]) + name[at + 1..];
      var at' := FindZero(name', at);
      ResolveFromExpand(name', at', markers[1..], table);
      LookupZeroFree(table, markers[0]);
      ResolveStep(name, at, markers, table, name', at');
    }
  }

  /** While the dictionary holds no placeholders itself, the in-place loop
      computes the one-pass reading: each '\0' left to right takes the next
      marker's entry, in marker order, until either runs out. */
  lemma ResolveIsExpand(name: Bytes, markers: seq<nat>, table: seq<Bytes>)
    requires ZeroFreeTable(table)
    ensures Resolve(name, markers, table) == Expand(name, markers, table)
  {
    var at := FindZero(name, 0);
    assert name[0..] == name;
    ResolveFromExpand(name, at, markers, table);
    ExpandRun(name, markers, table);
  }

  // ---------------------------------------------------------------------
  // Locations

  /** `loadLocation`'s field loop: file name (1), file id (2), line (3),
      column (4). */
  function LocationFields(sub: Bytes, fileName: Bytes, fileId: nat, line: int, column: int): (Bytes, nat, int, int)
    decreases |sub|
  {
    if sub == [] then (fileName, fileId, line, column)
    else
      var (key, rest) := Key(sub);
      if key == StringWire(1) then
        var (s, rest') := LoadString(rest);
        LocationFields(rest', s, fileId, line, column)
      else if key == VarIntWire(2) then
        var (v, rest') := VarInt(rest);
        LocationFields(rest', fileName, v, line, column)
      else if key == VarIntWire(3) then
        var (v, rest') := VarInt(rest);
        LocationFields(rest', fileName, fileId, ToInt32(v), column)
      else if key == VarIntWire(4) then
        var (v, rest') := VarInt(rest);
        LocationFields(rest', fileName, fileId, line, ToInt32(v))
      else LocationFields(SkipData(rest, key), fileName, fileId, line, column)
  }

  /** The file table grown (with "") so that `fileId` is an index. */
  function Grow(table: seq<Bytes>, fileId: nat): (r: seq<Bytes>)
    ensures |r| == if fileId < |table| then |table| else fileId + 1
    ensures r[..|table|] == table
    ensures forall j :: |table| <= j < |r| ==> r[j] == []
  {
    if fileId < |table| then table else table + seq(fileId + 1 - |table|, _ => [])
  }

  /** A location and the file table after it: with a file id, a name is stored
      at that id, and a missing name is read from the table. */
  function Location(sub: Bytes, table: seq<Bytes>): (Bytes, int, int, seq<Bytes>)
  {
    var (fileName, fileId, line, column) := LocationFields(sub, [], NO_FILE_ID, 0, 0);
    if fileId == NO_FILE_ID then (fileName, line, column, table)
    else
      var grown := Grow(table, fileId);
      if fileName != [] then (fileName, line, column, grown[fileId := fileName])
      else (grown[fileId], line, column, grown)
  }

  /** A location never shrinks the file table, and the only entry it can
      change is the one it names, which then holds the location's name. */
  lemma LocationUpdatesTable(sub: Bytes, table: seq<Bytes>)
    ensures var (f, _, _, table') := Location(sub, table);
            |table'| >= |table| && forall j | 0 <= j < |table| && table'[j] != table[j] :: table'[j] == f
  {
    var (fileName, fileId, line, column) := LocationFields(sub, [], NO_FILE_ID, 0, 0);
    if fileId != NO_FILE_ID {
      var grown := Grow(table, fileId);
      forall j | 0 <= j < |table|
        ensures grown[j] == table[j]
      {
        assert grown[..|table|][j] == grown[j];
      }
    }
  }

  // ---------------------------------------------------------------------
  // Template names, Begin and End entries

  /** `loadTemplateName`'s loop: a literal (1), a compressed name (2, "" when
      it does not inflate) or a dictionary index (3). */
  function TemplateNameFields(sub: Bytes, name: Bytes, table: seq<Bytes>, inflate: Bytes -> Option<Bytes>): Bytes
    decreases |sub|
  {
    if sub == [] then name
    else
      var (key, rest) := Key(sub);
      if key == StringWire(1) then
        var (s, rest') := LoadString(rest);
        TemplateNameFields(rest', s, table, inflate)
      else if key == StringWire(2) then
        var (s, rest') := LoadString(rest);
        var n := match inflate(s) case Some(u) => u case None => [];
        TemplateNameFields(rest', n, table, inflate)
      else if key == VarIntWire(3) then
        var (v, rest') := VarInt(rest);
        TemplateNameFields(rest', Lookup(table, v), table, inflate)
      else TemplateNameFields(SkipData(rest, key), name, table, inflate)
  }

  /** A template name is the literal of field 1, or the dictionary entry
      that field 3 names ("" for an index never defined). */
  lemma TemplateNameRead(literal: Bytes, index: nat, table: seq<Bytes>, inflate: Bytes -> Option<Bytes>)
    requires |literal| < TWO_32 && index < TWO_64
    ensures TemplateNameFields(FieldString(1, literal), [], table, inflate) == literal
    ensures TemplateNameFields(FieldVarInt(3, index), [], table, inflate) == Lookup(table, index)
  {
    FieldStringRead(1, literal, []);
    ModSmall(StringWire(1), TWO_32);
    assert FieldString(1, literal) + [] == FieldString(1, literal);
    assert literal + [] == literal;
    FieldVarIntRead(3, index, []);
    ModSmall(VarIntWire(3), TWO_32);
    assert FieldVarInt(3, index) + [] == FieldVarInt(3, index);
    assert EncodeVarInt(index) + [] == EncodeVarInt(index);
  }

  /** `loadBeginEntry`'s loop; locations update the file table. */
  function BeginFields(sub: Bytes, e: Begin, files: seq<Bytes>, names: seq<Bytes>,
                       inflate: Bytes -> Option<Bytes>): (Begin, seq<Bytes>)
    decreases |sub|
  {
    if sub == [] then (e, files)
    else
      var (key, rest) := Key(sub);
      if key == VarIntWire(1) then
        var (v, rest') := VarInt(rest);
        BeginFields(rest', e.(kind := ToInt32(v)), files, names, inflate)
      else if key == StringWire(2) then
        var (size, rest') := VarInt(rest);
        var n := TemplateNameFields(Slice(rest', 0, size), [], names, inflate);
        BeginFields(DropFront(rest', size), e.(name := n), files, names, inflate)
      else if key == StringWire(3) then
        var (size, rest') := VarInt(rest);
        var (f, l, c, files') := Location(Slice(rest', 0, size), files);
        BeginFields(DropFront(rest', size), e.(fileName := f, line := l, column := c), files', names, inflate)
      else if key == DoubleWire(4) then
        var (d, rest') := LoadDouble(rest);
        BeginFields(rest', e.(timeStamp := d), files, names, inflate)
      else if key == VarIntWire(5) then
        var (v, rest') := VarInt(rest);
        BeginFields(rest', e.(memory := v), files, names, inflate)
      else if key == StringWire(6) then
        var (size, rest') := VarInt(rest);
        var (f, l, c, files') := Location(Slice(rest', 0, size), files);
        BeginFields(DropFront(rest', size), e.(oriFileName := f, oriLine := l, oriColumn := c), files', names, inflate)
      else BeginFields(SkipData(rest, key), e, files, names, inflate)
  }

  function EndFields(sub: Bytes, e: End): End
    decreases |sub|
  {
    if sub == [] then e
    else
      var (key, rest) := Key(sub);
      if key == DoubleWire(1) then
        var (d, rest') := LoadDouble(rest);
        EndFields(rest', e.(timeStamp := d))
      else if key == VarIntWire(2) then
        var (v, rest') := VarInt(rest);
        EndFields(rest', e.(memory := v))
      else EndFields(SkipData(rest, key), e)
  }

  // ---------------------------------------------------------------------
  // The reader

  datatype ReaderState = ReaderState(
    buffer: Bytes,
    remainder: Bytes,
    lastChunk: Chunk,
    version: nat,
    sourceName: Bytes,
    lastBegin: Begin,
    lastEnd: End,
    fileNameMap: seq<Bytes>,
    templateNameMap: seq<Bytes>)

  /** Kind, name, time stamp and memory start over; the location and origin
      keep their previous values until one is read. */
  function ResetBegin(e: Begin): Begin
  {
    e.(kind := 0, name := [], timeStamp := ZERO_DOUBLE, memory := 0)
  }

  function HeaderState(sub: Bytes, s: ReaderState): ReaderState
  {
    var (v, n) := HeaderFields(sub, 0, []);
    s.(version := v, sourceName := n, lastChunk := Header)
  }

  function BeginState(sub: Bytes, s: ReaderState, inflate: Bytes -> Option<Bytes>): ReaderState
  {
    var (e, files) := BeginFields(sub, ResetBegin(s.lastBegin), s.fileNameMap, s.templateNameMap, inflate);
    s.(lastBegin := e, fileNameMap := files, lastChunk := BeginEntry)
  }

  function EndState(sub: Bytes, s: ReaderState): ReaderState
  {
    s.(lastEnd := EndFields(sub, EMPTY_END), lastChunk := EndEntry)
  }

  /** `startOnBuffer`: the file table is cleared first, whatever follows. */
  function StartState(a: Bytes, s: ReaderState, inflate: Bytes -> Option<Bytes>): ReaderState
    decreases |a|, 0
  {
    var s0 := s.(fileNameMap := []);
    var (key, rest) := Key(a);
    if key != StringWire(1) then
      s0.(buffer := [], remainder := [], lastChunk := EndOfFile)
    else
      var (size, rest') := VarInt(rest);
      SliceSplit(rest', size);
      NextState(s0.(buffer := Slice(rest', 0, size), remainder := Slice(rest', size, |rest'|)), inflate)
  }

  /** `next`: one top-level frame of the open trace. */
  function NextState(s: ReaderState, inflate: Bytes -> Option<Bytes>): ReaderState
    decreases |s.buffer| + |s.remainder|, 1
  {
    if s.buffer == [] then
      if s.remainder == [] then s.(lastChunk := EndOfFile)
      else StartState(s.remainder, s, inflate)
    else
      var (key, rest) := Key(s.buffer);
      if key == StringWire(1) then
        var (size, rest') := VarInt(rest);
        HeaderState(Slice(rest', 0, size), s.(buffer := DropFront(rest', size)))
      else if key == StringWire(2) then
        var (size, rest') := VarInt(rest);
        var sub := Slice(rest', 0, size);
        var s' := s.(buffer := DropFront(rest', size));
        var (inner, sub') := Key(sub);
        var (_, sub'') := VarInt(sub');
        if inner == StringWire(1) then BeginState(sub'', s', inflate)
        else if inner == StringWire(2) then EndState(sub'', s')
        else s'
      else if key == StringWire(3) then
        var (size, rest') := VarInt(rest);
        var names := DictionaryEntry(Slice(rest', 0, size), s.templateNameMap);
        s.(buffer := DropFront(rest', size), templateNameMap := names, lastChunk := Other)
      else NextState(s.(buffer := SkipData(rest, key)), inflate)
  }

  /** Every call to `next` consumes input: the cursors never grow, and they
      shrink unless both were already empty. */
  lemma {:induction false} NextConsumes(s: ReaderState, inflate: Bytes -> Option<Bytes>)
    ensures |NextState(s, inflate).buffer| + |NextState(s, inflate).remainder| <= |s.buffer| + |s.remainder|
    ensures s.buffer != [] || s.remainder != [] ==>
              |NextState(s, inflate).buffer| + |NextState(s, inflate).remainder| < |s.buffer| + |s.remainder|
    decreases |s.buffer| + |s.remainder|, 1
  {
    if s.buffer == [] {
      if s.remainder != [] {
        StartConsumes(s.remainder, s, inflate);
      }
    } else {
      var (key, rest) := Key(s.buffer);
      if key != StringWire(1) && key != StringWire(2) && key != StringWire(3) {
        NextConsumes(s.(buffer := SkipData(rest, key)), inflate);
      }
    }
  }

  lemma {:induction false} StartConsumes(a: Bytes, s: ReaderState, inflate: Bytes -> Option<Bytes>)
    ensures |StartState(a, s, inflate).buffer| + |StartState(a, s, inflate).remainder| <= |a|
    ensures a != [] ==> |StartState(a, s, inflate).buffer| + |StartState(a, s, inflate).remainder| < |a|
    decreases |a|, 0
  {
    var (key, rest) := Key(a);
    if key == StringWire(1) {
      var (size, rest') := VarInt(rest);
      SliceSplit(rest', size);
      NextConsumes(s.(fileNameMap := [], buffer := Slice(rest', 0, size), remainder := Slice(rest', size, |rest'|)), inflate);
    }
  }

  /** The end of file: with both cursors empty `next` reports it and changes
      nothing else; it is reported with non-empty cursors only if it was
      already the last chunk (an entry of an unknown kind keeps the last
      chunk as it was). */
  lemma {:induction false} NextEndOfFile(s: ReaderState, inflate: Bytes -> Option<Bytes>)
    ensures s.buffer == [] && s.remainder == [] ==> NextState(s, inflate) == s.(lastChunk := EndOfFile)
    ensures NextState(s, inflate).lastChunk == EndOfFile ==>
              (NextState(s, inflate).buffer == [] && NextState(s, inflate).remainder == []) || s.lastChunk == EndOfFile
    decreases |s.buffer| + |s.remainder|, 1
  {
    if s.buffer == [] {
      if s.remainder != [] {
        StartEndOfFile(s.remainder, s, inflate);
      }
    } else {
      var (key, rest) := Key(s.buffer);
      if key != StringWire(1) && key != StringWire(2) && key != StringWire(3) {
        NextEndOfFile(s.(buffer := SkipData(rest, key)), inflate);
      }
    }
  }

  lemma {:induction false} StartEndOfFile(a: Bytes, s: ReaderState, inflate: Bytes -> Option<Bytes>)
    ensures StartState(a, s, inflate).lastChunk == EndOfFile ==>
              (StartState(a, s, inflate).buffer == [] && StartState(a, s, inflate).remainder == [])
              || s.lastChunk == EndOfFile
    decreases |a|, 0
  {
    var (key, rest) := Key(a);
    if key == StringWire(1) {
      var (size, rest') := VarInt(rest);
      SliceSplit(rest', size);
      NextEndOfFile(s.(fileNameMap := [], buffer := Slice(rest', 0, size), remainder := Slice(rest', size, |rest'|)), inflate);
    }
  }

  /** `startOnBuffer` on a `traces` frame opens exactly that frame, with an
      empty file table, and keeps what follows for later. */
  lemma StartOnTrace(trace: Bytes, more: Bytes, s: ReaderState, inflate: Bytes -> Option<Bytes>)
    requires |trace| < TWO_32
    ensures StartState(FieldString(1, trace) + more, s, inflate)
            == NextState(s.(fileNameMap := [], buffer := trace, remainder := more), inflate)
  {
    FrameRead(1, trace, more);
  }

  /** A top-level frame with a field number other than 1, 2 and 3 is skipped
      whole and reading goes on with the next frame. */
  lemma UnknownFrameSkipped(field: nat, contents: Bytes, rest: Bytes, s: ReaderState, inflate: Bytes -> Option<Bytes>)
    requires IsFieldNumber(field) && field != 1 && field != 2 && field != 3 && |contents| < TWO_32
    ensures NextState(s.(buffer := FieldString(field, contents) + rest), inflate)
            == NextState(s.(buffer := rest), inflate)
  {
    FrameRead(field, contents, rest);
    SkipStringExact(contents, rest);
    assert FieldString(field, contents) + rest == EncodeVarInt(StringWire(field)) + (SaveString(contents) + rest);
  }

  /** A dictionary frame appends one resolved name to the template-name
      table and touches nothing else; the last chunk says `Other`. */
  lemma DictionaryFrameRead(contents: Bytes, rest: Bytes, s: ReaderState, inflate: Bytes -> Option<Bytes>)
    requires |contents| < TWO_32
    ensures NextState(s.(buffer := FieldString(3, contents) + rest), inflate)
            == s.(buffer := rest, templateNameMap := DictionaryEntry(contents, s.templateNameMap), lastChunk := Other)
  {
    FrameRead(3, contents, rest);
  }

  /** An entry frame is classified by the key of its alternative: Begin (1)
      and End (2) are decoded from their message; any other alternative is
      consumed and leaves everything else as it was. */
  lemma EntryFrameDispatch(alternative: nat, contents: Bytes, rest: Bytes, s: ReaderState,
                           inflate: Bytes -> Option<Bytes>)
    requires IsFieldNumber(alternative)
    requires |FieldString(alternative, contents)| < TWO_32 && |contents| < TWO_32
    ensures NextState(s.(buffer := FieldString(2, FieldString(alternative, contents)) + rest), inflate)
            == if alternative == 1 then BeginState(contents, s.(buffer := rest), inflate)
               else if alternative == 2 then EndState(contents, s.(buffer := rest))
               else s.(buffer := rest)
  {
    var inner := FieldString(alternative, contents);
    FrameRead(2, inner, rest);
    FrameRead(alternative, contents, []);
    assert inner + [] == inner;
    assert contents + [] == contents;
  }

  class Reader {
    var buffer: Bytes
    var remainder: Bytes
    var lastChunk: Chunk
    var version: nat
    var sourceName: Bytes
    var lastBegin: Begin
    var lastEnd: End
    var fileNameMap: seq<Bytes>
    var templateNameMap: seq<Bytes>
    /** zlib's `uncompress`, outside the model. */
    const inflate: Bytes -> Option<Bytes>

    function Snapshot(): ReaderState
      reads this
    {
      ReaderState(buffer, remainder, lastChunk, version, sourceName, lastBegin, lastEnd,
                  fileNameMap, templateNameMap)
    }

    constructor(inflate: Bytes -> Option<Bytes>)
      ensures Snapshot() == ReaderState([], [], EndOfFile, 0, [], EMPTY_BEGIN, EMPTY_END, [], [])
      ensures this.inflate == inflate
    {
      buffer, remainder, lastChunk := [], [], EndOfFile;
      version, sourceName := 0, [];
      lastBegin, lastEnd := EMPTY_BEGIN, EMPTY_END;
      fileNameMap, templateNameMap := [], [];
      this.inflate := inflate;
    }

    method LoadHeader(sub: Bytes)
      modifies this
      ensures Snapshot() == HeaderState(sub, old(Snapshot()))
    {
      var v: nat, n: Bytes := 0, [];
      var cursor := sub;
      while cursor != []
        invariant HeaderFields(cursor, v, n) == HeaderFields(sub, 0, [])
        invariant unchanged(this)
        decreases |cursor|
      {
        var k, rest := LoadVarInt(cursor);
        var key := k % TWO_32;
        if key == VarIntWire(1) {
          var u;
          u, cursor := LoadVarInt(rest);
          v := u % TWO_32;
        } else if key == StringWire(2) {
          n, cursor := LoadString(rest).0, LoadString(rest).1;
        } else {
          cursor := SkipData(rest, key);
        }
      }
      version, sourceName, lastChunk := v, n, Header;
    }

    /** `loadDictionaryEntry`: reads the name and markers, fills the
        placeholders in place, and appends the name to the dictionary. */
    method LoadDictionaryEntry(sub: Bytes)
      modifies this
      ensures Snapshot() == old(Snapshot()).(templateNameMap := DictionaryEntry(sub, old(templateNameMap)))
    {
      var name: Bytes, markers: seq<nat> := [], [];
      var cursor := sub;
      while cursor != []
        invariant DictionaryFields(cursor, name, markers) == DictionaryFields(sub, [], [])
        invariant unchanged(this)
        decreases |cursor|
      {
        var k, rest := LoadVarInt(cursor);
        var key := k % TWO_32;
        if key == StringWire(1) {
          name, cursor := LoadString(rest).0, LoadString(rest).1;
        } else if key == VarIntWire(2) {
          var v;
          v, cursor := LoadVarInt(rest);
          markers := markers + [v];
        } else {
          cursor := SkipData(rest, key);
        }
      }
      ghost var resolved := Resolve(name, markers, templateNameMap);
      var at: nat := FindZero(name, 0);
      var k := 0;
      while at < |name| && k < |markers|
        invariant at <= |name| && k <= |markers|
        invariant ResolveFrom(name, at, markers[k..], templateNameMap) == resolved
        decreases |markers| - k
      {
        var offset := at;
        name := name[..at] + Lookup(templateNameMap, markers[k]) + name[at + 1..];
        at := FindZero(name, offset);
        k := k + 1;
      }
      templateNameMap := templateNameMap + [name];
    }

    /** The static `loadLocation`, with the file table passed by reference. */
    method LoadLocation(sub: Bytes) returns (fileName: Bytes, line: int, column: int)
      modifies this
      ensures (fileName, line, column, fileNameMap) == Location(sub, old(fileNameMap))
      ensures Snapshot() == old(Snapshot()).(fileNameMap := fileNameMap)
    {
      var fileId: nat;
      fileName, fileId, line, column := [], NO_FILE_ID, 0, 0;
      var cursor := sub;
      while cursor != []
        invariant LocationFields(cursor, fileName, fileId, line, column) == LocationFields(sub, [], NO_FILE_ID, 0, 0)
        invariant unchanged(this)
        decreases |cursor|
      {
        var k, rest := LoadVarInt(cursor);
        var key := k % TWO_32;
        if key == StringWire(1) {
          fileName, cursor := LoadString(rest).0, LoadString(rest).1;
        } else if key == VarIntWire(2) {
          fileId, cursor := LoadVarInt(rest);
        } else if key == VarIntWire(3) {
          var v;
          v, cursor := LoadVarInt(rest);
          line := ToInt32(v);
        } else if key == VarIntWire(4) {
          var v;
          v, cursor := LoadVarInt(rest);
          column := ToInt32(v);
        } else {
          cursor := SkipData(rest, key);
        }
      }
      if fileId != NO_FILE_ID {
        if |fileNameMap| <= fileId {
          fileNameMap := fileNameMap + seq(fileId + 1 - |fileNameMap|, _ => []);
        }
        if fileName != [] {
          fileNameMap := fileNameMap[fileId := fileName];
        } else {
          fileName := fileNameMap[fileId];
        }
      }
    }

    /** `loadTemplateName`: sets the Begin entry's name. */
    method LoadTemplateName(sub: Bytes)
      modifies this
      ensures Snapshot() == old(Snapshot()).(lastBegin := old(lastBegin).(
                name := TemplateNameFields(sub, [], templateNameMap, inflate)))
    {
      var name: Bytes := [];
      var cursor := sub;
      while cursor != []
        invariant TemplateNameFields(cursor, name, templateNameMap, inflate)
                  == TemplateNameFields(sub, [], templateNameMap, inflate)
        invariant unchanged(this)
        decreases |cursor|
      {
        var k, rest := LoadVarInt(cursor);
        var key := k % TWO_32;
        if key == StringWire(1) {
          name, cursor := LoadString(rest).0, LoadString(rest).1;
        } else if key == StringWire(2) {
          var compressed;
          compressed, cursor := LoadString(rest).0, LoadString(rest).1;
          match inflate(compressed) {
            case Some(u) => name := u;
            case None => name := [];
          }
        } else if key == VarIntWire(3) {
          var v;
          v, cursor := LoadVarInt(rest);
          name := Lookup(templateNameMap, v);
        } else {
          cursor := SkipData(rest, key);
        }
      }
      lastBegin := lastBegin.(name := name);
    }

    method LoadBeginEntry(sub: Bytes)
      modifies this
      ensures Snapshot() == BeginState(sub, old(Snapshot()), inflate)
    {
      lastBegin := ResetBegin(lastBegin);
      var cursor := sub;
      while cursor != []
        invariant BeginFields(cursor, lastBegin, fileNameMap, templateNameMap, inflate)
                  == BeginFields(sub, ResetBegin(old(lastBegin)), old(fileNameMap), old(templateNameMap), inflate)
        invariant Snapshot() == old(Snapshot()).(lastBegin := lastBegin, fileNameMap := fileNameMap)
        decreases |cursor|
      {
        var k, rest := LoadVarInt(cursor);
        var key := k % TWO_32;
        if key == VarIntWire(1) {
          var v;
          v, cursor := LoadVarInt(rest);
          lastBegin := lastBegin.(kind := ToInt32(v));
        } else if key == StringWire(2) {
          var size, rest' := LoadVarInt(rest);
          LoadTemplateName(Slice(rest', 0, size));
          cursor := DropFront(rest', size);
        } else if key == StringWire(3) {
          var size, rest' := LoadVarInt(rest);
          var f, l, c := LoadLocation(Slice(rest', 0, size));
          lastBegin := lastBegin.(fileName := f, line := l, column := c);
          cursor := DropFront(rest', size);
        } else if key == DoubleWire(4) {
          lastBegin, cursor := lastBegin.(timeStamp := LoadDouble(rest).0), LoadDouble(rest).1;
        } else if key == VarIntWire(5) {
          var v;
          v, cursor := LoadVarInt(rest);
          lastBegin := lastBegin.(memory := v);
        } else if key == StringWire(6) {
          var size, rest' := LoadVarInt(rest);
          var f, l, c := LoadLocation(Slice(rest', 0, size));
          lastBegin := lastBegin.(oriFileName := f, oriLine := l, oriColumn := c);
          cursor := DropFront(rest', size);
        } else {
          cursor := SkipData(rest, key);
        }
      }
      lastChunk := BeginEntry;
    }

    method LoadEndEntry(sub: Bytes)
      modifies this
      ensures Snapshot() == EndState(sub, old(Snapshot()))
    {
      var e := EMPTY_END;
      var cursor := sub;
      while cursor != []
        invariant EndFields(cursor, e) == EndFields(sub, EMPTY_END)
        invariant unchanged(this)
        decreases |cursor|
      {
        var k, rest := LoadVarInt(cursor);
        var key := k % TWO_32;
        if key == DoubleWire(1) {
          e, cursor := e.(timeStamp := LoadDouble(rest).0), LoadDouble(rest).1;
        } else if key == VarIntWire(2) {
          var v;
          v, cursor := LoadVarInt(rest);
          e := e.(memory := v);
        } else {
          cursor := SkipData(rest, key);
        }
      }
      lastEnd, lastChunk := e, EndEntry;
    }

    method StartOnBuffer(a: Bytes) returns (c: Chunk)
      modifies this
      ensures Snapshot() == StartState(a, old(Snapshot()), inflate) && c == lastChunk
      decreases |a|, 0
    {
      buffer := a;
      fileNameMap := [];
      var k, rest := LoadVarInt(buffer);
      buffer := rest;
      if k % TWO_32 != StringWire(1) {
        buffer, remainder, lastChunk := [], [], EndOfFile;
        return lastChunk;
      }
      var size, rest' := LoadVarInt(buffer);
      SliceSplit(rest', size);
      remainder := Slice(rest', size, |rest'|);
      buffer := Slice(rest', 0, size);
      c := Next();
    }

    method Next() returns (c: Chunk)
      modifies this
      ensures Snapshot() == NextState(old(Snapshot()), inflate) && c == lastChunk
      decreases |buffer| + |remainder|, 1
    {
      if buffer == [] {
        if remainder == [] {
          lastChunk := EndOfFile;
          return lastChunk;
        }
        c := StartOnBuffer(remainder);
        return;
      }
      var k, rest := LoadVarInt(buffer);
      var key := k % TWO_32;
      if key == StringWire(1) {
        var size, rest' := LoadVarInt(rest);
        LoadHeader(Slice(rest', 0, size));
        buffer := DropFront(rest', size);
        return lastChunk;
      } else if key == StringWire(2) {
        var size, rest' := LoadVarInt(rest);
        var sub := Slice(rest', 0, size);
        buffer := DropFront(rest', size);
        var inner, sub' := LoadVarInt(sub);
        var _, sub'' := LoadVarInt(sub');
        if inner % TWO_32 == StringWire(1) {
          LoadBeginEntry(sub'');
        } else if inner % TWO_32 == StringWire(2) {
          LoadEndEntry(sub'');
        }
        return lastChunk;
      } else if key == StringWire(3) {
        var size, rest' := LoadVarInt(rest);
        LoadDictionaryEntry(Slice(rest', 0, size));
        buffer := DropFront(rest', size);
        lastChunk := Other;
        return lastChunk;
      } else {
        buffer := SkipData(rest, key);
        c := Next();
      }
    }
  }
}
