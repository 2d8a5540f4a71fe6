# Templight core, modelled in Dafny

Templight is a template-instantiation profiler and debugger for Clang. While
a translation unit is compiled, it sees every template instantiation begin and
end. Each of these events becomes a *trace entry*. Entries go to one of three
places:

- to a trace file, written in a small subset of the Protocol Buffers wire
  format (`ThinProtobuf.h`);
- to one of several alternative writers (XML, text, YAML, GraphML, Graphviz,
  call-graph trees);
- to an interactive, gdb-like debugger.

The Dafny project models the parts of that pipeline that compute values or
keep state. Each part is proved against a specification.

| module (file) | what it models |
|---|---|
| `ThinProtobuf` (thin_protobuf.dfy), `Bits` (bits.dfy) | varint, zig-zag, fixed-width and length-delimited encoding and decoding, field keys, and skipping unknown fields |
| `ProtobufWriter` (protobuf_writer.dfy) | the protobuf trace writer: the header, the file-name table and Begin/End entries |
| `ReaderV1` (reader_v1.dfy) | the older trace reader |
| `LibReader` (reader.dfy) | the library trace reader, including the dictionary of template-name fragments |
| `RoundTrip`, `RoundTripLib` (round_trip*.dfy) | what each reader recovers from the writer's output |
| `EntryPrinter`, `ConvertPrinter` (entry_printer.dfy, convert_printer.dfy) | the entry printers: blacklist filtering, skipping of whole subtrees, and the blacklist file parser |
| `Tracer`, `TracerV1` (tracer.dfy, tracer_v1.dfy) | the two tracers: the parent-linked entry cache, memoization filtering, and buffered against direct printing |
| `XmlEscape` (xml_escape.dfy) | `escapeXml` |
| `ExtraWriters` (extra_writers.dfy) | the recorded tree of entries, its depth-first replay, and the GraphML and Graphviz node and edge streams |
| `Debugger` (debugger.dfy) | the debugger's command tokenizer and interpreter, its breakpoints, its stack of entries, and the session loop |
| `Action`, `LibAction` (action.dfy, lib_action.dfy) | the choice of the trace file's name in both trees |
| `Driver` (driver.dfy) | the driver's choice of its name suffix, and its split of the command line into templight options and Clang options |

Conventions used throughout the model:

- Byte buffers are `seq<byte>`, where `byte` is the integers 0 to 255; a string handled as bytes is `seq<byte>` and a string handled as text is `string`.
- Integer widths are written out where the source relies on them:
  - `unsigned int` and `std::uint64_t` are reduced modulo 2^32 and 2^64;
  - `int` is read as two's complement;
  - the `int`-width shift in `loadVarInt` is modelled only by `VarIntAsWritten` and the lemmas about it (see Findings); every reader uses the corrected 64-bit decoder `VarInt`.
- Inputs the code reads from outside become parameters:
  - file contents (the trace, a blacklist file);
  - the lines typed at the debugger prompt;
  - whether an output file could be opened;
  - the verdict of a regular-expression match;
  - clock and memory probes.
- Output streams become sequences of calls or of bytes. Each class keeps a field for what it has written.

## Model

| member | source | states |
|---|---|---|
| ThinProtobuf.VarIntWire | include/ThinProtobuf.h:61-63 | the key names the field (key / 8) and the varint wire type 0 (key % 8) |
| ThinProtobuf.DoubleWire | include/ThinProtobuf.h:93-95 | the key names the field and the 64-bit wire type 1 |
| ThinProtobuf.StringWire | include/ThinProtobuf.h:139-141 | the key names the field and the length-delimited wire type 2 |
| ThinProtobuf.FloatWire | include/ThinProtobuf.h:112-114 | the key names the field and the 32-bit wire type 5 |
| ThinProtobuf.VarInt | include/ThinProtobuf.h:44-59 | decoding a varint never lengthens the buffer and consumes at least one byte of a non-empty one |
| ThinProtobuf.VarIntLengthShape | include/ThinProtobuf.h:44-59 | every byte a varint consumes except the last has its continuation bit set, and the last is clear unless the buffer ran out |
| ThinProtobuf.VarIntConsumes | include/ThinProtobuf.h:44-59 | the rest after a varint is the buffer minus its first VarIntLength bytes |
| ThinProtobuf.VarIntBound | include/ThinProtobuf.h:44-59 | a decoded varint is below 2^64, with each group shifted in 64 bits |
| ThinProtobuf.LoadVarInt | include/ThinProtobuf.h:44-59 | the imperative loop, shifting in 64 bits as corrected, returns the value and the rest that VarInt specifies; the source's `int` shift is VarIntAsWritten |
| ThinProtobuf.EncodeVarIntShape | include/ThinProtobuf.h:173-187 | every encoded byte except the last has bit 7 set, the last has it clear, and the encoding is never empty |
| ThinProtobuf.EncodeVarIntAtMost10 | include/ThinProtobuf.h:173-187 | a 64-bit value takes at most 10 bytes |
| ThinProtobuf.EncodeVarIntAtLeast10 | include/ThinProtobuf.h:195-200 | a value at or above 2^63 (every negative `int` that `saveInt` writes) takes at least 10 bytes, so exactly 10 with EncodeVarIntAtMost10 |
| ThinProtobuf.SaveVarInt | include/ThinProtobuf.h:173-187 | the imperative loop writes the 7-bit groups least significant first, as EncodeVarInt defines them |
| ThinProtobuf.VarIntRoundTrip | include/ThinProtobuf.h:44-59 | decoding with 64-bit shifts gives back every value below 2^64 that saveVarInt wrote, and the bytes that follow |
| ThinProtobuf.VarIntAsWrittenRoundTrip | include/ThinProtobuf.h:44-59 | with the shift done in `int`, as written, the round trip still holds for values below 2^31 |
| ThinProtobuf.VarIntAsWrittenFailsAt2To31 | include/ThinProtobuf.h:50 | as written, the encoding of 2^31 decodes as 0xFFFFFFFF80000000 |
| ThinProtobuf.ZigZagRoundTrip | include/ThinProtobuf.h:202-205 | zig-zag maps a non-negative i to 2i and a negative i to -2i-1, and unzig-zag inverts it for every 64-bit signed value |
| ThinProtobuf.UnZigZagRoundTrip | include/ThinProtobuf.h:69-72 | zig-zag inverts unzig-zag for every 64-bit unsigned value, so the map is a bijection |
| ThinProtobuf.SIntRoundTrip | include/ThinProtobuf.h:69-72 | with the corrected decoder, `loadSInt` after `saveSInt` gives every int64 back and leaves the following bytes |
| ThinProtobuf.IntRoundTrip | include/ThinProtobuf.h:195-200 | `saveInt` writes a negative `int` as its 64-bit two's complement in ten bytes; with the corrected decoder it reads back through the varint and the int64 cast |
| ThinProtobuf.SIntAsWrittenRoundTrip | include/ThinProtobuf.h:69-72 | with the source's `int` shift, `loadSInt` reads `saveSInt`'s bytes back for every value of magnitude below 2^30 |
| ThinProtobuf.SIntAsWrittenFailsAt2To30 | include/ThinProtobuf.h:69-72 | with the source's `int` shift, `loadSInt` misreads 2^30 |
| ThinProtobuf.IntAsWrittenRoundTrip | include/ThinProtobuf.h:195-200 | with the source's `int` shift, a non-negative `int` below 2^31 reads back from `saveInt` |
| ThinProtobuf.Int32RoundTrip | include/ThinProtobuf.h:195-200 | truncating that 64-bit value to 32 bits gives back the `int` |
| ThinProtobuf.LoadDouble | include/ThinProtobuf.h:78-91 | with at least 8 bytes the little-endian word is read and 8 bytes are consumed; otherwise the result is 0 and the buffer is emptied |
| ThinProtobuf.LoadFloat | include/ThinProtobuf.h:97-110 | the same rule with 4 bytes |
| ThinProtobuf.DoubleRoundTrip | include/ThinProtobuf.h:212-218 | `loadDouble` reads back the 64-bit pattern `saveDouble` wrote |
| ThinProtobuf.FloatRoundTrip | include/ThinProtobuf.h:225-231 | `loadFloat` reads back the 32-bit pattern `saveFloat` wrote |
| ThinProtobuf.LoadBool | include/ThinProtobuf.h:116-122 | one byte is consumed and the result is true iff it is non-zero; an empty buffer gives false |
| ThinProtobuf.BoolRoundTrip | include/ThinProtobuf.h:238-243 | `loadBool` reads back what `saveBool` wrote |
| ThinProtobuf.LoadString | include/ThinProtobuf.h:128-137 | reading a string never lengthens the buffer and consumes at least one byte of a non-empty one |
| ThinProtobuf.SaveStringShape | include/ThinProtobuf.h:250-254 | a string is written as its length varint followed by its bytes |
| ThinProtobuf.StringRoundTrip | include/ThinProtobuf.h:128-137 | a string shorter than 2^32 bytes reads back exactly, and the following bytes are left |
| ThinProtobuf.SkipData | include/ThinProtobuf.h:143-171 | a known wire type drops at most the buffer; an unknown wire type leaves the buffer as it is |
| ThinProtobuf.SkipVarIntExact | include/ThinProtobuf.h:143-171 | skipping a varint field drops exactly the varint and nothing after it |
| ThinProtobuf.SkipFixedExact | include/ThinProtobuf.h:143-171 | skipping a 64-bit or 32-bit field drops exactly 8 or 4 bytes |
| ThinProtobuf.SkipStringExact | include/ThinProtobuf.h:143-171 | skipping a length-delimited field drops exactly the length and the payload |
| ThinProtobuf.KeyRoundTrip | include/ThinProtobuf.h:189-193 | a key below 2^32 reads back exactly, followed by the bytes after it |
| ThinProtobuf.FieldVarIntRead | include/ThinProtobuf.h:189-193 | with the corrected decoder, a tagged varint field reads back as its key, then its value below 2^64, then the bytes that follow |
| ThinProtobuf.FieldVarIntAsWrittenRead | include/ThinProtobuf.h:189-193 | with the source's `int` shift, a tagged varint field whose key and value are below 2^31 reads back as its key, then its value, then the bytes that follow |
| ThinProtobuf.FieldStringRead | include/ThinProtobuf.h:256-259 | a tagged string field reads back as its key, then its string, then the bytes that follow |
| ThinProtobuf.FieldDoubleRead | include/ThinProtobuf.h:220-223 | a tagged double field reads back as its key, then its bit pattern, then the bytes that follow |
| ThinProtobuf.FrameRead | include/ThinProtobuf.h:256-259 | a nested message written as a string field reads back as its contents and the rest |
| ThinProtobuf.FieldSizes | include/ThinProtobuf.h:189-259 | a tagged varint field takes at most 20 bytes, a string field at most 20 plus its length, and a double field at most 18 |
| ProtobufWriter.RecordFileValid | TemplightProtobufWriter.cpp:76-86 | a new file name gets the next free index and keeps the table a bijection onto 0..n-1; a known name leaves the table as it is |
| ProtobufWriter.Writer.constructor | TemplightProtobufWriter.cpp:25-48 | the writer starts with an empty buffer and an empty file table |
| ProtobufWriter.Writer.Initialize | TemplightProtobufWriter.cpp:25-48 | the header (version and source file) is appended as field 1 of the trace |
| ProtobufWriter.Writer.Finalize | TemplightProtobufWriter.cpp:50-52 | the finished trace is the whole buffer |
| ProtobufWriter.Writer.DumpOnStream | TemplightProtobufWriter.cpp:54-58 | the stream receives the trace wrapped as field 1 of the trace collection |
| ProtobufWriter.Writer.PrintEntryLocation | TemplightProtobufWriter.cpp:60-94 | a first-seen file is written as its name and recorded under the next index; a known file is written as its index; line and column follow; the buffer is untouched |
| ProtobufWriter.Writer.PrintBegin | TemplightProtobufWriter.cpp:96-143 | the Begin message (kind, name, location, time stamp, memory) is appended as a field-2 entry, and the file is recorded |
| ProtobufWriter.Writer.PrintEnd | TemplightProtobufWriter.cpp:145-184 | the End message (time stamp, memory) is appended as a field-2 entry, and the file table is unchanged |
| ReaderV1.Key | TemplightProtobufReader.cpp:158 | a key is truncated to `unsigned int` and consumes at least one byte of a non-empty buffer |
| ReaderV1.LoadLocation | TemplightProtobufReader.cpp:45-70 | the location loop reads the file name, line and column fields and skips the rest, as the specification function does, with the corrected decoder |
| ReaderV1.Reader.constructor | TemplightProtobufReader.cpp:133-147 | a fresh reader is at end of file with an empty buffer |
| ReaderV1.Reader.LoadHeader | TemplightProtobufReader.cpp:22-43 | the header's version and source name are read, and unknown fields are skipped |
| ReaderV1.Reader.LoadBeginEntry | TemplightProtobufReader.cpp:72-108 | the Begin entry's kind, name, location, time stamp and memory are read, and unknown fields are skipped, with the corrected decoder |
| ReaderV1.Reader.LoadEndEntry | TemplightProtobufReader.cpp:110-131 | the End entry's time stamp and memory are read, with the corrected decoder |
| ReaderV1.Reader.StartOnBuffer | TemplightProtobufReader.cpp:133-147 | an opening field-1 frame is entered and the header is read; anything else is end of file |
| ReaderV1.Reader.Next | TemplightProtobufReader.cpp:149-189 | one frame is dispatched (header, Begin, End or skip) and the reader's state follows the specification function, with the corrected decoder |
| ReaderV1.NextConsumes | TemplightProtobufReader.cpp:149-189 | a step never lengthens the buffer plus the remainder, and shortens them unless both are empty, so reading a trace terminates |
| ReaderV1.StartConsumes | TemplightProtobufReader.cpp:133-147 | starting leaves at most the given bytes, and fewer unless they are empty |
| ReaderV1.NextEndOfFile | TemplightProtobufReader.cpp:149-157 | with nothing left, the step reports end of file; it reports end of file only when nothing is left or it already had |
| ReaderV1.StartEndOfFile | TemplightProtobufReader.cpp:133-147 | starting reports end of file only when nothing is left or it already had |
| ReaderV1.StartOnTrace | TemplightProtobufReader.cpp:133-147 | starting on a field-1 frame steps into its contents and keeps the bytes after it as the remainder |
| ReaderV1.UnknownFrameSkipped | TemplightProtobufReader.cpp:184-187 | a frame with a field number other than 1 or 2 is skipped whole and the next frame is read |
| ReaderV1.EntryFrameDispatch | TemplightProtobufReader.cpp:166-183 | inside an entry frame, field 1 is read as a Begin, field 2 as an End, and anything else is ignored |
| LibReader.Key | lib/TemplightProtobufReader.cpp:251 | a key is truncated to `unsigned int` and consumes at least one byte of a non-empty buffer |
| LibReader.FirstZero | lib/TemplightProtobufReader.cpp:67-74 | the index of the first NUL byte, or the length; no NUL byte comes before it |
| LibReader.FindZero | lib/TemplightProtobufReader.cpp:67-74 | the first NUL byte at or after a position, or the length |
| LibReader.DictionaryEntry | lib/TemplightProtobufReader.cpp:47-78 | a dictionary entry is appended at index `|table|`, and the earlier entries are untouched |
| LibReader.ExpandZeroFree | lib/TemplightProtobufReader.cpp:67-74 | expanding the markers of a zero-free table yields a zero-free string |
| LibReader.ExpandNoMarkers | lib/TemplightProtobufReader.cpp:67-74 | a string without NUL bytes expands to itself |
| LibReader.ResolveFromExpand | lib/TemplightProtobufReader.cpp:67-74 | one pass of the marker-replacing loop from a position matches the expansion of the rest |
| LibReader.ResolveIsExpand | lib/TemplightProtobufReader.cpp:67-74 | the in-place replace loop gives the same string as the expansion of each marker by its table entry |
| LibReader.Grow | lib/TemplightProtobufReader.cpp:110-112 | an id past the end grows the table to id+1 with empty names, and the existing names are kept |
| LibReader.LocationUpdatesTable | lib/TemplightProtobufReader.cpp:80-120 | reading a location never shrinks the file-name table, and any entry it changes becomes the location's file name |
| LibReader.TemplateNameRead | lib/TemplightProtobufReader.cpp:122-152 | a plain name field reads back as its bytes; a dictionary index reads the table's entry, or "" when it is out of range |
| LibReader.Reader.constructor | lib/TemplightProtobufReader.cpp:225-240 | a fresh reader is at end of file with empty tables |
| LibReader.Reader.LoadHeader | lib/TemplightProtobufReader.cpp:24-45 | the header's version and source name are read |
| LibReader.Reader.LoadDictionaryEntry | lib/TemplightProtobufReader.cpp:47-78 | the dictionary entry is read, its markers are resolved, and it is appended to the template-name table |
| LibReader.Reader.LoadLocation | lib/TemplightProtobufReader.cpp:80-120 | the location is read and the file-name table is updated, as LocationFields specifies, with the corrected decoder |
| LibReader.Reader.LoadTemplateName | lib/TemplightProtobufReader.cpp:122-152 | the name or the dictionary reference is read and resolved, as TemplateNameFields specifies |
| LibReader.Reader.LoadBeginEntry | lib/TemplightProtobufReader.cpp:154-200 | the Begin entry is read through both tables, with the corrected decoder |
| LibReader.Reader.LoadEndEntry | lib/TemplightProtobufReader.cpp:202-223 | the End entry's time stamp and memory are read, with the corrected decoder |
| LibReader.Reader.StartOnBuffer | lib/TemplightProtobufReader.cpp:225-240 | the tables are cleared, the field-1 frame is entered and the header is read; anything else is end of file |
| LibReader.Reader.Next | lib/TemplightProtobufReader.cpp:242-289 | one frame is dispatched (header, dictionary entry, Begin, End or skip), as the specification function says, with the corrected decoder |
| LibReader.NextConsumes | lib/TemplightProtobufReader.cpp:242-289 | a step never lengthens the buffer plus the remainder, and shortens them unless both are empty |
| LibReader.StartConsumes | lib/TemplightProtobufReader.cpp:225-240 | starting leaves at most the given bytes, and fewer unless they are empty |
| LibReader.NextEndOfFile | lib/TemplightProtobufReader.cpp:242-250 | with nothing left, the step reports end of file; it reports end of file only when nothing is left or it already had |
| LibReader.StartEndOfFile | lib/TemplightProtobufReader.cpp:225-240 | starting reports end of file only when nothing is left or it already had |
| LibReader.StartOnTrace | lib/TemplightProtobufReader.cpp:225-240 | starting on a field-1 frame clears the file-name table and steps into its contents, keeping the bytes after it as the remainder |
| LibReader.UnknownFrameSkipped | lib/TemplightProtobufReader.cpp:284-287 | a frame with a field number other than 1, 2 or 3 is skipped whole and the next frame is read |
| LibReader.DictionaryFrameRead | lib/TemplightProtobufReader.cpp:277-283 | a dictionary frame adds one table entry and reports Other |
| LibReader.EntryFrameDispatch | lib/TemplightProtobufReader.cpp:259-276 | inside an entry frame, field 1 is read as a Begin, field 2 as an End, and anything else is ignored |
| RoundTrip.HeaderReadV1 | TemplightProtobufReader.cpp:22-43 | the older reader recovers the writer's version and source name |
| RoundTrip.LocationReadV1 | TemplightProtobufReader.cpp:45-70 | with the corrected decoder, on the writer's location, the older reader gets the file name only the first time; it takes the file id as the line and the line as the column |
| RoundTrip.BeginReadV1 | TemplightProtobufReader.cpp:72-108 | with the corrected decoder, a written Begin reads back with the kind, name, time stamp and memory intact and the location shifted as above |
| RoundTrip.BeginContentsReadV1 | TemplightProtobufReader.cpp:72-108 | with the corrected decoder, the Begin message's fields are read one by one to the end of the message |
| RoundTrip.EndReadV1 | TemplightProtobufReader.cpp:110-131 | with the corrected decoder, a written End reads back exactly |
| RoundTrip.DumpedTraceOpensV1 | TemplightProtobufReader.cpp:133-147 | the dumped trace is entered and its header is read |
| RoundTrip.LocationSize | TemplightProtobufWriter.cpp:60-94 | the location message is at most 80 bytes plus the file name, and the file id stays below 2^31 |
| RoundTrip.BeginSize | TemplightProtobufWriter.cpp:96-143 | the Begin message is at most 200 bytes plus the name and the file name |
| RoundTripLib.ConsistentStart | lib/TemplightProtobufReader.cpp:225-240 | an empty writer table and an empty reader table agree |
| RoundTripLib.ConsistentRecord | lib/TemplightProtobufReader.cpp:110-118 | after a new file is recorded, the writer's and the reader's file tables still agree |
| RoundTripLib.LocationReadLib | lib/TemplightProtobufReader.cpp:80-120 | with the corrected decoder, the library reader recovers the exact file name, line and column of a written location, and the tables stay in step |
| RoundTripLib.BeginReadLib | lib/TemplightProtobufReader.cpp:154-200 | with the corrected decoder, a written Begin reads back with its location and numbers intact and its name read as a template-name message |
| RoundTripLib.EndReadLib | lib/TemplightProtobufReader.cpp:202-223 | with the corrected decoder, a written End reads back exactly |
| RoundTripLib.HeaderReadLib | lib/TemplightProtobufReader.cpp:24-45 | the library reader recovers the writer's version and source name |
| RoundTripLib.DumpedTraceOpensLib | lib/TemplightProtobufReader.cpp:225-240 | the dumped trace is entered with cleared tables and its header is read |
| RoundTripLib.PlainNameMisread | lib/TemplightProtobufReader.cpp:122-152 | the writer's plain name "A" comes back as "" from the library reader, because it is read as a template-name message |
| EntryPrinter.FilterAppend | lib/TemplightEntryPrinter.cpp:58-74 | filtering an entry stream is filtering each entry in turn, so printing splits at any point |
| EntryPrinter.SkippingDropsAll | lib/TemplightEntryPrinter.cpp:19-27 | while skipping, entries inside the skipped subtree print nothing |
| EntryPrinter.SubtreeDropped | lib/TemplightEntryPrinter.cpp:29-56 | a blacklisted Begin, any well-nested entries under it and its End are all dropped, and the skip count returns to 0 |
| EntryPrinter.NothingBlacklisted | lib/TemplightEntryPrinter.cpp:29-56 | without blacklists, every entry is printed |
| EntryPrinter.FindNewline | lib/TemplightEntryPrinter.cpp:148-169 | the first line break at or after a position, or the end |
| EntryPrinter.SkipLineBreaks | lib/TemplightEntryPrinter.cpp:148-169 | skips a run of line breaks; no line break remains at the new position |
| EntryPrinter.LineEnd | lib/TemplightEntryPrinter.cpp:149-151 | a line ends at its line feed, or one character earlier when a carriage return comes before it |
| EntryPrinter.Lines | lib/TemplightEntryPrinter.cpp:148-169 | splits the file into lines, and no line holds a line break |
| EntryPrinter.PatternsStep | lib/TemplightEntryPrinter.cpp:148-169 | one line adds its alternative to the context or the identifier pattern, or to neither |
| EntryPrinter.Alternatives | lib/TemplightEntryPrinter.cpp:148-169 | collects the "(rest)" alternative of every line with a given prefix, in file order |
| EntryPrinter.JoinAppend | lib/TemplightEntryPrinter.cpp:153-165 | adding one alternative to a '|'-joined pattern is the same as joining one more |
| EntryPrinter.PatternsAreJoins | lib/TemplightEntryPrinter.cpp:148-169 | each pattern is the '|'-join of its alternatives, in file order |
| EntryPrinter.FilePatternsAreJoins | lib/TemplightEntryPrinter.cpp:122-174 | for a whole file, the context and identifier patterns are those joins |
| EntryPrinter.Printer.constructor | lib/TemplightEntryPrinter.cpp:86-101 | the printer starts with no writer, no blacklists and nothing to skip |
| EntryPrinter.Printer.TakeWriter | lib/TemplightEntryPrinter.cpp:118-120 | the printer owns the given writer |
| EntryPrinter.Printer.SkipEntry | lib/TemplightEntryPrinter.cpp:19-27 | one more End is to be skipped |
| EntryPrinter.Printer.ShouldIgnoreBegin | lib/TemplightEntryPrinter.cpp:29-45 | a Begin whose name or context matches a blacklist opens a skipped subtree |
| EntryPrinter.Printer.ShouldIgnoreEnd | lib/TemplightEntryPrinter.cpp:47-56 | an End is dropped only inside a skipped subtree |
| EntryPrinter.Printer.PrintBegin | lib/TemplightEntryPrinter.cpp:58-74 | a Begin is passed to the writer iff it is not filtered |
| EntryPrinter.Printer.PrintEnd | lib/TemplightEntryPrinter.cpp:58-74 | an End is passed to the writer iff it is not filtered |
| EntryPrinter.Printer.ReadPatterns | lib/TemplightEntryPrinter.cpp:148-169 | the line loop builds the patterns that the specification function describes |
| EntryPrinter.Printer.SkipBreaks | lib/TemplightEntryPrinter.cpp:148-169 | the inner loop stops at the first byte that is not a line break |
| EntryPrinter.Printer.ReadBlacklists | lib/TemplightEntryPrinter.cpp:122-174 | an empty name or an unreadable file clears both blacklists; otherwise they become the joined patterns |
| ConvertPrinter.WriterFor | convert/TemplightEntryPrinter.cpp:104-125 | a writer is chosen iff the format is known, and "" selects YAML |
| ConvertPrinter.AgreesWithLibrary | convert/TemplightEntryPrinter.cpp:23-59 | when no blacklisted name is empty, the converter's filtering (which remembers the skipped entry) equals the library's (which counts) |
| ConvertPrinter.EmptyNameNeverSkips | convert/TemplightEntryPrinter.cpp:23-45 | a blacklisted Begin with an empty name is dropped, but it starts no skip, so its End is printed |
| ConvertPrinter.Printer.constructor | convert/TemplightEntryPrinter.cpp:88-127 | there is no writer if the file does not open, and otherwise the writer WriterFor gives |
| ConvertPrinter.Printer.SkipEntry | convert/TemplightEntryPrinter.cpp:23-28 | when not already skipping, the Begin becomes the skipped entry with one End to go; otherwise nothing changes |
| ConvertPrinter.Printer.ShouldIgnoreBegin | convert/TemplightEntryPrinter.cpp:30-45 | a Begin whose name or context matches a blacklist opens a skipped subtree |
| ConvertPrinter.Printer.ShouldIgnoreEnd | convert/TemplightEntryPrinter.cpp:47-59 | an End is dropped only inside a skipped subtree |
| ConvertPrinter.Printer.PrintBegin | convert/TemplightEntryPrinter.cpp:62-76 | a Begin is passed to the writer iff it is not filtered |
| ConvertPrinter.Printer.PrintEnd | convert/TemplightEntryPrinter.cpp:62-76 | an End is passed to the writer iff it is not filtered |
| Tracer.CallsFor | lib/TemplightTracer.cpp:130-150 | one printer call per cached entry, in order |
| Tracer.CallsForAppend | lib/TemplightTracer.cpp:144-150 | printing a cache with one more entry is printing the old cache, then that entry |
| Tracer.Stack | lib/TemplightTracer.cpp:152-185 | the open Begin entries of the cache, outermost first; each is a Begin in the cache |
| Tracer.CurrentIsOpenBegin | lib/TemplightTracer.cpp:152-185 | the current parent link is the innermost open Begin, and it is invalid exactly when nothing is open |
| Tracer.StackAppend | lib/TemplightTracer.cpp:152-185 | a Begin pushes its index and an End pops the innermost Begin |
| Tracer.PushKeepsInvariant | lib/TemplightTracer.cpp:160-162 | a Begin linked to the current parent keeps the parent chain equal to the open stack and pushes itself |
| Tracer.PopKeepsInvariant | lib/TemplightTracer.cpp:163-166 | an End linked to its Begin's parent keeps the parent chain equal to the open stack and pops it |
| Tracer.RecordKeepsInvariant | lib/TemplightTracer.cpp:152-185 | recording an entry that is not ignored keeps the cache well formed |
| Tracer.RecordPrintsInOrder | lib/TemplightTracer.cpp:144-150 | the cache prints as the entries in arrival order, whatever parent links they carry |
| Tracer.TracePrinter.constructor | lib/TemplightTracer.cpp:200-204 | the printer starts with an empty cache, no open Begin and no printed calls |
| Tracer.TracePrinter.ShouldIgnoreRawEntry | lib/TemplightTracer.cpp:108-128 | a memoization Begin or End whose entity is the last closed memoization is ignored, and so is an End that does not match the open Begin; an End that is kept always has an open Begin to close |
| Tracer.TracePrinter.PrintOrSkipEntry | lib/TemplightTracer.cpp:130-142 | system-header entries are skipped when so configured, and the rest are printed |
| Tracer.TracePrinter.PrintCachedRawEntries | lib/TemplightTracer.cpp:144-150 | the whole cache is printed in order and cleared |
| Tracer.TracePrinter.RecordEntry | lib/TemplightTracer.cpp:152-185 | the entry is cached with its parent link, as Record specifies |
| Tracer.TracePrinter.PrintRawEntry | lib/TemplightTracer.cpp:152-185 | an ignored entry changes nothing; otherwise it is cached, and the cache is flushed when the outermost entry closes (printed as it arrives in safe mode) |
| Tracer.TracePrinter.StartTrace | lib/TemplightTracer.cpp:187-193 | the writer is initialised and the cache is untouched |
| Tracer.TracePrinter.EndTrace | lib/TemplightTracer.cpp:195-198 | the rest of the cache is printed, then the writer is finalised |
| TracerV1.Prints | TemplightTracer.cpp:225-231 | one print call per cached entry, in order |
| TracerV1.PrintsAppend | TemplightTracer.cpp:225-231 | printing a longer cache extends the calls |
| TracerV1.NextLast | TemplightTracer.cpp:213-223 | a Begin becomes the last Begin; a memoization End marks it closed; any other End keeps it |
| TracerV1.ClosedMemoizationIgnored | TemplightTracer.cpp:202-211 | once the End of a memoization is printed, a later Begin or End of the same memoization is ignored |
| TracerV1.BufferedIsDirect | TemplightTracer.cpp:233-246 | printing through the cache and then flushing gives the same calls and state as printing each entry directly |
| TracerV1.FormatOf | TemplightTracer.cpp:484-504 | a printer is chosen iff the format is "", yaml, xml or text |
| TracerV1.OutputName | TemplightTracer.cpp:474-482 | a given output name is kept; otherwise the name extends the main file's name |
| TracerV1.DerivedName | TemplightTracer.cpp:474-482 | a derived name is the main file plus `.trace.`, `memory.` for memory profiles, and the format's extension |
| TracerV1.SetupAsWritten | TemplightTracer.cpp:484-510 | as written, there is a printer iff the format is known, whether or not its stream opened |
| TracerV1.SetupAsWrittenKeepsClosedStream | TemplightTracer.cpp:484-510 | as written, a known format whose file fails to open still yields a printer |
| TracerV1.PrinterSetup | TemplightTracer.cpp:465-512 | a printer exists iff the format is known and its stream opened |
| TracerV1.TracePrinter.constructor | TemplightTracer.cpp:258-272 | the printer starts with an empty cache and no calls, and records whether its stream opened |
| TracerV1.TracePrinter.ShouldIgnoreEntry | TemplightTracer.cpp:202-211 | a memoization entry is ignored exactly when the last Begin is a closed memoization of the same entity |
| TracerV1.TracePrinter.PrintRawEntry | TemplightTracer.cpp:213-223 | an entry that is not ignored is printed, and the last Begin is updated |
| TracerV1.TracePrinter.PrintCachedEntries | TemplightTracer.cpp:225-231 | the cache is printed in order and cleared |
| TracerV1.TracePrinter.CacheEntry | TemplightTracer.cpp:233-246 | the entry is cached, and the cache is flushed when the outermost entry ends |
| TracerV1.TracePrinter.StartTrace | TemplightTracer.cpp:248-250 | the writer is started and the cache is untouched |
| TracerV1.TracePrinter.EndTrace | TemplightTracer.cpp:252-256 | the rest of the cache is printed, then the trace is ended |
| TracerV1.TemplightTracer.constructor | TemplightTracer.cpp:465-512 | as written, a printer exists exactly for a known format and records whether its stream opened; it has an open stream exactly when PrinterSetup keeps one |
| TracerV1.TemplightTracer.AtTemplate | TemplightTracer.cpp:415-462 | without a printer, or for an ignored system header, nothing happens; otherwise the entry is printed directly (safe mode) or through the cache, with memory recorded only in memory mode |
| XmlEscape.Entity | TemplightTracer.cpp:100-133 | a special character becomes an entity of at least four characters, from & to ;, and any other character stays itself |
| XmlEscape.EscapeSafe | utils/ExtraWriters/TemplightExtraWriters.cpp:35-68 | an escaped string holds none of < > " ' |
| XmlEscape.EscapeAppend | utils/ExtraWriters/TemplightExtraWriters.cpp:35-68 | escaping distributes over concatenation |
| XmlEscape.EscapePlain | utils/ExtraWriters/TemplightExtraWriters.cpp:35-68 | a string without special characters is unchanged |
| XmlEscape.EscapeLength | utils/ExtraWriters/TemplightExtraWriters.cpp:35-68 | the output is the input's length plus the extra length of each special character's entity |
| XmlEscape.UnescapeEscape | utils/ExtraWriters/TemplightExtraWriters.cpp:35-68 | unescaping an escaped string gives the original back |
| XmlEscape.EscapeXml | TemplightTracer.cpp:100-133 | the in-place loop gives the escaped string |
| ExtraWriters.BeginKeepsInvariant | utils/ExtraWriters/TemplightExtraWriters.cpp:282-286 | a Begin keeps the recorded tree well formed and opens one more task |
| ExtraWriters.EndKeepsInvariant | utils/ExtraWriters/TemplightExtraWriters.cpp:288-295 | an End closes the current task and keeps the tree well formed |
| ExtraWriters.BuildInvariant | utils/ExtraWriters/TemplightExtraWriters.cpp:274-297 | any event stream that never closes more than it opened builds a well-formed tree |
| ExtraWriters.WellNestedTree | utils/ExtraWriters/TemplightExtraWriters.cpp:274-297 | a well-nested stream gives tasks numbered in order, each parent before its child, and the descendants of i exactly the ids i+1 to idEnd-1 |
| ExtraWriters.TreeLaminar | utils/ExtraWriters/TemplightExtraWriters.cpp:274-297 | the subtree ranges of a well-formed tree nest or are disjoint |
| ExtraWriters.EntryTree.constructor | utils/ExtraWriters/TemplightExtraWriters.cpp:274-280 | the recorded tree starts empty with no current task |
| ExtraWriters.EntryTree.BeginEntry | utils/ExtraWriters/TemplightExtraWriters.cpp:282-286 | a task is added under the current one and becomes current |
| ExtraWriters.EntryTree.EndEntry | utils/ExtraWriters/TemplightExtraWriters.cpp:288-295 | the current task gets its End and its subtree end, and its parent becomes current |
| ExtraWriters.WalkTasks | utils/ExtraWriters/TemplightExtraWriters.cpp:318-337 | the depth-first walk opens every task once in id order and closes all of them, and each task opens inside its enclosing task |
| ExtraWriters.OpenNext | utils/ExtraWriters/TemplightExtraWriters.cpp:318-337 | one step of the walk opens the next task |
| ExtraWriters.CloseRemaining | utils/ExtraWriters/TemplightExtraWriters.cpp:318-337 | the tasks still open at the end are all closed |
| ExtraWriters.CloseFinished | utils/ExtraWriters/TemplightExtraWriters.cpp:318-337 | before a task opens, every open task whose range has ended is closed |
| ExtraWriters.TreeWriter.constructor | utils/ExtraWriters/TemplightExtraWriters.cpp:301-302 | the writer starts with an empty tree and no calls |
| ExtraWriters.TreeWriter.Initialize | utils/ExtraWriters/TemplightExtraWriters.cpp:314-316 | the tree output is initialised |
| ExtraWriters.TreeWriter.PrintBegin | utils/ExtraWriters/TemplightExtraWriters.cpp:306-312 | a Begin is recorded in the tree |
| ExtraWriters.TreeWriter.PrintEnd | utils/ExtraWriters/TemplightExtraWriters.cpp:306-312 | an End is recorded in the tree |
| ExtraWriters.TreeWriter.Finalize | utils/ExtraWriters/TemplightExtraWriters.cpp:318-337 | the replay opens tasks 0..n-1 in order, each inside its enclosing task, closes them all, and then finishes |
| ExtraWriters.ParentLinksForward | utils/ExtraWriters/TemplightExtraWriters.cpp:445-450 | every edge runs from a parent to its child, and the parent has the smaller id |
| ExtraWriters.ParentLinksIncreasing | utils/ExtraWriters/TemplightExtraWriters.cpp:445-450 | edges come in increasing order of their child |
| ExtraWriters.ParentLinksComplete | utils/ExtraWriters/TemplightExtraWriters.cpp:445-450 | every parent-child pair appears as an edge |
| ExtraWriters.GraphMLOpenRecords | utils/ExtraWriters/TemplightExtraWriters.cpp:420-451 | opening a task writes its node and, when it has a parent, an edge numbered with the next edge id |
| ExtraWriters.GraphvizOpenRecords | utils/ExtraWriters/TemplightExtraWriters.cpp:471-501 | opening a task writes its node and, when it has a parent, an edge from the parent |
| ExtraWriters.GraphMLEdges | utils/ExtraWriters/TemplightExtraWriters.cpp:420-451 | the GraphML edges are exactly the parent links, numbered consecutively from the last edge id |
| ExtraWriters.GraphMLNodes | utils/ExtraWriters/TemplightExtraWriters.cpp:420-451 | GraphML writes one node per task, in id order |
| ExtraWriters.GraphvizEdges | utils/ExtraWriters/TemplightExtraWriters.cpp:471-501 | the Graphviz edges are exactly the parent links |
| ExtraWriters.GraphvizNodes | utils/ExtraWriters/TemplightExtraWriters.cpp:471-501 | Graphviz writes one node per task, in id order |
| ExtraWriters.GraphMLWriter.constructor | utils/ExtraWriters/TemplightExtraWriters.cpp:387-388 | the writer starts with an empty tree, no items and edge id 0 |
| ExtraWriters.GraphMLWriter.OpenPrintedTreeNode | utils/ExtraWriters/TemplightExtraWriters.cpp:420-451 | the node and its edge are written as GraphMLOpen says |
| ExtraWriters.GraphMLWriter.Finalize | utils/ExtraWriters/TemplightExtraWriters.cpp:318-337 | finishing writes every task in id order through GraphMLOpen |
| ExtraWriters.GraphMLWriter.PrintOpened | utils/ExtraWriters/TemplightExtraWriters.cpp:420-451 | the replayed opens are written in order |
| ExtraWriters.GraphvizWriter.constructor | utils/ExtraWriters/TemplightExtraWriters.cpp:458-459 | the writer starts with an empty tree and no items |
| ExtraWriters.GraphvizWriter.OpenPrintedTreeNode | utils/ExtraWriters/TemplightExtraWriters.cpp:471-501 | the node and its edge are written as GraphvizOpen says |
| ExtraWriters.GraphvizWriter.Finalize | utils/ExtraWriters/TemplightExtraWriters.cpp:318-337 | finishing writes every task in id order through GraphvizOpen |
| ExtraWriters.GraphvizWriter.PrintOpened | utils/ExtraWriters/TemplightExtraWriters.cpp:471-501 | the replayed opens are written in order |
| Debugger.SkipSpacesRun | TemplightDebugger.cpp:465-480 | the skipped characters are all spaces, and the next one is not |
| Debugger.SkipWordRun | TemplightDebugger.cpp:465-480 | the skipped characters hold no space, and the next one is a space |
| Debugger.TrimEndRun | TemplightDebugger.cpp:465-480 | the trimmed tail is all spaces, and the kept part does not end with one |
| Debugger.TokenizeShape | TemplightDebugger.cpp:465-480 | the command is a non-empty, space-free word, and the argument has no leading or trailing space |
| Debugger.TokenizeParts | TemplightDebugger.cpp:465-480 | the command and argument are the line's first word and trimmed remainder |
| Debugger.CommandWithArgument | TemplightDebugger.cpp:465-480 | "w arg" splits into w and arg |
| Debugger.GetTokenizeCommand | TemplightDebugger.cpp:465-480 | the scanning loops split the line as Tokenize specifies |
| Debugger.ScanSigned | TemplightDebugger.cpp:597-608 | `sscanf("%d")` skips white space, takes an optional sign and reads the decimal number that follows |
| Debugger.ScanNoDigits | TemplightDebugger.cpp:597-608 | `sscanf("%d")` converts nothing when no digit follows the white space and the optional sign |
| Debugger.ScanDecimal | TemplightDebugger.cpp:597-608 | `sscanf` on the decimal text of n gives n |
| Debugger.IndexOf | TemplightDebugger.cpp:582-596 | the index of the first equal breakpoint, or the length |
| Debugger.AddBreakpoint | TemplightDebugger.cpp:582-596 | an existing breakpoint keeps its index; otherwise the first deleted slot is reused, or the name is appended |
| Debugger.Record | TemplightDebugger.cpp:629-652 | a Begin is pushed and becomes the last Begin; an End pops only the same instantiation on top; a memoization End marks the last Begin closed; breakpoints and the gate are untouched |
| Debugger.RecordKeepsBegins | TemplightDebugger.cpp:633-636 | the stack holds only Begin entries |
| Debugger.BeginThenEnd | TemplightDebugger.cpp:629-652 | a Begin followed by its End leaves the stack as it was |
| Debugger.ClosedMemoizationIgnored | TemplightDebugger.cpp:411-438 | once the End of a memoization is recorded, a later Begin or End of the same memoization is ignored |
| Debugger.Apply | TemplightDebugger.cpp:482-627 | no command changes the stack; the reply is Resumed iff the command is run, kill, next or step; other commands keep the gate |
| Debugger.Interpret | TemplightDebugger.cpp:482-627 | the last command becomes the line unless the line is empty, and the stack is untouched |
| Debugger.EmptyLineRepeats | TemplightDebugger.cpp:487-490 | an empty line behaves as the last command |
| Debugger.RunCommand | TemplightDebugger.cpp:522-553 | `r`/`run`/`c`/`continue` resumes, stopping only at breakpoints |
| Debugger.KillCommand | TemplightDebugger.cpp:522-553 | `k`/`kill`/`q`/`quit` resumes and ignores all further entries |
| Debugger.NextCommand | TemplightDebugger.cpp:522-553 | `n`/`next` resumes until the next entry at the current depth or above |
| Debugger.StepCommand | TemplightDebugger.cpp:522-553 | `s`/`step` resumes and stops at the next entry |
| Debugger.KillIgnoresRest | TemplightDebugger.cpp:411-438 | after kill, every entry is ignored |
| Debugger.RunStopsAtBreakpoints | TemplightDebugger.cpp:411-438 | after run, an entry stops the debugger iff its name is a breakpoint |
| Debugger.NextStopsAtInnermost | TemplightDebugger.cpp:411-438 | after next, only entries of the innermost open instantiation stop, and its End pops it |
| Debugger.BreakCommand | TemplightDebugger.cpp:582-596 | `b name` adds the breakpoint and replies with its index |
| Debugger.BreakThenRun | TemplightDebugger.cpp:582-596 | after `b name` and run, an entry with that name stops |
| Debugger.DeleteTombstones | TemplightDebugger.cpp:597-608 | `d n` replaces breakpoint n with a tombstone and keeps the other indices |
| Debugger.Session | TemplightDebugger.cpp:482-627 | the prompt loop reads at most the given lines, and all of them unless a command resumes |
| Debugger.Prompt | TemplightDebugger.cpp:482-627 | one prompt reads at least one line |
| Debugger.SessionStopsAtResume | TemplightDebugger.cpp:482-627 | input after a resuming command is not read |
| Debugger.SessionEndsWithResume | TemplightDebugger.cpp:482-627 | when a session resumes, it is on the last line it read, and the earlier lines did not resume |
| Debugger.SessionKeepsStack | TemplightDebugger.cpp:482-627 | commands never change the entry stack, and breakpoints are never removed |
| Debugger.BreakpointsGrow | TemplightDebugger.cpp:582-608 | no command shortens the breakpoint table |
| Debugger.InteractiveAgent.constructor | TemplightDebugger.cpp:664-665 | the agent starts with no stack, no breakpoints, no last command and all three ignore flags off |
| Debugger.InteractiveAgent.ShouldIgnoreEntry | TemplightDebugger.cpp:411-438 | an entry is ignored as ShouldIgnore decides |
| Debugger.InteractiveAgent.ProcessInput | TemplightDebugger.cpp:482-627 | one line changes the state and replies as Interpret says |
| Debugger.InteractiveAgent.Execute | TemplightDebugger.cpp:495-624 | one command changes the state and replies as Apply says |
| Debugger.InteractiveAgent.ProcessInputs | TemplightDebugger.cpp:482-627 | the prompt loop ends as Session says |
| Debugger.InteractiveAgent.PrintRawEntry | TemplightDebugger.cpp:629-652 | an ignored entry changes nothing; otherwise it is recorded, shown, and the prompt runs |
| Debugger.InteractiveAgent.RecordEntry | TemplightDebugger.cpp:629-652 | the entry is recorded as Record says and shown |
| Action.BaseName | TemplightAction.cpp:48-63 | the given name wins; else the output file; else the main file, or "a" without a source manager |
| Action.OutputFilename | TemplightAction.cpp:37-71 | "" iff not profiling; "-" for standard output |
| Action.OutputFilenameShape | TemplightAction.cpp:65-68 | a name without `.trace.` gets `.trace.pbf` (or `.memory.trace.pbf`), and any other name is kept |
| Action.OutputFilenameIdempotent | TemplightAction.cpp:65-68 | feeding a produced name back in gives the same name |
| LibAction.OutputFilenameAsWritten | lib/TemplightAction.cpp:38-97 | as written, "" iff not profiling, and standard output still gets the suffix |
| LibAction.StdoutAsWrittenNamesAFile | lib/TemplightAction.cpp:47-48 | as written, standard output yields `-.trace.<ext>`, which is not "-" |
| LibAction.StdoutAsWrittenExample | lib/TemplightAction.cpp:47-48 | `--stdout` with the default format yields `-.trace.pbf` |
| LibAction.OutputFilename | lib/TemplightAction.cpp:38-97 | "" iff not profiling, "-" for standard output, and otherwise the same as written |
| LibAction.OutputFilenameShape | lib/TemplightAction.cpp:67-94 | a name without `.trace.` gets the trace mark and the format's extension, and any other name is kept |
| LibAction.ExtensionTable | lib/TemplightAction.cpp:69-93 | the extension of each known format, and none for an unknown one |
| LibAction.OutputFilenameIdempotent | lib/TemplightAction.cpp:67-94 | feeding a produced name back in gives the same name, whatever the format |
| LibAction.AgreesWithOlderTree | lib/TemplightAction.cpp:38-97 | with the protobuf format, both trees choose the same name |
| Driver.FindDriverSuffixFirstMatch | templight_driver.cpp:166-189 | a found suffix ends the name, and no earlier entry does |
| Driver.TrimEndOfRun | templight_driver.cpp:202-226 | the trimmed name is a prefix, does not end with a trimmed character, and only such characters were dropped |
| Driver.LastDash | templight_driver.cpp:202-226 | the position of the last '-', if there is one |
| Driver.ParseDriverSuffixTries | templight_driver.cpp:202-226 | first the whole name is tried, then the name with trailing digits and dots dropped, then the part after the last '-' |
| Driver.SkipMarkers | templight_driver.cpp:519-522 | the next index after i that holds an argument, or the last index |
| Driver.SkipEndOfLines | templight_driver.cpp:519-522 | the loop drops the markers as SkipMarkers says |
| Driver.SplitArguments | templight_driver.cpp:524-545 | each list starts with argv[0], then follows the split of the rest |
| Driver.PlainEntriesGoToClang | templight_driver.cpp:524-545 | an argument that is not a templight option goes to Clang in order |
| Driver.NoTemplightOptions | templight_driver.cpp:524-545 | without templight options, Clang gets everything |
| Driver.MarkerTakesNextWord | templight_driver.cpp:524-545 | `-Xtemplight` passes the next argument to templight |
| Driver.SplitAtEnd | templight_driver.cpp:524-545 | the split of an empty tail is empty |
| Driver.TrailingTemplightFlag | templight_driver.cpp:531-534 | a trailing `-Xtemplight` with no word after it is itself handed to templight, and the entries before it go to Clang |
| Driver.SplitTakesFromArgv | templight_driver.cpp:524-545 | every argument that is split off comes from argv, in order |
| Driver.CanonicalPrefixes | templight_driver.cpp:551-560 | canonical prefixes stay on iff no `-no-canonical-prefixes` follows argv[0] |

## Left out

- zlib: compressed template names (lib/TemplightProtobufReader.cpp:132-141) are kept as opaque bytes, because decompression is a foreign library.
- Regular expressions: whether a blacklist pattern matches is a `matches` parameter, because `llvm::Regex` is foreign code.
- Clang and Sema queries (names, locations, source-manager lookups) are parameters, because they come from the compiler.
- Time and memory probes are parameters, because they read the clock and the heap.
- Streams and files are modelled as byte or call sequences and an "opened" flag; flushing, buffering and file-system errors beyond "does not open" are not modelled.
- Floating point: doubles and floats are their 64- and 32-bit patterns, and `%.9f` printing is not modelled.
- The text, XML, nested-XML, YAML and flat-tree writers' layout is not modelled, because it is formatting only; the entries they are handed are modelled.
- `size_t` bounds on vector sizes and indices are not modelled, because the model's integers are unbounded.
- XmlEscape.EscapeXml: the `unsigned i` loop counter of the source cannot wrap in the model.
- ThinProtobuf.LoadVarInt, ThinProtobuf.LoadSInt, ReaderV1, LibReader: they decode with the corrected 64-bit shift, not the source's `int` shift. As written, a value of 2^31 or more (a memory usage of 2 GiB, say), a `saveSInt` value of magnitude 2^30 or more, and in general a negative `int` written by `saveInt` are misread; VarIntAsWrittenFailsAt2To31 and SIntAsWrittenFailsAt2To30 exhibit this.
- SIntRoundTrip, IntRoundTrip, FieldVarIntRead: their read-back holds for the corrected decoder. With the source's decoder it holds below 2^31 (SIntAsWrittenRoundTrip, IntAsWrittenRoundTrip, FieldVarIntAsWrittenRead).
- LocationReadV1, BeginReadV1, BeginContentsReadV1, EndReadV1: they read back through the corrected decoder. As written, a negative line or column and a memory usage of 2^31 or more are not read back.
- LocationReadLib, BeginReadLib, EndReadLib: the same, for the library reader.
- TracerV1.TemplightTracer.AtTemplate: a printer whose stream did not open still records its calls; the source writes through a null stream there, which is undefined behaviour.
- ThinProtobuf.VarIntAsWritten: for groups shifted by 32 or more, a shift in `int` is undefined behaviour. It is modelled with the shift count masked to 5 bits, as x86 does.
- ExtraWriters.EntryTree.EndEntry: an End with no open task is undefined behaviour in the source and is excluded by the precondition.
- ExtraWriters: graph items keep the raw Begin/End, not the printed attributes. Graphviz edges carry id 0, because that writer prints no edge ids.
- The library tracer's `atTemplateBegin`/`atTemplateEnd` and its `TemplightTracer` constructor (lib/TemplightTracer.cpp:219-288) are not modelled, because they only wrap time and memory probes and the stream check around TracePrinter. The older tree's counterparts are modelled in TracerV1.
- Forwarders that only call the writer (`initialize`, `finalize`, `isValid` in the entry printers) are folded into the printer classes.
- Debugger:
  - console output is not modelled, and replies are values;
  - at end of input the source repeats the last command, while the model stops the session;
  - `lookup`/`typeof` traverse Clang's AST and are modelled as replies without content;
  - `lookup` and `typeof` on an empty stack, and a `delete` out of range, are undefined behaviour and are modelled as an Undefined reply; `bt` and `info` on an empty stack show nothing;
  - `sscanf` overflow and `isspace` on negative characters are not modelled;
  - `getLineFromStdIn` is replaced by the input lines given as a parameter.
- Action, LibAction: the main file's name comes from the source manager and is a parameter. The error message for an unknown format is not modelled.
- Driver: `normalizeProgramName`, `insertArgsFromProgramName`, response-file expansion, help printing, the merge of the two argument lists and job execution are not modelled, because they call into the Clang driver and the process environment.
- EntryPrinter.Printer.ReadBlacklists: the read of the byte before the buffer start, when a file begins with a line break, is not modelled, because it is outside the buffer.
- The dictionary encoder of template names is not part of this model.

## Findings

| source | as written | input that shows it | evidently intended | confidence | as-written member | corrected member |
|---|---|---|---|---|---|---|
| include/ThinProtobuf.h:50 | `loadVarInt` shifts each 7-bit group in `int`, then widens the result to 64 bits | 2^31, which `saveVarInt` writes as 80 80 80 80 08, decodes as 0xFFFFFFFF80000000 | shift in 64 bits, so that every value below 2^64 round-trips | not executed | ThinProtobuf.VarIntAsWrittenFailsAt2To31 | ThinProtobuf.VarIntRoundTrip |
| include/ThinProtobuf.h:69-72 | `loadSInt` decodes the ZigZag varint with the same `int`-typed shift | 2^30, whose ZigZag image 2^31 `saveSInt` writes as 80 80 80 80 08, reads back as 0x7FFFFFFFC0000000 | decode in 64 bits, so that every int64 round-trips | not executed | ThinProtobuf.SIntAsWrittenFailsAt2To30 | ThinProtobuf.SIntRoundTrip |
| lib/TemplightAction.cpp:47-48 | standard output sets the base to "-", and the suffix rule still applies | `--stdout` with the default format yields `-.trace.pbf`, which the entry printer (lib/TemplightEntryPrinter.cpp:88) opens as a file | return "-" for standard output, as TemplightAction.cpp:46-47 does | not executed | LibAction.StdoutAsWrittenExample | LibAction.OutputFilename |
| TemplightTracer.cpp:484-510 | every known format returns before the check that the stream opened | an output file that cannot be opened, with format `yaml`, keeps a printer with no stream | drop the printer whenever the stream failed to open | not executed | TracerV1.SetupAsWrittenKeepsClosedStream | TracerV1.PrinterSetup |
