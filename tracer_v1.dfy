/**
 * The older `TemplightTracer` and its `TracePrinter`: raw Begin and End
 * events of template instantiations are either handed to the printer at
 * once (safe mode) or cached until the End of the first cached Begin
 * arrives, and a memoization that has just been closed is not reported
 * twice.
 *
 * Clang's declarations are opaque tokens (`entity`, 0 for none). The
 * conversion to a printable entry, the clock, the malloc probe and the
 * system-header query are outside the model: their results are parameters.
 * What reaches the output stream is recorded as calls of the printer's
 * `startTraceImpl` / `printEntryImpl` / `endTraceImpl`.
 */
module TracerV1 {

  import opened ThinProtobuf

  datatype Option<T> = None | Some(value: T)

  /** The instantiation kinds the printers name, in the order of the
      kind-name table; `Memoization` is the last of them. */
  const TEMPLATE_INSTANTIATION: int := 0
  const MEMOIZATION: int := 8

  datatype RawEntry = RawEntry(isBegin: bool, kind: int, entity: nat, timeStamp: Fixed64, memory: nat)

  /** A default-constructed entry: an open template instantiation of nothing. */
  const DEFAULT_ENTRY: RawEntry := RawEntry(true, TEMPLATE_INSTANTIATION, 0, ZERO_DOUBLE, 0)

  datatype PrinterCall = StartCall | PrintEntry(entry: RawEntry) | EndCall

  function Prints(entries: seq<RawEntry>): (r: seq<PrinterCall>)
    ensures |r| == |entries|
    ensures forall i | 0 <= i < |entries| :: r[i] == PrintEntry(entries[i])
  {
    if entries == [] then [] else Prints(entries[..|entries| - 1]) + [PrintEntry(entries[|entries| - 1])]
  }

  lemma PrintsAppend(a: seq<RawEntry>, b: seq<RawEntry>)
    ensures Prints(a + b) == Prints(a) + Prints(b)
  {
  }

  // ---------------------------------------------------------------------
  // One event

  /** `shouldIgnoreEntry`: a memoization of the entity whose memoization
      has just been closed. */
  predicate Ignored(last: RawEntry, e: RawEntry)
  {
    e.kind == MEMOIZATION && !last.isBegin && last.kind == e.kind && last.entity == e.entity
  }

  /** The last Begin after an accepted entry: a Begin replaces it, and the
      End of a memoization marks it closed. */
  function NextLast(last: RawEntry, e: RawEntry): (r: RawEntry)
    ensures e.isBegin ==> r == e
    ensures !e.isBegin && e.kind == MEMOIZATION ==> r == last.(isBegin := false)
    ensures !e.isBegin && e.kind != MEMOIZATION ==> r == last
  {
    if e.isBegin then e
    else if e.kind == MEMOIZATION then last.(isBegin := false)
    else last
  }

  /** Right after a memoization closes, the same memoization is not
      reported again, whichever mode the tracer is in. */
  lemma ClosedMemoizationIgnored(last: RawEntry, e: RawEntry)
    requires !Ignored(last, e) && !e.isBegin && e.kind == MEMOIZATION && last.kind == MEMOIZATION
    requires last.entity == e.entity
    ensures Ignored(NextLast(last, e), e)
    ensures Ignored(NextLast(last, e), e.(isBegin := true))
  {
  }

  /** The cache and the last Begin. */
  datatype CacheState = CacheState(cache: seq<RawEntry>, last: RawEntry)

  /** Whether an End closes the first cached entry's kind and entity. */
  predicate ClosesFront(cache: seq<RawEntry>, e: RawEntry)
  {
    !e.isBegin && cache != [] && e.kind == cache[0].kind && e.entity == cache[0].entity
  }

  /** `cacheEntry`: the new state and the entries printed. */
  function Cache(s: CacheState, e: RawEntry): (CacheState, seq<RawEntry>)
  {
    if Ignored(s.last, e) then (s, [])
    else
      var cache := s.cache + [e];
      var last := NextLast(s.last, e);
      if ClosesFront(cache, e) then (CacheState([], last), cache) else (CacheState(cache, last), [])
  }

  /** `printRawEntry`: the new last Begin and the entries printed. */
  function Direct(last: RawEntry, e: RawEntry): (RawEntry, seq<RawEntry>)
  {
    if Ignored(last, e) then (last, []) else (NextLast(last, e), [e])
  }

  /** The last Begin after a run of events. */
  function LastAfter(last: RawEntry, events: seq<RawEntry>): RawEntry
  {
    if events == [] then last
    else
      var before := LastAfter(last, events[..|events| - 1]);
      Direct(before, events[|events| - 1]).0
  }

  /** The entries of a run that are not ignored, in arrival order. */
  function Accepted(last: RawEntry, events: seq<RawEntry>): seq<RawEntry>
  {
    if events == [] then []
    else
      var before := LastAfter(last, events[..|events| - 1]);
      Accepted(last, events[..|events| - 1]) + Direct(before, events[|events| - 1]).1
  }

  /** A run of events in buffered mode: the final state and everything
      printed on the way. */
  function Buffered(s: CacheState, events: seq<RawEntry>): (CacheState, seq<RawEntry>)
  {
    if events == [] then (s, [])
    else
      var (mid, printed) := Buffered(s, events[..|events| - 1]);
      var (next, more) := Cache(mid, events[|events| - 1]);
      (next, printed + more)
  }

  /** Buffering loses and reorders nothing: what has been printed followed by
      what is still cached is exactly what safe mode prints for the same
      events, and the last Begin is tracked the same way. */
  lemma {:induction false} BufferedIsDirect(s: CacheState, events: seq<RawEntry>)
    ensures var (r, printed) := Buffered(s, events);
            printed + r.cache == s.cache + Accepted(s.last, events)
            && r.last == LastAfter(s.last, events)
  {
    if events != [] {
      var front := events[..|events| - 1];
      var e := events[|events| - 1];
      BufferedIsDirect(s, front);
      var (mid, printed) := Buffered(s, front);
      var (next, more) := Cache(mid, e);
      assert printed + mid.cache == s.cache + Accepted(s.last, front);
      if Ignored(mid.last, e) {
        assert printed + more + next.cache == printed + mid.cache;
      } else if ClosesFront(mid.cache + [e], e) {
        assert printed + more + next.cache == (printed + mid.cache) + [e];
      } else {
        assert printed + more + next.cache == (printed + mid.cache) + [e];
      }
    }
  }

  // ---------------------------------------------------------------------
  // The output name and format

  datatype Format = Yaml | Xml | Text

  /** The printer a `--format` value selects: none for an unknown format. */
  function FormatOf(format: string): (r: Option<Format>)
    ensures r.None? <==> format !in {"", "yaml", "xml", "text"}
  {
    if format == "" || format == "yaml" then Some(Yaml)
    else if format == "xml" then Some(Xml)
    else if format == "text" then Some(Text)
    else None
  }

  function Extension(f: Format): string
  {
    match f
    case Yaml => "yaml"
    case Xml => "xml"
    case Text => "txt"
  }

  /** The file the trace goes to: an explicit output name as given, else
      the main file's name with the trace postfix and the format's
      extension. */
  function OutputName(output: string, mainFile: string, memory: bool, f: Format): (r: string)
    ensures output != [] ==> r == output
    ensures output == [] ==> |r| > |mainFile| && r[..|mainFile|] == mainFile
  {
    var postfix := if output == [] then (if memory then ".memory.trace." else ".trace.") else "";
    var base := if output == [] then mainFile else output;
    if postfix == "" then base else base + postfix + Extension(f)
  }

  /** The derived name tells the formats and the memory mode apart: it ends
      with the postfix and the extension. */
  lemma DerivedName(mainFile: string, memory: bool, f: Format)
    ensures var postfix := if memory then ".memory.trace." else ".trace.";
            OutputName([], mainFile, memory, f) == mainFile + postfix + Extension(f)
  {
  }

  /** The stream a printer opens: the process's standard output for
      "stdout", else the named file, which may fail to open. */
  predicate StreamOpens(name: string, fileOpens: bool)
  {
    name == "stdout" || fileOpens
  }

  datatype Setup = Setup(format: Format, name: string, streamOpen: bool)

  /** The printer the constructor keeps, as the code is written: a known
      format returns straight after creating its printer, before the check
      that disables a printer whose stream did not open. */
  function SetupAsWritten(output: string, mainFile: string, memory: bool, format: string, fileOpens: bool): (r: Option<Setup>)
    ensures r.Some? <==> FormatOf(format).Some?
  {
    match FormatOf(format)
    case None => None
    case Some(f) =>
      var name := OutputName(output, mainFile, memory, f);
      Some(Setup(f, name, StreamOpens(name, fileOpens)))
  }

  /** As written, a printer whose file cannot be opened is kept, and the
      first event would write through its missing stream. */
  lemma SetupAsWrittenKeepsClosedStream()
    ensures var r := SetupAsWritten("out/t.yaml", "a.cpp", false, "yaml", false);
            r.Some? && !r.value.streamOpen
  {
  }

  /** The printer the constructor evidently means to keep: none for an
      unknown format or a stream that does not open. */
  function PrinterSetup(output: string, mainFile: string, memory: bool, format: string, fileOpens: bool): (r: Option<Setup>)
    ensures r.Some? ==> r.value.streamOpen && Some(r.value.format) == FormatOf(format)
    ensures r.None? <==> FormatOf(format).None?
                         || !StreamOpens(OutputName(output, mainFile, memory, FormatOf(format).value), fileOpens)
  {
    var s := SetupAsWritten(output, mainFile, memory, format, fileOpens);
    if s.Some? && s.value.streamOpen then s else None
  }

  // ---------------------------------------------------------------------
  // The printer and the tracer

  class TracePrinter {
    var traceEntries: seq<RawEntry>
    var lastBeginEntry: RawEntry
    /** What has reached the output stream, in order. */
    var calls: seq<PrinterCall>
    const format: Format
    const name: string
    /** Whether `TraceOS` is a stream; a printer whose file did not open
        has none, and writes through it go nowhere defined. */
    const streamOpen: bool

    function State(): CacheState
      reads this
    {
      CacheState(traceEntries, lastBeginEntry)
    }

    constructor(format: Format, name: string, streamOpen: bool)
      ensures traceEntries == [] && lastBeginEntry == DEFAULT_ENTRY && calls == []
      ensures this.format == format && this.name == name && this.streamOpen == streamOpen
    {
      traceEntries := [];
      lastBeginEntry := DEFAULT_ENTRY;
      calls := [];
      this.format := format;
      this.name := name;
      this.streamOpen := streamOpen;
    }

    /** `shouldIgnoreEntry`. */
    method ShouldIgnoreEntry(e: RawEntry) returns (ignore: bool)
      ensures ignore <==> Ignored(lastBeginEntry, e)
    {
      ignore := false;
      if e.kind == MEMOIZATION {
        if !lastBeginEntry.isBegin && lastBeginEntry.kind == e.kind && lastBeginEntry.entity == e.entity {
          ignore := true;
        }
      }
    }

    /** `printRawEntry` (safe mode): an accepted entry is printed at once
        and nothing is cached. */
    method PrintRawEntry(e: RawEntry)
      modifies this
      ensures var (last, printed) := Direct(old(lastBeginEntry), e);
              lastBeginEntry == last && calls == old(calls) + Prints(printed)
      ensures traceEntries == old(traceEntries)
    {
      var ignore := ShouldIgnoreEntry(e);
      assert calls + Prints([]) == calls;
      if ignore {
        return;
      }
      assert Prints([e]) == [PrintEntry(e)];
      calls := calls + [PrintEntry(e)];
      if e.isBegin {
        lastBeginEntry := e;
      }
      if !e.isBegin && e.kind == MEMOIZATION {
        lastBeginEntry := lastBeginEntry.(isBegin := false);
      }
    }

    /** `printCachedEntries`: every cached entry in order, then an empty
        cache. */
    method PrintCachedEntries()
      modifies this
      ensures calls == old(calls) + Prints(old(traceEntries))
      ensures traceEntries == [] && lastBeginEntry == old(lastBeginEntry)
    {
      var i := 0;
      while i < |traceEntries|
        invariant 0 <= i <= |traceEntries|
        invariant traceEntries == old(traceEntries) && lastBeginEntry == old(lastBeginEntry)
        invariant calls == old(calls) + Prints(traceEntries[..i])
      {
        assert traceEntries[..i + 1] == traceEntries[..i] + [traceEntries[i]];
        calls := calls + [PrintEntry(traceEntries[i])];
        i := i + 1;
      }
      assert traceEntries[..i] == traceEntries;
      traceEntries := [];
    }

    /** `cacheEntry` (buffered mode): an accepted entry is cached; the End
        of the first cached entry prints the whole cache in arrival order. */
    method CacheEntry(e: RawEntry)
      modifies this
      ensures var (next, printed) := Cache(old(State()), e);
              State() == next && calls == old(calls) + Prints(printed)
    {
      var ignore := ShouldIgnoreEntry(e);
      assert calls + Prints([]) == calls;
      if ignore {
        return;
      }
      ghost var s := Cache(State(), e);
      traceEntries := traceEntries + [e];
      if e.isBegin {
        lastBeginEntry := e;
      }
      if !e.isBegin && e.kind == MEMOIZATION {
        lastBeginEntry := lastBeginEntry.(isBegin := false);
      }
      assert State() == CacheState(s.0.cache + s.1, s.0.last);
      if !e.isBegin && e.kind == traceEntries[0].kind && e.entity == traceEntries[0].entity {
        PrintCachedEntries();
      } else {
        assert calls == old(calls) + Prints(s.1);
      }
    }

    /** `startTrace`. */
    method StartTrace()
      modifies this
      ensures calls == old(calls) + [StartCall] && State() == old(State())
    {
      calls := calls + [StartCall];
    }

    /** `endTrace`: the cache is flushed before the trace is closed. */
    method EndTrace()
      modifies this
      ensures calls == old(calls) + Prints(old(traceEntries)) + [EndCall]
      ensures traceEntries == [] && lastBeginEntry == old(lastBeginEntry)
    {
      PrintCachedEntries();
      calls := calls + [EndCall];
    }
  }

  /** `TemplightTracer`: owns the printer (if any) and turns instantiation
      events into raw entries. */
  class TemplightTracer {
    const printer: TracePrinter?
    const memoryFlag: bool
    const safeModeFlag: bool
    const ignoreSystemFlag: bool

    /** The printer exists exactly as `SetupAsWritten` decides: for every
        known format, whether or not its stream opened. It has a stream
        exactly when the corrected `PrinterSetup` would keep it. */
    constructor(output: string, mainFile: string, format: string, memory: bool, safeMode: bool,
                ignoreSystem: bool, fileOpens: bool)
      ensures var s := SetupAsWritten(output, mainFile, memory, format, fileOpens);
              (printer == null <==> s.None?)
              && (printer != null ==> printer.format == s.value.format && printer.name == s.value.name
                                      && printer.streamOpen == s.value.streamOpen
                                      && printer.calls == [] && printer.traceEntries == [])
      ensures (printer != null && printer.streamOpen) <==> PrinterSetup(output, mainFile, memory, format, fileOpens).Some?
      ensures printer != null ==> fresh(printer)
      ensures memoryFlag == memory && safeModeFlag == safeMode && ignoreSystemFlag == ignoreSystem
    {
      var s := SetupAsWritten(output, mainFile, memory, format, fileOpens);
      if s.Some? {
        printer := new TracePrinter(s.value.format, s.value.name, s.value.streamOpen);
      } else {
        printer := null;
      }
      memoryFlag := memory;
      safeModeFlag := safeMode;
      ignoreSystemFlag := ignoreSystem;
    }

    /** `atTemplateBeginImpl` / `atTemplateEndImpl`: without a printer, or
        for a system header when those are ignored, nothing happens;
        otherwise the entry goes to the printer directly (safe mode) or
        through the cache, also when the printer has no stream. The memory
        probe is recorded only in memory mode. */
    method AtTemplate(isBegin: bool, kind: int, entity: nat, timeStamp: Fixed64, mallocUsage: nat, inSystemHeader: bool)
      modifies printer
      ensures printer != null && !(ignoreSystemFlag && inSystemHeader) ==>
                var e := RawEntry(isBegin, kind, entity, timeStamp, if memoryFlag then mallocUsage else 0);
                if safeModeFlag then
                  var (last, printed) := Direct(old(printer.lastBeginEntry), e);
                  printer.lastBeginEntry == last && printer.calls == old(printer.calls) + Prints(printed)
                  && printer.traceEntries == old(printer.traceEntries)
                else
                  var (next, printed) := Cache(old(printer.State()), e);
                  printer.State() == next && printer.calls == old(printer.calls) + Prints(printed)
      ensures printer != null && ignoreSystemFlag && inSystemHeader ==>
                printer.State() == old(printer.State()) && printer.calls == old(printer.calls)
    {
      if printer == null || (ignoreSystemFlag && inSystemHeader) {
        return;
      }
      var e := RawEntry(isBegin, kind, entity, timeStamp, if memoryFlag then mallocUsage else 0);
      if safeModeFlag {
        printer.PrintRawEntry(e);
      } else {
        printer.CacheEntry(e);
      }
    }
  }
}
