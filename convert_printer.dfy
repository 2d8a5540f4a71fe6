/**
 * The converter's `TemplightEntryPrinter`: the same blacklist filter as the
 * library's, but "skipping" is tracked by the name of the Begin that started
 * the skip (`currentSkipped`), which is cleared when its count of pending
 * Ends reaches zero. The constructor also picks the writer from the format.
 *
 * Nothing in the converter sets the two patterns, so they stay absent and
 * the filter passes everything; the model keeps them as fields so that the
 * filter's logic is stated for any patterns.
 */
module ConvertPrinter {

  import opened ThinProtobuf
  import opened Entries
  import EP = EntryPrinter

  /** The writers the converter can produce. */
  datatype WriterKind = Yaml | Xml | Text | GraphML | GraphViz | NestedXml

  /** The writer for an output format; `None` for an unknown one. */
  function WriterFor(format: string): (r: EP.Option<WriterKind>)
    ensures r.None? <==> format !in {"", "yaml", "xml", "text", "graphml", "graphviz", "nestedxml"}
    ensures format == "" ==> r == EP.Some(Yaml)
  {
    if format == "" || format == "yaml" then EP.Some(Yaml)
    else if format == "xml" then EP.Some(Xml)
    else if format == "text" then EP.Some(Text)
    else if format == "graphml" then EP.Some(GraphML)
    else if format == "graphviz" then EP.Some(GraphViz)
    else if format == "nestedxml" then EP.Some(NestedXml)
    else EP.None
  }

  /** The skip state: the Begin that started the skip and the Ends still to
      drop. `count` is a `size_t`, so decrementing zero wraps around. */
  datatype SkipState = SkipState(skipped: Begin, count: nat)

  const IDLE: SkipState := SkipState(EMPTY_BEGIN, 0)

  predicate Skipping(s: SkipState)
  {
    s.skipped.name != []
  }

  function Decrement(count: nat): nat
  {
    if count == 0 then TWO_64 - 1 else count - 1
  }

  /** One event through the filter: the new state, and whether it is dropped. */
  function Step(s: SkipState, event: Event, blacklisted: Bytes -> bool): (SkipState, bool)
  {
    match event
    case BeginEvent(b) =>
      if Skipping(s) then (s.(count := s.count + 1), true)
      else if blacklisted(b.name) then (SkipState(b, 1), true)
      else (s, false)
    case EndEvent(_) =>
      if Skipping(s) then
        var count := Decrement(s.count);
        (SkipState(if count == 0 then s.skipped.(name := []) else s.skipped, count), true)
      else (s, false)
  }

  function Filter(s: SkipState, events: seq<Event>, blacklisted: Bytes -> bool): (SkipState, seq<Event>)
    decreases |events|
  {
    if events == [] then (s, [])
    else
      var (s', dropped) := Step(s, events[0], blacklisted);
      var (final, passed) := Filter(s', events[1..], blacklisted);
      (final, if dropped then passed else [events[0]] + passed)
  }

  /** Skipping exactly while Ends are pending. */
  predicate InStep(s: SkipState)
  {
    Skipping(s) <==> s.count > 0
  }

  /** As long as every blacklisted Begin has a name, this filter drops exactly
      what the library's counter-based filter drops. */
  lemma {:induction false} AgreesWithLibrary(s: SkipState, events: seq<Event>, blacklisted: Bytes -> bool)
    requires InStep(s)
    requires forall i | 0 <= i < |events| && events[i].BeginEvent? ::
               blacklisted(events[i].begin.name) ==> events[i].begin.name != []
    ensures InStep(Filter(s, events, blacklisted).0)
    ensures Filter(s, events, blacklisted).0.count == EP.Filter(s.count, events, blacklisted).0
    ensures Filter(s, events, blacklisted).1 == EP.Filter(s.count, events, blacklisted).1
    decreases |events|
  {
    if events != [] {
      var (s', _) := Step(s, events[0], blacklisted);
      assert s'.count == EP.Step(s.count, events[0], blacklisted).0;
      AgreesWithLibrary(s', events[1..], blacklisted);
    }
  }

  /** A blacklisted Begin whose name is empty is dropped but does not start
      a skip: its End, and any children, reach the writer. */
  lemma EmptyNameNeverSkips(b: Begin, e: End, blacklisted: Bytes -> bool)
    requires b.name == [] && blacklisted(b.name)
    ensures Filter(IDLE, [BeginEvent(b), EndEvent(e)], blacklisted).1 == [EndEvent(e)]
    ensures !Skipping(Filter(IDLE, [BeginEvent(b), EndEvent(e)], blacklisted).0)
  {
    assert [BeginEvent(b), EndEvent(e)][1..] == [EndEvent(e)];
    assert Step(IDLE, BeginEvent(b), blacklisted) == (SkipState(b, 1), true);
    assert !Skipping(SkipState(b, 1));
    assert Step(SkipState(b, 1), EndEvent(e), blacklisted) == (SkipState(b, 1), false);
    assert [EndEvent(e)][1..] == [];
    assert Filter(SkipState(b, 1), [EndEvent(e)], blacklisted) == (SkipState(b, 1), [EndEvent(e)] + []);
  }

  class Printer {
    var currentSkipped: Begin
    var skippedEndingsCount: nat
    var coRegex: EP.Option<string>
    var idRegex: EP.Option<string>
    var writer: EP.Option<WriterKind>
    /** What the writer has received, in order. */
    var written: seq<Event>
    const matches: (string, Bytes) -> bool

    function State(): SkipState
      reads this
    {
      SkipState(currentSkipped, skippedEndingsCount)
    }

    /** The constructor: with an output that could not be opened (`canOpen`
        false, never the case for "-") there is no writer; otherwise the
        format picks it. The count starts at zero (it is left uninitialised
        in the source and only read once a skip has set it). */
    constructor(output: string, format: string, canOpen: bool, matches: (string, Bytes) -> bool)
      ensures State() == IDLE && coRegex == EP.None && idRegex == EP.None && written == []
      ensures writer == (if output != "-" && !canOpen then EP.None else WriterFor(format))
      ensures this.matches == matches
    {
      currentSkipped := EMPTY_BEGIN;
      skippedEndingsCount := 0;
      coRegex := EP.None;
      idRegex := EP.None;
      written := [];
      this.matches := matches;
      if output != "-" && !canOpen {
        writer := EP.None;
      } else if format == "" || format == "yaml" {
        writer := EP.Some(Yaml);
      } else if format == "xml" {
        writer := EP.Some(Xml);
      } else if format == "text" {
        writer := EP.Some(Text);
      } else if format == "graphml" {
        writer := EP.Some(GraphML);
      } else if format == "graphviz" {
        writer := EP.Some(GraphViz);
      } else if format == "nestedxml" {
        writer := EP.Some(NestedXml);
      } else {
        writer := EP.None;
      }
    }

    /** `isValid`: a writer was chosen. */
    function IsValid(): bool
      reads this
    {
      writer.Some?
    }

    /** `skipEntry`: records the entry and one pending End, unless a skip is
        already under way. */
    method SkipEntry(b: Begin)
      modifies this
      ensures old(Skipping(State())) ==> State() == old(State())
      ensures !old(Skipping(State())) ==> State() == SkipState(b, 1)
      ensures coRegex == old(coRegex) && idRegex == old(idRegex)
      ensures writer == old(writer) && written == old(written)
    {
      if currentSkipped.name != [] {
        return;
      }
      currentSkipped := b;
      skippedEndingsCount := 1;
    }

    /** `shouldIgnoreEntry` for a Begin. */
    method ShouldIgnoreBegin(b: Begin) returns (ignore: bool)
      modifies this
      ensures (State(), ignore) == Step(old(State()), BeginEvent(b), EP.BlacklistOf(coRegex, idRegex, matches))
      ensures coRegex == old(coRegex) && idRegex == old(idRegex)
      ensures writer == old(writer) && written == old(written)
    {
      if currentSkipped.name != [] {
        skippedEndingsCount := skippedEndingsCount + 1;
        return true;
      }
      if (coRegex.Some? && matches(coRegex.value, b.name)) || (idRegex.Some? && matches(idRegex.value, b.name)) {
        SkipEntry(b);
        return true;
      }
      return false;
    }

    /** `shouldIgnoreEntry` for an End: the skip ends with its last End. */
    method ShouldIgnoreEnd(e: End) returns (ignore: bool)
      modifies this
      ensures (State(), ignore) == Step(old(State()), EndEvent(e), EP.BlacklistOf(coRegex, idRegex, matches))
      ensures coRegex == old(coRegex) && idRegex == old(idRegex)
      ensures writer == old(writer) && written == old(written)
    {
      if currentSkipped.name != [] {
        skippedEndingsCount := if skippedEndingsCount == 0 then TWO_64 - 1 else skippedEndingsCount - 1;
        if skippedEndingsCount == 0 {
          currentSkipped := currentSkipped.(name := []);
        }
        return true;
      }
      return false;
    }

    /** `printEntry` for a Begin. */
    method PrintBegin(b: Begin)
      modifies this
      ensures var (s, passed) := Filter(old(State()), [BeginEvent(b)], EP.BlacklistOf(coRegex, idRegex, matches));
              State() == s && written == old(written) + (if writer.Some? then passed else [])
      ensures coRegex == old(coRegex) && idRegex == old(idRegex) && writer == old(writer)
    {
      var ignore := ShouldIgnoreBegin(b);
      if ignore {
        return;
      }
      if writer.Some? {
        written := written + [BeginEvent(b)];
      }
    }

    /** `printEntry` for an End. */
    method PrintEnd(e: End)
      modifies this
      ensures var (s, passed) := Filter(old(State()), [EndEvent(e)], EP.BlacklistOf(coRegex, idRegex, matches));
              State() == s && written == old(written) + (if writer.Some? then passed else [])
      ensures coRegex == old(coRegex) && idRegex == old(idRegex) && writer == old(writer)
    {
      var ignore := ShouldIgnoreEnd(e);
      if ignore {
        return;
      }
      if writer.Some? {
        written := written + [EndEvent(e)];
      }
    }
  }
}
