/**
 * The library's `TemplightEntryPrinter`: the blacklist filter between the
 * trace readers and a writer. A Begin whose name matches the context or the
 * identifier pattern is dropped together with its whole subtree; the
 * `skippedEndingsCount` counter is the number of Ends still to drop.
 *
 * Regular-expression matching (`llvm::Regex`) is outside the model: it is the
 * `matches` parameter, applied to a pattern and a name. The writer the
 * printer forwards to is modelled by the sequence of events it receives.
 */
module EntryPrinter {

  import opened ThinProtobuf
  import opened Entries

  datatype Option<T> = None | Some(value: T)

  /** Whether a name is blacklisted: a present pattern that matches it. */
  function Blacklisted(coRegex: Option<string>, idRegex: Option<string>,
                       matches: (string, Bytes) -> bool, name: Bytes): bool
  {
    (coRegex.Some? && matches(coRegex.value, name)) || (idRegex.Some? && matches(idRegex.value, name))
  }

  /** The blacklist test of a printer with these patterns. */
  function BlacklistOf(coRegex: Option<string>, idRegex: Option<string>,
                       matches: (string, Bytes) -> bool): Bytes -> bool
  {
    name => Blacklisted(coRegex, idRegex, matches, name)
  }

  /** One event through the filter: the new count, and whether it is dropped. */
  function Step(count: nat, event: Event, blacklisted: Bytes -> bool): (nat, bool)
  {
    match event
    case BeginEvent(b) =>
      if count > 0 then (count + 1, true)
      else if blacklisted(b.name) then (1, true)
      else (0, false)
    case EndEvent(_) =>
      if count > 0 then (count - 1, true) else (0, false)
  }

  /** A whole event sequence through the filter: the final count and the
      events that pass, in order. */
  function Filter(count: nat, events: seq<Event>, blacklisted: Bytes -> bool): (nat, seq<Event>)
    decreases |events|
  {
    if events == [] then (count, [])
    else
      var (count', dropped) := Step(count, events[0], blacklisted);
      var (final, passed) := Filter(count', events[1..], blacklisted);
      (final, if dropped then passed else [events[0]] + passed)
  }

  /** Filtering two pieces one after the other is filtering their concatenation. */
  lemma {:induction false} FilterAppend(count: nat, a: seq<Event>, b: seq<Event>, blacklisted: Bytes -> bool)
    ensures var (c1, p1) := Filter(count, a, blacklisted);
            var (c2, p2) := Filter(c1, b, blacklisted);
            Filter(count, a + b, blacklisted) == (c2, p1 + p2)
    decreases |a|
  {
    if a != [] {
      var (count', dropped) := Step(count, a[0], blacklisted);
      assert (a + b)[0] == a[0];
      assert (a + b)[1..] == a[1..] + b;
      FilterAppend(count', a[1..], b, blacklisted);
      var (c1, p1) := Filter(count', a[1..], blacklisted);
      var (c2, p2) := Filter(c1, b, blacklisted);
      assert [a[0]] + (p1 + p2) == [a[0]] + p1 + p2;
    } else {
      assert a + b == b;
      var (c2, p2) := Filter(count, b, blacklisted);
      assert [] + p2 == p2;
    }
  }

  /** While skipping, as long as the events never close more than are open,
      every event is dropped and the count follows the nesting depth. */
  lemma {:induction false} SkippingDropsAll(count: nat, events: seq<Event>, blacklisted: Bytes -> bool)
    requires count > 0
    requires forall k | 0 <= k <= |events| :: count + Depth(events[..k]) > 0
    ensures Filter(count, events, blacklisted) == (count + Depth(events), [])
    decreases |events|
  {
    if events != [] {
      var count' := Step(count, events[0], blacklisted).0;
      assert events[..1] == [events[0]];
      assert Depth(events[..1]) == Depth(events[1..][..0]) + (if events[0].BeginEvent? then 1 else -1);
      forall k | 0 <= k <= |events[1..]|
        ensures count' + Depth(events[1..][..k]) > 0
      {
        assert events[..k + 1][1..] == events[1..][..k];
      }
      SkippingDropsAll(count', events[1..], blacklisted);
    }
  }

  /** A blacklisted Begin, a well-nested run of children and its End are all
      dropped, and the count is back to zero afterwards. */
  lemma SubtreeDropped(b: Begin, children: seq<Event>, e: End, blacklisted: Bytes -> bool)
    requires blacklisted(b.name) && WellNested(children)
    ensures Filter(0, [BeginEvent(b)] + children + [EndEvent(e)], blacklisted) == (0, [])
  {
    SkippingDropsAll(1, children, blacklisted);
    FilterAppend(0, [BeginEvent(b)], children, blacklisted);
    FilterAppend(0, [BeginEvent(b)] + children, [EndEvent(e)], blacklisted);
  }

  /** With nothing blacklisted and nothing being skipped, every event passes. */
  lemma {:induction false} NothingBlacklisted(events: seq<Event>, blacklisted: Bytes -> bool)
    requires forall i | 0 <= i < |events| && events[i].BeginEvent? :: !blacklisted(events[i].begin.name)
    ensures Filter(0, events, blacklisted) == (0, events)
    decreases |events|
  {
    if events != [] {
      NothingBlacklisted(events[1..], blacklisted);
      assert [events[0]] + events[1..] == events;
    }
  }

  // ---------------------------------------------------------------------
  // Blacklist files

  /** The first '\n' at or after `from`, or the end. */
  function FindNewline(text: string, from: nat): (r: nat)
    requires from <= |text|
    ensures from <= r <= |text| && (r < |text| ==> text[r] == '\n')
    ensures forall k | from <= k < r :: text[k] != '\n'
    decreases |text| - from
  {
    if from == |text| || text[from] == '\n' then from else FindNewline(text, from + 1)
  }

  /** The first position at or after `from` that is not a line break. */
  function SkipLineBreaks(text: string, from: nat): (r: nat)
    requires from <= |text|
    ensures from <= r <= |text| && (r < |text| ==> text[r] != '\n' && text[r] != '\r')
    ensures forall k | from <= k < r :: text[k] == '\n' || text[k] == '\r'
    decreases |text| - from
  {
    if from == |text| || (text[from] != '\n' && text[from] != '\r') then from
    else SkipLineBreaks(text, from + 1)
  }

  /** Where the line starting at `start` ends: before its '\n', and before one
      '\r' just ahead of it. (The source tests the byte before the '\n' even
      for a line that is empty; that only happens for the file's first byte,
      every later line starting after a run of line breaks, and the byte
      before the buffer is taken as not '\r'.) */
  function LineEnd(text: string, start: nat): (r: nat)
    requires start <= |text|
    ensures start <= r <= |text| && forall k | start <= k < r :: text[k] != '\n'
    ensures r < |text| ==> text[r] == '\n' || text[r] == '\r'
  {
    var mark := FindNewline(text, start);
    if mark > start && text[mark - 1] == '\r' then mark - 1 else mark
  }

  /** The lines `readBlacklists` visits, from `start`; runs of line breaks
      (so empty lines) are skipped. */
  function Lines(text: string, start: nat): (r: seq<string>)
    requires start <= |text|
    ensures forall i | 0 <= i < |r| :: '\n' !in r[i]
    decreases |text| - start
  {
    if start == |text| then []
    else
      var mark := LineEnd(text, start);
      assert forall c | c in text[start..mark] :: c != '\n';
      [text[start..mark]] + Lines(text, SkipLineBreaks(text, mark))
  }

  /** One line of the loop: its patterns added, the rest from past its
      line breaks. */
  lemma PatternsStep(text: string, start: nat, co: string, id: string)
    requires start < |text|
    ensures var mark := LineEnd(text, start);
            var added := AddLine(co, id, text[start..mark]);
            Patterns(Lines(text, start), co, id)
            == Patterns(Lines(text, SkipLineBreaks(text, mark)), added.0, added.1)
  {
    var mark := LineEnd(text, start);
    assert Lines(text, start) == [text[start..mark]] + Lines(text, SkipLineBreaks(text, mark));
  }

  predicate HasPrefix(line: string, prefix: string)
  {
    |prefix| <= |line| && line[..|prefix|] == prefix
  }

  /** One more alternative, `(alt)`, joined to a pattern with '|'. */
  function AddAlternative(pattern: string, alt: string): string
  {
    (if pattern == [] then pattern else pattern + "|") + "(" + alt + ")"
  }

  /** One line of a blacklist file: a `context ` line adds what follows to
      the context pattern, an `identifier ` line to the identifier pattern,
      and any other line is ignored. */
  function AddLine(co: string, id: string, line: string): (string, string)
  {
    if HasPrefix(line, "context ") then (AddAlternative(co, line[8..]), id)
    else if HasPrefix(line, "identifier ") then (co, AddAlternative(id, line[11..]))
    else (co, id)
  }

  /** The context and identifier patterns built from the remaining lines. */
  function Patterns(lines: seq<string>, co: string, id: string): (string, string)
  {
    if lines == [] then (co, id)
    else
      var (co', id') := AddLine(co, id, lines[0]);
      Patterns(lines[1..], co', id')
  }

  /** What follows `prefix` on each line that starts with it, in order. */
  function Alternatives(lines: seq<string>, prefix: string): (r: seq<string>)
    ensures |r| <= |lines|
  {
    if lines == [] then []
    else (if HasPrefix(lines[0], prefix) then [lines[0][|prefix|..]] else []) + Alternatives(lines[1..], prefix)
  }

  /** Alternatives `(a)|(b)|...`, the empty pattern for none. */
  function Join(alts: seq<string>): string
  {
    if alts == [] then []
    else if |alts| == 1 then "(" + alts[0] + ")"
    else "(" + alts[0] + ")|" + Join(alts[1..])
  }

  lemma {:induction false} JoinAppend(alts: seq<string>, alt: string)
    ensures AddAlternative(Join(alts), alt) == Join(alts + [alt])
  {
    if alts == [] {
      assert [] + [alt] == [alt];
    } else if |alts| == 1 {
      assert (alts + [alt])[1..] == [alt];
    } else {
      JoinAppend(alts[1..], alt);
      assert (alts + [alt])[1..] == alts[1..] + [alt];
    }
  }

  lemma AlternativesStep(lines: seq<string>, prefix: string, acc: seq<string>)
    requires lines != []
    ensures acc + Alternatives(lines, prefix)
            == (if HasPrefix(lines[0], prefix) then acc + [lines[0][|prefix|..]] else acc)
               + Alternatives(lines[1..], prefix)
  {
    var rest := Alternatives(lines[1..], prefix);
    if HasPrefix(lines[0], prefix) {
      var x := lines[0][|prefix|..];
      assert Alternatives(lines, prefix) == [x] + rest;
      assert acc + ([x] + rest) == acc + [x] + rest;
    } else {
      assert Alternatives(lines, prefix) == [] + rest;
      assert [] + rest == rest;
    }
  }

  /** Line by line, each pattern becomes the '|'-join of the parenthesised
      remainders of its lines, in file order. */
  lemma {:induction false} PatternsAreJoins(lines: seq<string>, co: seq<string>, id: seq<string>)
    ensures Patterns(lines, Join(co), Join(id))
            == (Join(co + Alternatives(lines, "context ")), Join(id + Alternatives(lines, "identifier ")))
    decreases |lines|
  {
    if lines == [] {
      assert co + [] == co && id + [] == id;
    } else {
      var line := lines[0];
      var rest := lines[1..];
      AlternativesStep(lines, "context ", co);
      AlternativesStep(lines, "identifier ", id);
      if HasPrefix(line, "context ") {
        assert !HasPrefix(line, "identifier ") by { assert line[0] == 'c'; }
        JoinAppend(co, line[8..]);
        PatternsAreJoins(rest, co + [line[8..]], id);
      } else if HasPrefix(line, "identifier ") {
        JoinAppend(id, line[11..]);
        PatternsAreJoins(rest, co, id + [line[11..]]);
      } else {
        PatternsAreJoins(rest, co, id);
      }
    }
  }

  /** The patterns of a whole blacklist file. */
  function FilePatterns(text: string): (string, string)
  {
    Patterns(Lines(text, 0), [], [])
  }

  lemma FilePatternsAreJoins(text: string)
    ensures FilePatterns(text)
            == (Join(Alternatives(Lines(text, 0), "context ")), Join(Alternatives(Lines(text, 0), "identifier ")))
  {
    PatternsAreJoins(Lines(text, 0), [], []);
    assert [] + Alternatives(Lines(text, 0), "context ") == Alternatives(Lines(text, 0), "context ");
    assert [] + Alternatives(Lines(text, 0), "identifier ") == Alternatives(Lines(text, 0), "identifier ");
  }

  // ---------------------------------------------------------------------
  // The printer

  class Printer {
    var skippedEndingsCount: nat
    var coRegex: Option<string>
    var idRegex: Option<string>
    var hasWriter: bool
    /** What the writer has received, in order. */
    var written: seq<Event>
    /** `llvm::Regex::match`, outside the model. */
    const matches: (string, Bytes) -> bool

    /** A printer starts with nothing skipped, no pattern and no writer. */
    constructor(matches: (string, Bytes) -> bool)
      ensures skippedEndingsCount == 0 && coRegex == None && idRegex == None
      ensures !hasWriter && written == [] && this.matches == matches
    {
      skippedEndingsCount := 0;
      coRegex := None;
      idRegex := None;
      hasWriter := false;
      written := [];
      this.matches := matches;
    }

    /** `takeWriter`. */
    method TakeWriter()
      modifies this
      ensures hasWriter && written == []
      ensures skippedEndingsCount == old(skippedEndingsCount)
      ensures coRegex == old(coRegex) && idRegex == old(idRegex)
    {
      hasWriter := true;
      written := [];
    }

    /** `isValid`: a writer is attached. */
    function IsValid(): bool
      reads this
    {
      hasWriter
    }

    /** `skipEntry`: starts skipping, or skips one more level. */
    method SkipEntry()
      modifies this
      ensures skippedEndingsCount == old(skippedEndingsCount) + 1
      ensures old(skippedEndingsCount) == 0 ==> skippedEndingsCount == 1
      ensures coRegex == old(coRegex) && idRegex == old(idRegex)
      ensures hasWriter == old(hasWriter) && written == old(written)
    {
      if skippedEndingsCount > 0 {
        skippedEndingsCount := skippedEndingsCount + 1;
        return;
      }
      skippedEndingsCount := 1;
    }

    /** `shouldIgnoreEntry` for a Begin. */
    method ShouldIgnoreBegin(b: Begin) returns (ignore: bool)
      modifies this
      ensures (skippedEndingsCount, ignore) == Step(old(skippedEndingsCount), BeginEvent(b), BlacklistOf(coRegex, idRegex, matches))
      ensures coRegex == old(coRegex) && idRegex == old(idRegex)
      ensures hasWriter == old(hasWriter) && written == old(written)
    {
      if skippedEndingsCount > 0 {
        skippedEndingsCount := skippedEndingsCount + 1;
        return true;
      }
      if (coRegex.Some? && matches(coRegex.value, b.name)) || (idRegex.Some? && matches(idRegex.value, b.name)) {
        SkipEntry();
        return true;
      }
      return false;
    }

    /** `shouldIgnoreEntry` for an End. */
    method ShouldIgnoreEnd(e: End) returns (ignore: bool)
      modifies this
      ensures (skippedEndingsCount, ignore) == Step(old(skippedEndingsCount), EndEvent(e), BlacklistOf(coRegex, idRegex, matches))
      ensures coRegex == old(coRegex) && idRegex == old(idRegex)
      ensures hasWriter == old(hasWriter) && written == old(written)
    {
      if skippedEndingsCount > 0 {
        skippedEndingsCount := skippedEndingsCount - 1;
        return true;
      }
      return false;
    }

    /** `printEntry` for a Begin: forwarded unless it is filtered out, and only
        to a writer that is there. */
    method PrintBegin(b: Begin)
      modifies this
      ensures var (count, passed) := Filter(old(skippedEndingsCount), [BeginEvent(b)], BlacklistOf(coRegex, idRegex, matches));
              skippedEndingsCount == count && written == old(written) + (if hasWriter then passed else [])
      ensures coRegex == old(coRegex) && idRegex == old(idRegex) && hasWriter == old(hasWriter)
    {
      var ignore := ShouldIgnoreBegin(b);
      if ignore {
        return;
      }
      if hasWriter {
        written := written + [BeginEvent(b)];
      }
    }

    /** `printEntry` for an End. */
    method PrintEnd(e: End)
      modifies this
      ensures var (count, passed) := Filter(old(skippedEndingsCount), [EndEvent(e)], BlacklistOf(coRegex, idRegex, matches));
              skippedEndingsCount == count && written == old(written) + (if hasWriter then passed else [])
      ensures coRegex == old(coRegex) && idRegex == old(idRegex) && hasWriter == old(hasWriter)
    {
      var ignore := ShouldIgnoreEnd(e);
      if ignore {
        return;
      }
      if hasWriter {
        written := written + [EndEvent(e)];
      }
    }

    /** The line loop of `readBlacklists`: each line up to its '\n' (and a
        '\r' before it) is added to the patterns, then the run of line
        breaks after it is skipped. */
    static method ReadPatterns(text: string) returns (co: string, id: string)
      ensures (co, id) == FilePatterns(text)
    {
      co, id := [], [];
      var it: nat, mark: nat := 0, 0;
      while mark != |text|
        invariant it == mark <= |text|
        invariant Patterns(Lines(text, it), co, id) == FilePatterns(text)
        decreases |text| - it
      {
        mark := FindNewline(text, it);  // std::find
        if mark > it && text[mark - 1] == '\r' {
          mark := mark - 1;
        }
        assert mark == LineEnd(text, it);
        PatternsStep(text, it, co, id);
        co, id := AddLine(co, id, text[it..mark]).0, AddLine(co, id, text[it..mark]).1;
        mark := SkipBreaks(text, mark);
        it := mark;
      }
    }

    /** The inner loop of `readBlacklists`: past the run of line breaks. */
    static method SkipBreaks(text: string, from: nat) returns (mark: nat)
      requires from <= |text|
      ensures mark == SkipLineBreaks(text, from)
    {
      mark := from;
      while mark != |text| && (text[mark] == '\n' || text[mark] == '\r')
        invariant from <= mark <= |text|
        invariant SkipLineBreaks(text, mark) == SkipLineBreaks(text, from)
        decreases |text| - mark
      {
        mark := mark + 1;
      }
    }

    /** `readBlacklists`: no file name, or a file that cannot be read
        (`contents` is `None`), removes both patterns; otherwise each pattern
        is built from the file's lines. */
    method ReadBlacklists(fileName: string, contents: Option<string>)
      modifies this
      ensures fileName == [] || contents == None ==> coRegex == None && idRegex == None
      ensures fileName != [] && contents.Some? ==>
                coRegex == Some(FilePatterns(contents.value).0) && idRegex == Some(FilePatterns(contents.value).1)
      ensures skippedEndingsCount == old(skippedEndingsCount)
      ensures hasWriter == old(hasWriter) && written == old(written)
    {
      if fileName == [] || contents == None {
        coRegex := None;
        idRegex := None;
        return;
      }
      var co, id := ReadPatterns(contents.value);
      coRegex := Some(co);
      idRegex := Some(id);
    }
  }
}
