/**
 * The library's `TemplightTracer::TracePrinter`: it receives the raw Begin
 * and End events of template instantiations, sanitises them and passes them
 * on to its entry printer.
 *
 *  - The cache `entries` doubles as the stack of open Begins: each cached
 *    entry records its parent Begin's index (`parent`) and
 *    `currentParentBegin` is the innermost open Begin, so following the
 *    parent links from it lists the open Begins innermost first.
 *  - An End that does not close the innermost open Begin is dropped, and so
 *    is a memoization entry for the entity whose memoization just closed.
 *  - In buffered mode the cache is handed on when the End of the first
 *    cached Begin arrives; in safe mode each entry is handed on at once.
 *
 * Clang's declarations are opaque tokens (`entity`, 0 for none); the
 * conversion to a printable entry and the system-header query are outside
 * the model (`inSystemHeader` is given with the event). What the tracer
 * hands on is recorded as calls to its entry printer.
 */
module Tracer {

  import opened ThinProtobuf

  /** `RawTemplightTraceEntry::invalid_parent`, the largest `size_t`. */
  const INVALID: nat := TWO_64 - 1

  datatype RawEntry = RawEntry(
    isBegin: bool,
    parent: nat,
    kind: int,
    entity: nat,
    timeStamp: Fixed64,
    memory: nat,
    inSystemHeader: bool)

  /** What `rawToPrintableBegin`/`rawToPrintableEnd` keep of a raw entry. */
  datatype Printed = Printed(isBegin: bool, kind: int, entity: nat, timeStamp: Fixed64, memory: nat)

  /** A call from the tracer into its entry printer. */
  datatype PrinterCall = Initialize | Skip | Print(entry: Printed) | Finalize

  /** `printOrSkipEntry`: an entry from a system header starts a skip (when
      those are ignored); any other is printed. */
  function CallFor(e: RawEntry, ignoreSystem: bool): PrinterCall
  {
    if ignoreSystem && e.inSystemHeader then Skip
    else Print(Printed(e.isBegin, e.kind, e.entity, e.timeStamp, e.memory))
  }

  function CallsFor(entries: seq<RawEntry>, ignoreSystem: bool): (r: seq<PrinterCall>)
    ensures |r| == |entries|
    ensures forall i | 0 <= i < |entries| :: r[i] == CallFor(entries[i], ignoreSystem)
  {
    if entries == [] then [] else CallsFor(entries[..|entries| - 1], ignoreSystem) + [CallFor(entries[|entries| - 1], ignoreSystem)]
  }

  /** The parent link plays no part in what is printed. */
  lemma CallsForAppend(entries: seq<RawEntry>, e: RawEntry, parent: nat, ignoreSystem: bool)
    ensures CallsFor(entries + [e.(parent := parent)], ignoreSystem)
            == CallsFor(entries, ignoreSystem) + [CallFor(e, ignoreSystem)]
  {
    assert (entries + [e.(parent := parent)])[..|entries|] == entries;
  }

  // ---------------------------------------------------------------------
  // The stack of open Begins

  /** The open Begins after these entries, outermost first: a Begin opens
      its own index, an End closes the innermost. */
  function Stack(entries: seq<RawEntry>): (r: seq<nat>)
    ensures forall k | 0 <= k < |r| :: r[k] < |entries| && entries[r[k]].isBegin
  {
    if entries == [] then []
    else
      var s := Stack(entries[..|entries| - 1]);
      if entries[|entries| - 1].isBegin then s + [|entries| - 1]
      else if s == [] then [] else s[..|s| - 1]
  }

  /** Every parent link points back (or nowhere). */
  predicate ParentsBefore(entries: seq<RawEntry>)
  {
    forall i | 0 <= i < |entries| :: entries[i].parent == INVALID || entries[i].parent < i
  }

  /** The parent chain from `at`, innermost first. */
  function Chain(entries: seq<RawEntry>, at: nat): seq<nat>
    decreases at
  {
    if at == INVALID || at >= |entries| then []
    else if entries[at].parent < at then [at] + Chain(entries, entries[at].parent)
    else [at]
  }

  function Reverse(s: seq<nat>): (r: seq<nat>)
    ensures |r| == |s|
  {
    if s == [] then [] else [s[|s| - 1]] + Reverse(s[..|s| - 1])
  }

  /** The cache and `currentParentBegin` agree: the parent chain from the
      innermost open Begin lists exactly the open Begins, innermost first. */
  predicate StackInvariant(entries: seq<RawEntry>, current: nat)
  {
    |entries| < INVALID && ParentsBefore(entries) && (current == INVALID || current < |entries|)
    && Chain(entries, current) == Reverse(Stack(entries))
  }

  lemma {:induction false} ChainAppend(entries: seq<RawEntry>, e: RawEntry, at: nat)
    requires ParentsBefore(entries) && (at == INVALID || at < |entries|)
    ensures Chain(entries + [e], at) == Chain(entries, at)
    decreases at
  {
    if at != INVALID && at < |entries| {
      assert (entries + [e])[at] == entries[at];
      if entries[at].parent < at {
        ChainAppend(entries, e, entries[at].parent);
      }
    }
  }

  lemma ParentsBeforeAppend(entries: seq<RawEntry>, e: RawEntry)
    requires ParentsBefore(entries) && (e.parent == INVALID || e.parent < |entries|)
    ensures ParentsBefore(entries + [e])
  {
    var entries' := entries + [e];
    forall i | 0 <= i < |entries'|
      ensures entries'[i].parent == INVALID || entries'[i].parent < i
    {
      if i < |entries| {
        assert entries'[i] == entries[i];
      }
    }
  }

  /** The first link of a parent chain. */
  lemma ChainStep(entries: seq<RawEntry>, at: nat)
    requires at < |entries| && at != INVALID
    ensures Chain(entries, at) == if entries[at].parent < at then [at] + Chain(entries, entries[at].parent) else [at]
  {
  }

  /** With the invariant, `currentParentBegin` is nowhere or an open Begin. */
  lemma CurrentIsOpenBegin(entries: seq<RawEntry>, current: nat)
    requires StackInvariant(entries, current)
    ensures current == INVALID <==> Stack(entries) == []
    ensures current != INVALID ==> current < |entries| && entries[current].isBegin
                                   && Stack(entries)[|Stack(entries)| - 1] == current
  {
    var s := Stack(entries);
    if current != INVALID {
      assert Reverse(s) == [current] + Chain(entries, entries[current].parent) || Reverse(s) == [current];
      assert s != [];
      assert Reverse(s)[0] == s[|s| - 1];
    } else {
      assert Chain(entries, current) == [];
    }
  }

  // ---------------------------------------------------------------------
  // One event

  /** The tracer's state: the cache, the innermost open Begin, and the
      entity of the memoization that closed last (0 for none). */
  datatype TraceState = TraceState(entries: seq<RawEntry>, current: nat, lastClosedMemoization: nat)

  /** `shouldIgnoreRawEntry`. */
  function Ignored(s: TraceState, e: RawEntry, memoization: int): bool
  {
    (e.kind == memoization && s.lastClosedMemoization != 0 && s.lastClosedMemoization == e.entity)
    || (!e.isBegin
        && (s.entries == [] || s.current == INVALID || s.current >= |s.entries|
            || !(s.entries[s.current].kind == e.kind && s.entries[s.current].entity == e.entity)))
  }

  /** An accepted entry pushed on the cache: a Begin becomes the innermost
      open Begin, an End moves back to the closed Begin's parent. */
  function Record(s: TraceState, e: RawEntry, memoization: int): TraceState
    requires e.isBegin || s.current < |s.entries|
  {
    var parent := if e.isBegin then s.current else s.entries[s.current].parent;
    var current := if e.isBegin then |s.entries| else parent;
    var lastClosed := if e.isBegin then 0
                      else if e.kind == memoization then e.entity
                      else s.lastClosedMemoization;
    TraceState(s.entries + [e.(parent := parent)], current, lastClosed)
  }

  /** Whether an accepted End closes the first cached Begin's kind and entity. */
  function ClosesFront(entries: seq<RawEntry>, e: RawEntry): bool
  {
    !e.isBegin && entries != [] && e.kind == entries[0].kind && e.entity == entries[0].entity
  }

  lemma StackAppend(entries: seq<RawEntry>, e: RawEntry)
    ensures var stack := Stack(entries);
            Stack(entries + [e]) == if e.isBegin then stack + [|entries|]
                                    else if stack == [] then [] else stack[..|stack| - 1]
  {
    assert (entries + [e])[..|entries|] == entries;
  }

  lemma ReversePush(stack: seq<nat>, x: nat)
    ensures Reverse(stack + [x]) == [x] + Reverse(stack)
  {
    assert (stack + [x])[..|stack|] == stack;
  }

  /** A Begin pushed with the innermost open Begin as its parent becomes the
      innermost open Begin. */
  lemma PushKeepsInvariant(entries: seq<RawEntry>, current: nat, e: RawEntry)
    requires StackInvariant(entries, current) && e.isBegin && |entries| + 1 < INVALID
    ensures StackInvariant(entries + [e.(parent := current)], |entries|)
    ensures Stack(entries + [e.(parent := current)]) == Stack(entries) + [|entries|]
  {
    var e' := e.(parent := current);
    var entries' := entries + [e'];
    ChainAppend(entries, e', current);
    StackAppend(entries, e');
    ReversePush(Stack(entries), |entries|);
    assert entries'[|entries|] == e';
    ParentsBeforeAppend(entries, e');
    ChainStep(entries', |entries|);
    if current == INVALID {
      assert Chain(entries', current) == [];
    }
  }

  /** An End that closes the innermost open Begin takes that Begin's parent
      as its own and makes it the innermost open Begin. */
  lemma PopKeepsInvariant(entries: seq<RawEntry>, current: nat, e: RawEntry)
    requires StackInvariant(entries, current) && !e.isBegin && current < |entries| && current != INVALID
    requires |entries| + 1 < INVALID
    ensures var up := entries[current].parent;
            StackInvariant(entries + [e.(parent := up)], up)
            && Stack(entries + [e.(parent := up)]) == Stack(entries)[..|Stack(entries)| - 1]
  {
    var up := entries[current].parent;
    var e' := e.(parent := up);
    var stack := Stack(entries);
    CurrentIsOpenBegin(entries, current);
    ChainAppend(entries, e', up);
    StackAppend(entries, e');
    assert Reverse(stack) == [stack[|stack| - 1]] + Reverse(stack[..|stack| - 1]);
    var entries' := entries + [e'];
    ParentsBeforeAppend(entries, e');
    if up == INVALID {
      assert Chain(entries, current) == [current];
      assert Reverse(stack[..|stack| - 1]) == [];
      assert Chain(entries', up) == [];
    } else {
      var r := Reverse(stack);
      assert r == [current] + Chain(entries, up);
      assert r[1..] == Chain(entries, up);
      assert r[1..] == Reverse(stack[..|stack| - 1]);
    }
    assert Stack(entries') == stack[..|stack| - 1];
    assert Chain(entries', up) == Reverse(Stack(entries'));
  }

  /** Recording an accepted entry keeps the stack invariant. */
  lemma RecordKeepsInvariant(s: TraceState, e: RawEntry, memoization: int)
    requires StackInvariant(s.entries, s.current) && !Ignored(s, e, memoization) && |s.entries| + 1 < INVALID
    ensures e.isBegin || s.current < |s.entries|
    ensures var r := Record(s, e, memoization);
            StackInvariant(r.entries, r.current)
            && Stack(r.entries) == if e.isBegin then Stack(s.entries) + [|s.entries|]
                                   else Stack(s.entries)[..|Stack(s.entries)| - 1]
  {
    if e.isBegin {
      PushKeepsInvariant(s.entries, s.current, e);
    } else {
      PopKeepsInvariant(s.entries, s.current, e);
    }
  }

  /** Nothing is lost in buffered mode: the cache after an accepted entry
      prints as the cache before it, followed by that entry. */
  lemma RecordPrintsInOrder(s: TraceState, e: RawEntry, memoization: int, ignoreSystem: bool)
    requires e.isBegin || s.current < |s.entries|
    ensures CallsFor(Record(s, e, memoization).entries, ignoreSystem)
            == CallsFor(s.entries, ignoreSystem) + [CallFor(e, ignoreSystem)]
  {
    var parent := if e.isBegin then s.current else s.entries[s.current].parent;
    CallsForAppend(s.entries, e, parent, ignoreSystem);
  }

  class TracePrinter {
    var entries: seq<RawEntry>
    var currentParentBegin: nat
    var lastClosedMemoization: nat
    /** What the entry printer has been asked to do, in order. */
    var calls: seq<PrinterCall>
    const ignoreSystem: bool
    /** Clang's `Memoization` synthesis kind, whose value is outside the model. */
    const memoization: int

    function State(): TraceState
      reads this
    {
      TraceState(entries, currentParentBegin, lastClosedMemoization)
    }

    predicate Valid()
      reads this
    {
      StackInvariant(entries, currentParentBegin)
    }

    constructor(ignoreSystem: bool, memoization: int)
      ensures Valid() && entries == [] && currentParentBegin == INVALID && lastClosedMemoization == 0
      ensures calls == [] && this.ignoreSystem == ignoreSystem && this.memoization == memoization
    {
      entries := [];
      currentParentBegin := INVALID;
      lastClosedMemoization := 0;
      calls := [];
      this.ignoreSystem := ignoreSystem;
      this.memoization := memoization;
    }

    /** `shouldIgnoreRawEntry`: a repeated memoization, or an End that does
        not close the innermost open Begin. */
    method ShouldIgnoreRawEntry(e: RawEntry) returns (ignore: bool)
      requires Valid()
      ensures ignore == Ignored(State(), e, memoization)
      ensures !ignore && !e.isBegin ==> currentParentBegin != INVALID && entries[currentParentBegin].isBegin
    {
      CurrentIsOpenBegin(entries, currentParentBegin);
      if e.kind == memoization && lastClosedMemoization != 0 && lastClosedMemoization == e.entity {
        return true;
      }
      if !e.isBegin && (entries == [] || currentParentBegin == INVALID || currentParentBegin >= |entries|
                        || !(entries[currentParentBegin].kind == e.kind && entries[currentParentBegin].entity == e.entity)) {
        return true;
      }
      return false;
    }

    /** `printOrSkipEntry`. */
    method PrintOrSkipEntry(e: RawEntry)
      modifies this
      ensures calls == old(calls) + [CallFor(e, ignoreSystem)]
      ensures State() == old(State())
    {
      if ignoreSystem && e.inSystemHeader {
        calls := calls + [Skip];
      } else {
        calls := calls + [Print(Printed(e.isBegin, e.kind, e.entity, e.timeStamp, e.memory))];
      }
    }

    /** `printCachedRawEntries`: every cached entry in order, then an empty
        cache and no open Begin. */
    method PrintCachedRawEntries()
      modifies this
      ensures calls == old(calls) + CallsFor(old(entries), ignoreSystem)
      ensures entries == [] && currentParentBegin == INVALID && lastClosedMemoization == old(lastClosedMemoization)
      ensures Valid()
    {
      var i := 0;
      while i < |entries|
        invariant 0 <= i <= |entries|
        invariant entries == old(entries) && lastClosedMemoization == old(lastClosedMemoization)
        invariant calls == old(calls) + CallsFor(entries[..i], ignoreSystem)
      {
        PrintOrSkipEntry(entries[i]);
        assert entries[..i + 1][..i] == entries[..i];
        i := i + 1;
      }
      assert entries[..i] == entries;
      entries := [];
      currentParentBegin := INVALID;
    }

    /** The push onto the cache in `printRawEntry`: the entry takes its
        parent link, and the innermost open Begin and the last closed
        memoization follow. */
    method RecordEntry(e: RawEntry)
      requires Valid() && |entries| + 1 < INVALID && !Ignored(State(), e, memoization)
      requires e.isBegin || currentParentBegin < |entries|
      modifies this
      ensures State() == Record(old(State()), e, memoization) && calls == old(calls)
    {
      ghost var r := Record(State(), e, memoization);
      var entry := e;
      if e.isBegin {
        entry := entry.(parent := currentParentBegin);
        currentParentBegin := |entries|;
      } else {
        entry := entry.(parent := entries[currentParentBegin].parent);
        currentParentBegin := entry.parent;
      }
      entries := entries + [entry];
      if e.isBegin {
        lastClosedMemoization := 0;
      }
      if !e.isBegin && e.kind == memoization {
        lastClosedMemoization := e.entity;
      }
      assert State() == r;
    }

    /** `printRawEntry`: an entry that is not ignored is recorded on the
        cache (printed first in safe mode); the End of the first cached
        Begin hands the cache on (buffered mode) or drops it (safe mode). */
    method PrintRawEntry(e: RawEntry, inSafeMode: bool)
      requires Valid() && |entries| + 1 < INVALID
      modifies this
      ensures Valid()
      ensures Ignored(old(State()), e, memoization) ==> State() == old(State()) && calls == old(calls)
      ensures !Ignored(old(State()), e, memoization) ==>
                (e.isBegin || old(currentParentBegin) < |old(entries)|)
                && var r := Record(old(State()), e, memoization);
                   var printedNow := if inSafeMode then [CallFor(e, ignoreSystem)] else [];
                   lastClosedMemoization == r.lastClosedMemoization
                   && if ClosesFront(r.entries, e) then
                        entries == [] && currentParentBegin == INVALID
                        && calls == old(calls) + printedNow + (if inSafeMode then [] else CallsFor(r.entries, ignoreSystem))
                      else
                        entries == r.entries && currentParentBegin == r.current && calls == old(calls) + printedNow
    {
      var ignore := ShouldIgnoreRawEntry(e);
      if ignore {
        return;
      }
      ghost var s := State();
      if inSafeMode {
        PrintOrSkipEntry(e);
      }
      RecordEntry(e);
      RecordKeepsInvariant(s, e, memoization);
      ghost var r := Record(s, e, memoization);
      ghost var callsBefore := calls;
      assert callsBefore == old(calls) + (if inSafeMode then [CallFor(e, ignoreSystem)] else []);
      if !e.isBegin && e.kind == entries[0].kind && e.entity == entries[0].entity {
        if !inSafeMode {
          PrintCachedRawEntries();
        } else {
          entries := [];
          currentParentBegin := INVALID;
        }
      }
    }

    /** `startTrace`. */
    method StartTrace()
      modifies this
      ensures calls == old(calls) + [Initialize] && State() == old(State())
    {
      calls := calls + [Initialize];
    }

    /** `endTrace`: whatever is still cached, in order, then the end. */
    method EndTrace()
      modifies this
      ensures calls == old(calls) + CallsFor(old(entries), ignoreSystem) + [Finalize]
      ensures entries == [] && currentParentBegin == INVALID && Valid()
    {
      PrintCachedRawEntries();
      calls := calls + [Finalize];
    }
  }
}
