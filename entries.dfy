/**
 * The printable trace entries exchanged by the writers, readers and entry
 * printers (`PrintableTemplightEntryBegin` / `PrintableTemplightEntryEnd`).
 * The older tree has no template-origin fields; its code never touches them.
 */
module Entries {

  import opened ThinProtobuf

  /** A Begin entry. `kind`, `line` and `column` are C++ `int`s, `memory` a
      `uint64_t`, and the time stamp is kept as the bytes of its `double`. */
  datatype Begin = Begin(
    kind: int,
    name: Bytes,
    fileName: Bytes,
    line: int,
    column: int,
    timeStamp: Fixed64,
    memory: nat,
    oriFileName: Bytes,
    oriLine: int,
    oriColumn: int)

  datatype End = End(timeStamp: Fixed64, memory: nat)

  /** Every field holds a value of its C++ type. */
  predicate ValidBegin(e: Begin)
  {
    IsInt32(e.kind) && IsInt32(e.line) && IsInt32(e.column) && e.memory < TWO_64
    && IsInt32(e.oriLine) && IsInt32(e.oriColumn)
  }

  predicate ValidEnd(e: End)
  {
    e.memory < TWO_64
  }

  /** The value a reader starts from before its first Begin entry. */
  const EMPTY_BEGIN: Begin := Begin(0, [], [], 0, 0, ZERO_DOUBLE, 0, [], 0, 0)
  const EMPTY_END: End := End(ZERO_DOUBLE, 0)

  /** One event of a trace, as the entry printers and writers receive it. */
  datatype Event = BeginEvent(begin: Begin) | EndEvent(end: End)

  /** Open Begins minus closed Ends. */
  function Depth(events: seq<Event>): int
  {
    if events == [] then 0
    else (if events[0].BeginEvent? then 1 else -1) + Depth(events[1..])
  }

  /** Every End closes a Begin of the same sequence, and every Begin is closed. */
  ghost predicate WellNested(events: seq<Event>)
  {
    Depth(events) == 0 && forall k | 0 <= k <= |events| :: Depth(events[..k]) >= 0
  }
}
