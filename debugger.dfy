/**
 * The interactive agent of the template debugger: which instantiation
 * events stop the compilation for the user, the stack of open
 * instantiations it keeps, the breakpoint table, and the commands typed at
 * the `(tdb)` prompt.
 *
 * Clang's declarations are opaque tokens (`entity`); an entry's printable
 * name and location arrive already computed. Console output is left out,
 * except for the entries the agent shows, which are recorded. The lines the
 * user types are a parameter.
 */
module Debugger {

  import TracerV1

  datatype Option<T> = None | Some(value: T)

  // ---------------------------------------------------------------------
  // Entries

  /** `TemplateDebuggerEntry`. */
  datatype Entry = Entry(isBegin: bool, kind: int, entity: nat, name: string,
                         fileName: string, line: int, column: int, memory: nat)

  /** A default-constructed entry: an open template instantiation of nothing. */
  const DEFAULT_ENTRY: Entry := Entry(true, TracerV1.TEMPLATE_INSTANTIATION, 0, "", "", 0, 0, 0)

  /** Whether two entries are about the same instantiation. */
  predicate SameInstantiation(a: Entry, b: Entry)
  {
    a.kind == b.kind && a.entity == b.entity
  }

  // ---------------------------------------------------------------------
  // The command tokenizer

  /** `std::isspace` in the C locale. */
  predicate IsSpace(c: char)
  {
    c == ' ' || c == '\t' || c == '\n' || c == '\U{000B}' || c == '\U{000C}' || c == '\r'
  }

  predicate AllSpace(s: string)
  {
    forall k | 0 <= k < |s| :: IsSpace(s[k])
  }

  predicate NoSpace(s: string)
  {
    forall k | 0 <= k < |s| :: !IsSpace(s[k])
  }

  /** The end of the run of white space starting at i. */
  function SkipSpaces(s: string, i: nat): (r: nat)
    requires i <= |s|
    ensures i <= r <= |s|
    decreases |s| - i
  {
    if i < |s| && IsSpace(s[i]) then SkipSpaces(s, i + 1) else i
  }

  lemma {:induction false} SkipSpacesRun(s: string, i: nat)
    requires i <= |s|
    ensures var r := SkipSpaces(s, i); AllSpace(s[i..r]) && (r < |s| ==> !IsSpace(s[r]))
    decreases |s| - i
  {
    if i < |s| && IsSpace(s[i]) {
      SkipSpacesRun(s, i + 1);
      assert s[i..SkipSpaces(s, i)] == [s[i]] + s[i + 1..SkipSpaces(s, i)];
    }
  }

  /** The end of the word starting at i. */
  function SkipWord(s: string, i: nat): (r: nat)
    requires i <= |s|
    ensures i <= r <= |s|
    decreases |s| - i
  {
    if i < |s| && !IsSpace(s[i]) then SkipWord(s, i + 1) else i
  }

  lemma {:induction false} SkipWordRun(s: string, i: nat)
    requires i <= |s|
    ensures var r := SkipWord(s, i); NoSpace(s[i..r]) && (r < |s| ==> IsSpace(s[r]))
    decreases |s| - i
  {
    if i < |s| && !IsSpace(s[i]) {
      SkipWordRun(s, i + 1);
      assert s[i..SkipWord(s, i)] == [s[i]] + s[i + 1..SkipWord(s, i)];
    }
  }

  /** Where s[i..e] ends once its trailing white space is cut off. */
  function TrimEnd(s: string, i: nat, e: nat): (r: nat)
    requires i <= e <= |s|
    ensures i <= r <= e
    decreases e
  {
    if e > i && IsSpace(s[e - 1]) then TrimEnd(s, i, e - 1) else e
  }

  lemma {:induction false} TrimEndRun(s: string, i: nat, e: nat)
    requires i <= e <= |s|
    ensures var r := TrimEnd(s, i, e); AllSpace(s[r..e]) && (r > i ==> !IsSpace(s[r - 1]))
    decreases e
  {
    if e > i && IsSpace(s[e - 1]) {
      TrimEndRun(s, i, e - 1);
      assert s[TrimEnd(s, i, e)..e] == s[TrimEnd(s, i, e)..e - 1] + [s[e - 1]];
    }
  }

  /** The command: the first word of the line. */
  function Command(s: string): string
  {
    var a := SkipSpaces(s, 0);
    s[a..SkipWord(s, a)]
  }

  /** The argument: the rest of the line after the command, without its
      leading and trailing white space. */
  function Argument(s: string): string
  {
    var c := SkipSpaces(s, SkipWord(s, SkipSpaces(s, 0)));
    s[c..TrimEnd(s, c, |s|)]
  }

  /** A word without surrounding white space. */
  predicate Trimmed(s: string)
  {
    s == [] || (!IsSpace(s[0]) && !IsSpace(s[|s| - 1]))
  }

  /** The command is one word, the argument is trimmed, and a line with no
      command is blank and has no argument either. */
  lemma TokenizeShape(s: string)
    ensures NoSpace(Command(s)) && Trimmed(Argument(s))
    ensures Command(s) == [] ==> AllSpace(s) && Argument(s) == []
  {
    var a := SkipSpaces(s, 0);
    var b := SkipWord(s, a);
    var c := SkipSpaces(s, b);
    var d := TrimEnd(s, c, |s|);
    SkipSpacesRun(s, 0);
    SkipWordRun(s, a);
    TrimEndRun(s, c, |s|);
    if Command(s) == [] {
      assert a == |s|;
      assert s[0..a] == s;
    }
    if c < d {
      SkipSpacesRun(s, b);
      assert Argument(s)[0] == s[c] && Argument(s)[d - c - 1] == s[d - 1];
    }
  }

  lemma {:induction false} SpacesRun(s: string, i: nat, j: nat)
    requires i <= j <= |s| && AllSpace(s[i..j]) && (j < |s| ==> !IsSpace(s[j]))
    ensures SkipSpaces(s, i) == j
    decreases j - i
  {
    if i < j {
      assert s[i..j][0] == s[i];
      assert s[i + 1..j] == s[i..j][1..];
      SpacesRun(s, i + 1, j);
    }
  }

  lemma {:induction false} WordRun(s: string, i: nat, j: nat)
    requires i <= j <= |s| && NoSpace(s[i..j]) && (j < |s| ==> IsSpace(s[j]))
    ensures SkipWord(s, i) == j
    decreases j - i
  {
    if i < j {
      assert s[i..j][0] == s[i];
      assert s[i + 1..j] == s[i..j][1..];
      WordRun(s, i + 1, j);
    }
  }

  lemma {:induction false} TrimRun(s: string, i: nat, d: nat, e: nat)
    requires i <= d <= e <= |s| && AllSpace(s[d..e]) && (d > i ==> !IsSpace(s[d - 1]))
    ensures TrimEnd(s, i, e) == d
    decreases e
  {
    if d < e {
      assert s[d..e][e - 1 - d] == s[e - 1];
      assert s[d..e - 1] == s[d..e][..e - 1 - d];
      TrimRun(s, i, d, e - 1);
    }
  }

  /** Tokenizing a line laid out as white space, a command word, white
      space, a trimmed argument and white space gives back the command and
      the argument. */
  lemma TokenizeParts(lead: string, com: string, gap: string, arg: string, trail: string)
    requires AllSpace(lead) && AllSpace(gap) && AllSpace(trail)
    requires com != [] && NoSpace(com) && Trimmed(arg) && (arg != [] ==> gap != [])
    ensures Command(lead + com + gap + arg + trail) == com
    ensures Argument(lead + com + gap + arg + trail) == arg
  {
    var s := lead + com + gap + arg + trail;
    var a := |lead|;
    var b := a + |com|;
    var c := b + |gap|;
    var d := c + |arg|;
    assert s[..a] == lead && s[a..b] == com && s[b..c] == gap && s[c..d] == arg && s[d..] == trail;
    assert s[0..a] == lead;
    SpacesRun(s, 0, a);
    WordRun(s, a, b);
    if arg == [] {
      assert s[b..] == gap + trail;
      assert AllSpace(s[b..|s|]);
      SpacesRun(s, b, |s|);
      TrimRun(s, |s|, |s|, |s|);
    } else {
      assert s[c] == arg[0] && s[d - 1] == arg[|arg| - 1];
      SpacesRun(s, b, c);
      assert s[d..|s|] == trail;
      TrimRun(s, c, d, |s|);
    }
  }

  /** A command word, one space and a trimmed argument. */
  lemma CommandWithArgument(com: string, arg: string)
    requires com != [] && NoSpace(com) && Trimmed(arg)
    ensures Command(com + " " + arg) == com && Argument(com + " " + arg) == arg
  {
    TokenizeParts([], com, " ", arg, []);
    assert [] + com + " " + arg + [] == com + " " + arg;
  }

  /** `getTokenizeCommand`: skip white space, copy the word, skip white
      space, and cut the trailing white space off the rest. */
  method GetTokenizeCommand(s: string) returns (com: string, arg: string)
    ensures com == Command(s) && arg == Argument(s)
  {
    com := "";
    var i := 0;
    while i < |s| && IsSpace(s[i])
      invariant i <= |s| && SkipSpaces(s, i) == SkipSpaces(s, 0)
      decreases |s| - i
    {
      i := i + 1;
    }
    var a := i;
    while i < |s| && !IsSpace(s[i])
      invariant a <= i <= |s| && SkipWord(s, i) == SkipWord(s, a) && com == s[a..i]
      decreases |s| - i
    {
      com := com + [s[i]];
      i := i + 1;
    }
    var b := i;
    while i < |s| && IsSpace(s[i])
      invariant b <= i <= |s| && SkipSpaces(s, i) == SkipSpaces(s, b)
      decreases |s| - i
    {
      i := i + 1;
    }
    var e := |s|;
    while e > i && IsSpace(s[e - 1])
      invariant i <= e <= |s| && TrimEnd(s, i, e) == TrimEnd(s, i, |s|)
      decreases e
    {
      e := e - 1;
    }
    arg := s[i..e];
  }

  // ---------------------------------------------------------------------
  // Reading a breakpoint number (`sscanf` with "%d")

  predicate IsDigit(c: char)
  {
    '0' <= c <= '9'
  }

  predicate AllDigits(s: string)
  {
    forall k | 0 <= k < |s| :: IsDigit(s[k])
  }

  /** The end of the run of digits starting at i. */
  function SkipDigits(s: string, i: nat): (r: nat)
    requires i <= |s|
    ensures i <= r <= |s|
    decreases |s| - i
  {
    if i < |s| && IsDigit(s[i]) then SkipDigits(s, i + 1) else i
  }

  lemma {:induction false} SkipDigitsRun(s: string, i: nat)
    requires i <= |s|
    ensures AllDigits(s[i..SkipDigits(s, i)])
    decreases |s| - i
  {
    if i < |s| && IsDigit(s[i]) {
      SkipDigitsRun(s, i + 1);
      assert s[i..SkipDigits(s, i)] == [s[i]] + s[i + 1..SkipDigits(s, i)];
    }
  }

  /** The number a run of decimal digits spells, most significant first. */
  function DigitsValue(ds: string): nat
    requires AllDigits(ds)
  {
    if ds == [] then 0
    else DigitsValue(ds[..|ds| - 1]) * 10 + (ds[|ds| - 1] as int - '0' as int)
  }

  /** `sscanf(arg, "%d", &n)`: optional white space, an optional sign and at
      least one digit; None when no number is converted. */
  function ScanInt(s: string): (r: Option<int>)
    ensures r.None? <==> SkipDigits(s, SignEnd(s)) == SignEnd(s)
  {
    var i := SkipSpaces(s, 0);
    var k := SignEnd(s);
    var j := SkipDigits(s, k);
    if j == k then None
    else
      SkipDigitsRun(s, k);
      var v: int := DigitsValue(s[k..j]);
      if i < |s| && s[i] == '-' then Some(-v) else Some(v)
  }

  /** Where the digits of a number start: after the white space and the
      sign, if there is one. */
  function SignEnd(s: string): (r: nat)
    ensures r <= |s|
  {
    var i := SkipSpaces(s, 0);
    if i < |s| && (s[i] == '-' || s[i] == '+') then i + 1 else i
  }

  /** The decimal spelling of n, as the `Deleted breakpoint` and
      `Breakpoint` messages print it. */
  function Decimal(n: nat): (r: string)
    ensures r != [] && AllDigits(r)
  {
    if n < 10 then [('0' as int + n) as char]
    else Decimal(n / 10) + [('0' as int + n % 10) as char]
  }

  lemma {:induction false} DecimalValue(n: nat)
    ensures DigitsValue(Decimal(n)) == n
  {
    var r := Decimal(n);
    if n < 10 {
      assert r[..0] == [];
    } else {
      assert r[..|r| - 1] == Decimal(n / 10);
      DecimalValue(n / 10);
    }
  }

  /** A number typed in decimal, followed by anything but a digit, is read
      back as that number. */
  lemma ScanDecimal(n: nat, rest: string)
    requires rest == [] || !IsDigit(rest[0])
    ensures ScanInt(Decimal(n) + rest) == Some(n)
  {
    var ds := Decimal(n);
    var s := ds + rest;
    assert s[0] == ds[0];
    assert s[0..0] == [];
    SpacesRun(s, 0, 0);
    assert s[0..|ds|] == ds;
    DigitsRun(s, 0, |ds|);
    DecimalValue(n);
  }

  /** `%d` skips leading white space and takes an optional sign: white
      space, a sign and a decimal number, followed by anything but a digit,
      are read back as the signed number. */
  lemma ScanSigned(sp: string, sign: string, n: nat, rest: string)
    requires AllSpace(sp) && sign in ["", "+", "-"]
    requires rest == [] || !IsDigit(rest[0])
    ensures ScanInt(sp + sign + Decimal(n) + rest) == Some(if sign == "-" then -(n as int) else n as int)
  {
    var ds := Decimal(n);
    var s := sp + sign + ds + rest;
    var k := |sp| + |sign|;
    var j := k + |ds|;
    SignedSpaces(sp, sign, ds + rest);
    assert s == sp + sign + (ds + rest);
    assert SignEnd(s) == k;
    assert s[k..j] == ds;
    if j < |s| {
      assert s[j] == rest[0];
    }
    DigitsRun(s, k, j);
    DecimalValue(n);
    assert |sp| < |s| && (s[|sp|] == '-' <==> sign == "-");
  }

  /** The white space `%d` skips ends where the sign, or else the rest,
      begins. */
  lemma SignedSpaces(sp: string, sign: string, t: string)
    requires AllSpace(sp) && sign in ["", "+", "-"]
    requires sign == "" && t != [] ==> !IsSpace(t[0])
    ensures SkipSpaces(sp + sign + t, 0) == |sp|
    ensures SignEnd(sp + sign + t) == |sp| + |sign| || (sign == "" && t != [] && (t[0] == '+' || t[0] == '-'))
  {
    var s := sp + sign + t;
    assert s[0..|sp|] == sp;
    if |sp| < |s| {
      assert s[|sp|] == if sign == "" then t[0] else sign[0];
    }
    SpacesRun(s, 0, |sp|);
  }

  /** No number is converted when, after the white space and an optional
      sign, the next character is not a digit. */
  lemma ScanNoDigits(sp: string, sign: string, rest: string)
    requires AllSpace(sp) && sign in ["", "+", "-"]
    requires rest == [] || !IsDigit(rest[0])
    requires sign == "" && rest != [] ==> !IsSpace(rest[0]) && rest[0] != '+' && rest[0] != '-'
    ensures ScanInt(sp + sign + rest) == None
  {
    var s := sp + sign + rest;
    var k := |sp| + |sign|;
    SignedSpaces(sp, sign, rest);
    if k < |s| {
      assert s[k] == rest[0];
    }
  }

  lemma {:induction false} DigitsRun(s: string, i: nat, j: nat)
    requires i <= j <= |s| && AllDigits(s[i..j]) && (j < |s| ==> !IsDigit(s[j]))
    ensures SkipDigits(s, i) == j
    decreases j - i
  {
    if i < j {
      assert s[i..j][0] == s[i];
      assert s[i + 1..j] == s[i..j][1..];
      DigitsRun(s, i + 1, j);
    }
  }

  // ---------------------------------------------------------------------
  // Breakpoints

  /** `std::find`: the first index holding x, or |s| when there is none. */
  function IndexOf(s: seq<string>, x: string): (r: nat)
    ensures r <= |s| && (r < |s| ==> s[r] == x)
    ensures forall k | 0 <= k < r :: s[k] != x
  {
    if s == [] then 0
    else if s[0] == x then 0
    else 1 + IndexOf(s[1..], x)
  }

  /** The slot a deleted breakpoint leaves behind. */
  const TOMBSTONE: string := "-"

  /** A breakpoint table and the slot a name was given in it. */
  datatype Slot = Slot(table: seq<string>, index: nat)

  /** `break name`: a name already set keeps its slot; otherwise it takes
      the first deleted slot, or a new one at the end. The table never
      shrinks and no other slot changes. */
  function AddBreakpoint(bps: seq<string>, name: string): (r: Slot)
    ensures r.index < |r.table| && r.table[r.index] == name
    ensures |bps| <= |r.table| <= |bps| + 1
    ensures forall k | 0 <= k < |bps| && k != r.index :: r.table[k] == bps[k]
    ensures name in bps ==> r.table == bps && r.index == IndexOf(bps, name)
    ensures name !in bps && TOMBSTONE in bps ==> r == Slot(bps[IndexOf(bps, TOMBSTONE) := name], IndexOf(bps, TOMBSTONE))
    ensures name !in bps && TOMBSTONE !in bps ==> r == Slot(bps + [name], |bps|)
  {
    var found := IndexOf(bps, name);
    if found < |bps| then Slot(bps, found)
    else
      var free := IndexOf(bps, TOMBSTONE);
      if free < |bps| then Slot(bps[free := name], free)
      else Slot(bps + [name], |bps|)
  }

  // ---------------------------------------------------------------------
  // The agent's state and the gate

  /** The three ignore flags. */
  datatype Gate = Gate(ignoreAll: bool, untilLastEnds: bool, untilBreakpoint: bool)

  datatype AgentState = AgentState(stack: seq<Entry>, last: Entry, breakpoints: seq<string>,
                                   lastCommand: string, gate: Gate)

  /** `shouldIgnoreEntry`. The first flag set decides: everything is
      ignored; only entries named by a breakpoint pass; only the End (or
      another entry) of the innermost open instantiation passes. With no
      flag set, only a repeat of a memoization that has just closed is
      ignored. */
  predicate ShouldIgnore(s: AgentState, e: Entry)
  {
    if s.gate.ignoreAll then true
    else if s.gate.untilBreakpoint then e.name !in s.breakpoints
    else if s.gate.untilLastEnds then !(s.stack != [] && SameInstantiation(s.stack[|s.stack| - 1], e))
    else e.kind == TracerV1.MEMOIZATION && !s.last.isBegin && SameInstantiation(s.last, e)
  }

  /** The stack and the last Begin after an accepted entry: a Begin is
      pushed and remembered, the End of a memoization marks the last Begin
      closed, and an End of the innermost open instantiation pops it. */
  function Record(s: AgentState, e: Entry): (r: AgentState)
    ensures r.breakpoints == s.breakpoints && r.lastCommand == s.lastCommand && r.gate == s.gate
    ensures e.isBegin ==> r.stack == s.stack + [e] && r.last == e
    ensures !e.isBegin && s.stack != [] && SameInstantiation(e, s.stack[|s.stack| - 1])
            ==> r.stack == s.stack[..|s.stack| - 1]
    ensures !e.isBegin && !(s.stack != [] && SameInstantiation(e, s.stack[|s.stack| - 1]))
            ==> r.stack == s.stack
    ensures !e.isBegin ==> r.last == (if e.kind == TracerV1.MEMOIZATION then s.last.(isBegin := false) else s.last)
  {
    var pushed := if e.isBegin then s.stack + [e] else s.stack;
    var last := if e.isBegin then e else s.last;
    var last' := if !e.isBegin && e.kind == TracerV1.MEMOIZATION then last.(isBegin := false) else last;
    var popped :=
      if !e.isBegin && pushed != [] && SameInstantiation(e, pushed[|pushed| - 1])
      then pushed[..|pushed| - 1] else pushed;
    s.(stack := popped, last := last')
  }

  /** Only Begins are on the stack, and recording an entry keeps it so. */
  predicate StackOfBegins(s: AgentState)
  {
    forall k | 0 <= k < |s.stack| :: s.stack[k].isBegin
  }

  lemma RecordKeepsBegins(s: AgentState, e: Entry)
    requires StackOfBegins(s)
    ensures StackOfBegins(Record(s, e))
  {
    var r := Record(s, e);
    forall k | 0 <= k < |r.stack|
      ensures r.stack[k].isBegin
    {
      if !(e.isBegin && k == |s.stack|) {
        assert r.stack[k] == s.stack[k];
      }
    }
  }

  /** The End of an instantiation undoes its Begin: the stack is back to
      what it was. */
  lemma {:induction false} BeginThenEnd(s: AgentState, b: Entry, e: Entry)
    requires b.isBegin && !e.isBegin && SameInstantiation(b, e)
    ensures Record(Record(s, b), e).stack == s.stack
  {
    var s1 := Record(s, b);
    assert s1.stack[|s1.stack| - 1] == b;
    assert s1.stack[..|s1.stack| - 1] == s.stack;
  }

  /** Right after a memoization closes, the same memoization is ignored
      when no flag is set. */
  lemma ClosedMemoizationIgnored(s: AgentState, e: Entry)
    requires s.gate == Gate(false, false, false) && !e.isBegin && e.kind == TracerV1.MEMOIZATION
    requires s.last.kind == TracerV1.MEMOIZATION && s.last.entity == e.entity
    ensures ShouldIgnore(Record(s, e), e)
    ensures ShouldIgnore(Record(s, e), e.(isBegin := true))
  {
  }

  // ---------------------------------------------------------------------
  // Commands

  datatype Cmd =
    | Run | Kill | Next | Step
    | Frame | ListBreakpoints | Backtrace
    | Lookup(query: string) | TypeOf(query: string)
    | Break(name: string) | Delete(index: Option<int>)
    | Invalid

  /** The dispatch of `processInputs` on the command word and its argument;
      `info stack` is a backtrace. */
  function ParseCommand(com: string, arg: string): Cmd
  {
    if com == "i" || com == "info" then
      if arg == "f" || arg == "frame" then Frame
      else if arg == "b" || arg == "break" then ListBreakpoints
      else if arg == "s" || arg == "stack" then Backtrace
      else Invalid
    else if com == "r" || com == "c" || com == "run" || com == "continue" then Run
    else if com == "k" || com == "q" || com == "kill" || com == "quit" then Kill
    else if com == "n" || com == "next" then Next
    else if com == "s" || com == "step" then Step
    else if com == "l" || com == "lookup" then Lookup(arg)
    else if com == "t" || com == "typeof" then TypeOf(arg)
    else if com == "b" || com == "break" then Break(arg)
    else if com == "d" || com == "delete" then Delete(ScanInt(arg))
    else if com == "bt" || com == "backtrace" || com == "where" then Backtrace
    else Invalid
  }

  /** What a command line leads to: the agent resumes the compilation, or
      prompts again after showing something, setting or deleting a
      breakpoint, or rejecting the input. `Undefined` marks an access the
      source does not guard: `lookup`/`typeof` with nothing open, `delete`
      of a slot that does not exist. */
  datatype Reply = Resumed | Shown | BreakpointSet(index: nat) | BreakpointDeleted(index: nat)
                 | InvalidInput | Undefined

  /** The state after a command and the reply to it. */
  datatype Answer = Answer(state: AgentState, reply: Reply)

  /** The effect of one command. */
  function Apply(s: AgentState, c: Cmd): (r: Answer)
    ensures r.state.stack == s.stack && r.state.last == s.last && r.state.lastCommand == s.lastCommand
    ensures r.reply == Resumed <==> c.Run? || c.Kill? || c.Next? || c.Step?
    ensures r.reply != Resumed ==> r.state.gate == s.gate
  {
    match c
    case Run => Answer(s.(gate := Gate(false, false, true)), Resumed)
    case Kill => Answer(s.(gate := Gate(true, false, false)), Resumed)
    case Next => Answer(s.(gate := Gate(false, s.stack != [], false)), Resumed)
    case Step => Answer(s.(gate := Gate(false, false, false)), Resumed)
    case Frame => Answer(s, Shown)
    case ListBreakpoints => Answer(s, Shown)
    case Backtrace => Answer(s, Shown)
    case Lookup(_) => Answer(s, if s.stack == [] then Undefined else Shown)
    case TypeOf(_) => Answer(s, if s.stack == [] then Undefined else Shown)
    case Break(name) =>
      var slot := AddBreakpoint(s.breakpoints, name);
      Answer(s.(breakpoints := slot.table), BreakpointSet(slot.index))
    case Delete(index) =>
      if index.None? then Answer(s, InvalidInput)
      else if 0 <= index.value < |s.breakpoints| then
        Answer(s.(breakpoints := s.breakpoints[index.value := TOMBSTONE]), BreakpointDeleted(index.value))
      else Answer(s, Undefined)
    case Invalid => Answer(s, InvalidInput)
  }

  /** One round of the prompt loop: an empty line repeats the last command
      line, which is then remembered. */
  function Interpret(s: AgentState, line: string): (r: Answer)
    ensures r.state.lastCommand == (if line == "" then s.lastCommand else line)
    ensures r.state.stack == s.stack && r.state.last == s.last
  {
    var input := if line == "" then s.lastCommand else line;
    Apply(s.(lastCommand := input), ParseCommand(Command(input), Argument(input)))
  }

  /** An empty line does exactly what the last command line did. */
  lemma EmptyLineRepeats(s: AgentState)
    ensures Interpret(s, "") == Interpret(s, s.lastCommand)
  {
  }

  /** A command word typed alone. */
  lemma CommandAlone(com: string)
    requires com != [] && NoSpace(com)
    ensures Command(com) == com && Argument(com) == []
  {
    TokenizeParts([], com, [], [], []);
    assert [] + com + [] + [] + [] == com;
  }

  /** A command word typed alone is interpreted as its command. */
  lemma InterpretWord(s: AgentState, com: string, c: Cmd)
    requires com != [] && NoSpace(com) && ParseCommand(com, []) == c
    ensures Interpret(s, com) == Apply(s.(lastCommand := com), c)
  {
    CommandAlone(com);
  }

  /** run and continue stop at the next breakpoint... */
  lemma RunCommand(s: AgentState, com: string)
    requires com in ["r", "c", "run", "continue"]
    ensures Interpret(s, com).reply == Resumed && Interpret(s, com).state.gate == Gate(false, false, true)
    ensures Interpret(s, com).state.breakpoints == s.breakpoints
  {
    assert ParseCommand(com, []) == Run;
    InterpretWord(s, com, Run);
  }

  /** ... kill and quit ignore the rest of the compilation... */
  lemma KillCommand(s: AgentState, com: string)
    requires com in ["k", "q", "kill", "quit"]
    ensures Interpret(s, com).reply == Resumed && Interpret(s, com).state.gate == Gate(true, false, false)
    ensures Interpret(s, com).state.breakpoints == s.breakpoints
  {
    assert ParseCommand(com, []) == Kill;
    InterpretWord(s, com, Kill);
  }

  /** ... next waits for the innermost open instantiation, or acts as step
      when nothing is open... */
  lemma NextCommand(s: AgentState, com: string)
    requires com in ["n", "next"]
    ensures Interpret(s, com).reply == Resumed && Interpret(s, com).state.gate == Gate(false, s.stack != [], false)
    ensures Interpret(s, com).state.breakpoints == s.breakpoints
  {
    assert ParseCommand(com, []) == Next;
    InterpretWord(s, com, Next);
  }

  /** ... and step stops at the next entry that is not a repeated
      memoization. */
  lemma StepCommand(s: AgentState, com: string)
    requires com in ["s", "step"]
    ensures Interpret(s, com).reply == Resumed && Interpret(s, com).state.gate == Gate(false, false, false)
    ensures Interpret(s, com).state.breakpoints == s.breakpoints
  {
    assert ParseCommand(com, []) == Step;
    InterpretWord(s, com, Step);
  }

  /** After kill or quit every entry is ignored: the agent never stops
      again. */
  lemma KillIgnoresRest(s: AgentState, com: string, e: Entry)
    requires com in ["k", "q", "kill", "quit"]
    ensures ShouldIgnore(Interpret(s, com).state, e)
  {
    KillCommand(s, com);
  }

  /** After run or continue an entry stops the agent exactly when its name
      is set as a breakpoint, whatever the stack. */
  lemma RunStopsAtBreakpoints(s: AgentState, com: string, e: Entry)
    requires com in ["r", "c", "run", "continue"]
    ensures !ShouldIgnore(Interpret(s, com).state, e) <==> e.name in s.breakpoints
  {
    RunCommand(s, com);
  }

  /** After next with an instantiation open, the entries that stop the
      agent are exactly those of the innermost open instantiation, so its
      End, once it arrives, stops the agent and pops it. */
  lemma NextStopsAtInnermost(s: AgentState, com: string, e: Entry)
    requires com in ["n", "next"] && s.stack != []
    ensures !ShouldIgnore(Interpret(s, com).state, e) <==> SameInstantiation(s.stack[|s.stack| - 1], e)
    ensures var s' := Interpret(s, com).state;
            !ShouldIgnore(s', e) && !e.isBegin ==> Record(s', e).stack == s.stack[..|s.stack| - 1]
  {
    NextCommand(s, com);
  }

  /** A line whose command and argument are known is interpreted as the
      command they make. */
  lemma InterpretLine(s: AgentState, line: string, com: string, arg: string, c: Cmd)
    requires line != [] && Command(line) == com && Argument(line) == arg && ParseCommand(com, arg) == c
    ensures Interpret(s, line) == Apply(s.(lastCommand := line), c)
  {
  }

  lemma ParseBreak(arg: string)
    ensures ParseCommand("b", arg) == Break(arg)
  {
  }

  lemma ParseDelete(arg: string)
    ensures ParseCommand("d", arg) == Delete(ScanInt(arg))
  {
  }

  /** `break name` sets the breakpoint as `AddBreakpoint` does. */
  lemma BreakCommand(s: AgentState, name: string)
    requires Trimmed(name)
    ensures var slot := AddBreakpoint(s.breakpoints, name);
            Interpret(s, "b " + name) == Answer(s.(lastCommand := "b " + name, breakpoints := slot.table), BreakpointSet(slot.index))
  {
    CommandWithArgument("b", name);
    assert "b" + " " + name == "b " + name;
    ParseBreak(name);
    InterpretLine(s, "b " + name, "b", name, Break(name));
  }

  /** `break name` then `run`: an entry with that name stops the agent. */
  lemma BreakThenRun(s: AgentState, name: string, e: Entry)
    requires Trimmed(name) && e.name == name
    ensures var s1 := Interpret(s, "b " + name).state;
            Interpret(s, "b " + name).reply == BreakpointSet(IndexOf(s1.breakpoints, name))
            && !ShouldIgnore(Interpret(s1, "run").state, e)
  {
    BreakCommand(s, name);
    var s1 := Interpret(s, "b " + name).state;
    RunStopsAtBreakpoints(s1, "run", e);
  }

  /** `delete n` for an existing slot leaves the deleted marker there and
      changes no other slot. */
  lemma DeleteTombstones(s: AgentState, n: nat)
    requires n < |s.breakpoints|
    ensures Interpret(s, "d " + Decimal(n)).state.breakpoints == s.breakpoints[n := TOMBSTONE]
    ensures Interpret(s, "d " + Decimal(n)).reply == BreakpointDeleted(n)
  {
    DeleteLine(s, n);
  }

  /** The line `d n` is read as `delete n`. */
  lemma DeleteLine(s: AgentState, n: nat)
    ensures Interpret(s, "d " + Decimal(n)) == Apply(s.(lastCommand := "d " + Decimal(n)), Delete(Some(n)))
  {
    var ds := Decimal(n);
    assert !IsSpace(ds[0]) && !IsSpace(ds[|ds| - 1]);
    CommandWithArgument("d", ds);
    assert "d" + " " + ds == "d " + ds;
    ScanDecimal(n, []);
    assert ds + [] == ds;
    ParseDelete(ds);
    InterpretLine(s, "d " + ds, "d", ds, Delete(Some(n)));
  }

  // ---------------------------------------------------------------------
  // The agent

  class InteractiveAgent {
    var entriesStack: seq<Entry>
    var lastBeginEntry: Entry
    var breakpoints: seq<string>
    var lastUserCommand: string
    var ignoreAll: bool
    var ignoreUntilLastEnds: bool
    var ignoreUntilBreakpoint: bool
    /** The entries shown to the user, in order (`printEntryImpl`). */
    var shown: seq<Entry>

    function State(): AgentState
      reads this
    {
      AgentState(entriesStack, lastBeginEntry, breakpoints, lastUserCommand,
                 Gate(ignoreAll, ignoreUntilLastEnds, ignoreUntilBreakpoint))
    }

    constructor()
      ensures State() == AgentState([], DEFAULT_ENTRY, [], "", Gate(false, false, false))
      ensures shown == []
    {
      entriesStack := [];
      lastBeginEntry := DEFAULT_ENTRY;
      breakpoints := [];
      lastUserCommand := "";
      ignoreAll, ignoreUntilLastEnds, ignoreUntilBreakpoint := false, false, false;
      shown := [];
    }

    /** `shouldIgnoreEntry`. */
    method ShouldIgnoreEntry(e: Entry) returns (ignore: bool)
      ensures ignore == ShouldIgnore(State(), e)
    {
      if ignoreAll {
        return true;
      }
      if ignoreUntilBreakpoint {
        var k := IndexOf(breakpoints, e.name);
        return k == |breakpoints|;
      }
      if ignoreUntilLastEnds {
        return !(|entriesStack| > 0 && SameInstantiation(entriesStack[|entriesStack| - 1], e));
      }
      if e.kind == TracerV1.MEMOIZATION {
        if !lastBeginEntry.isBegin && SameInstantiation(lastBeginEntry, e) {
          return true;
        }
      }
      return false;
    }

    /** One round of `processInputs`. */
    method ProcessInput(line: string) returns (reply: Reply)
      modifies this
      ensures State() == Interpret(old(State()), line).state
      ensures reply == Interpret(old(State()), line).reply
      ensures shown == old(shown)
    {
      var input := line;
      if input == "" {
        input := lastUserCommand;
      }
      lastUserCommand := input;
      var com, arg := GetTokenizeCommand(input);
      reply := Execute(ParseCommand(com, arg));
    }

    /** The dispatch of `processInputs` once the command is known. */
    method Execute(c: Cmd) returns (reply: Reply)
      modifies this
      ensures State() == Apply(old(State()), c).state
      ensures reply == Apply(old(State()), c).reply
      ensures shown == old(shown)
    {
      match c {
        case Run =>
          ignoreAll, ignoreUntilLastEnds, ignoreUntilBreakpoint := false, false, true;
          reply := Resumed;
        case Kill =>
          ignoreAll, ignoreUntilLastEnds, ignoreUntilBreakpoint := true, false, false;
          reply := Resumed;
        case Next =>
          ignoreAll, ignoreUntilLastEnds, ignoreUntilBreakpoint := false, |entriesStack| > 0, false;
          reply := Resumed;
        case Step =>
          ignoreAll, ignoreUntilLastEnds, ignoreUntilBreakpoint := false, false, false;
          reply := Resumed;
        case Frame => reply := Shown;
        case ListBreakpoints => reply := Shown;
        case Backtrace => reply := Shown;
        case Lookup(_) => reply := if |entriesStack| == 0 then Undefined else Shown;
        case TypeOf(_) => reply := if |entriesStack| == 0 then Undefined else Shown;
        case Break(name) =>
          var k := IndexOf(breakpoints, name);
          if k == |breakpoints| {
            k := IndexOf(breakpoints, TOMBSTONE);
            if k == |breakpoints| {
              breakpoints := breakpoints + [name];
            } else {
              breakpoints := breakpoints[k := name];
            }
          }
          reply := BreakpointSet(k);
        case Delete(index) =>
          if index.None? {
            reply := InvalidInput;
          } else if 0 <= index.value < |breakpoints| {
            breakpoints := breakpoints[index.value := TOMBSTONE];
            reply := BreakpointDeleted(index.value);
          } else {
            reply := Undefined;
          }
        case Invalid => reply := InvalidInput;
      }
    }

    /** `processInputs`: lines are read until one resumes the compilation,
        or the input runs out. */
    method ProcessInputs(input: seq<string>) returns (used: nat, resumed: bool)
      modifies this
      ensures Outcome(State(), used, resumed) == Session(old(State()), input)
      ensures shown == old(shown)
    {
      used, resumed := 0, false;
      ghost var goal := Session(old(State()), input);
      assert input[0..] == input;
      while used < |input|
        invariant used <= |input| && shown == old(shown)
        invariant goal == Later(Session(State(), input[used..]), used)
        decreases |input| - used
      {
        ghost var before := State();
        var reply := ProcessInput(input[used]);
        SessionAdvance(goal, input, used, before, State(), reply);
        used := used + 1;
        if reply == Resumed {
          resumed := true;
          return;
        }
      }
    }

    /** `printRawEntry`: an entry that passes the gate is recorded, shown,
        and followed by a conversation with the user. */
    method PrintRawEntry(e: Entry, input: seq<string>) returns (used: nat, resumed: bool)
      modifies this
      ensures ShouldIgnore(old(State()), e) ==> State() == old(State()) && shown == old(shown) && used == 0
      ensures !ShouldIgnore(old(State()), e) ==>
                shown == old(shown) + [e] && Outcome(State(), used, resumed) == Session(Record(old(State()), e), input)
    {
      var ignore := ShouldIgnoreEntry(e);
      if ignore {
        return 0, false;
      }
      RecordEntry(e);
      used, resumed := ProcessInputs(input);
    }

    /** The bookkeeping of `printRawEntry` for an entry that passes: a
        Begin is pushed and remembered, the entry is shown, the End of a
        memoization marks the last Begin closed, and the End of the
        innermost open instantiation pops it. */
    method RecordEntry(e: Entry)
      modifies this
      ensures State() == Record(old(State()), e) && shown == old(shown) + [e]
    {
      if e.isBegin {
        entriesStack := entriesStack + [e];
        lastBeginEntry := e;
      }
      shown := shown + [e];
      if !e.isBegin && e.kind == TracerV1.MEMOIZATION {
        lastBeginEntry := lastBeginEntry.(isBegin := false);
      }
      if !e.isBegin && |entriesStack| > 0 && SameInstantiation(e, entriesStack[|entriesStack| - 1]) {
        entriesStack := entriesStack[..|entriesStack| - 1];
      }
    }
  }

  /** How a conversation at the prompt ends: the state, the number of
      lines read, and whether the compilation was resumed (it is not when
      the input runs out first). */
  datatype Outcome = Outcome(state: AgentState, read: nat, resumed: bool)

  /** A conversation at the prompt: the lines are interpreted in order
      until one resumes the compilation. */
  function Session(s: AgentState, lines: seq<string>): (r: Outcome)
    ensures r.read <= |lines| && (!r.resumed ==> r.read == |lines|)
    decreases |lines|, 1
  {
    if lines == [] then Outcome(s, 0, false) else Prompt(s, lines)
  }

  /** One prompt of a session: the first line is interpreted, and unless it
      resumes the compilation the session goes on with the rest. */
  function Prompt(s: AgentState, lines: seq<string>): (r: Outcome)
    requires lines != []
    ensures 0 < r.read <= |lines| && (!r.resumed ==> r.read == |lines|)
    decreases |lines|, 0
  {
    var a := Interpret(s, lines[0]);
    if a.reply == Resumed then Outcome(a.state, 1, true)
    else Later(Session(a.state, lines[1..]), 1)
  }

  /** A session's outcome as counted from `k` lines earlier. */
  function Later(r: Outcome, k: nat): Outcome
  {
    r.(read := r.read + k)
  }

  /** Unfolds one prompt of a session. */
  lemma SessionFirstLine(s: AgentState, lines: seq<string>, a: Answer)
    requires lines != [] && a == Interpret(s, lines[0])
    ensures a.reply == Resumed ==> Session(s, lines) == Outcome(a.state, 1, true)
    ensures a.reply != Resumed ==> Session(s, lines) == Later(Session(a.state, lines[1..]), 1)
  {
  }

  /** One round of the loop of `processInputs`: the session that started
      `used` lines earlier either ends with this line or goes on. */
  lemma SessionAdvance(goal: Outcome, input: seq<string>, used: nat, before: AgentState, after: AgentState, reply: Reply)
    requires used < |input| && goal == Later(Session(before, input[used..]), used)
    requires Answer(after, reply) == Interpret(before, input[used])
    ensures reply == Resumed ==> goal == Outcome(after, used + 1, true)
    ensures reply != Resumed ==> goal == Later(Session(after, input[used + 1..]), used + 1)
  {
    var rest := input[used..];
    assert rest[0] == input[used] && rest[1..] == input[used + 1..];
    SessionFirstLine(before, rest, Answer(after, reply));
  }

  /** The lines after the one that resumes are left unread: appending more
      input changes nothing. */
  lemma {:induction false} SessionStopsAtResume(s: AgentState, lines: seq<string>, more: seq<string>)
    requires Session(s, lines).resumed
    ensures Session(s, lines + more) == Session(s, lines)
    decreases |lines|
  {
    var a := Interpret(s, lines[0]);
    SessionFirstLine(s, lines, a);
    if a.reply != Resumed {
      SessionStopsAtResume(a.state, lines[1..], more);
    }
    SessionAppendStep(s, lines, more, a);
  }

  /** The step of `SessionStopsAtResume`: what holds after the first line
      carries over to the whole input. */
  lemma SessionAppendStep(s: AgentState, lines: seq<string>, more: seq<string>, a: Answer)
    requires lines != [] && a == Interpret(s, lines[0])
    requires a.reply != Resumed ==> Session(a.state, lines[1..] + more) == Session(a.state, lines[1..])
    ensures Session(s, lines + more) == Session(s, lines)
  {
    assert (lines + more)[0] == lines[0] && (lines + more)[1..] == lines[1..] + more;
    SessionFirstLine(s, lines, a);
    SessionFirstLine(s, lines + more, a);
  }

  /** The resuming line is the last one read: the lines before it make a
      session that does not resume. */
  lemma {:induction false} SessionEndsWithResume(s: AgentState, lines: seq<string>)
    requires Session(s, lines).resumed
    ensures var n := Session(s, lines).read;
            0 < n && Session(s, lines[..n - 1]) == Outcome(Session(s, lines[..n - 1]).state, n - 1, false)
    decreases |lines|
  {
    var a := Interpret(s, lines[0]);
    SessionFirstLine(s, lines, a);
    var n := Session(s, lines).read;
    if a.reply != Resumed {
      SessionEndsWithResume(a.state, lines[1..]);
      var m := Session(a.state, lines[1..]).read;
      assert m == n - 1 && 0 < m;
      assert lines[..n - 1][0] == lines[0] && lines[..n - 1][1..] == lines[1..][..m - 1];
      SessionFirstLine(s, lines[..n - 1], a);
    } else {
      assert lines[..n - 1] == [];
    }
  }

  /** A conversation never changes the stack or the last Begin, and the
      breakpoint table only grows. */
  lemma {:induction false} SessionKeepsStack(s: AgentState, lines: seq<string>)
    ensures Session(s, lines).state.stack == s.stack && Session(s, lines).state.last == s.last
    ensures |Session(s, lines).state.breakpoints| >= |s.breakpoints|
    decreases |lines|
  {
    if lines != [] {
      var a := Interpret(s, lines[0]);
      SessionFirstLine(s, lines, a);
      BreakpointsGrow(s, lines[0]);
      if a.reply != Resumed {
        SessionKeepsStack(a.state, lines[1..]);
      }
    }
  }

  lemma BreakpointsGrow(s: AgentState, line: string)
    ensures |Interpret(s, line).state.breakpoints| >= |s.breakpoints|
  {
  }
}
