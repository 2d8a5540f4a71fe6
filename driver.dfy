/**
 * The command-line handling of the templight driver (templight_driver.cpp):
 * the recognition of the program name's driver suffix, the separation of
 * the `-Xtemplight` options from the options passed on to Clang, and the
 * scan for `-no-canonical-prefixes`.
 *
 * An argument vector is a sequence of optional strings: after response
 * files are expanded, a null entry marks the end of a line of a response
 * file.
 */
module Driver {

  datatype Option<T> = None | Some(value: T)

  // ---------------------------------------------------------------------
  // Driver suffixes

  /** A known program-name suffix and the driver mode it selects, if any. */
  datatype DriverSuffix = DriverSuffix(suffix: string, modeFlag: Option<string>)

  /** The known suffixes, in the order they are tried. */
  const DRIVER_SUFFIXES: seq<DriverSuffix> := [
    DriverSuffix("templight", None),
    DriverSuffix("templight++", Some("--driver-mode=g++")),
    DriverSuffix("templight-c++", Some("--driver-mode=g++")),
    DriverSuffix("templight-cc", None),
    DriverSuffix("templight-cpp", Some("--driver-mode=cpp")),
    DriverSuffix("templight-g++", Some("--driver-mode=g++")),
    DriverSuffix("templight-gcc", None),
    DriverSuffix("templight-cl", Some("--driver-mode=cl")),
    DriverSuffix("cc", None),
    DriverSuffix("cpp", Some("--driver-mode=cpp")),
    DriverSuffix("cl", Some("--driver-mode=cl")),
    DriverSuffix("++", Some("--driver-mode=g++"))
  ]

  predicate EndsWith(s: string, suffix: string)
  {
    |suffix| <= |s| && s[|s| - |suffix|..] == suffix
  }

  /** The first entry of `table` from index `k` on whose suffix ends
      `progName`. */
  function FindSuffixFrom(table: seq<DriverSuffix>, progName: string, k: nat): (r: Option<nat>)
    requires k <= |table|
    ensures r.Some? ==> k <= r.value < |table|
    decreases |table| - k
  {
    if k == |table| then None
    else if EndsWith(progName, table[k].suffix) then Some(k)
    else FindSuffixFrom(table, progName, k + 1)
  }

  /** `FindDriverSuffix`: the index in the table of the entry found, or
      `None` for the null pointer. */
  function FindDriverSuffix(progName: string): (r: Option<nat>)
    ensures r.Some? ==> r.value < |DRIVER_SUFFIXES|
  {
    FindSuffixFrom(DRIVER_SUFFIXES, progName, 0)
  }

  /** The search from `k` finds the first matching entry at or after `k`,
      and nothing when no entry from `k` on matches. */
  lemma {:induction false} FindSuffixFromFirst(table: seq<DriverSuffix>, progName: string, k: nat)
    requires k <= |table|
    ensures var r := FindSuffixFrom(table, progName, k);
            (r.Some? ==> EndsWith(progName, table[r.value].suffix)
                         && forall j | k <= j < r.value :: !EndsWith(progName, table[j].suffix))
            && (r.None? ==> forall j | k <= j < |table| :: !EndsWith(progName, table[j].suffix))
    decreases |table| - k
  {
    if k < |table| && !EndsWith(progName, table[k].suffix) {
      FindSuffixFromFirst(table, progName, k + 1);
    }
  }

  /** The entry found is the first in table order whose suffix ends the
      program name; no entry is found only when none matches. */
  lemma FindDriverSuffixFirstMatch(progName: string)
    ensures var r := FindDriverSuffix(progName);
            (r.Some? ==> EndsWith(progName, DRIVER_SUFFIXES[r.value].suffix)
                         && forall j | 0 <= j < r.value :: !EndsWith(progName, DRIVER_SUFFIXES[j].suffix))
            && (r.None? <==> forall j | 0 <= j < |DRIVER_SUFFIXES| :: !EndsWith(progName, DRIVER_SUFFIXES[j].suffix))
  {
    FindSuffixFromFirst(DRIVER_SUFFIXES, progName, 0);
  }

  /** `StringRef::rtrim` with a set of characters: the longest prefix that
      does not end with one of them. */
  function TrimEndOf(s: string, chars: set<char>): (r: string)
    ensures |r| <= |s|
    decreases |s|
  {
    if s != [] && s[|s| - 1] in chars then TrimEndOf(s[..|s| - 1], chars) else s
  }

  /** What `TrimEndOf` removes is a run of those characters, and what it
      keeps does not end with one. */
  lemma {:induction false} TrimEndOfRun(s: string, chars: set<char>)
    ensures var r := TrimEndOf(s, chars);
            r == s[..|r|] && (r != [] ==> r[|r| - 1] !in chars)
            && forall k | |r| <= k < |s| :: s[k] in chars
    decreases |s|
  {
    if s != [] && s[|s| - 1] in chars {
      TrimEndOfRun(s[..|s| - 1], chars);
      var r := TrimEndOf(s, chars);
      assert s[..|s| - 1][..|r|] == s[..|r|];
    }
  }

  /** The characters of a trailing version number. */
  const VERSION_CHARS: set<char> := {'0', '1', '2', '3', '4', '5', '6', '7', '8', '9', '.'}

  /** `rfind('-')`: the position of the last dash, if any. */
  function LastDash(s: string): (r: Option<nat>)
    ensures r.Some? ==> r.value < |s| && s[r.value] == '-'
    ensures r.Some? ==> forall k | r.value < k < |s| :: s[k] != '-'
    ensures r.None? ==> forall k | 0 <= k < |s| :: s[k] != '-'
    decreases |s|
  {
    if s == [] then None
    else if s[|s| - 1] == '-' then Some(|s| - 1)
    else LastDash(s[..|s| - 1])
  }

  /** `slice(0, rfind('-'))`: everything before the last dash; without a
      dash, `npos` keeps the whole name. */
  function BeforeLastDash(s: string): (r: string)
  {
    match LastDash(s)
    case Some(k) => s[..k]
    case None => s
  }

  /** `parseDriverSuffix`: the name as it is, then without a trailing
      version number, then also without its last dash-separated
      component. */
  function ParseDriverSuffix(progName: string): Option<nat>
  {
    var first := FindDriverSuffix(progName);
    if first.Some? then first
    else
      var unversioned := TrimEndOf(progName, VERSION_CHARS);
      var second := FindDriverSuffix(unversioned);
      if second.Some? then second
      else FindDriverSuffix(BeforeLastDash(unversioned))
  }

  /** The three names tried, and the first of them that has an entry
      decides: the entry found ends that name, and no earlier name had
      one. */
  lemma ParseDriverSuffixTries(progName: string)
    ensures var unversioned := TrimEndOf(progName, VERSION_CHARS);
            var stem := BeforeLastDash(unversioned);
            var r := ParseDriverSuffix(progName);
            (FindDriverSuffix(progName).Some? ==> r == FindDriverSuffix(progName))
            && (FindDriverSuffix(progName).None? && FindDriverSuffix(unversioned).Some? ==>
                  r == FindDriverSuffix(unversioned)
                  && EndsWith(unversioned, DRIVER_SUFFIXES[r.value].suffix))
            && (FindDriverSuffix(progName).None? && FindDriverSuffix(unversioned).None? ==>
                  r == FindDriverSuffix(stem)
                  && (r.Some? ==> EndsWith(stem, DRIVER_SUFFIXES[r.value].suffix)))
  {
    var unversioned := TrimEndOf(progName, VERSION_CHARS);
    FindDriverSuffixFirstMatch(unversioned);
    FindDriverSuffixFirstMatch(BeforeLastDash(unversioned));
  }

  // ---------------------------------------------------------------------
  // Separating the templight options from Clang's

  const XTEMPLIGHT: string := "-Xtemplight"
  const NO_CANONICAL_PREFIXES: string := "-no-canonical-prefixes"

  /** The end-of-line skip after position `i`: it moves past the following
      null markers, stopping at the next entry that is not one or at the
      last entry; at the last entry already it does not move. */
  function SkipMarkers(argv: seq<Option<string>>, i: nat): (r: nat)
    requires i < |argv|
    ensures i <= r < |argv| && (i < |argv| - 1 ==> i < r)
    ensures r == |argv| - 1 || (i < r && argv[r].Some?)
    decreases |argv| - i
  {
    if i < |argv| - 1 then
      if argv[i + 1].None? then SkipMarkers(argv, i + 1) else i + 1
    else i
  }

  /** The two lists an argument split produces. */
  datatype Split = Split(templight: seq<Option<string>>, clang: seq<Option<string>>)

  /** The split of the entries from position `i` on: `-Xtemplight` hands
      the next entry that is not a marker to templight (or itself when it
      is the last entry, which ends the split); every other entry goes to
      Clang. */
  function SplitFrom(argv: seq<Option<string>>, i: nat): Split
    decreases |argv| - i
  {
    if i >= |argv| then Split([], [])
    else if argv[i] == Some(XTEMPLIGHT) then
      var w := SkipMarkers(argv, i);
      if w == |argv| - 1 then Split([argv[w]], [])
      else
        var rest := SplitFrom(argv, SkipMarkers(argv, w));
        Split([argv[w]] + rest.templight, rest.clang)
    else
      var rest := SplitFrom(argv, i + 1);
      Split(rest.templight, [argv[i]] + rest.clang)
  }

  /** `while (i < size - 1 && argv[++i] == nullptr);` */
  method SkipEndOfLines(argv: seq<Option<string>>, i: nat) returns (j: nat)
    requires i < |argv|
    ensures j == SkipMarkers(argv, i)
  {
    j := i;
    while j < |argv| - 1
      invariant i <= j < |argv| && SkipMarkers(argv, j) == SkipMarkers(argv, i)
      decreases |argv| - j
    {
      j := j + 1;
      if argv[j].Some? {
        return;
      }
    }
  }

  /** The loop of `main` that separates the `-Xtemplight` options: the
      program name heads both lists. */
  method SplitArguments(argv: seq<Option<string>>) returns (templight: seq<Option<string>>, clang: seq<Option<string>>)
    requires |argv| >= 1
    ensures templight == [argv[0]] + SplitFrom(argv, 1).templight
    ensures clang == [argv[0]] + SplitFrom(argv, 1).clang
  {
    templight := [argv[0]];
    clang := [argv[0]];
    var i := 1;
    var size := |argv|;
    while i < size
      invariant 1 <= i <= size
      invariant templight + SplitFrom(argv, i).templight == [argv[0]] + SplitFrom(argv, 1).templight
      invariant clang + SplitFrom(argv, i).clang == [argv[0]] + SplitFrom(argv, 1).clang
      decreases size - i
    {
      if argv[i].Some? && argv[i].value == XTEMPLIGHT {
        ghost var start := i;
        i := SkipEndOfLines(argv, i);
        templight := templight + [argv[i]];
        if i == size - 1 {
          assert SplitFrom(argv, start) == Split([argv[i]], []);
          return;
        }
        ghost var w := i;
        i := SkipEndOfLines(argv, i);
        assert SplitFrom(argv, start) == Split([argv[w]] + SplitFrom(argv, i).templight, SplitFrom(argv, i).clang);
      } else {
        clang := clang + [argv[i]];
        i := i + 1;
      }
    }
  }

  /** Entries before the first `-Xtemplight` go to Clang unchanged and in
      order, `-help` and `--help` included. */
  lemma {:induction false} PlainEntriesGoToClang(argv: seq<Option<string>>, i: nat, e: nat)
    requires i <= e <= |argv|
    requires forall j | i <= j < e :: argv[j] != Some(XTEMPLIGHT)
    ensures SplitFrom(argv, i) == Split(SplitFrom(argv, e).templight, argv[i..e] + SplitFrom(argv, e).clang)
    decreases e - i
  {
    if i < e {
      PlainEntriesGoToClang(argv, i + 1, e);
      assert argv[i..e] == [argv[i]] + argv[i + 1..e];
    }
  }

  /** Without `-Xtemplight`, templight sees only the program name and Clang
      sees the whole vector: after the program name, every entry goes to
      Clang. */
  lemma NoTemplightOptions(argv: seq<Option<string>>)
    requires |argv| >= 1 && forall j | 1 <= j < |argv| :: argv[j] != Some(XTEMPLIGHT)
    ensures SplitFrom(argv, 1) == Split([], argv[1..])
  {
    PlainEntriesGoToClang(argv, 1, |argv|);
    SplitAtEnd(argv);
    assert argv[1..|argv|] + [] == argv[1..];
  }

  /** Without end-of-line markers around it, `-Xtemplight` hands exactly
      the next entry to templight, and the split goes on after that entry. */
  lemma MarkerTakesNextWord(argv: seq<Option<string>>, i: nat)
    requires i + 1 < |argv| && argv[i] == Some(XTEMPLIGHT) && argv[i + 1].Some?
    requires i + 2 < |argv| ==> argv[i + 2].Some?
    ensures SplitFrom(argv, i) == Split([argv[i + 1]] + SplitFrom(argv, i + 2).templight, SplitFrom(argv, i + 2).clang)
  {
    if i + 2 < |argv| {
      assert SkipMarkers(argv, i + 1) == i + 2;
    } else {
      assert SplitFrom(argv, i + 2) == Split([], []);
    }
  }

  /** Past the end of the vector nothing is left to split. */
  lemma SplitAtEnd(argv: seq<Option<string>>)
    ensures SplitFrom(argv, |argv|) == Split([], [])
  {
  }

  /** A `-Xtemplight` with nothing after it is itself handed to templight,
      and the entries before it go to Clang. */
  lemma TrailingTemplightFlag(argv: seq<Option<string>>)
    requires |argv| >= 2 && argv[|argv| - 1] == Some(XTEMPLIGHT)
    requires forall j | 1 <= j < |argv| - 1 :: argv[j] != Some(XTEMPLIGHT)
    ensures SplitFrom(argv, 1) == Split([Some(XTEMPLIGHT)], argv[1..|argv| - 1])
  {
    PlainEntriesGoToClang(argv, 1, |argv| - 1);
    assert argv[1..|argv| - 1] + [] == argv[1..|argv| - 1];
  }

  /** The two lists only hold entries of the vector, each at most as often
      as it occurs there: nothing is made up or duplicated. */
  lemma {:induction false} SplitTakesFromArgv(argv: seq<Option<string>>, i: nat)
    requires i <= |argv|
    ensures var r := SplitFrom(argv, i);
            multiset(r.templight) + multiset(r.clang) <= multiset(argv[i..])
    decreases |argv| - i
  {
    if i < |argv| {
      if argv[i] == Some(XTEMPLIGHT) {
        var w := SkipMarkers(argv, i);
        if w == |argv| - 1 {
          TakeOne(argv, i, w, |argv|);
        } else {
          var next := SkipMarkers(argv, w);
          SplitTakesFromArgv(argv, next);
          TakeOne(argv, i, w, next);
        }
      } else {
        SplitTakesFromArgv(argv, i + 1);
        TakeOne(argv, i, i, i + 1);
      }
    }
  }

  /** Taking the entry at `w` and going on from `next` uses part of what
      is left from `i`. */
  lemma TakeOne(argv: seq<Option<string>>, i: nat, w: nat, next: nat)
    requires i <= w < next <= |argv|
    ensures multiset{argv[w]} + multiset(argv[next..]) <= multiset(argv[i..])
  {
    assert argv[i..] == argv[i..w] + [argv[w]] + argv[w + 1..next] + argv[next..];
  }

  /** The scan of `main` for `-no-canonical-prefixes` among the Clang
      arguments after the program name, skipping end-of-line markers. */
  method CanonicalPrefixes(clang: seq<Option<string>>) returns (canonical: bool)
    ensures canonical <==> forall j | 1 <= j < |clang| :: clang[j] != Some(NO_CANONICAL_PREFIXES)
  {
    canonical := true;
    var i := 1;
    while i < |clang|
      invariant 1 <= i && (i <= |clang| || |clang| == 0)
      invariant forall j | 1 <= j < i && j < |clang| :: clang[j] != Some(NO_CANONICAL_PREFIXES)
      decreases |clang| - i
    {
      if clang[i].None? {
        i := i + 1;
        continue;
      }
      if clang[i].value == NO_CANONICAL_PREFIXES {
        canonical := false;
        break;
      }
      i := i + 1;
    }
  }
}
