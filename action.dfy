/**
 * The choice of the trace file's name in the older tree
 * (`TemplightAction::CreateOutputFilename` in TemplightAction.cpp): the
 * name the user gave, or the compiler's output file, or the main source
 * file, followed by `.trace.pbf` (or `.memory.trace.pbf`) unless the name
 * already holds `.trace.`.
 */
module Action {

  datatype Option<T> = None | Some(value: T)

  /** What the function reads from the compiler instance, when there is
      one: the output file of the compilation and, when a source manager
      exists, the name of the main source file. */
  datatype Compiler = Compiler(outputFile: string, mainFile: Option<string>)

  const TRACE_MARK: string := ".trace."
  const MEMORY_TRACE_MARK: string := ".memory.trace."

  /** `p` occurs in `s` starting at `i`. */
  predicate OccursAt(s: string, p: string, i: nat)
  {
    i + |p| <= |s| && s[i..i + |p|] == p
  }

  /** `s.rfind(p) != npos`: `p` occurs somewhere in `s`. */
  predicate Contains(s: string, p: string)
  {
    exists i: nat | i <= |s| :: OccursAt(s, p, i)
  }

  /** A name that ends with `mark + ext` holds `.trace.` when `mark` does. */
  lemma MarkedContainsTrace(base: string, mark: string, ext: string)
    requires mark == TRACE_MARK || mark == MEMORY_TRACE_MARK
    ensures Contains(base + mark + ext, TRACE_MARK)
  {
    var s := base + mark + ext;
    var i := if mark == TRACE_MARK then |base| else |base| + 7;
    assert s[i..i + |TRACE_MARK|] == TRACE_MARK;
    assert OccursAt(s, TRACE_MARK, i);
  }

  /** The name the suffix is added to, when the output is not standard
      output: the given name, or the compiler's output file when no name
      was given; if that is still empty, the main source file's name, or
      `a` without a source manager. Without a compiler instance an empty
      name stays empty. */
  function BaseName(ci: Option<Compiler>, name: string): (r: string)
    ensures name != [] ==> r == name
    ensures ci.None? ==> r == name
    ensures ci.Some? && r == [] ==> name == [] && ci.value.outputFile == [] && ci.value.mainFile == Some([])
  {
    var given := if ci.Some? && name == [] then ci.value.outputFile else name;
    if ci.Some? && given == [] then
      match ci.value.mainFile
      case Some(main) => main
      case None => "a"
    else given
  }

  /** The suffix rule: a name without `.trace.` gets the trace mark and the
      `pbf` extension. */
  function WithTraceSuffix(base: string, memoryProfile: bool): string
  {
    if Contains(base, TRACE_MARK) then base
    else base + (if memoryProfile then MEMORY_TRACE_MARK else TRACE_MARK) + "pbf"
  }

  /** `CreateOutputFilename`: no name when not profiling, `-` for standard
      output, otherwise the base name with the suffix rule applied. */
  function OutputFilename(ci: Option<Compiler>, name: string, instProfiler: bool,
                          toStdOut: bool, memoryProfile: bool): (r: string)
    ensures !instProfiler <==> r == []
    ensures instProfiler && toStdOut ==> r == "-"
  {
    if !instProfiler then ""
    else if toStdOut then "-"
    else WithTraceSuffix(BaseName(ci, name), memoryProfile)
  }

  /** Whenever a file is named, the name starts with the base name and
      holds `.trace.`; a base without it gets exactly `.trace.pbf` or
      `.memory.trace.pbf`, and a base with it is kept as it is. */
  lemma OutputFilenameShape(ci: Option<Compiler>, name: string, memoryProfile: bool)
    ensures var base := BaseName(ci, name);
            var r := OutputFilename(ci, name, true, false, memoryProfile);
            Contains(r, TRACE_MARK) && r[..|base|] == base
            && (Contains(base, TRACE_MARK) ==> r == base)
            && (!Contains(base, TRACE_MARK) ==>
                  r == base + (if memoryProfile then ".memory.trace.pbf" else ".trace.pbf"))
  {
    var base := BaseName(ci, name);
    if !Contains(base, TRACE_MARK) {
      var mark := if memoryProfile then MEMORY_TRACE_MARK else TRACE_MARK;
      MarkedContainsTrace(base, mark, "pbf");
      assert (base + mark + "pbf")[..|base|] == base;
    }
  }

  /** Feeding a produced file name back in (no compiler instance, standard
      output off) gives the same name, whatever the memory flag. */
  lemma {:induction false} OutputFilenameIdempotent(ci: Option<Compiler>, name: string, memoryProfile: bool,
                                  memoryProfile': bool)
    ensures var r := OutputFilename(ci, name, true, false, memoryProfile);
            OutputFilename(None, r, true, false, memoryProfile') == r
  {
    OutputFilenameShape(ci, name, memoryProfile);
  }
}
