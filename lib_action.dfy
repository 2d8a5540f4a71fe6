/**
 * The choice of the trace file's name in the library tree
 * (`TemplightAction::CreateOutputFilename` in lib/TemplightAction.cpp).
 * The base name is chosen as in the older tree, but the extension follows
 * the output format, and standard output is not returned early.
 */
module LibAction {

  import opened Action

  /** The extension written after the trace mark for each output format;
      an unrecognised format is reported on the error stream and gets no
      extension. */
  function Extension(format: string): Option<string>
  {
    if format == "" || format == "protobuf" then Some("pbf")
    else if format == "xml" || format == "nestedxml" then Some("xml")
    else if format == "text" then Some("txt")
    else if format == "graphml" then Some("graphml")
    else if format == "graphviz" then Some("gv")
    else if format == "yaml" then Some("yaml")
    else None
  }

  /** The text appended after the trace mark. */
  function ExtensionText(format: string): string
  {
    match Extension(format)
    case Some(ext) => ext
    case None => ""
  }

  /** The suffix rule of the library tree: a name without `.trace.` gets
      the trace mark and the format's extension. */
  function WithFormatSuffix(base: string, format: string, memoryProfile: bool): string
  {
    if Contains(base, TRACE_MARK) then base
    else base + (if memoryProfile then MEMORY_TRACE_MARK else TRACE_MARK) + ExtensionText(format)
  }

  /** `CreateOutputFilename` as the library tree writes it: standard output
      makes the base `-`, and the suffix rule is still applied to it. */
  function OutputFilenameAsWritten(ci: Option<Compiler>, name: string, format: string,
                                   instProfiler: bool, toStdOut: bool, memoryProfile: bool): (r: string)
    ensures !instProfiler <==> r == []
  {
    if !instProfiler then ""
    else
      var base := if toStdOut then "-" else BaseName(ci, name);
      var r := WithFormatSuffix(base, format, memoryProfile);
      MarkedContainsTrace(base, if memoryProfile then MEMORY_TRACE_MARK else TRACE_MARK, ExtensionText(format));
      r
  }

  /** Standard output, as written, names a file `-.trace.<ext>`, which the
      entry printer opens as a file: only the name `-` itself means standard
      output there. */
  lemma StdoutAsWrittenNamesAFile(ci: Option<Compiler>, name: string, format: string, memoryProfile: bool)
    ensures var r := OutputFilenameAsWritten(ci, name, format, true, true, memoryProfile);
            r == "-" + (if memoryProfile then ".memory.trace." else ".trace.") + ExtensionText(format)
            && r != "-"
  {
    assert !OccursAt("-", TRACE_MARK, 0);
    assert !Contains("-", TRACE_MARK);
  }

  /** The concrete case: `--stdout` with the default format. */
  lemma StdoutAsWrittenExample()
    ensures OutputFilenameAsWritten(None, "", "", true, true, false) == "-.trace.pbf"
  {
    StdoutAsWrittenNamesAFile(None, "", "", false);
  }

  /** `CreateOutputFilename` with standard output returned as `-`, as the
      older tree does. */
  function OutputFilename(ci: Option<Compiler>, name: string, format: string,
                          instProfiler: bool, toStdOut: bool, memoryProfile: bool): (r: string)
    ensures !instProfiler <==> r == []
    ensures instProfiler && toStdOut ==> r == "-"
    ensures !toStdOut ==> r == OutputFilenameAsWritten(ci, name, format, instProfiler, toStdOut, memoryProfile)
  {
    if !instProfiler then ""
    else if toStdOut then "-"
    else
      var base := BaseName(ci, name);
      MarkedContainsTrace(base, if memoryProfile then MEMORY_TRACE_MARK else TRACE_MARK, ExtensionText(format));
      WithFormatSuffix(base, format, memoryProfile)
  }

  /** Whenever a file is named, the name starts with the base name and
      holds `.trace.`; a base without it gets the trace mark (with
      `memory` for memory profiles) and the format's extension, which is
      empty for an unrecognised format. */
  lemma OutputFilenameShape(ci: Option<Compiler>, name: string, format: string, memoryProfile: bool)
    ensures var base := BaseName(ci, name);
            var r := OutputFilename(ci, name, format, true, false, memoryProfile);
            Contains(r, TRACE_MARK) && r[..|base|] == base
            && (Contains(base, TRACE_MARK) ==> r == base)
            && (!Contains(base, TRACE_MARK) ==>
                  r == base + (if memoryProfile then ".memory.trace." else ".trace.") + ExtensionText(format))
  {
    var base := BaseName(ci, name);
    if !Contains(base, TRACE_MARK) {
      var mark := if memoryProfile then MEMORY_TRACE_MARK else TRACE_MARK;
      MarkedContainsTrace(base, mark, ExtensionText(format));
      assert (base + mark + ExtensionText(format))[..|base|] == base;
    }
  }

  /** The extension for each format the library knows. */
  lemma ExtensionTable(format: string)
    ensures format in {"", "protobuf"} ==> ExtensionText(format) == "pbf"
    ensures format in {"xml", "nestedxml"} ==> ExtensionText(format) == "xml"
    ensures format == "text" ==> ExtensionText(format) == "txt"
    ensures format == "graphml" ==> ExtensionText(format) == "graphml"
    ensures format == "graphviz" ==> ExtensionText(format) == "gv"
    ensures format == "yaml" ==> ExtensionText(format) == "yaml"
    ensures format !in {"", "protobuf", "xml", "nestedxml", "text", "graphml", "graphviz", "yaml"} ==>
              Extension(format) == None && ExtensionText(format) == ""
  {
  }

  /** Feeding a produced file name back in (no compiler instance, standard
      output off) gives the same name, whatever the format and memory
      flag. */
  lemma {:induction false} OutputFilenameIdempotent(ci: Option<Compiler>, name: string, format: string,
                                                    memoryProfile: bool, format': string, memoryProfile': bool)
    ensures var r := OutputFilename(ci, name, format, true, false, memoryProfile);
            OutputFilename(None, r, format', true, false, memoryProfile') == r
  {
    OutputFilenameShape(ci, name, format, memoryProfile);
  }

  /** With the protobuf format (named or by default) the two trees choose
      the same name. */
  lemma AgreesWithOlderTree(ci: Option<Compiler>, name: string, format: string,
                            instProfiler: bool, toStdOut: bool, memoryProfile: bool)
    requires format == "" || format == "protobuf"
    ensures OutputFilename(ci, name, format, instProfiler, toStdOut, memoryProfile)
            == Action.OutputFilename(ci, name, instProfiler, toStdOut, memoryProfile)
  {
    assert ExtensionText(format) == "pbf";
  }
}
