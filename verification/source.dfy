/** The `source` sub-command (src/commands/source.rs): which files are
    analysed, the output format actually used, where each file's output
    goes, and what is written for it. The analysis engine and the file
    system are parameters: the engine's answer for a file is an `Analysis`,
    and the effect of a file is the `Written` value describing the one
    output file it creates. */
module Source {
  import opened Wrappers
  import opened Engine
  import opened Rows
  import opened Flatten
  import opened Paths

  /** The two values the `--fmt` option accepts. */
  datatype Format = Csv | Json

  function FormatName(fmt: Format): string {
    match fmt
    case Csv => "csv"
    case Json => "json"
  }

  /** The options of the sub-command. */
  datatype SourceCommand = SourceCommand(
    path: string, outputPath: string, fmt: Format, noFlatten: bool, extended: bool)

  /** Unflattened output cannot be CSV: the format is switched to JSON. */
  function PromoteFormat(fmt: Format, noFlatten: bool): (r: Format)
    ensures r.Json? <==> fmt.Json? || noFlatten
    ensures r.Csv? ==> fmt.Csv?
  {
    if noFlatten && fmt == Csv then Json else fmt
  }

  /** The command as `execute` goes on to use it. */
  function Promote(cmd: SourceCommand): (r: SourceCommand)
    ensures r.(fmt := cmd.fmt) == cmd
    ensures r.fmt == PromoteFormat(cmd.fmt, cmd.noFlatten)
  {
    cmd.(fmt := PromoteFormat(cmd.fmt, cmd.noFlatten))
  }

  /** Promoting the format twice changes nothing more. */
  lemma PromoteIdempotent(cmd: SourceCommand)
    ensures Promote(Promote(cmd)) == Promote(cmd)
  {
  }

  /** The schema of the rows: `--extended` selects the wide one. */
  function SchemaOf(extended: bool): Schema {
    if extended then Extended else Regular
  }

  /** The path the code renames the input to: `<stem>-extended.<fmt>`
      through `with_file_name` in extended mode, the extension replaced
      through `with_extension` otherwise. `None` stands for the `unwrap` on
      a missing file stem, which panics. */
  function Renamed(path: string, fmt: Format, extended: bool): Option<string> {
    if extended then
      match FileStem(path)
      case None => None
      case Some(stem) => Some(WithFileName(path, stem + "-extended." + FormatName(fmt)))
    else Some(WithExtension(path, FormatName(fmt)))
  }

  /** Only the file name of the renamed path is kept, joined under the
      output directory. `None` stands for the `unwrap` on a missing file
      name, which panics. */
  function UnderOutputDir(renamed: Option<string>, outDir: string): Option<string> {
    match renamed
    case None => None
    case Some(q) =>
      match FileName(q)
      case None => None
      case Some(name) => Some(Join(outDir, name))
  }

  /** The output path of an input, as the code derives it. */
  function OutputPath(path: string, outDir: string, fmt: Format, extended: bool): Option<string> {
    UnderOutputDir(Renamed(path, fmt, extended), outDir)
  }

  /** The file name an input's output gets. */
  function OutputName(stem: string, fmt: Format, extended: bool): string {
    stem + (if extended then "-extended" else "") + "." + FormatName(fmt)
  }

  /** The stem marked for extended output is still a name on its own. */
  lemma MarkedNameIsNormal(stem: string, fmt: Format)
    requires stem != "" && '/' !in stem
    ensures IsNormalName(stem + "-extended." + FormatName(fmt))
    ensures stem + "-extended." + FormatName(fmt) == OutputName(stem, fmt, true)
  {
    var marked := stem + "-extended";
    assert forall i :: 0 <= i < |marked| ==> marked[i] == (if i < |stem| then stem[i] else "-extended"[i - |stem|]);
    DottedNameIsNormal(marked, FormatName(fmt));
    assert marked + "." + FormatName(fmt) == stem + "-extended." + FormatName(fmt);
  }

  lemma ExtendedOutputPath(path: string, outDir: string, fmt: Format)
    ensures OutputPath(path, outDir, fmt, true).Some? <==> FileName(path).Some?
    ensures FileName(path).Some? ==>
      OutputPath(path, outDir, fmt, true) == Some(Join(outDir, OutputName(FileStem(path).value, fmt, true)))
  {
    if FileName(path).Some? {
      var stem := FileStem(path).value;
      StemAndExtension(FileName(path).value);
      MarkedNameIsNormal(stem, fmt);
      FileNameOfWithFileName(path, stem + "-extended." + FormatName(fmt));
    }
  }

  /** Replacing the extension, then keeping the file name under a
      directory, gives `<stem>.<ext>` under that directory. */
  lemma WithExtensionUnderDir(path: string, outDir: string, ext: string)
    requires ext != "" && '/' !in ext
    ensures UnderOutputDir(Some(WithExtension(path, ext)), outDir).Some? <==> FileName(path).Some?
    ensures FileName(path).Some? ==>
      UnderOutputDir(Some(WithExtension(path, ext)), outDir) == Some(Join(outDir, FileStem(path).value + "." + ext))
  {
    FileNameOfWithExtension(path, ext);
  }

  lemma RegularOutputPath(path: string, outDir: string, fmt: Format)
    ensures OutputPath(path, outDir, fmt, false).Some? <==> FileName(path).Some?
    ensures FileName(path).Some? ==>
      OutputPath(path, outDir, fmt, false) == Some(Join(outDir, OutputName(FileStem(path).value, fmt, false)))
  {
    var ext := FormatName(fmt);
    assert ext != "" && '/' !in ext;
    WithExtensionUnderDir(path, outDir, ext);
    if FileName(path).Some? {
      var stem := FileStem(path).value;
      assert OutputName(stem, fmt, false) == stem + "" + "." + ext;
      assert stem + "" == stem;
    }
  }

  /** The output of an input with a file name is the input's stem, marked
      `-extended` in extended mode, with the format as extension, directly
      under the output directory; an input without a file name panics. */
  lemma OutputPathShape(path: string, outDir: string, fmt: Format, extended: bool)
    ensures OutputPath(path, outDir, fmt, extended).Some? <==> FileName(path).Some?
    ensures FileName(path).Some? ==>
      OutputPath(path, outDir, fmt, extended) == Some(Join(outDir, OutputName(FileStem(path).value, fmt, extended)))
  {
    if extended {
      ExtendedOutputPath(path, outDir, fmt);
    } else {
      RegularOutputPath(path, outDir, fmt);
    }
  }

  /** The output name keeps only the input's file name: two inputs with the
      same file name in different directories write to the same output. */
  lemma OutputDependsOnlyOnFileName(p: string, q: string, outDir: string, fmt: Format, extended: bool)
    requires FileName(p) == FileName(q)
    ensures OutputPath(p, outDir, fmt, extended) == OutputPath(q, outDir, fmt, extended)
  {
    OutputPathShape(p, outDir, fmt, extended);
    OutputPathShape(q, outDir, fmt, extended);
  }

  /** What the engine gives back for one file: `read_file` failed, no
      language was guessed, no function spaces came out, or the root space. */
  datatype Analysis = Unreadable | UnknownLanguage | NoSpaces | Analysed(root: FuncSpace)

  /** The errors of the sub-command that the model reaches. */
  datatype CliError = FailedProcessing(path: string) | FailedGuessLang(path: string)

  /** How a run ends other than normally: an error returned to the caller,
      the `unwrap` panic on a path without a file name, or the process
      exiting because the input path is neither a file nor a directory. */
  datatype Failure = Error(err: CliError) | NoFileName(path: string) | NotFileOrDir

  /** The one output a file produces, if any: the engine's tree as JSON,
      or the rows of the chosen schema as CSV. */
  datatype Written =
    | NothingWritten
    | JsonTree(out: string, tree: FuncSpace)
    | CsvRows(out: string, schema: Schema, rows: seq<Row>)

  /** What processing one file amounts to, stated case by case. */
  function Outcome(cmd: SourceCommand, path: string, analysis: Analysis): Result<Written, Failure> {
    match analysis
    case Unreadable => Err(Error(FailedProcessing(path)))
    case UnknownLanguage => Err(Error(FailedGuessLang(path)))
    case NoSpaces => Ok(NothingWritten)
    case Analysed(root) =>
      if FileName(path).None? then Err(NoFileName(path))
      else
        var out := Join(cmd.outputPath, OutputName(FileStem(path).value, cmd.fmt, cmd.extended));
        if cmd.noFlatten then
          if cmd.fmt == Json then Ok(JsonTree(out, root)) else Ok(NothingWritten)
        else if root.spaces == [] then Ok(NothingWritten)
        else if cmd.fmt == Csv then
          Ok(CsvRows(out, SchemaOf(cmd.extended), RowsOf(SchemaOf(cmd.extended), Descendants(root), Some(path))))
        else Ok(JsonTree(out, root))
  }

  /** `extract_metrics`, step by step as the code takes them: the output
      path is derived before the flattening mode is looked at, the rows are
      built by the flattener of the chosen schema, and an empty row vector
      means nothing is written, even in JSON mode. */
  method ExtractMetrics(cmd: SourceCommand, path: string, analysis: Analysis) returns (r: Result<Written, Failure>)
    ensures r == Outcome(cmd, path, analysis)
  {
    if analysis.Unreadable? {
      return Err(Error(FailedProcessing(path)));
    }
    if analysis.UnknownLanguage? {
      return Err(Error(FailedGuessLang(path)));
    }
    if analysis.NoSpaces? {
      return Ok(NothingWritten);
    }
    var root := analysis.root;
    OutputPathShape(path, cmd.outputPath, cmd.fmt, cmd.extended);
    var out := OutputPath(path, cmd.outputPath, cmd.fmt, cmd.extended);
    if out.None? {
      return Err(NoFileName(path));
    }
    if cmd.noFlatten {
      if cmd.fmt == Json {
        return Ok(JsonTree(out.value, root));
      }
      return Ok(NothingWritten);
    }
    var schema := SchemaOf(cmd.extended);
    var rows := FlattenFile(schema, root, path);
    NoDescendantsIff(root);
    if |rows| == 0 {
      return Ok(NothingWritten);
    }
    if cmd.fmt == Csv {
      return Ok(CsvRows(out.value, schema, rows));
    }
    return Ok(JsonTree(out.value, root));
  }

  /** What `execute` does to a file: a file is kept only when it is analysed
      and yields at least one row; JSON output is the engine's raw tree even
      when flattening was asked for. */
  lemma OutcomeProperties(cmd: SourceCommand, path: string, root: FuncSpace)
    requires FileName(path).Some?
    ensures Outcome(cmd, path, Analysed(root)).Ok?
    ensures Outcome(cmd, path, Analysed(root)).value.CsvRows?
        <==> cmd.fmt == Csv && !cmd.noFlatten && root.spaces != []
    ensures Outcome(cmd, path, Analysed(root)).value.JsonTree?
        <==> cmd.fmt == Json && (cmd.noFlatten || root.spaces != [])
    ensures Outcome(cmd, path, Analysed(root)).value.JsonTree? ==>
        Outcome(cmd, path, Analysed(root)).value.tree == root
    ensures Outcome(cmd, path, Analysed(root)).value.CsvRows? ==>
      var w := Outcome(cmd, path, Analysed(root)).value;
      && |w.rows| == Size(root) - 1
      && forall i :: 0 <= i < |w.rows| ==> w.rows[i].sourceFile == Some(path)
  {
    DescendantsCount(root);
    RowsOfProperties(SchemaOf(cmd.extended), Descendants(root), path);
  }

  /** After promotion, an unflattened run writes the JSON tree of every
      analysed file. */
  lemma NoFlattenAlwaysJson(cmd: SourceCommand, path: string, root: FuncSpace)
    requires cmd.noFlatten && FileName(path).Some?
    ensures Outcome(Promote(cmd), path, Analysed(root)).Ok?
    ensures Outcome(Promote(cmd), path, Analysed(root)).value.JsonTree?
  {
  }

  /** One entry of the directory walk. */
  datatype Entry = Entry(path: string, isFile: bool)

  /** What the input path turned out to be; a directory comes with the
      entries its recursive walk yielded, in walk order. */
  datatype Target = IsFile | IsDir(entries: seq<Entry>) | Neither

  /** The walk keeps regular files with an accepted extension. */
  predicate Keeps(e: Entry) {
    e.isFile && HasValidExtension(e.path, ValidExtensions)
  }

  /** The paths of the entries satisfying `keep`, in walk order. */
  function FilterPaths(keep: Entry -> bool, entries: seq<Entry>): seq<string> {
    if entries == [] then []
    else
      var last := entries[|entries| - 1];
      FilterPaths(keep, entries[..|entries| - 1]) + (if keep(last) then [last.path] else [])
  }

  /** The paths of the entries the walk keeps, in walk order. */
  function Kept(entries: seq<Entry>): seq<string> {
    FilterPaths(Keeps, entries)
  }

  /** The files `execute` processes: the input path itself when it is a
      file, whatever its extension; the kept entries of the walk when it is
      a directory. */
  method CollectFiles(path: string, target: Target) returns (r: Result<seq<string>, Failure>)
    ensures target.IsFile? ==> r == Ok([path])
    ensures target.Neither? ==> r == Err(NotFileOrDir)
    ensures target.IsDir? ==> r.Ok? && r.value == Kept(target.entries)
  {
    match target
    case IsFile => r := Ok([path]);
    case Neither => r := Err(NotFileOrDir);
    case IsDir(entries) =>
      var files: seq<string> := [];
      var i := 0;
      while i < |entries|
        invariant 0 <= i <= |entries|
        invariant files == Kept(entries[..i])
      {
        var e := entries[i];
        if e.isFile && HasValidExtension(e.path, ValidExtensions) {
          assert Keeps(e);
          files := files + [e.path];
        }
        assert entries[..i + 1][..i] == entries[..i];
        i := i + 1;
      }
      assert entries[..i] == entries;
      r := Ok(files);
  }

  /** A path survives a filter exactly when some entry for it does. */
  lemma {:induction false} FilterPathsMembers(keep: Entry -> bool, entries: seq<Entry>, p: string)
    ensures p in FilterPaths(keep, entries) <==> exists i :: 0 <= i < |entries| && entries[i].path == p && keep(entries[i])
    decreases |entries|
  {
    if entries != [] {
      var n := |entries| - 1;
      var front := entries[..n];
      FilterPathsMembers(keep, front, p);
      if p in FilterPaths(keep, front) {
        var i :| 0 <= i < |front| && front[i].path == p && keep(front[i]);
        assert entries[i] == front[i];
      }
      if exists i :: 0 <= i < |entries| && entries[i].path == p && keep(entries[i]) {
        var i :| 0 <= i < |entries| && entries[i].path == p && keep(entries[i]);
        if i < n {
          assert front[i] == entries[i];
        }
      }
    }
  }

  /** A path is collected exactly when some walk entry for it is a
      regular file with an accepted extension. */
  lemma KeptMembers(entries: seq<Entry>, p: string)
    ensures p in Kept(entries) <==>
      exists i :: 0 <= i < |entries| && entries[i].path == p && entries[i].isFile && HasValidExtension(p, ValidExtensions)
  {
    FilterPathsMembers(Keeps, entries, p);
  }

  /** The files a run processes, or the exit when the input path is
      neither a file nor a directory. */
  function FilesOf(path: string, target: Target): Option<seq<string>> {
    match target
    case IsFile => Some([path])
    case IsDir(entries) => Some(Kept(entries))
    case Neither => None
  }

  /** The `try_for_each` over the files: every file is processed and the
      first failure ends the run. */
  method ProcessAll(cmd: SourceCommand, files: seq<string>, analyse: string -> Analysis)
    returns (r: Result<seq<Written>, Failure>)
    ensures r.Ok? <==> forall i :: 0 <= i < |files| ==> Outcome(cmd, files[i], analyse(files[i])).Ok?
    ensures r.Ok? ==> |r.value| == |files|
    ensures r.Ok? ==> forall i :: 0 <= i < |files| ==> Outcome(cmd, files[i], analyse(files[i])) == Ok(r.value[i])
    ensures r.Err? ==> exists i :: 0 <= i < |files| && Outcome(cmd, files[i], analyse(files[i])) == Err(r.error)
  {
    var written: seq<Written> := [];
    var i := 0;
    while i < |files|
      invariant 0 <= i <= |files|
      invariant |written| == i
      invariant forall j :: 0 <= j < i ==> Outcome(cmd, files[j], analyse(files[j])) == Ok(written[j])
    {
      var one := ExtractMetrics(cmd, files[i], analyse(files[i]));
      if one.Err? {
        return Err(one.error);
      }
      written := written + [one.value];
      i := i + 1;
    }
    return Ok(written);
  }

  /** `execute`: promote the format, collect the files, then process them
      all; the run succeeds when every file does, and otherwise fails with
      the failure of one of the files. The engine's answer for each file is
      given by `analyse`. */
  method Execute(cmd: SourceCommand, target: Target, analyse: string -> Analysis)
    returns (r: Result<seq<Written>, Failure>)
    ensures FilesOf(cmd.path, target).None? <==> r == Err(NotFileOrDir)
    ensures FilesOf(cmd.path, target).Some? ==>
      (r.Ok? <==> forall f :: f in FilesOf(cmd.path, target).value ==> Outcome(Promote(cmd), f, analyse(f)).Ok?)
    ensures r.Ok? ==> |r.value| == |FilesOf(cmd.path, target).value|
    ensures r.Ok? ==> forall i :: 0 <= i < |r.value| ==>
      Outcome(Promote(cmd), FilesOf(cmd.path, target).value[i], analyse(FilesOf(cmd.path, target).value[i])) == Ok(r.value[i])
    ensures r.Err? && r.error != NotFileOrDir ==>
      exists f :: f in FilesOf(cmd.path, target).value && Outcome(Promote(cmd), f, analyse(f)) == Err(r.error)
  {
    var collected := CollectFiles(cmd.path, target);
    if collected.Err? {
      return Err(collected.error);
    }
    var files := collected.value;
    r := ProcessAll(Promote(cmd), files, analyse);
    if r.Err? {
      var i :| 0 <= i < |files| && Outcome(Promote(cmd), files[i], analyse(files[i])) == Err(r.error);
      assert files[i] in files;
    }
  }
}
