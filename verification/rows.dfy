/** The two flat row schemas `FlattenedMetrics` and `FlattenedMetricsExtended`
    and their builders `from_space` (src/commands/source.rs). A row is its
    identity block followed by its metric columns, held in schema order. */
module Rows {
  import opened Wrappers
  import opened Float
  import opened Engine
  import Derive

  datatype Schema = Regular | Extended

  /** The identity block shared by both schemas, in declaration order. */
  const IdentityColumns: seq<string> :=
    ["name", "source_file", "start_line", "end_line", "kind", "parent_name"]

  // The metric columns, grouped by the engine family they come from.
  const NArgsColumns: seq<string> := ["fn_args", "closure_args"]
  const NArgsAggregateColumns: seq<string> := [
    "nargs_total_functions", "nargs_total_closures",
    "nargs_average_functions", "nargs_average_closures", "nargs_total", "nargs_average",
    "nargs_functions_min", "nargs_functions_max", "nargs_closures_min", "nargs_closures_max"]
  const ExitColumns: seq<string> := ["nexits"]
  const ExitAggregateColumns: seq<string> := ["nexits_sum", "nexits_average", "nexits_min", "nexits_max"]
  const CognitiveColumns: seq<string> := ["cognitive"]
  const CognitiveAggregateColumns: seq<string> :=
    ["cognitive_sum", "cognitive_average", "cognitive_min", "cognitive_max"]
  const CyclomaticColumns: seq<string> := ["cyclomatic"]
  const CyclomaticAggregateColumns: seq<string> :=
    ["cyclomatic_sum", "cyclomatic_average", "cyclomatic_min", "cyclomatic_max"]
  const HalsteadColumns: seq<string> := [
    "halstead_n1", "halstead_N1", "halstead_n2", "halstead_N2", "halstead_length",
    "halstead_estimated_program_length", "halstead_purity_ratio", "halstead_vocabulary",
    "halstead_volume", "halstead_difficulty", "halstead_level", "halstead_effort",
    "halstead_time", "halstead_bugs"]
  const LocColumns: seq<string> := ["loc_sloc", "loc_ploc", "loc_lloc", "loc_cloc", "loc_blank"]
  const NomColumns: seq<string> := ["nom_functions", "nom_closures", "nom_total"]
  const NomAggregateColumns: seq<string> :=
    ["nom_functions_min", "nom_functions_max", "nom_closures_min", "nom_closures_max"]
  const MiColumns: seq<string> := ["mi_original", "mi_sei", "mi_visual_studio"]

  /** The `f64` columns of `FlattenedMetrics`, in declaration order. */
  const RegularColumns: seq<string> :=
    NArgsColumns + ExitColumns + CognitiveColumns + CyclomaticColumns
    + HalsteadColumns + LocColumns + NomColumns + MiColumns

  /** The `f64` columns of `FlattenedMetricsExtended`, in declaration order. */
  const ExtendedColumns: seq<string> :=
    NArgsColumns + NArgsAggregateColumns
    + ExitColumns + ExitAggregateColumns
    + CognitiveColumns + CognitiveAggregateColumns
    + CyclomaticColumns + CyclomaticAggregateColumns
    + HalsteadColumns + LocColumns
    + NomColumns + NomAggregateColumns
    + MiColumns

  function MetricColumns(schema: Schema): seq<string> {
    match schema
    case Regular => RegularColumns
    case Extended => ExtendedColumns
  }

  /** The engine accessor behind each column of `FlattenedMetrics`, in column order. */
  function RegularValues(m: CodeMetrics): seq<F64> {
    [m.nargs.fnArgs, m.nargs.closureArgs]
    + [m.nexits.exit]
    + [m.cognitive.cognitive]
    + [m.cyclomatic.cyclomatic]
    + [ m.halstead.uOperators, m.halstead.operators, m.halstead.uOperands, m.halstead.operands,
        m.halstead.length, m.halstead.estimatedProgramLength, m.halstead.purityRatio,
        m.halstead.vocabulary, m.halstead.volume, m.halstead.difficulty, m.halstead.level,
        m.halstead.effort, m.halstead.time, m.halstead.bugs ]
    + [m.loc.sloc, m.loc.ploc, m.loc.lloc, m.loc.cloc, m.loc.blank]
    + [m.nom.functions, m.nom.closures, m.nom.total]
    + [m.mi.miOriginal, m.mi.miSei, m.mi.miVisualStudio]
  }

  /** The engine accessor behind each column of `FlattenedMetricsExtended`, in column order. */
  function ExtendedValues(m: CodeMetrics): seq<F64> {
    [m.nargs.fnArgs, m.nargs.closureArgs]
    + [ m.nargs.fnArgsSum, m.nargs.closureArgsSum,
        m.nargs.fnArgsAverage, m.nargs.closureArgsAverage, m.nargs.nargsTotal, m.nargs.nargsAverage,
        m.nargs.fnArgsMin, m.nargs.fnArgsMax, m.nargs.closureArgsMin, m.nargs.closureArgsMax ]
    + [m.nexits.exit]
    + [m.nexits.exitSum, m.nexits.exitAverage, m.nexits.exitMin, m.nexits.exitMax]
    + [m.cognitive.cognitive]
    + [ m.cognitive.cognitiveSum, m.cognitive.cognitiveAverage,
        m.cognitive.cognitiveMin, m.cognitive.cognitiveMax ]
    + [m.cyclomatic.cyclomatic]
    + [ m.cyclomatic.cyclomaticSum, m.cyclomatic.cyclomaticAverage,
        m.cyclomatic.cyclomaticMin, m.cyclomatic.cyclomaticMax ]
    + [ m.halstead.uOperators, m.halstead.operators, m.halstead.uOperands, m.halstead.operands,
        m.halstead.length, m.halstead.estimatedProgramLength, m.halstead.purityRatio,
        m.halstead.vocabulary, m.halstead.volume, m.halstead.difficulty, m.halstead.level,
        m.halstead.effort, m.halstead.time, m.halstead.bugs ]
    + [m.loc.sloc, m.loc.ploc, m.loc.lloc, m.loc.cloc, m.loc.blank]
    + [m.nom.functions, m.nom.closures, m.nom.total]
    + [m.nom.functionsMin, m.nom.functionsMax, m.nom.closuresMin, m.nom.closuresMax]
    + [m.mi.miOriginal, m.mi.miSei, m.mi.miVisualStudio]
  }

  /** One row of either schema: the identity block, then `values[i]` for
      column `MetricColumns(schema)[i]`. */
  datatype Row = Row(
    name: Option<string>,
    sourceFile: Option<string>,
    startLine: nat,
    endLine: nat,
    kind: string,
    parentName: Option<string>,
    values: seq<F64>)

  /** The row's identity block is the space's, with the caller's parent name and file. */
  ghost predicate CopiesIdentity(r: Row, space: FuncSpace, parentName: Option<string>, sourceFile: Option<string>) {
    && r.name == space.name
    && r.sourceFile == sourceFile
    && r.startLine == space.startLine
    && r.endLine == space.endLine
    && r.kind == space.kind
    && r.parentName == parentName
  }

  /** The row's `values` are the schema's accessors, each sanitized. */
  ghost predicate SanitizedMetrics(r: Row, accessors: seq<F64>) {
    && |r.values| == |accessors|
    && forall i :: 0 <= i < |accessors| ==> r.values[i] == ReplaceInfNan(accessors[i])
  }

  /** The struct literal of `from_space`, before `replace_inf_nan` runs. */
  function Unsanitized(space: FuncSpace, parentName: Option<string>, sourceFile: Option<string>, values: seq<F64>): Row {
    Row(space.name, sourceFile, space.startLine, space.endLine, space.kind, parentName, values)
  }

  /** The derived `replace_inf_nan` of either row struct: every `f64` column
      is sanitized, the identity block is not touched. */
  function SanitizeRow(row: Row): (r: Row)
    ensures r.(values := row.values) == row
    ensures AllFinite(r.values)
    ensures |r.values| == |row.values|
    ensures forall i :: 0 <= i < |row.values| && row.values[i].Finite? ==> r.values[i] == row.values[i]
    ensures forall i :: 0 <= i < |row.values| && !row.values[i].Finite? ==> r.values[i] == Zero
  {
    row.(values := ReplaceAll(row.values))
  }

  /** `FlattenedMetrics::from_space` */
  function FromSpace(space: FuncSpace, parentName: Option<string>, sourceFile: Option<string>): (r: Row)
    ensures CopiesIdentity(r, space, parentName, sourceFile)
    ensures |r.values| == |RegularColumns|
    ensures AllFinite(r.values)
    ensures SanitizedMetrics(r, RegularValues(space.metrics))
  {
    SanitizeRow(Unsanitized(space, parentName, sourceFile, RegularValues(space.metrics)))
  }

  /** `FlattenedMetricsExtended::from_space` */
  function FromSpaceExtended(space: FuncSpace, parentName: Option<string>, sourceFile: Option<string>): (r: Row)
    ensures CopiesIdentity(r, space, parentName, sourceFile)
    ensures |r.values| == |ExtendedColumns|
    ensures AllFinite(r.values)
    ensures SanitizedMetrics(r, ExtendedValues(space.metrics))
  {
    SanitizeRow(Unsanitized(space, parentName, sourceFile, ExtendedValues(space.metrics)))
  }

  /** For each column of `FlattenedMetrics`, its position among the columns
      of `FlattenedMetricsExtended`. */
  const SharedPosition: seq<nat> := [
    0, 1, 12, 17, 22,
    27, 28, 29, 30, 31, 32, 33, 34, 35, 36, 37, 38, 39, 40,
    41, 42, 43, 44, 45,
    46, 47, 48,
    53, 54, 55]

  // The shared-column correspondence is proved in six lemmas of five
  // columns each: every step indexes the 30- and 56-element column and value
  // displays at literal positions, and one lemma over all thirty columns
  // asks the solver for more than the resource limit allows.

  /** Columns 0 to 4 of `FlattenedMetrics` reappear, under the same
      names and with the same accessors, in `FlattenedMetricsExtended`. */
  lemma SharedColumnsPart0(m: CodeMetrics)
    ensures forall k :: 0 <= k < 5 ==>
      && SharedPosition[k] < |ExtendedColumns|
      && ExtendedColumns[SharedPosition[k]] == RegularColumns[k]
      && ExtendedValues(m)[SharedPosition[k]] == RegularValues(m)[k]
  {
    var e := ExtendedValues(m);
    var r := RegularValues(m);
    forall k | 0 <= k < 5
      ensures && SharedPosition[k] < |ExtendedColumns|
              && ExtendedColumns[SharedPosition[k]] == RegularColumns[k]
              && e[SharedPosition[k]] == r[k]
    {
      // one case per column, so that each display is indexed by a literal
      if k == 0 {
        assert SharedPosition[0] == 0; assert ExtendedColumns[0] == RegularColumns[0]; assert e[0] == r[0];
      }
      else if k == 1 {
        assert SharedPosition[1] == 1; assert ExtendedColumns[1] == RegularColumns[1]; assert e[1] == r[1];
      }
      else if k == 2 {
        assert SharedPosition[2] == 12; assert ExtendedColumns[12] == RegularColumns[2]; assert e[12] == r[2];
      }
      else if k == 3 {
        assert SharedPosition[3] == 17; assert ExtendedColumns[17] == RegularColumns[3]; assert e[17] == r[3];
      }
      else {
        assert k == 4;
        assert SharedPosition[4] == 22; assert ExtendedColumns[22] == RegularColumns[4]; assert e[22] == r[4];
      }
    }
  }

  /** Columns 5 to 9 of `FlattenedMetrics` reappear, under the same
      names and with the same accessors, in `FlattenedMetricsExtended`. */
  lemma SharedColumnsPart1(m: CodeMetrics)
    ensures forall k :: 5 <= k < 10 ==>
      && SharedPosition[k] < |ExtendedColumns|
      && ExtendedColumns[SharedPosition[k]] == RegularColumns[k]
      && ExtendedValues(m)[SharedPosition[k]] == RegularValues(m)[k]
  {
    var e := ExtendedValues(m);
    var r := RegularValues(m);
    forall k | 5 <= k < 10
      ensures && SharedPosition[k] < |ExtendedColumns|
              && ExtendedColumns[SharedPosition[k]] == RegularColumns[k]
              && e[SharedPosition[k]] == r[k]
    {
      // one case per column, so that each display is indexed by a literal
      if k == 5 {
        assert SharedPosition[5] == 27; assert ExtendedColumns[27] == RegularColumns[5]; assert e[27] == r[5];
      }
      else if k == 6 {
        assert SharedPosition[6] == 28; assert ExtendedColumns[28] == RegularColumns[6]; assert e[28] == r[6];
      }
      else if k == 7 {
        assert SharedPosition[7] == 29; assert ExtendedColumns[29] == RegularColumns[7]; assert e[29] == r[7];
      }
      else if k == 8 {
        assert SharedPosition[8] == 30; assert ExtendedColumns[30] == RegularColumns[8]; assert e[30] == r[8];
      }
      else {
        assert k == 9;
        assert SharedPosition[9] == 31; assert ExtendedColumns[31] == RegularColumns[9]; assert e[31] == r[9];
      }
    }
  }

  /** Columns 10 to 14 of `FlattenedMetrics` reappear, under the same
      names and with the same accessors, in `FlattenedMetricsExtended`. */
  lemma SharedColumnsPart2(m: CodeMetrics)
    ensures forall k :: 10 <= k < 15 ==>
      && SharedPosition[k] < |ExtendedColumns|
      && ExtendedColumns[SharedPosition[k]] == RegularColumns[k]
      && ExtendedValues(m)[SharedPosition[k]] == RegularValues(m)[k]
  {
    var e := ExtendedValues(m);
    var r := RegularValues(m);
    forall k | 10 <= k < 15
      ensures && SharedPosition[k] < |ExtendedColumns|
              && ExtendedColumns[SharedPosition[k]] == RegularColumns[k]
              && e[SharedPosition[k]] == r[k]
    {
      // one case per column, so that each display is indexed by a literal
      if k == 10 {
        assert SharedPosition[10] == 32; assert ExtendedColumns[32] == RegularColumns[10]; assert e[32] == r[10];
      }
      else if k == 11 {
        assert SharedPosition[11] == 33; assert ExtendedColumns[33] == RegularColumns[11]; assert e[33] == r[11];
      }
      else if k == 12 {
        assert SharedPosition[12] == 34; assert ExtendedColumns[34] == RegularColumns[12]; assert e[34] == r[12];
      }
      else if k == 13 {
        assert SharedPosition[13] == 35; assert ExtendedColumns[35] == RegularColumns[13]; assert e[35] == r[13];
      }
      else {
        assert k == 14;
        assert SharedPosition[14] == 36; assert ExtendedColumns[36] == RegularColumns[14]; assert e[36] == r[14];
      }
    }
  }

  /** Columns 15 to 19 of `FlattenedMetrics` reappear, under the same
      names and with the same accessors, in `FlattenedMetricsExtended`. */
  lemma SharedColumnsPart3(m: CodeMetrics)
    ensures forall k :: 15 <= k < 20 ==>
      && SharedPosition[k] < |ExtendedColumns|
      && ExtendedColumns[SharedPosition[k]] == RegularColumns[k]
      && ExtendedValues(m)[SharedPosition[k]] == RegularValues(m)[k]
  {
    var e := ExtendedValues(m);
    var r := RegularValues(m);
    forall k | 15 <= k < 20
      ensures && SharedPosition[k] < |ExtendedColumns|
              && ExtendedColumns[SharedPosition[k]] == RegularColumns[k]
              && e[SharedPosition[k]] == r[k]
    {
      // one case per column, so that each display is indexed by a literal
      if k == 15 {
        assert SharedPosition[15] == 37; assert ExtendedColumns[37] == RegularColumns[15]; assert e[37] == r[15];
      }
      else if k == 16 {
        assert SharedPosition[16] == 38; assert ExtendedColumns[38] == RegularColumns[16]; assert e[38] == r[16];
      }
      else if k == 17 {
        assert SharedPosition[17] == 39; assert ExtendedColumns[39] == RegularColumns[17]; assert e[39] == r[17];
      }
      else if k == 18 {
        assert SharedPosition[18] == 40; assert ExtendedColumns[40] == RegularColumns[18]; assert e[40] == r[18];
      }
      else {
        assert k == 19;
        assert SharedPosition[19] == 41; assert ExtendedColumns[41] == RegularColumns[19]; assert e[41] == r[19];
      }
    }
  }

  /** Columns 20 to 24 of `FlattenedMetrics` reappear, under the same
      names and with the same accessors, in `FlattenedMetricsExtended`. */
  lemma SharedColumnsPart4(m: CodeMetrics)
    ensures forall k :: 20 <= k < 25 ==>
      && SharedPosition[k] < |ExtendedColumns|
      && ExtendedColumns[SharedPosition[k]] == RegularColumns[k]
      && ExtendedValues(m)[SharedPosition[k]] == RegularValues(m)[k]
  {
    var e := ExtendedValues(m);
    var r := RegularValues(m);
    forall k | 20 <= k < 25
      ensures && SharedPosition[k] < |ExtendedColumns|
              && ExtendedColumns[SharedPosition[k]] == RegularColumns[k]
              && e[SharedPosition[k]] == r[k]
    {
      // one case per column, so that each display is indexed by a literal
      if k == 20 {
        assert SharedPosition[20] == 42; assert ExtendedColumns[42] == RegularColumns[20]; assert e[42] == r[20];
      }
      else if k == 21 {
        assert SharedPosition[21] == 43; assert ExtendedColumns[43] == RegularColumns[21]; assert e[43] == r[21];
      }
      else if k == 22 {
        assert SharedPosition[22] == 44; assert ExtendedColumns[44] == RegularColumns[22]; assert e[44] == r[22];
      }
      else if k == 23 {
        assert SharedPosition[23] == 45; assert ExtendedColumns[45] == RegularColumns[23]; assert e[45] == r[23];
      }
      else {
        assert k == 24;
        assert SharedPosition[24] == 46; assert ExtendedColumns[46] == RegularColumns[24]; assert e[46] == r[24];
      }
    }
  }

  /** Columns 25 to 29 of `FlattenedMetrics` reappear, under the same
      names and with the same accessors, in `FlattenedMetricsExtended`. */
  lemma SharedColumnsPart5(m: CodeMetrics)
    ensures forall k :: 25 <= k < 30 ==>
      && SharedPosition[k] < |ExtendedColumns|
      && ExtendedColumns[SharedPosition[k]] == RegularColumns[k]
      && ExtendedValues(m)[SharedPosition[k]] == RegularValues(m)[k]
  {
    var e := ExtendedValues(m);
    var r := RegularValues(m);
    forall k | 25 <= k < 30
      ensures && SharedPosition[k] < |ExtendedColumns|
              && ExtendedColumns[SharedPosition[k]] == RegularColumns[k]
              && e[SharedPosition[k]] == r[k]
    {
      // one case per column, so that each display is indexed by a literal
      if k == 25 {
        assert SharedPosition[25] == 47; assert ExtendedColumns[47] == RegularColumns[25]; assert e[47] == r[25];
      }
      else if k == 26 {
        assert SharedPosition[26] == 48; assert ExtendedColumns[48] == RegularColumns[26]; assert e[48] == r[26];
      }
      else if k == 27 {
        assert SharedPosition[27] == 53; assert ExtendedColumns[53] == RegularColumns[27]; assert e[53] == r[27];
      }
      else if k == 28 {
        assert SharedPosition[28] == 54; assert ExtendedColumns[54] == RegularColumns[28]; assert e[54] == r[28];
      }
      else {
        assert k == 29;
        assert SharedPosition[29] == 55; assert ExtendedColumns[55] == RegularColumns[29]; assert e[55] == r[29];
      }
    }
  }

  /** Every regular column also appears in the extended schema, and both
      builders fill it from the same engine accessor. */
  lemma SharedColumnsAgree(m: CodeMetrics)
    ensures |SharedPosition| == |RegularColumns|
    ensures forall k :: 0 <= k < |RegularColumns| ==>
      && SharedPosition[k] < |ExtendedColumns|
      && ExtendedColumns[SharedPosition[k]] == RegularColumns[k]
      && ExtendedValues(m)[SharedPosition[k]] == RegularValues(m)[k]
  {
    SharedColumnsPart0(m);
    SharedColumnsPart1(m);
    SharedColumnsPart2(m);
    SharedColumnsPart3(m);
    SharedColumnsPart4(m);
    SharedColumnsPart5(m);
  }

  /** Hence the two rows built from one space agree on identity and on every
      shared column. */
  lemma FromSpaceVariantsAgree(space: FuncSpace, parentName: Option<string>, sourceFile: Option<string>)
    ensures var r := FromSpace(space, parentName, sourceFile);
      var e := FromSpaceExtended(space, parentName, sourceFile);
      && r.(values := e.values) == e
      && forall k :: 0 <= k < |RegularColumns| ==>
        SharedPosition[k] < |e.values| && e.values[SharedPosition[k]] == r.values[k]
  {
    SharedColumnsAgree(space.metrics);
  }

  // ---- The row structs as the derive macro sees them ----

  /** `Option<String>` */
  const OptionString: Derive.Type :=
    Derive.PathType([Derive.PathSegment("Option", [Derive.Simple("String")])])

  /** The identity fields of both row structs with their declared types. */
  const IdentityFields: seq<Derive.Field> := [
    Derive.Field("name", OptionString),
    Derive.Field("source_file", OptionString),
    Derive.Field("start_line", Derive.Simple("usize")),
    Derive.Field("end_line", Derive.Simple("usize")),
    Derive.Field("kind", Derive.Simple("String")),
    Derive.Field("parent_name", OptionString)]

  /** Metric columns declared as `pub <column>: f64`. */
  function F64Fields(columns: seq<string>): (r: seq<Derive.Field>)
    ensures |r| == |columns|
    ensures forall i :: 0 <= i < |columns| ==> r[i].ident == columns[i] && Derive.IsF64Type(r[i].ty)
  {
    Derive.SimpleF64IsF64();
    seq(|columns|, i requires 0 <= i < |columns| => Derive.Field(columns[i], Derive.Simple("f64")))
  }

  /** The named fields of the row struct of a schema, in declaration order. */
  function StructFields(schema: Schema): seq<Derive.Field> {
    IdentityFields + F64Fields(MetricColumns(schema))
  }

  function StructName(schema: Schema): string {
    match schema
    case Regular => "FlattenedMetrics"
    case Extended => "FlattenedMetricsExtended"
  }

  /** The identity block as struct field values. */
  function IdentityValues(row: Row): seq<Derive.Value> {
    [ Derive.OptionStringValue(row.name),
      Derive.OptionStringValue(row.sourceFile),
      Derive.UsizeValue(row.startLine),
      Derive.UsizeValue(row.endLine),
      Derive.StringValue(row.kind),
      Derive.OptionStringValue(row.parentName) ]
  }

  /** Metric values as struct field values. */
  function F64Values(xs: seq<F64>): (r: seq<Derive.Value>)
    ensures |r| == |xs|
    ensures forall i :: 0 <= i < |xs| ==> r[i] == Derive.F64Value(xs[i])
  {
    seq(|xs|, i requires 0 <= i < |xs| => Derive.F64Value(xs[i]))
  }

  /** A row as the struct value the derived routine works on. */
  function Encode(row: Row): seq<Derive.Value> {
    IdentityValues(row) + F64Values(row.values)
  }

  /** None of the identity fields is an `f64`. */
  lemma IdentityFieldsNotF64()
    ensures forall j :: 0 <= j < |IdentityFields| ==> !Derive.IsF64Type(IdentityFields[j].ty)
  {
    forall j | 0 <= j < |IdentityFields|
      ensures !Derive.IsF64Type(IdentityFields[j].ty)
    {
      if j == 0 { } else if j == 1 { } else if j == 2 { }
      else if j == 3 { } else if j == 4 { } else { assert j == 5; }
    }
  }

  /** The derive selects no identity field and every metric field, in order. */
  lemma SelectedRowFields(columns: seq<string>)
    ensures Derive.SelectedIndices(IdentityFields + F64Fields(columns))
         == seq(|columns|, k requires 0 <= k < |columns| => |IdentityFields| + k)
  {
    IdentityFieldsNotF64();
    Derive.NothingSelectedWithoutF64(IdentityFields);
    Derive.SelectedIndicesOfF64Suffix(IdentityFields, F64Fields(columns));
  }

  /** Deriving on identity fields followed by f64 fields generates one call
      per f64 field, in declaration order. */
  lemma DeriveSelectsColumns(name: string, cols: seq<string>)
    ensures Derive.ImplReplaceInfNan(Derive.DeriveInput(name, Derive.Struct(Derive.Named(IdentityFields + F64Fields(cols)))))
      == Ok(cols)
  {
    var fs := IdentityFields + F64Fields(cols);
    SelectedRowFields(cols);
    var idx := Derive.SelectedIndices(fs);
    var calls := seq(|idx|, k requires 0 <= k < |idx| => fs[idx[k]].ident);
    assert calls == cols by {
      forall k | 0 <= k < |cols|
        ensures calls[k] == cols[k]
      {
        assert idx[k] == |IdentityFields| + k;
        assert fs[|IdentityFields| + k] == F64Fields(cols)[k];
      }
    }
  }

  /** Deriving `ReplaceInfNan` on either row struct succeeds and generates one
      `replace_inf_nan` call per metric column, in column order. */
  lemma DeriveSelectsMetricColumns(schema: Schema)
    ensures Derive.ImplReplaceInfNan(
      Derive.DeriveInput(StructName(schema), Derive.Struct(Derive.Named(StructFields(schema)))))
      == Ok(MetricColumns(schema))
  {
    DeriveSelectsColumns(StructName(schema), MetricColumns(schema));
  }

  /** The routine the macro derives for a row struct is `SanitizeRow`. */
  lemma DerivedSanitizerIsSanitizeRow(schema: Schema, raw: Row)
    requires |raw.values| == |MetricColumns(schema)|
    ensures Derive.DerivedReplaceInfNan(StructFields(schema), Encode(raw)) == Encode(SanitizeRow(raw))
  {
    var metric := F64Fields(MetricColumns(schema));
    var bv := F64Values(raw.values);
    IdentityFieldsNotF64();
    Derive.DerivedOnSplitStruct(IdentityFields, metric, IdentityValues(raw), bv);
    assert IdentityValues(SanitizeRow(raw)) == IdentityValues(raw);
    assert seq(|bv|, i requires 0 <= i < |bv| => Derive.SanitizeValue(bv[i]))
        == F64Values(SanitizeRow(raw).values);
  }
}
