# archaeo `source` command — a Dafny model

archaeo's `source` sub-command takes C/C++ source files and runs a metrics engine on each. It turns the engine's tree of nested function spaces into flat rows of per-function metrics, and writes one CSV or JSON file per input. This project models the part of `src/commands/source.rs` and `archaeo_macros/src/lib.rs` that decides what gets written. It proves properties of that model.

- **Sanitizer** (`float.dfy`). `impl ReplaceInfNan for f64` zeroes an infinite or NaN value. A double is an `F64`: a finite real, +∞, −∞ or NaN.
- **Derive macro** (`derive.dfy`). `#[derive(ReplaceInfNan)]` is modelled on a small syn-like syntax tree. The model covers:
  - `is_f64_type`;
  - which fields `impl_replace_inf_nan` generates calls for, and in what order;
  - its two panics;
  - what the generated body does to a struct value.
- **Engine tree** (`engine.dfy`). `FuncSpace` is a name, lines, a kind, eight metric families and nested spaces. `PreOrder` is the reference traversal.
- **Rows** (`rows.dfy`). There are two schemas:
  - `FlattenedMetrics`: 30 metric columns;
  - `FlattenedMetricsExtended`: 56 metric columns.
  
  A row is the identity block followed by its `f64` values in declaration order. The file also models both `from_space` builders and the derive macro applied to both row structs.
- **Flatteners** (`flatten.dfy`). `flatten_spaces` and `flatten_spaces_extended` are modelled with the same loop-and-recursion structure as the Rust. The vector is passed in and returned as a value, not pushed into through a shared `&mut Vec`. Both are proved against the pre-order reference.
- **Paths** (`paths.dfy`). This file models the part of `std::path` the command relies on, on `/`-separated strings:
  - `file_name`;
  - `file_stem` and `extension`, following Rust's split-at-the-last-dot rule, which treats hidden files and `..` specially;
  - `with_file_name`, `with_extension` and `push`/`join`;
  - `eq_ignore_ascii_case` and `has_valid_extension`.
- **Driver** (`source.dfy`). The driver models these steps:
  - the CSV→JSON promotion;
  - the file collection of `execute`;
  - the output-path derivation;
  - the per-file decision of `extract_metrics`;
  - the run as a whole, which succeeds iff every file does.
  
  The engine's answer for a file and the directory walk are inputs. A file's effect is the `Written` value describing the one file it creates.

## Model

| member | source | states |
|---|---|---|
| Float.ReplaceInfNan | src/commands/source.rs:223-228 | The result is always finite. A finite value is kept, and an infinite or NaN value becomes 0.0. |
| Float.ReplaceInfNanChangesOnlyNonFinite | src/commands/source.rs:225-227 | The sanitizer changes a value if and only if the value is infinite or NaN. |
| Float.ReplaceInfNanIdempotent | src/commands/source.rs:223-228 | Sanitizing an already sanitized value changes nothing. |
| Float.ReplaceAll | src/commands/source.rs:223-228 | Applying the sanitizer to each value keeps the length and makes every value finite. Finite values are kept and the others become 0.0. |
| Float.ReplaceAllKeepsFinite | src/commands/source.rs:223-228 | A sequence whose values are all finite is left unchanged. |
| Derive.IsF64TypeDecidedByLastSegment | archaeo_macros/src/lib.rs:11-18 | A path type is classed as `f64` exactly when its last segment is `f64`, whatever the earlier segments and generic arguments. So `Option<f64>` and `Vec<f64>` are not `f64`. |
| Derive.IsF64Type | archaeo_macros/src/lib.rs:11-18 | A predicate, no contract of its own: true for a path type whose last segment is `f64`. `IsF64TypeDecidedByLastSegment`, `IsF64TypeOnlyPaths` and `SimpleF64IsF64` characterise it. |
| Derive.IsF64TypeOnlyPaths | archaeo_macros/src/lib.rs:12-17 | A non-path type or an empty path is never classed as `f64`. |
| Derive.SimpleF64IsF64 | archaeo_macros/src/lib.rs:11-15 | The plain type `f64` is classed as `f64`. |
| Derive.SelectedIndices | archaeo_macros/src/lib.rs:28-37 | A definition, no contract of its own: the positions of the fields whose type `IsF64Type` accepts, in declaration order, as the `filter_map` over the named fields keeps them. `SelectedIndicesExactlyF64` characterises it. |
| Derive.SelectedIndicesExactlyF64 | archaeo_macros/src/lib.rs:27-37 | The fields the generated body touches are exactly the `f64` fields, each once, in declaration order. |
| Derive.NothingSelectedWithoutF64 | archaeo_macros/src/lib.rs:28-36 | A struct without `f64` fields gets an empty generated body. |
| Derive.SelectedIndicesAppend | archaeo_macros/src/lib.rs:28-36 | Declaring one more field adds a call for it if and only if it is an `f64`. |
| Derive.SelectedIndicesOfF64Suffix | archaeo_macros/src/lib.rs:28-36 | If the leading fields are not selected and the trailing fields are all `f64`, exactly the positions of the trailing fields are selected. |
| Derive.ImplReplaceInfNan | archaeo_macros/src/lib.rs:20-48 | Deriving fails with "only structs" exactly for enums and unions, and with "named fields only" exactly for tuple and unit structs. Otherwise the k-th generated call names the field at the k-th selected position, so the calls follow declaration order and their positions are the ones the derived routine sanitizes. A field name is called if and only if some `f64` field has that name. |
| Derive.SanitizeValue | archaeo_macros/src/lib.rs:41-46 | A definition, no contract of its own: `replace_inf_nan` on one field value, which only an `f64` field has. `RunCalls` and `DerivedReplaceInfNan` state its effect on a struct. |
| Derive.RunCalls | archaeo_macros/src/lib.rs:41-46 | After the generated statements run in sequence, a field is sanitized if a statement names it and unchanged otherwise. |
| Derive.DerivedReplaceInfNan | archaeo_macros/src/lib.rs:20-48 | The derived routine sanitizes every `f64` field and leaves every other field untouched. |
| Derive.DerivedOnSplitStruct | archaeo_macros/src/lib.rs:28-44 | In a struct with non-`f64` fields followed by `f64` fields, the leading values are kept and the trailing ones are sanitized. |
| Derive.DerivedReplaceInfNanIdempotent | archaeo_macros/src/lib.rs:41-46 | Running the derived routine twice is the same as running it once. |
| Derive.DerivedReplaceInfNanMakesFinite | archaeo_macros/src/lib.rs:28-44 | After the routine, every `f64` field of a well-typed struct value is finite. |
| Engine.Size | src/commands/source.rs:557-565 | A definition, no contract of its own: the number of spaces in a tree, its root included. `PreOrderLength` and `DescendantsCount` relate it to the flattening. |
| Engine.ForestSize | src/commands/source.rs:557-565 | A definition, no contract of its own: the number of spaces in a forest. `PreOrderLength` and `ForestSizeFront` characterise it. |
| Engine.Descendants | src/commands/source.rs:150-156 | A definition, no contract of its own: the pre-order of the root's nested spaces, the spaces the flattener is called on. `DescendantsCount` and `NoDescendantsIff` characterise it. |
| Engine.PreOrderAppend | src/commands/source.rs:552-567 | The pre-order of two forests in sequence is the concatenation of their pre-orders. |
| Engine.PreOrder | src/commands/source.rs:557-565 | A reference definition, no contract of its own: a space, then the pre-order of its nested spaces, then that of its later siblings. The flatteners are proved to emit rows in this order (`Flatten.FlattenSpaces`). `PreOrderLength`, `PreOrderSubtreesContiguous` and `PreOrderSiblingPosition` characterise it. |
| Engine.PreOrderSingle | src/commands/source.rs:557-565 | A one-tree forest is visited as its root followed by the pre-order of the root's nested spaces. |
| Engine.ForestSizeFront | src/commands/source.rs:557-565 | Counting a forest's spaces from the front gives the same number as counting from the back. |
| Engine.PreOrderLength | src/commands/source.rs:552-567 | The pre-order lists as many spaces as the forest holds. |
| Engine.DescendantsCount | src/commands/source.rs:150-156 | The spaces flattened for a file are the root's descendants: one fewer than the size of its tree. |
| Engine.PreOrderSubtreesContiguous | src/commands/source.rs:557-565 | In the pre-order, each space is followed directly by the complete pre-order of its nested spaces. |
| Engine.SubtreeAt | src/commands/source.rs:557-565 | The same fact, with the pre-order passed in by name. |
| Engine.SubtreeInFirst | src/commands/source.rs:557-565 | The case where the position falls inside the first tree of the forest. |
| Engine.SubtreeInRest | src/commands/source.rs:557-565 | The case where the position falls inside a later tree of the forest. |
| Engine.SubtreeAtHead | src/commands/source.rs:557-565 | The case where the position is the root of the first tree. |
| Engine.PreOrderSiblingPosition | src/commands/source.rs:557-565 | The k-th top-level space appears right after the complete subtrees of the spaces before it. |
| Engine.NoDescendantsIff | src/commands/source.rs:144-161 | A root has descendants exactly when it has nested spaces. |
| Rows.Unsanitized | src/commands/source.rs:490-496 | A definition, no contract of its own: the struct literal of `from_space` before `replace_inf_nan` runs, with the identity fields copied from the space. `FromSpace` and `FromSpaceExtended` state the result after sanitizing. |
| Rows.SanitizeRow | src/commands/source.rs:460-461 | `obj.replace_inf_nan()` on a row leaves the identity block alone and keeps the number of columns. Every value becomes finite: finite values are kept and the others become 0.0. |
| Rows.RegularValues | src/commands/source.rs:499-542 | A definition, no contract of its own: the engine accessor behind each of the 30 columns of `FlattenedMetrics`, in column order. `FromSpace` states that the row's values are these accessors sanitized, and `SharedColumnsAgree` relates them to the extended ones. |
| Rows.ExtendedValues | src/commands/source.rs:388-457 | A definition, no contract of its own: the engine accessor behind each of the 56 columns of `FlattenedMetricsExtended`, in column order. `FromSpaceExtended` states that the row's values are these accessors sanitized, and `SharedColumnsAgree` relates them to the regular ones. |
| Rows.FromSpace | src/commands/source.rs:485-549 | The regular row copies the space's name, lines and kind, with the given parent name and file. It has 30 metric values, each the matching engine accessor sanitized, and all finite. |
| Rows.FromSpaceExtended | src/commands/source.rs:374-464 | The same holds for the extended row, with 56 metric values. |
| Rows.SharedColumnsAgree | src/commands/source.rs:234-371 | Every regular column appears in the extended schema under the same name and with the same accessor. |
| Rows.FromSpaceVariantsAgree | src/commands/source.rs:374-549 | The two builders applied to one space agree on the identity block and on every shared column. |
| Rows.F64Fields | src/commands/source.rs:242-286 | The metric fields are declared as `f64`, one per column and in column order. |
| Rows.IdentityFieldsNotF64 | src/commands/source.rs:235-240 | None of the identity fields is classed as `f64`: these are `Option<String>`, `usize` and `String`. |
| Rows.SelectedRowFields | src/commands/source.rs:233-287 | The derive on a row struct selects exactly the metric columns, the positions after the six identity fields. |
| Rows.DeriveSelectsColumns | archaeo_macros/src/lib.rs:20-48 | Deriving on identity fields followed by `f64` columns succeeds, with one call per column in column order. |
| Rows.DeriveSelectsMetricColumns | src/commands/source.rs:233-234 | `#[derive(ReplaceInfNan)]` on either row struct yields exactly one call per metric column of its schema. |
| Rows.DerivedSanitizerIsSanitizeRow | src/commands/source.rs:233-234 | The routine the macro derives for a row struct does what `SanitizeRow` does. |
| Flatten.Build | src/commands/source.rs:135-156 | A definition, no contract of its own: the `from_space` of the schema's row type. `RowsOfProperties` and `VariantsAgree` characterise the rows it builds. |
| Flatten.ParentHint | src/commands/source.rs:475 | A definition, no contract of its own: `parent_name` is the space's own name or `"no_name_found"`. `RowsOfProperties` states it for every emitted row. |
| Flatten.RowsOf | src/commands/source.rs:472-481 | A definition, no contract of its own: the rows the flatteners build for the visited spaces, one each, in order. `FlattenSpaces` proves the loop emits `RowsOf` of the pre-order, and `RowsOfProperties` states what each row holds. |
| Flatten.MapAppend | src/commands/source.rs:557-565 | Generic helper for the loop proof: mapping a concatenation concatenates the maps. |
| Flatten.MapSlice | src/commands/source.rs:557-565 | Generic helper for the loop proof: a slice of the map is the map of the slice. |
| Flatten.PreOrderPrefixStep | src/commands/source.rs:557-565 | One more loop iteration visits that space and then its subtree. |
| Flatten.MapStep | src/commands/source.rs:557-565 | One iteration keeps "rows so far = rows of the pre-order so far", whatever row builder is used. |
| Flatten.LoopStep | src/commands/source.rs:557-565 | The same holds for the two row builders. |
| Flatten.FlattenSpaces | src/commands/source.rs:552-567 | `flatten_spaces` only appends. What it appends is one regular row per space in pre-order, with parent name the space's own name or `"no_name_found"` and the same source file on every row. Source name `None` with spaces to visit is excluded: that is the `unwrap` panic. |
| Flatten.FlattenSpacesExtended | src/commands/source.rs:467-482 | The same holds for `flatten_spaces_extended` with extended rows. |
| Flatten.FlattenFile | src/commands/source.rs:135-163 | The rows of a file are one per descendant of the root, so one fewer than the size of the tree, in pre-order. |
| Flatten.RowsOfProperties | src/commands/source.rs:467-482 | Every row is built as follows:<br>- identity copied from its space;<br>- `source_file` is the given path;<br>- `parent_name` is present: the space's own name if it has one, `"no_name_found"` otherwise;<br>- all metric values finite. |
| Flatten.VariantsAgree | src/commands/source.rs:467-567 | The two flatteners emit equally many rows. Row by row they agree on identity and on every shared column. |
| Flatten.RowsInPreOrder | src/commands/source.rs:557-565 | A space's row is followed immediately by the rows of everything nested in it. |
| Flatten.SubtreeRows | src/commands/source.rs:557-565 | The same fact, with the pre-order passed in by name. |
| Flatten.RowsKeepSiblingOrder | src/commands/source.rs:557-565 | The row of the k-th top-level space comes right after the rows of the complete subtrees before it. |
| Paths.LastIndexOf | src/commands/source.rs:203 | The result is the position of the last occurrence of the character, or -1 when there is none. |
| Paths.SplitName | src/commands/source.rs:120 | A name found is the last normal component of the path (`IsNameOf`). It is a whole component: it sits at the start or right after a separator, and it is followed by the end of the path or by a separator. After it come only separators and lone `.` components. Which paths have none is stated by the `FileName` lemmas below. |
| Paths.IsNameOf | src/commands/source.rs:120 | A definition, no contract of its own: what it means for a name to be a path's file name, as listed for `SplitName`. |
| Paths.OnlyCurDirsFrom | src/commands/source.rs:120 | A definition, no contract of its own: from a position on, the path holds only separators and lone `.` components, which `file_name` skips. |
| Paths.LastComponent | src/commands/source.rs:120 | Helper for `SplitName`: a normal component after the last separator is the path's name. |
| Paths.NameStep | src/commands/source.rs:120 | Helper for `SplitName`: a trailing separator or `/.` does not change the name found. |
| Paths.CurDirsStep | src/commands/source.rs:120 | Helper for `NameStep`: a trailing separator or `/.` keeps `OnlyCurDirsFrom`. |
| Paths.FileName | src/commands/source.rs:120 | A file name, when present, is a normal name: not empty, not `.` or `..`, and without a separator. |
| Paths.FileNameTrailingSeparator | src/commands/source.rs:120 | A trailing separator does not change the file name. |
| Paths.FileNameTrailingCurDir | src/commands/source.rs:120 | A trailing `.` component does not change the file name. |
| Paths.FileNameOfParentDir | src/commands/source.rs:120 | A path ending in a `..` component has no file name. |
| Paths.EmptyPathHasNoFileName | src/commands/source.rs:120 | The empty path has no file name. |
| Paths.CurDirHasNoFileName | src/commands/source.rs:120 | The path `.` has no file name. |
| Paths.ParentDirHasNoFileName | src/commands/source.rs:120 | The path `..` has no file name. |
| Paths.RootHasNoFileName | src/commands/source.rs:120 | The root `/` has no file name, so the `unwrap` there panics. |
| Paths.SplitFileAtDot | src/commands/source.rs:106 | Splitting a file name at its last dot:<br>- a name without a dot is all stem;<br>- a name whose only dot is its first character is all stem, with no extension;<br>- `..` is kept whole;<br>- otherwise the name is a non-empty stem, a dot and a dot-free extension. |
| Paths.FileStem | src/commands/source.rs:106 | A stem exists exactly when the path has a file name. It is non-empty and has no separator. |
| Paths.Extension | src/commands/source.rs:203 | An extension exists only with a file name and has no dot. The file name is then stem + "." + extension; without an extension the file name is the stem. |
| Paths.StemOf | src/commands/source.rs:106 | A definition, no contract of its own: `file_stem` of a file name, the part before the last dot when there is one and otherwise the whole name (`before.or(after)`). `StemAndExtension` characterises it. |
| Paths.ExtensionOf | src/commands/source.rs:203 | A definition, no contract of its own: `extension` of a file name, the part after the last dot, present only when the name was cut there (`before.and(after)`). `StemAndExtension` and `ExtensionOfDotted` characterise it. |
| Paths.StemAndExtension | src/commands/source.rs:106 | The stem is non-empty and has no separator, and stem + "." + extension gives the name back. |
| Paths.LastIndexAfter | src/commands/source.rs:121 | The last separator of `a + b` is the one ending `a` when `b` has none. |
| Paths.Join | src/commands/source.rs:121 | A definition, no contract of its own: `push` of a relative name, adding a separator unless the path is empty or ends with one. `FileNameOfJoin` characterises it. |
| Paths.WithFileName | src/commands/source.rs:104-111 | A definition, no contract of its own: the file name is replaced, or the name is pushed if there is none. `FileNameOfWithFileName` characterises it. |
| Paths.WithExtension | src/commands/source.rs:112-113 | A definition, no contract of its own: a path without a file name is kept, and otherwise the name becomes stem + "." + extension. `FileNameOfWithExtension` characterises it. |
| Paths.FileNameOfJoin | src/commands/source.rs:120-121 | A normal name pushed onto any directory is the file name of the result. |
| Paths.FileNameOfWithFileName | src/commands/source.rs:104-111 | The name passed to `with_file_name` is the file name of the result. |
| Paths.DottedNameIsNormal | src/commands/source.rs:112-113 | A stem with a non-empty extension is a normal file name. |
| Paths.FileNameOfWithExtension | src/commands/source.rs:112-113 | `with_extension` turns the file name into stem + "." + extension. A path without a file name keeps having none. |
| Paths.AsciiLower | src/commands/source.rs:207 | Lower-casing keeps the length and lower-cases each ASCII letter. |
| Paths.CompareIgnoreAsciiCase | src/commands/source.rs:207 | The executable, character-by-character form of `eq_ignore_ascii_case`: it answers true if and only if the predicate `EqIgnoreAsciiCase` holds, which is when the lower-cased strings are equal. |
| Paths.EqIgnoreAsciiCase | src/commands/source.rs:207 | A definition, no contract of its own: `str::eq_ignore_ascii_case`, true for equal lengths and equal characters once ASCII letters are lower-cased. `EqIgnoreAsciiCaseIsLowerEq` characterises it. |
| Paths.EqIgnoreAsciiCaseIsLowerEq | src/commands/source.rs:207 | `eq_ignore_ascii_case` holds if and only if both strings lower-case to the same string. |
| Paths.HasValidExtension | src/commands/source.rs:202-211 | A definition, no contract of its own: false without an extension, otherwise whether some listed extension equals it ignoring ASCII case. `HasValidExtensionLower` and `HasValidExtensionIff` characterise it. |
| Paths.HasValidExtensionLower | src/commands/source.rs:202-211 | Against lower-case extensions, a path passes if and only if it has an extension whose lower-cased form is in the list. |
| Paths.ValidExtensionsLower | src/commands/source.rs:33-39 | The accepted extensions are already lower case. |
| Paths.HasValidExtensionIff | src/commands/source.rs:33-39 | A path passes if and only if its lower-cased extension is one of cpp, cc, hpp, c and h. |
| Paths.ExtensionOfDotted | src/commands/source.rs:203 | The extension of `stem.ext` is `ext` when `ext` has no dot. |
| Paths.DottedFileKeptIff | src/commands/source.rs:202-211 | A file `stem.ext` in any directory passes if and only if `ext`, lower-cased, is accepted. So `Main.CPP` passes, only the last extension counts, and `main.c.bak` fails. |
| Paths.HiddenFileNotKept | src/commands/source.rs:202-211 | A hidden file such as `.c` never passes, because its leading dot does not start an extension. |
| Source.PromoteFormat | src/commands/source.rs:41-45 | The format is JSON after promotion exactly when it was JSON or `--no-flatten` is set. CSV survives only if it was asked for. |
| Source.Promote | src/commands/source.rs:41-45 | Promotion changes only the format. |
| Source.PromoteIdempotent | src/commands/source.rs:41-45 | Promoting twice is the same as promoting once. |
| Source.SchemaOf | src/commands/source.rs:135-156 | A definition, no contract of its own: `--extended` selects the extended row type. `OutcomeProperties` uses it for the rows written. |
| Source.OutputName | src/commands/source.rs:103-113 | A definition, no contract of its own: `<stem>[-extended].<fmt>`. `OutputPathShape` proves the derived output path has this name. |
| Source.Renamed | src/commands/source.rs:103-117 | A definition, no contract of its own: `with_file_name("<stem>-extended.<fmt>")` in extended mode, otherwise `with_extension(<fmt>)`. A missing stem is the `unwrap` panic. `ExtendedOutputPath` and `RegularOutputPath` characterise it. |
| Source.UnderOutputDir | src/commands/source.rs:119-121 | A definition, no contract of its own: the renamed path's file name joined under the output directory. A missing file name is the `unwrap` panic. `WithExtensionUnderDir` characterises it. |
| Source.OutputPath | src/commands/source.rs:103-121 | A definition, no contract of its own: `Renamed`, then `UnderOutputDir`. `OutputPathShape` characterises it. |
| Source.MarkedNameIsNormal | src/commands/source.rs:104-111 | `<stem>-extended.<fmt>` is a normal file name. |
| Source.ExtendedOutputPath | src/commands/source.rs:103-121 | In extended mode, the output is `<stem>-extended.<fmt>` under the output directory. A path without a file name panics. |
| Source.WithExtensionUnderDir | src/commands/source.rs:112-121 | Replacing the extension and keeping only the file name gives `<stem>.<ext>` under the directory. |
| Source.RegularOutputPath | src/commands/source.rs:103-121 | Otherwise, the output is `<stem>.<fmt>` under the output directory. A path without a file name panics. |
| Source.OutputPathShape | src/commands/source.rs:103-121 | The output path exists if and only if the input has a file name. It is then `<stem>[-extended].<fmt>`, directly under the output directory. |
| Source.OutputDependsOnlyOnFileName | src/commands/source.rs:119-121 | Two inputs with the same file name in different directories get the same output path. |
| Source.Outcome | src/commands/source.rs:83-199 | A reference definition, no contract of its own: the effect of one file, stated case by case. `ExtractMetrics` follows the code and is proved equal to it, and `OutcomeProperties` characterises it. |
| Source.ExtractMetrics | src/commands/source.rs:83-199 | The file's result, computed by following the code, matches the case-by-case outcome:<br>- unreadable gives `FailedProcessing`;<br>- no language gives `FailedGuessLang`;<br>- no spaces means nothing is written;<br>- no file name panics;<br>- otherwise: the JSON tree when unflattened and the format is JSON;<br>- nothing when unflattened and the format is CSV (the `Not possible!` branch, unreachable after promotion);<br>- nothing when there are no rows;<br>- otherwise CSV rows or the JSON tree. |
| Source.OutcomeProperties | src/commands/source.rs:123-191 | An analysed file with a name always succeeds. It writes CSV if and only if the format is CSV, the output is flattened and the root has nested spaces. It writes the raw tree as JSON if and only if the format is JSON and the output is unflattened or has rows. CSV rows number the root's descendants and all carry the file's path. |
| Source.NoFlattenAlwaysJson | src/commands/source.rs:41-45 | With `--no-flatten`, after promotion, every analysed file with a name is written as a JSON tree. |
| Source.CollectFiles | src/commands/source.rs:47-69 | The files to process are chosen as follows:<br>- a file is taken as is, whatever its extension;<br>- a directory contributes the walk's regular files that pass the extension filter, in walk order;<br>- any other path exits. |
| Source.FilterPathsMembers | src/commands/source.rs:54-65 | A path survives the walk's filter if and only if some entry for it passes. |
| Source.Keeps | src/commands/source.rs:59-63 | A definition, no contract of its own: a walk entry is kept when it is a regular file that passes the extension filter. `KeptMembers` characterises it. |
| Source.Kept | src/commands/source.rs:54-65 | A definition, no contract of its own: the paths of the kept walk entries, in walk order. `CollectFiles` uses it for a directory, and `KeptMembers` characterises it. |
| Source.KeptMembers | src/commands/source.rs:59-63 | A path is collected if and only if a walk entry for it is a regular file with an accepted extension. |
| Source.FilesOf | src/commands/source.rs:47-69 | A definition, no contract of its own: the input itself for a file, the kept walk entries for a directory, and the exit otherwise. `CollectFiles` computes the same case by case, `Execute` is stated in terms of it, and `KeptMembers` characterises the directory case. |
| Source.ProcessAll | src/commands/source.rs:76-78 | The run over the files succeeds if and only if every file does, with one result per file. Otherwise it fails with one of the files' failures. |
| Source.Execute | src/commands/source.rs:32-81 | The whole run exits exactly when the input is neither a file nor a directory. Otherwise it succeeds if and only if every collected file succeeds, and a failure is some file's failure. |

## Left out

- I/O is not modelled. This covers:
  - reading the file;
  - creating the output directory;
  - `File::create`, the CSV writer and pretty JSON serialization.
  
  Their errors (`FileError`, `CSVError`, `SerdeError`) are not modelled; a file's effect is what it would write.
- The analysis engine (`read_file`, `guess_language`, `get_function_spaces`) is an input (`Analysis`). So are the engine's metric accessors, which appear as fields.
- WalkDir's traversal order, its link following and the errors it drops are not modelled. The walk is given as a sequence of entries.
- Rayon's parallel `try_for_each` is modelled as a sequential loop. Both succeed exactly when every file succeeds. The model returns the first failure; the parallel run may report any failing file's failure, which the contract allows.
- Logging (`info!`, `debug!`, `warn!`, `error!`) is not modelled.
- Float.ReplaceInfNan: IEEE-754 arithmetic is not modelled, since the tool never computes with the values. Negative zero is not distinguished from zero.
- The `unwrap` of `source_name` in the flatteners panics on `None`. The flatteners exclude it by precondition. The only caller always passes `Some`.
- Paths.SplitName: a path is a `/`-separated string. Rust's component normalisation is not applied: repeated separators are kept in the intermediate path that `with_file_name` builds. Only the file name is taken from that path, and the file name is the same.
- Non-UTF-8 file names are not modelled: `to_str` always succeeds on a Dafny string.
- The derive macro's token output (`quote!`) is modelled as the list of field names it calls. The proc-macro entry point (lib.rs:5-9) is only a parser wrapper.
- `SpaceKind`'s `Display` is left out: `kind` is the rendered string.
- src/cli.rs, src/main.rs and `serde` field renaming are not part of this model.

## Notes on the source

- The flatteners are called on the root's nested spaces (source.rs:138-156). The root space itself never gets a row. A file with one top-level function therefore yields one row, not two.
- `parent_name` is the row's own name (or `"no_name_found"`), not the name of the enclosing space (source.rs:473-477, 558-562). The model keeps this self-reference.
- With flattening on and `--fmt json`, the file written is the engine's raw tree, not the rows (source.rs:184-186). The rows are built only to decide whether anything is written.
- When flattening yields no rows, nothing is written in either format (source.rs:144-147, 158-161).
- `--extended` still renames the output to `<stem>-extended.json` under `--no-flatten` (source.rs:108-111), although no extended rows are produced.
- A single-file input is processed whatever its extension (source.rs:49-51). Only directory walks filter by extension.
- An input path that is neither a file nor a directory ends the process with `exit(1)`, not with an error value (source.rs:66-69).
- source.rs:92 builds `CliError::FailedGuessLang`, but src/errors.rs declares no such variant. The model follows source.rs.
