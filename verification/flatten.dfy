/** The flatteners `flatten_spaces` and `flatten_spaces_extended`
    (src/commands/source.rs): a depth-first walk over nested spaces that
    appends one row per space to a growing vector. */
module Flatten {
  import opened Wrappers
  import opened Float
  import opened Engine
  import opened Rows

  /** The sentinel used for a space without a name. */
  const NoNameFound: string := "no_name_found"

  /** What the flatteners pass as `parent_name` for `space`: the space's own
      name, or the sentinel when it has none. */
  function ParentHint(space: FuncSpace): Option<string> {
    Some(space.name.UnwrapOr(NoNameFound))
  }

  /** The builder of the schema's row type. */
  function Build(schema: Schema, space: FuncSpace, parentName: Option<string>, sourceFile: Option<string>): Row {
    match schema
    case Regular => FromSpace(space, parentName, sourceFile)
    case Extended => FromSpaceExtended(space, parentName, sourceFile)
  }

  /** `f` applied to every element of `s`, in order. */
  function Map<A, B>(f: A -> B, s: seq<A>): (r: seq<B>)
    ensures |r| == |s|
    ensures forall i :: 0 <= i < |s| ==> r[i] == f(s[i])
  {
    seq(|s|, i requires 0 <= i < |s| => f(s[i]))
  }

  lemma MapAppend<A, B>(f: A -> B, a: seq<A>, b: seq<A>)
    ensures Map(f, a + b) == Map(f, a) + Map(f, b)
  {
  }

  lemma MapSlice<A, B>(f: A -> B, s: seq<A>, lo: nat, hi: nat)
    requires lo <= hi <= |s|
    ensures Map(f, s)[lo .. hi] == Map(f, s[lo .. hi])
  {
  }

  /** The row the flatteners build for a visited space. */
  function RowMaker(schema: Schema, sourceName: Option<string>): FuncSpace -> Row {
    space => Build(schema, space, ParentHint(space), sourceName)
  }

  /** The rows for the spaces `visited`, one each, in that order, as the
      flatteners build them. */
  function RowsOf(schema: Schema, visited: seq<FuncSpace>, sourceName: Option<string>): seq<Row> {
    Map(RowMaker(schema, sourceName), visited)
  }

  /** Visiting one more space of a forest adds that space and its subtree. */
  lemma PreOrderPrefixStep(spaces: seq<FuncSpace>, i: nat)
    requires i < |spaces|
    ensures PreOrder(spaces[..i + 1]) == PreOrder(spaces[..i]) + [spaces[i]] + PreOrder(spaces[i].spaces)
  {
    assert spaces[..i + 1] == spaces[..i] + [spaces[i]];
    PreOrderAppend(spaces[..i], [spaces[i]]);
    PreOrderSingle(spaces[i]);
  }

  /** One iteration of the flatteners' loop, for any row builder `f`: the
      row of the i-th space, then the rows of its subtree. */
  lemma MapStep<B>(f: FuncSpace -> B, spaces: seq<FuncSpace>, i: nat, flattened: seq<B>, before: seq<B>, after: seq<B>)
    requires i < |spaces|
    requires before == flattened + Map(f, PreOrder(spaces[..i]))
    requires after == before + [f(spaces[i])] + Map(f, PreOrder(spaces[i].spaces))
    ensures after == flattened + Map(f, PreOrder(spaces[..i + 1]))
  {
    PreOrderPrefixStep(spaces, i);
    MapAppend(f, PreOrder(spaces[..i]) + [spaces[i]], PreOrder(spaces[i].spaces));
    MapAppend(f, PreOrder(spaces[..i]), [spaces[i]]);
  }

  /** The flatteners' loop invariant is kept by one iteration. */
  lemma LoopStep(schema: Schema, spaces: seq<FuncSpace>, i: nat, sourceName: Option<string>,
                 flattened: seq<Row>, before: seq<Row>, after: seq<Row>)
    requires i < |spaces| && sourceName.Some?
    requires before == flattened + RowsOf(schema, PreOrder(spaces[..i]), sourceName)
    requires after == before + [Build(schema, spaces[i], ParentHint(spaces[i]), Some(sourceName.value))]
                    + RowsOf(schema, PreOrder(spaces[i].spaces), sourceName)
    ensures after == flattened + RowsOf(schema, PreOrder(spaces[..i + 1]), sourceName)
  {
    var f := RowMaker(schema, sourceName);
    assert f(spaces[i]) == Build(schema, spaces[i], ParentHint(spaces[i]), Some(sourceName.value));
    MapStep(f, spaces, i, flattened, before, after);
  }

  /** `flatten_spaces`: for each space, push its row, then recurse into its
      nested spaces. `source_name` is unwrapped for every row, so it must be
      present as soon as there is a space to visit. */
  method FlattenSpaces(spaces: seq<FuncSpace>, sourceName: Option<string>, flattened: seq<Row>)
    returns (out: seq<Row>)
    requires spaces == [] || sourceName.Some?
    ensures out == flattened + RowsOf(Regular, PreOrder(spaces), sourceName)
  {
    out := flattened;
    var i := 0;
    while i < |spaces|
      invariant 0 <= i <= |spaces|
      invariant out == flattened + RowsOf(Regular, PreOrder(spaces[..i]), sourceName)
    {
      var space := spaces[i];
      var before := out;
      out := out + [FromSpace(space, ParentHint(space), Some(sourceName.value))];
      out := FlattenSpaces(space.spaces, sourceName, out);
      LoopStep(Regular, spaces, i, sourceName, flattened, before, out);
      i := i + 1;
    }
    assert spaces[..i] == spaces;
  }

  /** `flatten_spaces_extended`: the same walk, building extended rows. */
  method FlattenSpacesExtended(spaces: seq<FuncSpace>, sourceName: Option<string>, flattened: seq<Row>)
    returns (out: seq<Row>)
    requires spaces == [] || sourceName.Some?
    ensures out == flattened + RowsOf(Extended, PreOrder(spaces), sourceName)
  {
    out := flattened;
    var i := 0;
    while i < |spaces|
      invariant 0 <= i <= |spaces|
      invariant out == flattened + RowsOf(Extended, PreOrder(spaces[..i]), sourceName)
    {
      var space := spaces[i];
      var before := out;
      out := out + [FromSpaceExtended(space, ParentHint(space), Some(sourceName.value))];
      out := FlattenSpacesExtended(space.spaces, sourceName, out);
      LoopStep(Extended, spaces, i, sourceName, flattened, before, out);
      i := i + 1;
    }
    assert spaces[..i] == spaces;
  }

  /** The rows of one file, as `extract_metrics` obtains them: the flattener
      is started on the root's nested spaces with an empty vector. */
  method FlattenFile(schema: Schema, root: FuncSpace, path: string) returns (rows: seq<Row>)
    ensures |rows| == Size(root) - 1
    ensures rows == RowsOf(schema, Descendants(root), Some(path))
  {
    if schema == Regular {
      rows := FlattenSpaces(root.spaces, Some(path), []);
    } else {
      rows := FlattenSpacesExtended(root.spaces, Some(path), []);
    }
    DescendantsCount(root);
  }

  /** What every row the flatteners emit satisfies: the identity block is
      the visited space's, the parent name is the space's own name or the
      sentinel (never absent), the source file is the one given, and every
      metric is finite. */
  lemma RowsOfProperties(schema: Schema, visited: seq<FuncSpace>, path: string)
    ensures var rows := RowsOf(schema, visited, Some(path));
      && |rows| == |visited|
      && forall i :: 0 <= i < |rows| ==>
        && rows[i].name == visited[i].name
        && rows[i].startLine == visited[i].startLine
        && rows[i].endLine == visited[i].endLine
        && rows[i].kind == visited[i].kind
        && rows[i].sourceFile == Some(path)
        && rows[i].parentName.Some?
        && (visited[i].name.Some? ==> rows[i].parentName == visited[i].name)
        && (visited[i].name.None? ==> rows[i].parentName == Some(NoNameFound))
        && |rows[i].values| == |MetricColumns(schema)|
        && AllFinite(rows[i].values)
  {
  }

  /** The regular and extended flatteners emit rows for the same spaces in
      the same order: row by row they agree on the identity block and on
      every column the two schemas share. */
  lemma VariantsAgree(visited: seq<FuncSpace>, sourceName: Option<string>)
    ensures var r := RowsOf(Regular, visited, sourceName);
      var e := RowsOf(Extended, visited, sourceName);
      && |r| == |e|
      && forall i :: 0 <= i < |r| ==>
        && r[i].(values := e[i].values) == e[i]
        && forall k :: 0 <= k < |RegularColumns| ==>
          SharedPosition[k] < |e[i].values| && e[i].values[SharedPosition[k]] == r[i].values[k]
  {
    forall i | 0 <= i < |visited| {
      FromSpaceVariantsAgree(visited[i], ParentHint(visited[i]), sourceName);
    }
  }

  /** The rows come out in pre-order: the row of a space is immediately
      followed by the rows of everything nested in it. */
  lemma RowsInPreOrder(schema: Schema, spaces: seq<FuncSpace>, sourceName: Option<string>, i: nat)
    requires i < |PreOrder(spaces)|
    ensures i + Size(PreOrder(spaces)[i]) <= |RowsOf(schema, PreOrder(spaces), sourceName)|
    ensures RowsOf(schema, PreOrder(spaces), sourceName)[i + 1 .. i + Size(PreOrder(spaces)[i])]
         == RowsOf(schema, PreOrder(PreOrder(spaces)[i].spaces), sourceName)
  {
    SubtreeRows(schema, spaces, PreOrder(spaces), sourceName, i);
  }

  /** `RowsInPreOrder` with the pre-order named `v`. */
  lemma SubtreeRows(schema: Schema, spaces: seq<FuncSpace>, v: seq<FuncSpace>, sourceName: Option<string>, i: nat)
    requires v == PreOrder(spaces) && i < |v|
    ensures i + Size(v[i]) <= |v| == |RowsOf(schema, v, sourceName)|
    ensures RowsOf(schema, v, sourceName)[i + 1 .. i + Size(v[i])] == RowsOf(schema, PreOrder(v[i].spaces), sourceName)
  {
    PreOrderSubtreesContiguous(spaces, i);
    MapSlice(RowMaker(schema, sourceName), v, i + 1, i + Size(v[i]));
  }

  /** Siblings keep the engine's order: the row of the k-th top-level space
      comes right after the rows of the complete subtrees before it. */
  lemma RowsKeepSiblingOrder(schema: Schema, spaces: seq<FuncSpace>, sourceName: Option<string>, k: nat)
    requires k < |spaces|
    ensures ForestSize(spaces[..k]) < |RowsOf(schema, PreOrder(spaces), sourceName)|
    ensures RowsOf(schema, PreOrder(spaces), sourceName)[ForestSize(spaces[..k])]
         == Build(schema, spaces[k], ParentHint(spaces[k]), sourceName)
  {
    PreOrderSiblingPosition(spaces, k);
  }
}
