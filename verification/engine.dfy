/** What the analysis engine hands to the tool: a tree of function spaces,
    each with its metric bundle. The engine itself (parsing, computing the
    metrics, rendering the space kind) is outside this model; its values are
    inputs here, named after the accessor methods the tool calls. */
module Engine {
  import opened Wrappers
  import opened Float

  datatype NArgs = NArgs(
    fnArgs: F64, closureArgs: F64,
    fnArgsSum: F64, closureArgsSum: F64,
    fnArgsAverage: F64, closureArgsAverage: F64,
    nargsTotal: F64, nargsAverage: F64,
    fnArgsMin: F64, fnArgsMax: F64,
    closureArgsMin: F64, closureArgsMax: F64)

  datatype Exit = Exit(exit: F64, exitSum: F64, exitAverage: F64, exitMin: F64, exitMax: F64)

  datatype Cognitive = Cognitive(
    cognitive: F64, cognitiveSum: F64, cognitiveAverage: F64, cognitiveMin: F64, cognitiveMax: F64)

  datatype Cyclomatic = Cyclomatic(
    cyclomatic: F64, cyclomaticSum: F64, cyclomaticAverage: F64, cyclomaticMin: F64, cyclomaticMax: F64)

  datatype Halstead = Halstead(
    uOperators: F64, operators: F64, uOperands: F64, operands: F64,
    length: F64, estimatedProgramLength: F64, purityRatio: F64,
    vocabulary: F64, volume: F64, difficulty: F64, level: F64,
    effort: F64, time: F64, bugs: F64)

  datatype Loc = Loc(sloc: F64, ploc: F64, lloc: F64, cloc: F64, blank: F64)

  datatype Nom = Nom(
    functions: F64, closures: F64, total: F64,
    functionsMin: F64, functionsMax: F64, closuresMin: F64, closuresMax: F64)

  datatype Mi = Mi(miOriginal: F64, miSei: F64, miVisualStudio: F64)

  datatype CodeMetrics = CodeMetrics(
    nargs: NArgs, nexits: Exit, cognitive: Cognitive, cyclomatic: Cyclomatic,
    halstead: Halstead, loc: Loc, nom: Nom, mi: Mi)

  /** One space of the engine's tree. `kind` is the space kind already
      rendered by its `Display` implementation ("function", "unit", ...). */
  datatype FuncSpace = FuncSpace(
    name: Option<string>,
    startLine: nat,
    endLine: nat,
    kind: string,
    metrics: CodeMetrics,
    spaces: seq<FuncSpace>)

  /** Number of spaces in the tree rooted at `s`, `s` included. */
  function Size(s: FuncSpace): nat {
    1 + ForestSize(s.spaces)
  }

  /** Number of spaces in a forest, counted tree by tree. */
  function ForestSize(ss: seq<FuncSpace>): nat {
    if ss == [] then 0 else ForestSize(ss[..|ss| - 1]) + Size(ss[|ss| - 1])
  }

  /** The pre-order enumeration of a forest: a space, then everything nested
      in it, then its later siblings. This is the order the flatteners must
      produce. */
  function PreOrder(ss: seq<FuncSpace>): seq<FuncSpace> {
    if ss == [] then [] else [ss[0]] + PreOrder(ss[0].spaces) + PreOrder(ss[1..])
  }

  /** The spaces that get a row: everything strictly below the root. */
  function Descendants(root: FuncSpace): seq<FuncSpace> {
    PreOrder(root.spaces)
  }

  /** Pre-order of a concatenation is the concatenation of the pre-orders. */
  lemma {:induction false} PreOrderAppend(a: seq<FuncSpace>, b: seq<FuncSpace>)
    ensures PreOrder(a + b) == PreOrder(a) + PreOrder(b)
    decreases |a|
  {
    if a == [] {
      assert a + b == b;
    } else {
      assert (a + b)[0] == a[0];
      assert (a + b)[1..] == a[1..] + b;
      PreOrderAppend(a[1..], b);
    }
  }

  /** Pre-order of a one-space forest is that space followed by the pre-order
      of its nested spaces. */
  lemma PreOrderSingle(s: FuncSpace)
    ensures PreOrder([s]) == [s] + PreOrder(s.spaces)
  {
    assert [s][1..] == [];
  }

  /** The forest size counts a forest front to back as well. */
  lemma {:induction false} ForestSizeFront(ss: seq<FuncSpace>)
    requires ss != []
    ensures ForestSize(ss) == Size(ss[0]) + ForestSize(ss[1..])
    decreases |ss|
  {
    if |ss| == 1 {
      assert ss[..0] == [];
      assert ss[1..] == [];
    } else {
      var n := |ss| - 1;
      ForestSizeFront(ss[..n]);
      assert ss[..n][0] == ss[0];
      assert ss[..n][1..] == ss[1..][..|ss[1..]| - 1];
      assert ss[1..][|ss[1..]| - 1] == ss[n];
    }
  }

  /** The pre-order visits every space of the forest exactly as often as it
      occurs: its length is the number of spaces. */
  lemma {:induction false} PreOrderLength(ss: seq<FuncSpace>)
    ensures |PreOrder(ss)| == ForestSize(ss)
  {
    if ss != [] {
      PreOrderLength(ss[0].spaces);
      PreOrderLength(ss[1..]);
      ForestSizeFront(ss);
    }
  }

  /** The rows of a file are as many as the spaces strictly below its root. */
  lemma DescendantsCount(root: FuncSpace)
    ensures |Descendants(root)| == Size(root) - 1
  {
    PreOrderLength(root.spaces);
  }

  /** A subtree found at position `i - 1` of `a` is found at position `i` of `[x] + a + b`. */
  lemma InMiddle<T>(x: T, a: seq<T>, b: seq<T>, i: nat, n: nat, sub: seq<T>)
    requires 1 <= i && 1 <= n && i - 1 + n <= |a|
    requires a[i .. i - 1 + n] == sub
    ensures i + n <= |[x] + a + b|
    ensures ([x] + a + b)[i] == a[i - 1]
    ensures ([x] + a + b)[i + 1 .. i + n] == sub
  {
    assert ([x] + a + b)[i + 1 .. i + n] == a[i .. i - 1 + n];
  }

  /** A subtree found at position `i - 1 - |a|` of `b` is found at position `i` of `[x] + a + b`. */
  lemma InRight<T>(x: T, a: seq<T>, b: seq<T>, i: nat, n: nat, sub: seq<T>)
    requires 1 + |a| <= i && 1 <= n && i - 1 - |a| + n <= |b|
    requires b[i - |a| .. i - 1 - |a| + n] == sub
    ensures i + n <= |[x] + a + b|
    ensures ([x] + a + b)[i] == b[i - 1 - |a|]
    ensures ([x] + a + b)[i + 1 .. i + n] == sub
  {
    assert ([x] + a + b)[i + 1 .. i + n] == b[i - |a| .. i - 1 - |a| + n];
  }

  /** Pre-order, stated position by position: the space at position `i` is
      immediately followed by exactly the pre-order of its own nested spaces. */
  lemma PreOrderSubtreesContiguous(ss: seq<FuncSpace>, i: nat)
    requires i < |PreOrder(ss)|
    ensures i + Size(PreOrder(ss)[i]) <= |PreOrder(ss)|
    ensures PreOrder(ss)[i + 1 .. i + Size(PreOrder(ss)[i])] == PreOrder(PreOrder(ss)[i].spaces)
  {
    SubtreeAt(ss, PreOrder(ss), i);
  }

  /** The induction behind `PreOrderSubtreesContiguous`, with the pre-order
      named `p` so that it is unfolded only once. */
  lemma {:induction false} SubtreeAt(ss: seq<FuncSpace>, p: seq<FuncSpace>, i: nat)
    requires p == PreOrder(ss)
    requires i < |p|
    ensures i + Size(p[i]) <= |p|
    ensures p[i + 1 .. i + Size(p[i])] == PreOrder(p[i].spaces)
    decreases ss, 1
  {
    var inner := PreOrder(ss[0].spaces);
    var rest := PreOrder(ss[1..]);
    assert p == [ss[0]] + inner + rest;
    PreOrderLength(ss[0].spaces);
    if i == 0 {
      SubtreeAtHead(ss[0], inner, rest);
    } else if i < 1 + |inner| {
      SubtreeInFirst(ss, inner, rest, i);
    } else {
      SubtreeInRest(ss, inner, rest, i);
    }
  }

  /** `SubtreeAt` for a position inside the subtree of the first space. */
  lemma {:induction false} SubtreeInFirst(ss: seq<FuncSpace>, inner: seq<FuncSpace>, rest: seq<FuncSpace>, i: nat)
    requires ss != [] && inner == PreOrder(ss[0].spaces)
    requires 1 <= i < 1 + |inner|
    ensures i + Size(inner[i - 1]) <= |[ss[0]] + inner + rest|
    ensures ([ss[0]] + inner + rest)[i] == inner[i - 1]
    ensures ([ss[0]] + inner + rest)[i + 1 .. i + Size(inner[i - 1])] == PreOrder(inner[i - 1].spaces)
    decreases ss, 0
  {
    var t := inner[i - 1];
    SubtreeAt(ss[0].spaces, inner, i - 1);
    InMiddle(ss[0], inner, rest, i, Size(t), PreOrder(t.spaces));
  }

  /** `SubtreeAt` for a position inside the later siblings. */
  lemma {:induction false} SubtreeInRest(ss: seq<FuncSpace>, inner: seq<FuncSpace>, rest: seq<FuncSpace>, i: nat)
    requires ss != [] && rest == PreOrder(ss[1..])
    requires 1 + |inner| <= i < 1 + |inner| + |rest|
    ensures i + Size(rest[i - 1 - |inner|]) <= |[ss[0]] + inner + rest|
    ensures ([ss[0]] + inner + rest)[i] == rest[i - 1 - |inner|]
    ensures ([ss[0]] + inner + rest)[i + 1 .. i + Size(rest[i - 1 - |inner|])] == PreOrder(rest[i - 1 - |inner|].spaces)
    decreases ss, 0
  {
    var t := rest[i - 1 - |inner|];
    SubtreeAt(ss[1..], rest, i - 1 - |inner|);
    InRight(ss[0], inner, rest, i, Size(t), PreOrder(t.spaces));
  }

  /** The first space of a forest is followed by its own subtree. */
  lemma SubtreeAtHead(s: FuncSpace, inner: seq<FuncSpace>, rest: seq<FuncSpace>)
    requires inner == PreOrder(s.spaces)
    requires |inner| == ForestSize(s.spaces)
    ensures Size(s) <= |[s] + inner + rest|
    ensures ([s] + inner + rest)[1 .. Size(s)] == inner
  {
  }

  /** Siblings keep the engine's order: the k-th space of the forest sits
      after the complete subtrees of the k spaces before it. */
  lemma {:induction false} PreOrderSiblingPosition(ss: seq<FuncSpace>, k: nat)
    requires k < |ss|
    ensures ForestSize(ss[..k]) < |PreOrder(ss)|
    ensures PreOrder(ss)[ForestSize(ss[..k])] == ss[k]
  {
    assert ss == ss[..k] + [ss[k]] + ss[k + 1..];
    PreOrderAppend(ss[..k] + [ss[k]], ss[k + 1..]);
    PreOrderAppend(ss[..k], [ss[k]]);
    PreOrderSingle(ss[k]);
    PreOrderLength(ss[..k]);
  }

  /** A root has descendants exactly when it has nested spaces. */
  lemma NoDescendantsIff(root: FuncSpace)
    ensures Descendants(root) == [] <==> root.spaces == []
  {
  }
}
