/** The `#[derive(ReplaceInfNan)]` procedural macro (archaeo_macros/src/lib.rs):
    which fields of a struct the generated `replace_inf_nan` touches, when the
    derivation is refused, and what the generated body does to a struct value. */
module Derive {
  import opened Wrappers
  import opened Float

  /** The part of `syn::Type` the macro inspects. Every non-path type
      (reference, tuple, array, ...) is `OtherType`. */
  datatype Type =
    | PathType(segments: seq<PathSegment>)
    | OtherType(text: string)

  /** One `::`-separated segment of a path type with its generic arguments,
      e.g. `Option<f64>` is one segment `Option` with argument `f64`. */
  datatype PathSegment = PathSegment(ident: string, arguments: seq<Type>)

  datatype Field = Field(ident: string, ty: Type)

  datatype Fields = Named(named: seq<Field>) | Unnamed(unnamed: seq<Type>) | Unit

  datatype Data = Struct(fields: Fields) | Enum | Union

  datatype DeriveInput = DeriveInput(ident: string, data: Data)

  /** The two panics of the macro, i.e. the two compile errors a user sees. */
  datatype DeriveError =
    | NotAStruct       // "ReplaceInfNan can only be derived for structs"
    | NotNamedFields   // "ReplaceInfNan only supports named fields"

  /** A plain path type with no generic arguments, such as `f64` or `usize`. */
  function Simple(ident: string): Type {
    PathType([PathSegment(ident, [])])
  }

  /** `is_f64_type`: the type is a path whose last segment is named `f64`. */
  predicate IsF64Type(ty: Type) {
    ty.PathType? && |ty.segments| > 0 && ty.segments[|ty.segments| - 1].ident == "f64"
  }

  /** Only the last segment decides: `f64` and `core::primitive::f64` are
      selected, `Option<f64>` and `Vec<f64>` are not, whatever their arguments. */
  lemma IsF64TypeDecidedByLastSegment(prefix: seq<PathSegment>, last: PathSegment)
    ensures IsF64Type(PathType(prefix + [last])) <==> last.ident == "f64"
  {
  }

  /** Non-path types (here `&f64`, `(f64,)` and the like) are never selected,
      nor is the empty path. */
  lemma IsF64TypeOnlyPaths(ty: Type)
    requires ty.OtherType? || ty == PathType([])
    ensures !IsF64Type(ty)
  {
  }

  /** The plain `f64` type is selected. */
  lemma SimpleF64IsF64()
    ensures IsF64Type(Simple("f64"))
  {
    assert Simple("f64").segments[0].ident == "f64";
  }

  /** The positions of the fields the derived body sanitizes, in the order
      the macro emits them (the `filter_map` over the named fields). */
  function SelectedIndices(fields: seq<Field>): seq<nat> {
    if fields == [] then []
    else
      var n := |fields| - 1;
      SelectedIndices(fields[..n]) + (if IsF64Type(fields[n].ty) then [n] else [])
  }

  /** The derive touches every `f64` field exactly once, in declaration
      order, and no other field. */
  lemma {:induction false} SelectedIndicesExactlyF64(fields: seq<Field>)
    ensures forall k :: 0 <= k < |SelectedIndices(fields)| ==>
      SelectedIndices(fields)[k] < |fields| && IsF64Type(fields[SelectedIndices(fields)[k]].ty)
    ensures forall k, l :: 0 <= k < l < |SelectedIndices(fields)| ==>
      SelectedIndices(fields)[k] < SelectedIndices(fields)[l]
    ensures forall j :: 0 <= j < |fields| && IsF64Type(fields[j].ty) ==> j in SelectedIndices(fields)
    decreases |fields|
  {
    if fields != [] {
      var n := |fields| - 1;
      var front := SelectedIndices(fields[..n]);
      SelectedIndicesExactlyF64(fields[..n]);
      assert forall k :: 0 <= k < |front| ==> front[k] < n && fields[..n][front[k]] == fields[front[k]];
    }
  }

  /** A struct without `f64` fields gets an empty derived body. */
  lemma {:induction false} NothingSelectedWithoutF64(fields: seq<Field>)
    requires forall j :: 0 <= j < |fields| ==> !IsF64Type(fields[j].ty)
    ensures SelectedIndices(fields) == []
    decreases |fields|
  {
    if fields != [] {
      var n := |fields| - 1;
      assert forall j :: 0 <= j < n ==> fields[..n][j] == fields[j];
      NothingSelectedWithoutF64(fields[..n]);
    }
  }

  /** Declaring one more field selects it exactly when it is an `f64`. */
  lemma SelectedIndicesAppend(fields: seq<Field>, f: Field)
    ensures SelectedIndices(fields + [f])
         == SelectedIndices(fields) + (if IsF64Type(f.ty) then [|fields|] else [])
  {
    assert (fields + [f])[..|fields|] == fields;
  }

  /** The positions `from`, `from + 1`, ..., `from + n - 1`. */
  function Range(from: nat, n: nat): (r: seq<nat>)
    ensures |r| == n
    ensures forall k :: 0 <= k < n ==> r[k] == from + k
  {
    seq(n, k requires 0 <= k < n => from + k)
  }

  lemma RangeSnoc(from: nat, n: nat)
    ensures Range(from, n + 1) == Range(from, n) + [from + n]
  {
  }

  lemma SplitLast<T>(prefix: seq<T>, fs: seq<T>)
    requires fs != []
    ensures prefix + fs == (prefix + fs[..|fs| - 1]) + [fs[|fs| - 1]]
  {
  }

  /** Declaring only `f64` fields after fields none of which is selected
      selects exactly the new ones. */
  lemma {:induction false} SelectedIndicesOfF64Suffix(prefix: seq<Field>, fs: seq<Field>)
    requires SelectedIndices(prefix) == []
    requires forall f :: f in fs ==> IsF64Type(f.ty)
    ensures SelectedIndices(prefix + fs) == Range(|prefix|, |fs|)
    decreases |fs|
  {
    if fs == [] {
      assert prefix + fs == prefix;
    } else {
      var n := |fs| - 1;
      SelectedIndicesOfF64Suffix(prefix, fs[..n]);
      SplitLast(prefix, fs);
      assert fs[n] in fs;
      SelectedIndicesAppend(prefix + fs[..n], fs[n]);
      RangeSnoc(|prefix|, n);
    }
  }

  /** `impl_replace_inf_nan`: the field names of the `self.<ident>.replace_inf_nan();`
      statements the macro generates, or the reason it panics. */
  function ImplReplaceInfNan(ast: DeriveInput): (r: Result<seq<string>, DeriveError>)
    ensures !ast.data.Struct? <==> r == Err(NotAStruct)
    ensures (ast.data.Struct? && !ast.data.fields.Named?) <==> r == Err(NotNamedFields)
    ensures r.Ok? ==>
      var fs := ast.data.fields.named;
      && |r.value| == |SelectedIndices(fs)|
      && forall x :: x in r.value <==> exists j :: 0 <= j < |fs| && IsF64Type(fs[j].ty) && fs[j].ident == x
    ensures r.Ok? ==>
      var fs := ast.data.fields.named;
      forall k :: 0 <= k < |r.value| ==>
        SelectedIndices(fs)[k] < |fs| && r.value[k] == fs[SelectedIndices(fs)[k]].ident
  {
    match ast.data
    case Struct(Named(fs)) =>
      var idx := SelectedIndices(fs);
      SelectedIndicesExactlyF64(fs);
      var calls := seq(|idx|, k requires 0 <= k < |idx| => fs[idx[k]].ident);
      assert forall j :: 0 <= j < |fs| && IsF64Type(fs[j].ty) ==> fs[j].ident in calls by {
        forall j | 0 <= j < |fs| && IsF64Type(fs[j].ty)
          ensures fs[j].ident in calls
        {
          var k :| 0 <= k < |idx| && idx[k] == j;
          assert calls[k] == fs[j].ident;
        }
      }
      Ok(calls)
    case Struct(_) => Err(NotNamedFields)
    case _ => Err(NotAStruct)
  }

  /** A field value of a struct at run time. */
  datatype Value =
    | F64Value(x: F64)
    | UsizeValue(n: nat)
    | StringValue(s: string)
    | OptionStringValue(o: Option<string>)

  /** `replace_inf_nan` called on one field: only an `f64` has it. */
  function SanitizeValue(v: Value): Value {
    if v.F64Value? then F64Value(ReplaceInfNan(v.x)) else v
  }

  /** Runs the generated statements one after the other on a struct value
      `vals`; `calls` are the positions of the fields they name. (Rust resolves
      `self.<ident>` to the one field declared with that name, since the
      names of a struct's fields are distinct.) */
  function RunCalls(calls: seq<nat>, vals: seq<Value>): (r: seq<Value>)
    requires forall k :: 0 <= k < |calls| ==> calls[k] < |vals|
    ensures |r| == |vals|
    ensures forall i :: 0 <= i < |vals| ==> r[i] == if i in calls then SanitizeValue(vals[i]) else vals[i]
  {
    if calls == [] then vals
    else
      var n := |calls| - 1;
      var before := RunCalls(calls[..n], vals);
      assert forall i :: i in calls <==> i in calls[..n] || i == calls[n] by {
        assert calls == calls[..n] + [calls[n]];
      }
      ReplaceInfNanIdempotent(if vals[calls[n]].F64Value? then vals[calls[n]].x else Zero);
      before[calls[n] := SanitizeValue(before[calls[n]])]
  }

  /** The derived `replace_inf_nan` applied to a value of a struct whose
      named fields are `fields`: every `f64` field is sanitized, every other
      field is left untouched. */
  function DerivedReplaceInfNan(fields: seq<Field>, vals: seq<Value>): (r: seq<Value>)
    requires |vals| == |fields|
    ensures |r| == |vals|
    ensures forall i :: 0 <= i < |vals| && IsF64Type(fields[i].ty) ==> r[i] == SanitizeValue(vals[i])
    ensures forall i :: 0 <= i < |vals| && !IsF64Type(fields[i].ty) ==> r[i] == vals[i]
  {
    SelectedIndicesExactlyF64(fields);
    RunCalls(SelectedIndices(fields), vals)
  }

  /** The derived routine on a struct whose leading fields are not `f64`
      and whose trailing fields all are: the leading values are kept and
      the trailing ones sanitized. */
  lemma DerivedOnSplitStruct(front: seq<Field>, back: seq<Field>, fv: seq<Value>, bv: seq<Value>)
    requires |fv| == |front| && |bv| == |back|
    requires forall j :: 0 <= j < |front| ==> !IsF64Type(front[j].ty)
    requires forall j :: 0 <= j < |back| ==> IsF64Type(back[j].ty)
    ensures DerivedReplaceInfNan(front + back, fv + bv)
         == fv + seq(|bv|, i requires 0 <= i < |bv| => SanitizeValue(bv[i]))
  {
    var fields := front + back;
    var lhs := DerivedReplaceInfNan(fields, fv + bv);
    var rhs := fv + seq(|bv|, i requires 0 <= i < |bv| => SanitizeValue(bv[i]));
    forall i | 0 <= i < |fields|
      ensures lhs[i] == rhs[i]
    {
      if i < |front| {
        assert fields[i] == front[i];
      } else {
        assert fields[i] == back[i - |front|];
      }
    }
  }

  /** Applying the derived routine a second time changes nothing. */
  lemma DerivedReplaceInfNanIdempotent(fields: seq<Field>, vals: seq<Value>)
    requires |vals| == |fields|
    ensures DerivedReplaceInfNan(fields, DerivedReplaceInfNan(fields, vals)) == DerivedReplaceInfNan(fields, vals)
  {
    var once := DerivedReplaceInfNan(fields, vals);
    var twice := DerivedReplaceInfNan(fields, once);
    forall i | 0 <= i < |vals|
      ensures twice[i] == once[i]
    {
      if IsF64Type(fields[i].ty) && vals[i].F64Value? {
        ReplaceInfNanIdempotent(vals[i].x);
      }
    }
  }

  /** A struct value agrees with its declaration when each `f64` field holds
      an `f64` (which the Rust type checker guarantees). */
  ghost predicate WellTyped(fields: seq<Field>, vals: seq<Value>) {
    |vals| == |fields| &&
    forall i :: 0 <= i < |fields| && IsF64Type(fields[i].ty) ==> vals[i].F64Value?
  }

  /** After the derived routine, every `f64` field of a well-typed value is finite. */
  lemma DerivedReplaceInfNanMakesFinite(fields: seq<Field>, vals: seq<Value>)
    requires WellTyped(fields, vals)
    ensures var r := DerivedReplaceInfNan(fields, vals);
      forall i :: 0 <= i < |fields| && IsF64Type(fields[i].ty) ==> r[i].F64Value? && r[i].x.Finite?
  {
  }
}
