/** The fragment of Rust's `std::path` that the source command relies on,
    on '/'-separated path strings: the file name, its stem and extension
    (Rust's `split_file_at_dot` rule), `with_file_name`, `with_extension`
    and `join`, plus the extension filter `has_valid_extension`. */
module Paths {
  import opened Wrappers

  /** The index of the last `c` in `s`, or -1 when there is none. */
  function LastIndexOf(s: string, c: char): (k: int)
    ensures -1 <= k < |s|
    ensures k >= 0 ==> s[k] == c
    ensures forall j :: k < j < |s| ==> s[j] != c
  {
    if |s| == 0 then -1
    else if s[|s| - 1] == c then |s| - 1
    else LastIndexOf(s[..|s| - 1], c)
  }

  /** A component that can be a file name: not empty, not `.` or `..`,
      and free of separators. */
  predicate IsNormalName(n: string) {
    n != "" && n != "." && n != ".." && '/' !in n
  }

  /** A path cut before its file name: `dir` is what the name is pushed
      onto, and is empty or ends with a separator. */
  datatype Split = Split(dir: string, name: string)

  /** From position `e` on, `p` holds only separators and lone `.`
      components: no further name can follow. */
  predicate OnlyCurDirsFrom(p: string, e: nat) {
    forall j {:trigger p[j]} :: e <= j < |p| ==>
      p[j] == '/' || (p[j] == '.' && 0 < j && p[j - 1] == '/' && (j + 1 == |p| || p[j + 1] == '/'))
  }

  /** `name` is the last normal component of `p`, found after `dir`: `dir`
      is empty or ends with a separator, `dir + name` is a prefix of `p`
      ending at a separator or at the end, and only separators and lone `.`
      components follow it. */
  predicate IsNameOf(p: string, dir: string, name: string) {
    && IsNormalName(name)
    && (dir == "" || dir[|dir| - 1] == '/')
    && |dir| + |name| <= |p| && p[..|dir| + |name|] == dir + name
    && (|dir| + |name| == |p| || p[|dir| + |name|] == '/')
    && OnlyCurDirsFrom(p, |dir| + |name|)
  }

  /** Locate the file name: the last component, skipping trailing
      separators and `.` components; a path ending in `..`, the root, `.`
      and the empty path have none. */
  function SplitName(p: string): (r: Option<Split>)
    ensures r.Some? ==> IsNameOf(p, r.value.dir, r.value.name)
    decreases |p|
  {
    var k := LastIndexOf(p, '/');
    var last := p[k + 1..];
    if last == "" || last == "." then
      if k < 0 then None
      else
        var r := SplitName(p[..k]);
        if r.Some? then NameStep(p, k, r.value.dir, r.value.name); r else r
    else if last == ".." then None
    else
      LastComponent(p, k);
      Some(Split(p[..k + 1], last))
  }

  /** The component after the last separator, when it is a normal name, is
      the name of the path. */
  lemma LastComponent(p: string, k: int)
    requires -1 <= k < |p| && (k >= 0 ==> p[k] == '/')
    requires IsNormalName(p[k + 1..])
    ensures IsNameOf(p, p[..k + 1], p[k + 1..])
  {
    assert p[..|p|] == p[..k + 1] + p[k + 1..];
  }

  /** A name of `p[..k]` is still the name of `p` when `p` only adds a
      trailing separator or `/.` at `k`. */
  lemma NameStep(p: string, k: nat, dir: string, name: string)
    requires k < |p| && p[k] == '/' && (p[k + 1..] == "" || p[k + 1..] == ".")
    requires IsNameOf(p[..k], dir, name)
    ensures IsNameOf(p, dir, name)
  {
    var e := |dir| + |name|;
    assert p[..e] == p[..k][..e];
    if e < k {
      assert p[..k][e] == p[e];
    }
    CurDirsStep(p, k, e);
  }

  /** Dropping a trailing separator or `/.` keeps "nothing but separators
      and `.` components after `e`". */
  lemma CurDirsStep(p: string, k: nat, e: nat)
    requires k < |p| && p[k] == '/' && (p[k + 1..] == "" || p[k + 1..] == ".")
    requires e <= k && OnlyCurDirsFrom(p[..k], e)
    ensures OnlyCurDirsFrom(p, e)
  {
    forall j | e <= j < |p|
      ensures p[j] == '/' || (p[j] == '.' && 0 < j && p[j - 1] == '/' && (j + 1 == |p| || p[j + 1] == '/'))
    {
      if j < k {
        var q := p[..k];
        assert q[j] == p[j];
        if 0 < j { assert q[j - 1] == p[j - 1]; }
        if j + 1 < k { assert q[j + 1] == p[j + 1]; }
      } else if j > k {
        assert |p[k + 1..]| == 1 && j == k + 1 && p[j] == p[k + 1..][0];
      }
    }
  }

  /** `Path::file_name`. */
  function FileName(p: string): (r: Option<string>)
    ensures r.Some? ==> IsNormalName(r.value)
  {
    match SplitName(p)
    case None => None
    case Some(s) => Some(s.name)
  }

  /** A trailing separator does not change the file name. */
  lemma FileNameTrailingSeparator(p: string)
    ensures FileName(p + "/") == FileName(p)
  {
  }

  /** Nor does a trailing `.` component. */
  lemma FileNameTrailingCurDir(p: string)
    ensures FileName(p + "/.") == FileName(p)
  {
    var q := p + "/.";
    assert q[|p|] == '/' && q[|p| + 1] == '.';
    assert q[|p| + 1..] == ".";
    assert q[..|p|] == p;
  }

  /** A path ending in a `..` component has no file name. */
  lemma FileNameOfParentDir(p: string)
    ensures FileName(p + "/..").None?
  {
    var q := p + "/..";
    assert q[|p|] == '/' && q[|p| + 1] == '.' && q[|p| + 2] == '.';
    assert q[|p| + 1..] == "..";
  }

  /** The empty path has no file name. */
  lemma EmptyPathHasNoFileName()
    ensures FileName("").None?
  {
  }

  /** Nor has the current directory `.`. */
  lemma CurDirHasNoFileName()
    ensures FileName(".").None?
  {
  }

  /** Nor has the parent directory `..`. */
  lemma ParentDirHasNoFileName()
    ensures FileName("..").None?
  {
  }

  /** Nor has the root `/`. */
  lemma RootHasNoFileName()
    ensures FileName("/").None?
  {
  }

  /** The two halves of a file name around its last dot, as Rust's
      `rsplit_file_at_dot` returns them. */
  datatype DotSplit = DotSplit(before: Option<string>, after: Option<string>)

  /** `..` is kept whole; a name without a dot is all `after`; a name whose
      only dot is its first character (a hidden file) is all `before`;
      otherwise the name is cut at its last dot. */
  function SplitFileAtDot(file: string): (r: DotSplit)
    ensures file == ".." ==> r == DotSplit(Some(file), None)
    ensures r.before.Some? || r.after.Some?
    ensures r.before.None? ==> r.after == Some(file) && '.' !in file
    ensures r.after.None? ==>
      r.before == Some(file) && (file == ".." || (|file| > 0 && file[0] == '.' && '.' !in file[1..]))
    ensures r.before.Some? && r.after.Some? ==>
      && file == r.before.value + "." + r.after.value
      && r.before.value != ""
      && '.' !in r.after.value
  {
    if file == ".." then DotSplit(Some(file), None)
    else
      var k := LastIndexOf(file, '.');
      if k < 0 then
        DotSplit(None, Some(file))
      else if k == 0 then
        DotSplit(Some(file), None)
      else
        assert file == file[..k] + "." + file[k + 1..];
        DotSplit(Some(file[..k]), Some(file[k + 1..]))
  }

  /** `file_stem` of a file name: `before.or(after)`. */
  function StemOf(name: string): string {
    var d := SplitFileAtDot(name);
    if d.before.Some? then d.before.value else d.after.value
  }

  /** `extension` of a file name: `before.and(after)`. */
  function ExtensionOf(name: string): Option<string> {
    var d := SplitFileAtDot(name);
    if d.before.Some? then d.after else None
  }

  /** `Path::file_stem`: present exactly when there is a file name. */
  function FileStem(p: string): (r: Option<string>)
    ensures r.Some? <==> FileName(p).Some?
    ensures r.Some? ==> r.value != "" && '/' !in r.value
  {
    match FileName(p)
    case None => None
    case Some(n) => StemAndExtension(n); Some(StemOf(n))
  }

  /** `Path::extension`: the dot-free part after the stem's dot, when the
      file name has one. */
  function Extension(p: string): (r: Option<string>)
    ensures r.Some? ==> FileName(p).Some? && '.' !in r.value
    ensures r.Some? ==> FileName(p).value == FileStem(p).value + "." + r.value
    ensures r.None? && FileName(p).Some? ==> FileName(p).value == FileStem(p).value
  {
    match FileName(p)
    case None => None
    case Some(n) => StemAndExtension(n); ExtensionOf(n)
  }

  /** The stem of a file name is a non-empty part of it that leaves out at
      most a final `.ext`; with the extension it gives the name back. */
  lemma StemAndExtension(name: string)
    requires IsNormalName(name)
    ensures StemOf(name) != "" && '/' !in StemOf(name)
    ensures ExtensionOf(name).Some? ==> name == StemOf(name) + "." + ExtensionOf(name).value
    ensures ExtensionOf(name).None? ==> name == StemOf(name)
  {
    var d := SplitFileAtDot(name);
    if d.before.Some? && d.after.Some? {
      assert name[..|d.before.value|] == d.before.value;
    }
  }

  /** `PathBuf::push` of a relative name: a separator is added unless the
      path is empty or already ends with one. */
  function Join(dir: string, name: string): string {
    if dir == "" || dir[|dir| - 1] == '/' then dir + name else dir + "/" + name
  }

  /** `Path::with_file_name`: the file name, if any, is replaced, otherwise
      the new name is pushed onto the path. */
  function WithFileName(p: string, name: string): string {
    match SplitName(p)
    case None => Join(p, name)
    case Some(s) => Join(s.dir, name)
  }

  /** `Path::with_extension`: a path without a file name is returned as
      is; otherwise everything after the stem is replaced by `.ext` (the
      directory part ends with a separator, so the join adds none). */
  function WithExtension(p: string, ext: string): string {
    match SplitName(p)
    case None => p
    case Some(s) => Join(s.dir, StemOf(s.name) + "." + ext)
  }

  /** The last `c` of `a + b` is the one ending `a` when `b` has none. */
  lemma {:induction false} LastIndexAfter(a: string, b: string, c: char)
    requires c !in b
    requires a == "" || a[|a| - 1] == c
    ensures LastIndexOf(a + b, c) == |a| - 1
    decreases |b|
  {
    if b == [] {
      assert a + b == a;
    } else {
      assert (a + b)[..|a + b| - 1] == a + b[..|b| - 1];
      LastIndexAfter(a, b[..|b| - 1], c);
    }
  }

  /** A normal name pushed onto any path is that path's file name. */
  lemma FileNameOfJoin(dir: string, name: string)
    requires IsNormalName(name)
    ensures FileName(Join(dir, name)) == Some(name)
  {
    var d := if dir == "" || dir[|dir| - 1] == '/' then dir else dir + "/";
    assert Join(dir, name) == d + name;
    LastIndexAfter(d, name, '/');
    assert (d + name)[|d|..] == name;
  }

  /** The name given to `with_file_name` is the file name of the result. */
  lemma FileNameOfWithFileName(p: string, name: string)
    requires IsNormalName(name)
    ensures FileName(WithFileName(p, name)) == Some(name)
  {
    match SplitName(p)
    case None => FileNameOfJoin(p, name);
    case Some(s) => FileNameOfJoin(s.dir, name);
  }

  /** A stem and a non-empty extension make a normal name. */
  lemma DottedNameIsNormal(stem: string, ext: string)
    requires stem != "" && '/' !in stem
    requires ext != "" && '/' !in ext
    ensures IsNormalName(stem + "." + ext)
  {
    var n := stem + "." + ext;
    assert n == stem + ("." + ext);
    assert '/' !in "." + ext;
    assert |n| >= 3;
  }

  /** `with_extension` keeps the stem and gives it the new extension; a
      path without a file name keeps having none. */
  lemma FileNameOfWithExtension(p: string, ext: string)
    requires ext != "" && '/' !in ext
    ensures FileName(p).None? ==> FileName(WithExtension(p, ext)).None?
    ensures FileName(p).Some? ==> FileName(WithExtension(p, ext)) == Some(FileStem(p).value + "." + ext)
  {
    match SplitName(p)
    case None =>
    case Some(s) =>
      StemAndExtension(s.name);
      DottedNameIsNormal(StemOf(s.name), ext);
      FileNameOfJoin(s.dir, StemOf(s.name) + "." + ext);
  }

  /** ASCII lower-casing of one character; everything else is kept. */
  function LowerChar(c: char): char {
    if 'A' <= c <= 'Z' then (c as int - 'A' as int + 'a' as int) as char else c
  }

  /** `to_ascii_lowercase` of a string. */
  function AsciiLower(s: string): (r: string)
    ensures |r| == |s|
    ensures forall i :: 0 <= i < |s| ==> r[i] == LowerChar(s[i])
  {
    seq(|s|, i requires 0 <= i < |s| => LowerChar(s[i]))
  }

  /** `str::eq_ignore_ascii_case`: same length, and equal character by
      character once both are lower-cased. */
  predicate EqIgnoreAsciiCase(a: string, b: string) {
    |a| == |b| && forall i :: 0 <= i < |a| ==> LowerChar(a[i]) == LowerChar(b[i])
  }

  /** `eq_ignore_ascii_case` as the standard library runs it, one character
      at a time: the executable form of `EqIgnoreAsciiCase`. */
  method CompareIgnoreAsciiCase(a: string, b: string) returns (eq: bool)
    ensures eq <==> AsciiLower(a) == AsciiLower(b)
    ensures eq <==> EqIgnoreAsciiCase(a, b)
  {
    EqIgnoreAsciiCaseIsLowerEq(a, b);
    if |a| != |b| {
      assert |AsciiLower(a)| != |AsciiLower(b)|;
      return false;
    }
    var i := 0;
    while i < |a|
      invariant 0 <= i <= |a|
      invariant AsciiLower(a)[..i] == AsciiLower(b)[..i]
    {
      if LowerChar(a[i]) != LowerChar(b[i]) {
        assert AsciiLower(a)[i] != AsciiLower(b)[i];
        return false;
      }
      assert AsciiLower(a)[..i + 1] == AsciiLower(b)[..i] + [LowerChar(b[i])];
      i := i + 1;
    }
    assert AsciiLower(a) == AsciiLower(a)[..i];
    assert AsciiLower(b) == AsciiLower(b)[..i];
    return true;
  }

  /** Ignoring ASCII case is the same as comparing lower-cased copies. */
  lemma EqIgnoreAsciiCaseIsLowerEq(a: string, b: string)
    ensures EqIgnoreAsciiCase(a, b) <==> AsciiLower(a) == AsciiLower(b)
  {
    if AsciiLower(a) == AsciiLower(b) {
      assert |a| == |b|;
      forall i | 0 <= i < |a|
        ensures LowerChar(a[i]) == LowerChar(b[i])
      {
        assert AsciiLower(a)[i] == AsciiLower(b)[i];
      }
    }
  }

  /** The extensions the directory walk keeps. */
  const ValidExtensions: seq<string> := ["cpp", "cc", "hpp", "c", "h"]

  /** `has_valid_extension`: the path has an extension and it equals one of
      `exts` ignoring ASCII case. */
  function HasValidExtension(p: string, exts: seq<string>): bool {
    match Extension(p)
    case None => false
    case Some(e) => exists i :: 0 <= i < |exts| && EqIgnoreAsciiCase(e, exts[i])
  }

  /** Against a list of lower-case extensions, the filter keeps a path
      exactly when its extension, lower-cased, is in the list. */
  lemma HasValidExtensionLower(p: string, exts: seq<string>)
    requires forall i :: 0 <= i < |exts| ==> AsciiLower(exts[i]) == exts[i]
    ensures HasValidExtension(p, exts) <==> Extension(p).Some? && AsciiLower(Extension(p).value) in exts
  {
    if Extension(p).Some? {
      var e := Extension(p).value;
      forall i | 0 <= i < |exts|
        ensures EqIgnoreAsciiCase(e, exts[i]) <==> AsciiLower(e) == exts[i]
      {
        EqIgnoreAsciiCaseIsLowerEq(e, exts[i]);
      }
    }
  }

  /** The accepted extensions are already lower case. */
  lemma ValidExtensionsLower()
    ensures forall i :: 0 <= i < |ValidExtensions| ==> AsciiLower(ValidExtensions[i]) == ValidExtensions[i]
  {
    forall i | 0 <= i < |ValidExtensions|
      ensures AsciiLower(ValidExtensions[i]) == ValidExtensions[i]
    {
      var s := ValidExtensions[i];
      assert forall j :: 0 <= j < |s| ==> 'a' <= s[j] <= 'z';
    }
  }

  /** A path passes the extension filter exactly when it has an extension
      whose lower-cased form is one of cpp, cc, hpp, c and h. */
  lemma HasValidExtensionIff(p: string)
    ensures HasValidExtension(p, ValidExtensions)
        <==> Extension(p).Some? && AsciiLower(Extension(p).value) in ValidExtensions
  {
    ValidExtensionsLower();
    HasValidExtensionLower(p, ValidExtensions);
  }

  /** The extension of `stem.ext` is `ext` when `ext` holds no dot. */
  lemma ExtensionOfDotted(stem: string, ext: string)
    requires stem != "" && ext != "" && '.' !in ext
    ensures ExtensionOf(stem + "." + ext) == Some(ext)
  {
    var n := stem + "." + ext;
    assert n == (stem + ".") + ext;
    LastIndexAfter(stem + ".", ext, '.');
    assert n[..|stem|] == stem && n[|stem| + 1..] == ext;
  }

  /** Whatever the directory and the stem, a file named `stem.ext` is kept
      exactly when `ext`, lower-cased, is an accepted extension: upper case
      is accepted, and only the last extension counts. */
  lemma DottedFileKeptIff(dir: string, stem: string, ext: string)
    requires stem != "" && '/' !in stem
    requires ext != "" && '/' !in ext && '.' !in ext
    ensures HasValidExtension(Join(dir, stem + "." + ext), ValidExtensions) <==> AsciiLower(ext) in ValidExtensions
  {
    DottedNameIsNormal(stem, ext);
    FileNameOfJoin(dir, stem + "." + ext);
    ExtensionOfDotted(stem, ext);
    HasValidExtensionIff(Join(dir, stem + "." + ext));
  }

  /** A hidden file's leading dot does not start an extension. */
  lemma HiddenFileNotKept(dir: string, ext: string)
    requires ext != "" && '/' !in ext && '.' !in ext
    ensures !HasValidExtension(Join(dir, "." + ext), ValidExtensions)
  {
    var n := "." + ext;
    assert n[1..] == ext;
    assert n[1] == ext[0] != '.';
    FileNameOfJoin(dir, n);
    assert SplitFileAtDot(n).after.None? by {
      LastIndexAfter(".", ext, '.');
      assert n == "." + ext;
    }
  }
}
