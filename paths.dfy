/** URL paths read the way Rust's `std::path::Path` reads them on a Unix
    target: `/`-separated segments, of which the empty ones and `.` are not
    components; `PathBuf::push`, `Path::extension`, and `starts_with` /
    `strip_prefix` on components. */
module Paths {
  import opened Wrappers
  import opened Text

  /** The raw `/`-separated segments of a path. */
  function Segments(p: string): (segs: seq<string>)
    ensures |segs| >= 1
  {
    Split(p, '/')
  }

  /** A segment that is a component of its own (`Component::Normal`, or
      `..`, which no URL path holds). */
  predicate IsNormal(seg: string) {
    seg != "" && seg != "."
  }

  /** The segments that are components, in order. */
  function KeepNormal(segs: seq<string>): (names: seq<string>)
    ensures |names| <= |segs|
    ensures forall i :: 0 <= i < |names| ==> IsNormal(names[i])
    ensures forall n :: n in names ==> n in segs
    decreases |segs|
  {
    if segs == [] then []
    else (if IsNormal(segs[0]) then [segs[0]] else []) + KeepNormal(segs[1..])
  }

  /** The names of the components after the root of an absolute path. */
  function Normals(p: string): seq<string> {
    KeepNormal(Segments(p))
  }

  /** What the `url` crate hands out as the path of an `http` URL: it
      starts at the root and has no `..` segment left. */
  predicate IsUrlPath(p: string) {
    |p| >= 1 && p[0] == '/' && ".." !in Segments(p)
  }

  type UrlPath = p: string | IsUrlPath(p) witness "/"

  /** `PathBuf::push` of a relative name: a separator is added unless the
      path is empty or already ends with one. */
  function PushPath(base: string, name: string): (p: string)
    ensures |p| >= |base| && p[..|base|] == base
  {
    if base == "" || EndsWith(base, "/") then base + name else base + "/" + name
  }

  /** The pushed name ends the result; onto an empty path it is the
      whole result, with no separator before it. */
  lemma PushPathEndsWithName(base: string, name: string)
    ensures var p := PushPath(base, name);
      && |p| >= |name| && p[|p| - |name|..] == name
      && (base == "" <==> p == name)
  {
  }

  /** `Path::file_name`: the last component, if there is one. */
  function FileName(p: string): Option<string> {
    var names := Normals(p);
    if names == [] then None else Some(names[|names| - 1])
  }

  /** Index of the last occurrence of `c` in `s`. */
  function LastIndexOf(s: string, c: char): (r: Option<nat>)
    ensures r.Some? ==> r.value < |s| && s[r.value] == c
    ensures r.Some? ==> forall j :: r.value < j < |s| ==> s[j] != c
    ensures r.None? ==> c !in s
    decreases |s|
  {
    if s == [] then None
    else if s[|s| - 1] == c then Some(|s| - 1)
    else LastIndexOf(s[..|s| - 1], c)
  }

  /** `Path::extension` of a file name: the text after its last dot, unless
      there is no dot, the only dot starts the name, or the name is `..`. */
  function Extension(name: string): (e: Option<string>)
    ensures e.Some? ==> '.' !in e.value
  {
    if name == ".." then None
    else match LastIndexOf(name, '.')
      case None => None
      case Some(i) => if i == 0 then None else Some(name[i + 1..])
  }

  /** `Path::extension` of a whole path. */
  function PathExtension(p: string): Option<string> {
    match FileName(p)
    case None => None
    case Some(name) => Extension(name)
  }

  // Trimming and cutting raw segments (`Components::as_path`)

  /** The segments after the first component. */
  function AfterFirstNormal(segs: seq<string>): seq<string>
    decreases |segs|
  {
    if segs == [] then []
    else if IsNormal(segs[0]) then segs[1..]
    else AfterFirstNormal(segs[1..])
  }

  function TrimLeading(segs: seq<string>): (r: seq<string>)
    ensures r == [] || IsNormal(r[0])
    decreases |segs|
  {
    if segs != [] && !IsNormal(segs[0]) then TrimLeading(segs[1..]) else segs
  }

  function TrimTrailing(segs: seq<string>): (r: seq<string>)
    ensures r == [] || IsNormal(r[|r| - 1])
    decreases |segs|
  {
    if segs != [] && !IsNormal(segs[|segs| - 1]) then TrimTrailing(segs[..|segs| - 1]) else segs
  }

  /** The prefix every embedded-asset URL starts with, as components. */
  const INTERNAL_ROOT: string := "__internal"

  /** `starts_with("/__internal/")` on an absolute path: its first component
      is `__internal`. */
  predicate IsInternal(p: string) {
    Normals(p) != [] && Normals(p)[0] == INTERNAL_ROOT
  }

  /** `strip_prefix("/__internal/")` as a string: the raw text after the
      first component, less the empty and `.` segments at either end. */
  function AssetKey(p: string): string {
    Join(TrimTrailing(TrimLeading(AfterFirstNormal(Segments(p)))), "/")
  }

  // Properties

  /** No segment holds a separator. */
  lemma {:induction false} SegmentsHaveNoSeparator(p: string)
    ensures forall i :: 0 <= i < |Segments(p)| ==> '/' !in Segments(p)[i]
    decreases |p|
  {
    if p != [] {
      SegmentsHaveNoSeparator(p[1..]);
      var rest := Split(p[1..], '/');
      assert Segments(p[1..]) == rest;
      if p[0] != '/' {
        assert Segments(p) == [[p[0]] + rest[0]] + rest[1..];
        forall i | 0 <= i < |Segments(p)|
          ensures '/' !in Segments(p)[i]
        {
          if i > 0 {
            assert Segments(p)[i] == rest[i];
          } else {
            assert '/' !in rest[0];
          }
        }
      } else {
        assert Segments(p) == [""] + rest;
        forall i | 0 <= i < |Segments(p)|
          ensures '/' !in Segments(p)[i]
        {
          if i > 0 {
            assert Segments(p)[i] == rest[i - 1];
          }
        }
      }
    }
  }

  lemma {:induction false} KeepNormalAppend(a: seq<string>, b: seq<string>)
    ensures KeepNormal(a + b) == KeepNormal(a) + KeepNormal(b)
    decreases |a|
  {
    if a == [] {
      assert a + b == b;
    } else {
      assert (a + b)[1..] == a[1..] + b;
      KeepNormalAppend(a[1..], b);
    }
  }

  /** A trailing separator changes no component. */
  lemma SlashKeepsNormals(p: string)
    ensures Normals(p + "/") == Normals(p)
  {
    SplitAround(p, [], '/');
    assert p + "/" == p + ['/'] + [];
    KeepNormalAppend(Segments(p), [""]);
  }

  /** Pushing a name adds exactly that component. */
  lemma PushPathNormals(base: string, name: string)
    requires IsNormal(name) && '/' !in name
    ensures Normals(PushPath(base, name)) == Normals(base) + [name]
  {
    SplitFree(name, '/');
    if base == "" {
      assert Segments(base) == [""];
      assert Segments(name) == [name];
    } else if EndsWith(base, "/") {
      var init := base[..|base| - 1];
      assert base == init + ['/'] + [];
      SplitAround(init, [], '/');
      assert base + name == init + ['/'] + name;
      SplitAround(init, name, '/');
      KeepNormalAppend(Split(init, '/'), [""]);
      KeepNormalAppend(Split(init, '/'), [name]);
    } else {
      assert base + "/" + name == base + ['/'] + name;
      SplitAround(base, name, '/');
      KeepNormalAppend(Segments(base), [name]);
    }
  }

  /** Pushing a name onto a URL path gives a URL path. */
  lemma PushPathIsUrlPath(base: string, name: string)
    requires IsUrlPath(base) && name != ".." && '/' !in name
    ensures IsUrlPath(PushPath(base, name))
  {
    SplitFree(name, '/');
    var p := PushPath(base, name);
    assert p[0] == base[0];
    var init := if EndsWith(base, "/") then base[..|base| - 1] else base;
    assert p == init + ['/'] + name;
    SplitAround(init, name, '/');
    assert Segments(p) == Split(init, '/') + [name];
    if EndsWith(base, "/") {
      assert base == init + ['/'] + [];
      SplitAround(init, [], '/');
      assert Segments(base) == Split(init, '/') + [""];
    }
    assert ".." !in Split(init, '/') by {
      assert Split(init, '/') == Segments(base)[..|Split(init, '/')|];
    }
  }

  /** Appending a separator to a URL path, as the trailing-slash redirect
      does, gives a URL path. */
  lemma SlashIsUrlPath(p: string)
    requires IsUrlPath(p)
    ensures IsUrlPath(p + "/")
  {
    SplitAround(p, [], '/');
    assert p + "/" == p + ['/'] + [];
    assert Segments(p + "/") == Segments(p) + [""];
    assert (p + "/")[0] == p[0];
  }
}
