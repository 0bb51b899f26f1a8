/** The directory listing of the browsable static server: the entries'
    template context, their order (directories first, then by name), and
    the breadcrumbs that lead from the root to the listed directory. */
module Listing {
  import opened Wrappers
  import opened Text
  import opened Paths

  /** One entry as a directory read yields it. */
  datatype DirEntry = DirEntry(name: string, isDir: bool)

  /** `TemplateEntryCtx`: what the listing template shows per entry. */
  datatype EntryCtx = EntryCtx(isDir: bool, fileName: string, mime: Option<string>)

  // ---------------------------------------------------------------------
  // Order
  // ---------------------------------------------------------------------

  /** `std::cmp::Ordering`. */
  datatype Ordering = Less | Equal | Greater {
    /** `Ordering::then`: a tie is broken by `next`. */
    function Then(next: Ordering): Ordering {
      if this == Equal then next else this
    }

    function Reverse(): Ordering {
      match this
      case Less => Greater
      case Equal => Equal
      case Greater => Less
    }
  }

  /** `bool::cmp`: `false` before `true`. */
  function CmpBool(a: bool, b: bool): Ordering {
    if a == b then Equal else if !a then Less else Greater
  }

  /** `str::cmp`: lexicographic by code point (the order of the UTF-8
      bytes), a proper prefix first. */
  function CmpText(a: string, b: string): Ordering
    decreases |a|
  {
    if a == [] && b == [] then Equal
    else if a == [] then Less
    else if b == [] then Greater
    else if a[0] < b[0] then Less
    else if a[0] > b[0] then Greater
    else CmpText(a[1..], b[1..])
  }

  /** `Ord for TemplateEntryCtx`: directories before files, then by name;
      the MIME type plays no part. */
  function Cmp(a: EntryCtx, b: EntryCtx): Ordering {
    CmpBool(b.isDir, a.isDir).Then(CmpText(a.fileName, b.fileName))
  }

  predicate Le(a: EntryCtx, b: EntryCtx) {
    Cmp(a, b) != Greater
  }

  predicate Sorted(s: seq<EntryCtx>) {
    forall i, j :: 0 <= i < j < |s| ==> Le(s[i], s[j])
  }

  lemma {:induction false} CmpTextEqual(a: string, b: string)
    ensures CmpText(a, b) == Equal <==> a == b
    decreases |a|
  {
    if a != [] && b != [] && a[0] == b[0] {
      CmpTextEqual(a[1..], b[1..]);
      if a[1..] == b[1..] {
        assert a == [a[0]] + a[1..] && b == [b[0]] + b[1..];
      }
    }
  }

  lemma {:induction false} CmpTextFlip(a: string, b: string)
    ensures CmpText(b, a) == CmpText(a, b).Reverse()
    decreases |a|
  {
    if a != [] && b != [] && a[0] == b[0] {
      CmpTextFlip(a[1..], b[1..]);
    }
  }

  lemma {:induction false} CmpTextTransitive(a: string, b: string, c: string)
    requires CmpText(a, b) != Greater && CmpText(b, c) != Greater
    ensures CmpText(a, c) != Greater
    decreases |a|
  {
    if a != [] && b != [] && c != [] && a[0] == b[0] == c[0] {
      CmpTextTransitive(a[1..], b[1..], c[1..]);
    }
  }

  /** Directories come first. */
  lemma DirectoriesFirst(a: EntryCtx, b: EntryCtx)
    requires a.isDir && !b.isDir
    ensures Cmp(a, b) == Less && Cmp(b, a) == Greater
  {
  }

  /** Two entries tie exactly when they agree on kind and name. */
  lemma CmpEqual(a: EntryCtx, b: EntryCtx)
    ensures Cmp(a, b) == Equal <==> a.isDir == b.isDir && a.fileName == b.fileName
  {
    CmpTextEqual(a.fileName, b.fileName);
  }

  /** The order is a total preorder: antisymmetric up to ties, and
      transitive. */
  lemma CmpFlip(a: EntryCtx, b: EntryCtx)
    ensures Cmp(b, a) == Cmp(a, b).Reverse()
  {
    CmpTextFlip(a.fileName, b.fileName);
  }

  lemma CmpTransitive(a: EntryCtx, b: EntryCtx, c: EntryCtx)
    requires Le(a, b) && Le(b, c)
    ensures Le(a, c)
  {
    if a.isDir == b.isDir == c.isDir {
      CmpTextTransitive(a.fileName, b.fileName, c.fileName);
    }
  }

  // ---------------------------------------------------------------------
  // Sorting (`slice::sort`, a stable sort)
  // ---------------------------------------------------------------------

  /** `x` placed before the first element it does not follow, so that it
      stays ahead of the elements it ties with. */
  function InsertEntry(x: EntryCtx, s: seq<EntryCtx>): (r: seq<EntryCtx>)
    ensures multiset(r) == multiset(s) + multiset{x}
    decreases |s|
  {
    if s == [] then [x]
    else if Le(x, s[0]) then [x] + s
    else
      assert s == [s[0]] + s[1..];
      [s[0]] + InsertEntry(x, s[1..])
  }

  lemma {:induction false} InsertSorted(x: EntryCtx, s: seq<EntryCtx>)
    requires Sorted(s)
    ensures Sorted(InsertEntry(x, s))
    decreases |s|
  {
    if s == [] {
    } else if Le(x, s[0]) {
      forall j | 0 <= j < |s|
        ensures Le(x, s[j])
      {
        if j > 0 {
          CmpTransitive(x, s[0], s[j]);
        }
      }
      ConsSorted(x, s);
    } else {
      var rest := InsertEntry(x, s[1..]);
      InsertSorted(x, s[1..]);
      CmpFlip(x, s[0]);
      forall j | 0 <= j < |rest|
        ensures Le(s[0], rest[j])
      {
        assert rest[j] in multiset(rest);
        if rest[j] != x {
          assert rest[j] in s[1..];
        }
      }
      ConsSorted(s[0], rest);
    }
  }

  /** An element no greater than any of a sorted sequence can go first. */
  lemma ConsSorted(a: EntryCtx, t: seq<EntryCtx>)
    requires Sorted(t)
    requires forall j :: 0 <= j < |t| ==> Le(a, t[j])
    ensures Sorted([a] + t)
  {
    var r := [a] + t;
    forall i, j | 0 <= i < j < |r|
      ensures Le(r[i], r[j])
    {
      assert r[j] == t[j - 1];
      if i > 0 {
        assert r[i] == t[i - 1];
      }
    }
  }

  /** The listing order (`slice::sort`): sorted, and a permutation of its
      input. */
  function SortEntries(s: seq<EntryCtx>): (r: seq<EntryCtx>)
    ensures Sorted(r)
    ensures multiset(r) == multiset(s)
    decreases |s|
  {
    if s == [] then []
    else
      assert s == [s[0]] + s[1..];
      InsertSorted(s[0], SortEntries(s[1..]));
      InsertEntry(s[0], SortEntries(s[1..]))
  }

  /** Names are pairwise distinct, as in one directory. */
  predicate UniqueNames(s: seq<EntryCtx>) {
    forall i, j :: 0 <= i < j < |s| ==> s[i].fileName != s[j].fileName
  }

  /** No two different entries share a name. */
  predicate DistinctKeys(m: multiset<EntryCtx>) {
    forall x, y :: x in m && y in m && x.fileName == y.fileName ==> x == y
  }

  lemma UniqueNamesDistinct(s: seq<EntryCtx>)
    requires UniqueNames(s)
    ensures DistinctKeys(multiset(s))
  {
    forall x, y | x in multiset(s) && y in multiset(s) && x.fileName == y.fileName
      ensures x == y
    {
      var a :| 0 <= a < |s| && s[a] == x;
      var b :| 0 <= b < |s| && s[b] == y;
    }
  }

  /** Two sorted orders of the same entries start with the same one. */
  lemma SortedHeadsAgree(s: seq<EntryCtx>, t: seq<EntryCtx>)
    requires DistinctKeys(multiset(s)) && multiset(s) == multiset(t)
    requires Sorted(s) && Sorted(t) && s != []
    ensures t != [] && s[0] == t[0]
  {
    assert s[0] in multiset(t);
    assert t[0] in multiset(s);
    var i :| 0 <= i < |t| && t[i] == s[0];
    var j :| 0 <= j < |s| && s[j] == t[0];
    CmpEqual(s[0], s[0]);
    CmpEqual(t[0], t[0]);
    assert Le(t[0], s[0]) by {
      if i > 0 {
        assert Le(t[0], t[i]);
      }
    }
    assert Le(s[0], t[0]) by {
      if j > 0 {
        assert Le(s[0], s[j]);
      }
    }
    CmpFlip(s[0], t[0]);
    CmpEqual(s[0], t[0]);
  }

  /** What is left after the first entry. */
  lemma TailMultiset(s: seq<EntryCtx>)
    requires s != []
    ensures multiset(s[1..]) == multiset(s) - multiset{s[0]}
    ensures DistinctKeys(multiset(s)) ==> DistinctKeys(multiset(s[1..]))
  {
    assert s == [s[0]] + s[1..];
    assert multiset(s) == multiset{s[0]} + multiset(s[1..]);
    forall x | x in multiset(s[1..])
      ensures x in multiset(s)
    {
    }
  }

  lemma SortedTail(s: seq<EntryCtx>)
    requires Sorted(s) && s != []
    ensures Sorted(s[1..])
  {
    forall i, j | 0 <= i < j < |s| - 1
      ensures Le(s[1..][i], s[1..][j])
    {
      assert s[1..][i] == s[i + 1] && s[1..][j] == s[j + 1];
    }
  }

  /** Two sorted orders of the same entries agree on their first entry,
      and what follows is again two sorted orders of the same entries. */
  lemma Peel(s: seq<EntryCtx>, t: seq<EntryCtx>)
    requires DistinctKeys(multiset(s)) && multiset(s) == multiset(t)
    requires Sorted(s) && Sorted(t) && s != []
    ensures t != [] && s[0] == t[0]
    ensures DistinctKeys(multiset(s[1..])) && multiset(s[1..]) == multiset(t[1..])
    ensures Sorted(s[1..]) && Sorted(t[1..])
  {
    SortedHeadsAgree(s, t);
    TailMultiset(s);
    TailMultiset(t);
    SortedTail(s);
    SortedTail(t);
  }

  lemma {:induction false} SortedIsUnique(s: seq<EntryCtx>, t: seq<EntryCtx>)
    requires DistinctKeys(multiset(s)) && multiset(s) == multiset(t)
    requires Sorted(s) && Sorted(t)
    ensures s == t
    decreases |s|
  {
    if s == [] {
      assert |t| == |multiset(t)|;
    } else {
      Peel(s, t);
      SortedIsUnique(s[1..], t[1..]);
      assert s == [s[0]] + s[1..];
      assert t == [t[0]] + t[1..];
    }
  }

  /** Among entries with distinct names there is one sorted order only:
      whatever sort the listing uses, stable or not, it shows what
      `SortEntries` shows. */
  lemma SortIsCanonical(s: seq<EntryCtx>, t: seq<EntryCtx>)
    requires UniqueNames(s) && multiset(t) == multiset(s) && Sorted(t)
    ensures t == SortEntries(s)
  {
    UniqueNamesDistinct(s);
    SortedIsUnique(SortEntries(s), t);
  }

  // ---------------------------------------------------------------------
  // Entries
  // ---------------------------------------------------------------------

  /** The template context of one entry: its kind, its name and, when the
      name has an extension, the MIME type guessed from it. */
  function EntryOf(e: DirEntry, mimeByExt: string -> string): (c: EntryCtx)
    ensures c.isDir == e.isDir && c.fileName == e.name
    ensures c.mime.Some? <==> Extension(e.name).Some?
  {
    EntryCtx(e.isDir, e.name,
             match Extension(e.name)
             case None => None
             case Some(ext) => Some(mimeByExt(ext)))
  }

  function EntriesOf(entries: seq<DirEntry>, mimeByExt: string -> string): (cs: seq<EntryCtx>)
    ensures |cs| == |entries|
    ensures forall i :: 0 <= i < |entries| ==> cs[i] == EntryOf(entries[i], mimeByExt)
  {
    seq(|entries|, i requires 0 <= i < |entries| => EntryOf(entries[i], mimeByExt))
  }

  /** What the listing shows: the entries' contexts in listing order. */
  function Listing(entries: seq<DirEntry>, mimeByExt: string -> string): seq<EntryCtx> {
    SortEntries(EntriesOf(entries, mimeByExt))
  }

  /** The loop over the directory's entries, then `files.sort()`. */
  method ReadListing(entries: seq<DirEntry>, mimeByExt: string -> string) returns (files: seq<EntryCtx>)
    ensures files == Listing(entries, mimeByExt)
  {
    files := [];
    var i := 0;
    while i < |entries|
      invariant 0 <= i <= |entries|
      invariant files == EntriesOf(entries[..i], mimeByExt)
    {
      files := files + [EntryOf(entries[i], mimeByExt)];
      i := i + 1;
      assert entries[..i][..i - 1] == entries[..i - 1];
    }
    assert entries[..i] == entries;
    files := SortEntries(files);
  }

  /** The listing shows each entry of the directory once, directories
      first and each group by name, whatever order the directory was read
      in. */
  lemma ListingShowsEachEntry(entries: seq<DirEntry>, mimeByExt: string -> string)
    ensures var files := Listing(entries, mimeByExt);
      && multiset(files) == multiset(EntriesOf(entries, mimeByExt))
      && |files| == |entries|
      && (forall i, j :: 0 <= i < j < |files| && files[i].isDir != files[j].isDir ==> files[i].isDir)
      && (forall i, j :: 0 <= i < j < |files| && files[i].isDir == files[j].isDir ==>
            CmpText(files[i].fileName, files[j].fileName) != Greater)
  {
    var files := Listing(entries, mimeByExt);
    assert |multiset(files)| == |multiset(EntriesOf(entries, mimeByExt))|;
    forall i, j | 0 <= i < j < |files| && files[i].isDir != files[j].isDir
      ensures files[i].isDir
    {
      assert Le(files[i], files[j]);
    }
  }

  // ---------------------------------------------------------------------
  // Breadcrumbs
  // ---------------------------------------------------------------------

  /** `TemplateBreadCrumCtx`: a link to one ancestor of the listed
      directory. */
  datatype Crumb = Crumb(name: string, path: string)

  /** The path of the crumb for the first `names`: the root, then one
      component per name. */
  function CrumbPath(names: seq<string>): string {
    "/" + Join(names, "/")
  }

  /** The `k`-th crumb over `names`: the root named `/`, then each named
      after its component and linking to the path up to it. */
  function CrumbAt(names: seq<string>, k: nat): Crumb
    requires k <= |names|
  {
    Crumb(if k == 0 then "/" else names[k - 1], CrumbPath(names[..k]))
  }

  /** One crumb per component of `path`, the root included. */
  function BreadCrumbs(path: string): (crumbs: seq<Crumb>)
    ensures |crumbs| == |Normals(path)| + 1
  {
    var names := Normals(path);
    seq(|names| + 1, k requires 0 <= k <= |names| => CrumbAt(names, k))
  }

  /** The components of a URL path: the root, then its names. */
  datatype Component = RootDir | Normal(name: string)

  function Components(path: string): (cs: seq<Component>)
    ensures |cs| == |Normals(path)| + 1
  {
    var names := Normals(path);
    [RootDir] + seq(|names|, i requires 0 <= i < |names| => Normal(names[i]))
  }

  /** One more name extends a crumb path past the root by a separator and
      the name. */
  lemma CrumbPathSnoc(init: seq<string>, n: string)
    requires init != []
    ensures CrumbPath(init + [n]) == CrumbPath(init) + "/" + n
  {
    JoinSnoc(init, n, "/");
  }

  /** A crumb path past the root ends with the last character of its
      last name. */
  lemma CrumbPathLastChar(names: seq<string>)
    requires names != [] && names[|names| - 1] != ""
    ensures var p := CrumbPath(names); var last := names[|names| - 1];
      p != [] && p[|p| - 1] == last[|last| - 1]
  {
    var last := names[|names| - 1];
    var front: string;
    if |names| == 1 {
      front := "/";
      assert CrumbPath(names) == front + last;
    } else {
      var init := names[..|names| - 1];
      assert names == init + [last];
      CrumbPathSnoc(init, last);
      front := CrumbPath(init) + "/";
    }
    var p := CrumbPath(names);
    assert p == front + last;
    assert p[|p| - 1] == last[|last| - 1];
  }

  lemma LastCharNotSlash(p: string)
    requires p != [] && p[|p| - 1] != '/'
    ensures !EndsWith(p, "/")
  {
    assert p[|p| - 1..] == [p[|p| - 1]];
  }

  /** Pushing the next name onto a crumb path gives the next crumb path. */
  lemma PushCrumb(init: seq<string>, n: string)
    requires init != [] ==> init[|init| - 1] != "" && '/' !in init[|init| - 1]
    ensures PushPath(CrumbPath(init), n) == CrumbPath(init + [n])
  {
    if init == [] {
      assert CrumbPath(init) == "/";
      assert EndsWith("/", "/");
      assert [n] == init + [n];
      assert CrumbPath([n]) == "/" + n;
    } else {
      var last := init[|init| - 1];
      CrumbPathLastChar(init);
      assert last[|last| - 1] in last;
      LastCharNotSlash(CrumbPath(init));
      CrumbPathSnoc(init, n);
    }
  }

  /** The names of a URL path are components that hold no separator. */
  lemma NamesOfUrlPath(path: string)
    ensures forall i :: 0 <= i < |Normals(path)| ==> IsNormal(Normals(path)[i]) && '/' !in Normals(path)[i]
  {
    SegmentsHaveNoSeparator(path);
    forall i | 0 <= i < |Normals(path)|
      ensures '/' !in Normals(path)[i]
    {
      var n := Normals(path)[i];
      assert n in Normals(path);
      assert n in Segments(path);
    }
  }

  /** `generate_bread_crum`: walk the components, pushing each onto a
      growing path and recording a crumb for it. A URL path has no `..`
      component, the case the source declares unreachable. */
  method GenerateBreadCrumbs(path: UrlPath) returns (crumbs: seq<Crumb>)
    ensures crumbs == BreadCrumbs(path)
  {
    ghost var names := Normals(path);
    NamesOfUrlPath(path);
    var components := Components(path);
    ComponentsAt(path);
    crumbs := [];
    var current := "";
    var i := 0;
    while i < |components|
      invariant 0 <= i <= |components|
      invariant |crumbs| == i
      invariant forall k :: 0 <= k < i ==> crumbs[k] == CrumbAt(names, k)
      invariant i > 0 ==> current == CrumbPath(names[..i - 1])
      decreases |components| - i
    {
      match components[i] {
        case RootDir =>
          RootCrumb(names);
          current := "/";
          crumbs := crumbs + [Crumb("/", current)];
        case Normal(n) =>
          assert n == names[i - 1];
          CrumbStep(names, i, current);
          current := PushPath(current, n);
          crumbs := crumbs + [Crumb(n, current)];
      }
      i := i + 1;
    }
    BreadCrumbsAt(path, crumbs);
  }

  /** Pushing the `i`-th name onto the path of the crumb before it gives
      the path of the `i`-th crumb. */
  lemma CrumbStep(names: seq<string>, i: nat, current: string)
    requires 0 < i <= |names|
    requires forall k :: 0 <= k < |names| ==> IsNormal(names[k]) && '/' !in names[k]
    requires current == CrumbPath(names[..i - 1])
    ensures PushPath(current, names[i - 1]) == CrumbPath(names[..i])
    ensures Crumb(names[i - 1], PushPath(current, names[i - 1])) == CrumbAt(names, i)
  {
    var init := names[..i - 1];
    assert names[..i] == init + [names[i - 1]];
    if init != [] {
      assert init[|init| - 1] == names[i - 2];
    }
    PushCrumb(init, names[i - 1]);
  }

  lemma ComponentsAt(path: string)
    ensures forall i :: 0 <= i < |Components(path)| ==>
      Components(path)[i] == if i == 0 then RootDir else Normal(Normals(path)[i - 1])
  {
  }

  lemma RootCrumb(names: seq<string>)
    ensures CrumbPath(names[..0]) == "/"
    ensures CrumbAt(names, 0) == Crumb("/", "/")
  {
    assert names[..0] == [];
  }

  lemma BreadCrumbsAt(path: string, crumbs: seq<Crumb>)
    requires |crumbs| == |Normals(path)| + 1
    requires forall k :: 0 <= k < |crumbs| ==> crumbs[k] == CrumbAt(Normals(path), k)
    ensures crumbs == BreadCrumbs(path)
  {
  }

  /** Each crumb's path leads to the next one's. */
  lemma CrumbsNest(path: string, k: nat)
    requires k + 1 < |BreadCrumbs(path)|
    ensures BreadCrumbs(path)[k].path <= BreadCrumbs(path)[k + 1].path
  {
    var names := Normals(path);
    assert names[..k + 1] == names[..k] + [names[k]];
    if k > 0 {
      JoinSnoc(names[..k], names[k], "/");
    }
  }

  lemma {:induction false} KeepNormalAll(names: seq<string>)
    requires forall i :: 0 <= i < |names| ==> IsNormal(names[i])
    ensures KeepNormal(names) == names
    decreases |names|
  {
    if names != [] {
      KeepNormalAll(names[1..]);
      assert names == [names[0]] + names[1..];
    }
  }

  /** A crumb path has exactly the names it was built from. */
  lemma CrumbPathNormals(names: seq<string>)
    requires forall i :: 0 <= i < |names| ==> IsNormal(names[i]) && '/' !in names[i]
    ensures Normals(CrumbPath(names)) == names
  {
    var joined := Join(names, "/");
    assert CrumbPath(names) == [] + ['/'] + joined;
    SplitAround([], joined, '/');
    assert Segments(CrumbPath(names)) == [""] + Split(joined, '/');
    KeepNormalAppend([""], Split(joined, '/'));
    if names == [] {
      assert Split(joined, '/') == [""];
    } else {
      SplitJoin(names, '/');
      KeepNormalAll(names);
    }
  }

  /** The first crumb links to the root. */
  lemma FirstCrumbIsRoot(path: string)
    ensures BreadCrumbs(path)[0] == Crumb("/", "/")
  {
    RootCrumb(Normals(path));
  }

  /** The last crumb links to the listed directory itself: its path has
      the same components as the request path. */
  lemma LastCrumbIsPath(path: string)
    ensures var crumbs := BreadCrumbs(path);
      Normals(crumbs[|crumbs| - 1].path) == Normals(path)
  {
    var names := Normals(path);
    NamesOfUrlPath(path);
    assert names[..|names|] == names;
    CrumbPathNormals(names);
  }
}
