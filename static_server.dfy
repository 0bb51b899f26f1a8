/** The static file server: a handler that resolves URL paths against a
    root directory, either serving files only or also listing directories
    and serving the embedded assets of the listing page, and the three
    interceptors it is deployed with. The filesystem, the embedded assets,
    the MIME table and the template engine are inputs. */
module StaticServer {
  import opened Wrappers
  import opened Text
  import opened Vocabulary
  import opened Messages
  import opened Paths
  import opened Listing
  import Pipeline

  // ---------------------------------------------------------------------
  // Inputs
  // ---------------------------------------------------------------------

  /** What a path names on disk. A file's content is `None` when reading
      it fails. */
  datatype Node = RegularFile(content: Option<seq<byte>>) | Directory(entries: seq<DirEntry>)

  /** The filesystem: nodes by the components of their path. */
  type Fs = map<seq<string>, Node>

  /** The embedded assets by path. Each has an extension, which the server
      reads to choose its content type. */
  type Assets = m: map<string, seq<byte>> | forall k {:trigger m[k]} :: k in m ==> PathExtension(k).Some? witness map[]

  /** `TemplateDirCtx`: what the directory template is rendered from. */
  datatype DirCtx = DirCtx(isRoot: bool, dir: string, breadCrumbs: seq<Crumb>, files: seq<EntryCtx>)

  /** The world the handler runs in: the filesystem, the embedded assets,
      the MIME table (`mime_guess` with its `text/plain` fallback), the
      directory template, and the `url` crate's reading of a `host` header
      value and a request target as a URL path. */
  datatype Site = Site(
    fs: Fs,
    assets: Assets,
    mimeByExt: string -> string,
    render: DirCtx -> string,
    urlPath: (string, string) -> UrlPath)

  /** `Request::url` then `Url::path`: the `url` crate reads
      `http://<host><target>`, so the `host` header takes part in the path
      along with the request target. */
  function RequestPath(site: Site, q: Request): UrlPath {
    site.urlPath(if "host" in q.headers then q.headers["host"] else "", q.uri)
  }

  const INDEX_FILE_NAME: string := "index.html"
  const CONTENT_TYPE: string := "Content-Type"
  const HTML: string := "text/html; charset=utf-8"
  const NO_ROOT: string := "Path doesn't exists in the system!"
  const ROOT_NOT_DIR: string := "Path is not a directory!"

  // ---------------------------------------------------------------------
  // The handler
  // ---------------------------------------------------------------------

  datatype StaticFileHandler = StaticFileHandler(root: seq<string>, isBrowsable: bool)

  /** `StaticFileHandler::new`: the root must exist and be a directory. */
  function NewHandler(fs: Fs, root: seq<string>, browsable: bool): (r: Result<StaticFileHandler, string>)
    ensures r.Success? <==> root in fs && fs[root].Directory?
    ensures r.Success? ==> r.value.root == root && r.value.isBrowsable == browsable
    ensures root !in fs ==> r == Failure(NO_ROOT)
    ensures root in fs && fs[root].RegularFile? ==> r == Failure(ROOT_NOT_DIR)
  {
    if root !in fs then Failure(NO_ROOT)
    else if !fs[root].Directory? then Failure(ROOT_NOT_DIR)
    else Success(StaticFileHandler(root, browsable))
  }

  /** The root joined with the request path less its leading `/`: the
      root's components followed by the path's. */
  function Target(h: StaticFileHandler, path: string): seq<string> {
    h.root + Normals(path)
  }

  /** `FileMatch`; `Missing` is the source's `NotFound`. */
  datatype FileMatch = File(content: Option<seq<byte>>) | Redirect(location: string) | Missing

  /** `match_file`: nothing there, a directory (sent on to its index file,
      never listed), or a file. */
  function MatchFile(h: StaticFileHandler, fs: Fs, path: string): FileMatch {
    var target := Target(h, path);
    if target !in fs then Missing
    else match fs[target]
      case Directory(_) => Redirect(PushPath(path, INDEX_FILE_NAME))
      case RegularFile(content) => File(content)
  }

  /** Which of the three a path matches is decided by what its target is. */
  lemma MatchFileCases(h: StaticFileHandler, fs: Fs, path: string)
    ensures var m := MatchFile(h, fs, path);
      && (m.Missing? <==> Target(h, path) !in fs)
      && (m.Redirect? <==> Target(h, path) in fs && fs[Target(h, path)].Directory?)
      && (m.File? ==> Target(h, path) in fs && fs[Target(h, path)] == RegularFile(m.content))
  {
  }

  /** `mime_by_path`: the MIME type of the path's extension, `text/plain`
      when it has none. */
  function MimeByPath(mimeByExt: string -> string, path: string): string {
    match PathExtension(path)
    case None => "text/plain"
    case Some(ext) => mimeByExt(ext)
  }

  /** A 200 carrying `body` as `contentType`, under the lower-case name
      `add_header` files it under. */
  function Content(contentType: string, body: seq<byte>): (r: Response)
    ensures r.status == Ok && r.body == body
    ensures r.headers.Keys == {"content-type"} && r.headers["content-type"] == contentType
  {
    Response(Ok, map["content-type" := contentType], body)
  }

  /** `Content` is the fresh 200 with the content type added, then the
      body. */
  lemma ContentIsAddHeader(contentType: string, body: seq<byte>)
    ensures Content(contentType, body) == AddBody(AddHeader(NewResponse(Ok), CONTENT_TYPE, contentType), body)
  {
    assert ToLower(CONTENT_TYPE) == "content-type";
  }

  /** `solve_file_request`: serve the file the path names. */
  function SolveFileRequest(h: StaticFileHandler, site: Site, path: string): Response {
    match MatchFile(h, site.fs, path)
    case Redirect(location) => RedirectResponse(location)
    case Missing => NotFoundResponse()
    case File(None) => NewResponse(InternalServerError)
    case File(Some(body)) => Content(MimeByPath(site.mimeByExt, path), body)
  }

  /** The status of a file request says what the target is: missing (404),
      a directory (301), a file that cannot be read (500), or a file (200);
      only a 200 carries a body. */
  lemma FileStatuses(h: StaticFileHandler, site: Site, path: string)
    ensures var r := SolveFileRequest(h, site, path);
      && r.status in {Ok, MovedPermanently, NotFound, InternalServerError}
      && (r.status == NotFound <==> Target(h, path) !in site.fs)
      && (r.status == MovedPermanently <==> Target(h, path) in site.fs && site.fs[Target(h, path)].Directory?)
      && (r.status == InternalServerError <==>
           Target(h, path) in site.fs && site.fs[Target(h, path)] == RegularFile(None))
      && (r.status != Ok ==> r.body == [])
  {
    MatchFileCases(h, site.fs, path);
  }

  /** The template context of a directory listing. */
  function ListingContext(site: Site, path: string, entries: seq<DirEntry>): DirCtx {
    DirCtx(Trim(path) == "/", path, BreadCrumbs(path), Listing.Listing(entries, site.mimeByExt))
  }

  /** An embedded asset, labelled with its extension's type, or a 404. */
  function AssetResponse(site: Site, path: string): Response {
    var key := AssetKey(path);
    if key in site.assets then Content(site.mimeByExt(PathExtension(key).value), site.assets[key])
    else NotFoundResponse()
  }

  /** The listing page of a directory. */
  function ListingResponse(site: Site, path: string, entries: seq<DirEntry>): (r: Response)
    ensures r.status == Ok
  {
    Content(HTML, Utf8(site.render(ListingContext(site, path, entries))))
  }

  /** A path outside `/__internal/`: nothing there, a file as
      `solve_file_request` serves it, or a directory, redirected to its
      `/`-terminated path and listed under it. */
  function PathResponse(h: StaticFileHandler, site: Site, path: string): Response {
    var target := Target(h, path);
    if target !in site.fs then NotFoundResponse()
    else match site.fs[target]
      case RegularFile(_) => SolveFileRequest(h, site, path)
      case Directory(entries) =>
        if !EndsWith(path, "/") then RedirectResponse(path + "/")
        else ListingResponse(site, path, entries)
  }

  /** `solve_browsable_request`. */
  function BrowsableResponse(h: StaticFileHandler, site: Site, path: string): Response {
    if IsInternal(path) then AssetResponse(site, path) else PathResponse(h, site, path)
  }

  /** An asset request is answered with the asset or with a 404. */
  lemma AssetStatuses(site: Site, path: string)
    ensures var r := AssetResponse(site, path);
      && r.status in {Ok, NotFound}
      && (r.status == Ok <==> AssetKey(path) in site.assets)
  {
  }

  /** Outside `/__internal/` the status says what the target is, and a
      directory is redirected only when the path lacks its trailing `/`. */
  lemma PathStatuses(h: StaticFileHandler, site: Site, path: string)
    ensures var r := PathResponse(h, site, path);
      && r.status in {Ok, MovedPermanently, NotFound, InternalServerError}
      && (r.status == NotFound <==> Target(h, path) !in site.fs)
      && (r.status == MovedPermanently <==>
           Target(h, path) in site.fs && site.fs[Target(h, path)].Directory? && !EndsWith(path, "/"))
      && (r.status == InternalServerError <==>
           Target(h, path) in site.fs && site.fs[Target(h, path)] == RegularFile(None))
  {
    FileStatuses(h, site, path);
  }

  /** The browsable mode answers 404 exactly when the asset or the target
      is missing. */
  lemma BrowsableStatuses(h: StaticFileHandler, site: Site, path: string)
    ensures var r := BrowsableResponse(h, site, path);
      && r.status in {Ok, MovedPermanently, NotFound, InternalServerError}
      && (r.status == NotFound <==>
           if IsInternal(path) then AssetKey(path) !in site.assets else Target(h, path) !in site.fs)
  {
    AssetStatuses(site, path);
    PathStatuses(h, site, path);
  }

  /** The browsable handler as the source computes it. */
  method SolveBrowsableRequest(h: StaticFileHandler, site: Site, path: UrlPath) returns (r: Response)
    ensures r == BrowsableResponse(h, site, path)
  {
    if IsInternal(path) {
      var key := AssetKey(path);
      if key in site.assets {
        var ext := PathExtension(key).value;
        r := Content(site.mimeByExt(ext), site.assets[key]);
      } else {
        r := NotFoundResponse();
      }
    } else {
      r := ServePath(h, site, path);
    }
  }

  method ServePath(h: StaticFileHandler, site: Site, path: UrlPath) returns (r: Response)
    ensures r == PathResponse(h, site, path)
  {
    var target := Target(h, path);
    if target !in site.fs {
      return NotFoundResponse();
    }
    match site.fs[target] {
      case RegularFile(_) =>
        r := SolveFileRequest(h, site, path);
      case Directory(entries) =>
        if !EndsWith(path, "/") {
          r := RedirectResponse(path + "/");
        } else {
          r := ListDirectory(site, path, entries);
        }
    }
  }

  /** The listing page as the source builds it: the entries read one by
      one and sorted, the breadcrumbs built component by component, the
      template rendered. */
  method ListDirectory(site: Site, path: UrlPath, entries: seq<DirEntry>) returns (r: Response)
    ensures r == ListingResponse(site, path, entries)
  {
    var files := ReadListing(entries, site.mimeByExt);
    var crumbs := GenerateBreadCrumbs(path);
    var context := DirCtx(Trim(path) == "/", path, crumbs, files);
    r := Content(HTML, Utf8(site.render(context)));
  }

  /** `solve_request`: the mode decides; the handler never fails. */
  function SolveRequest(h: StaticFileHandler, site: Site, q: Request): (r: Result<Response, string>)
    ensures r.Success?
  {
    var path := RequestPath(site, q);
    if h.isBrowsable then Success(BrowsableResponse(h, site, path))
    else Success(SolveFileRequest(h, site, path))
  }

  /** The handler as the server holds it. */
  function Handler(h: StaticFileHandler, site: Site): Pipeline.Handler {
    q => SolveRequest(h, site, q)
  }

  // Properties of the handler

  /** A served file is sent whole, labelled with its extension's type. */
  lemma ServedFileIsWhole(h: StaticFileHandler, site: Site, path: string, body: seq<byte>)
    requires Target(h, path) in site.fs && site.fs[Target(h, path)] == RegularFile(Some(body))
    ensures var r := SolveFileRequest(h, site, path);
      r.status == Ok && r.body == body
      && r.headers.Keys == {"content-type"} && r.headers["content-type"] == MimeByPath(site.mimeByExt, path)
  {
    assert MatchFile(h, site.fs, path) == File(Some(body));
  }

  /** A directory request is redirected to the directory's index file: a
      URL path one component longer, which names the index file inside
      the directory. */
  lemma RedirectLeadsToIndex(h: StaticFileHandler, fs: Fs, path: UrlPath)
    requires MatchFile(h, fs, path).Redirect?
    ensures var location := MatchFile(h, fs, path).location;
      && IsUrlPath(location)
      && Target(h, location) == Target(h, path) + [INDEX_FILE_NAME]
  {
    assert MatchFile(h, fs, path).location == PushPath(path, INDEX_FILE_NAME);
    IndexPathTarget(h, path);
  }

  lemma IndexPathTarget(h: StaticFileHandler, path: UrlPath)
    ensures IsUrlPath(PushPath(path, INDEX_FILE_NAME))
    ensures Target(h, PushPath(path, INDEX_FILE_NAME)) == Target(h, path) + [INDEX_FILE_NAME]
  {
    IndexFileName();
    PushPathIsUrlPath(path, INDEX_FILE_NAME);
    PushPathNormals(path, INDEX_FILE_NAME);
    assert Target(h, PushPath(path, INDEX_FILE_NAME)) == h.root + (Normals(path) + [INDEX_FILE_NAME]);
  }

  lemma IndexFileName()
    ensures IsNormal(INDEX_FILE_NAME) && INDEX_FILE_NAME != ".." && '/' !in INDEX_FILE_NAME
  {
  }

  /** The root of a handler that was built is a directory, so the site's
      root URL redirects to `/index.html`. */
  lemma RootRedirectsToIndex(fs: Fs, root: seq<string>, browsable: bool)
    requires NewHandler(fs, root, browsable).Success?
    ensures MatchFile(NewHandler(fs, root, browsable).value, fs, "/") == Redirect("/" + INDEX_FILE_NAME)
  {
    RootPath();
    assert Target(NewHandler(fs, root, browsable).value, "/") == root;
  }

  /** The root URL path: no components, not internal, `/`-terminated. */
  lemma RootPath()
    ensures Normals("/") == [] && !IsInternal("/")
    ensures EndsWith("/", "/") && Trim("/") == "/"
  {
    assert Segments("/") == ["", ""];
    assert "/"[0..] == "/";
  }

  /** A URL path holds no whitespace, so the listing is the root listing
      exactly when the path is `/`. */
  lemma IsRootExactly(site: Site, path: string, entries: seq<DirEntry>)
    requires NoWhitespace(path)
    ensures ListingContext(site, path, entries).isRoot <==> path == "/"
  {
    if path != [] {
      assert !IsWhitespace(path[0]) && !IsWhitespace(path[|path| - 1]);
    }
    assert TrimStart(path) == path;
  }

  /** An embedded asset is sent whole, labelled with its extension's
      type. */
  lemma AssetIsServed(h: StaticFileHandler, site: Site, path: string)
    requires IsInternal(path) && AssetKey(path) in site.assets
    ensures var r := BrowsableResponse(h, site, path);
      var key := AssetKey(path);
      r.status == Ok && r.body == site.assets[key]
      && r.headers.Keys == {"content-type"} && r.headers["content-type"] == site.mimeByExt(PathExtension(key).value)
  {
  }

  /** Outside `/__internal/`, a file is served exactly as in the plain
      mode. */
  lemma BrowsableFileIsPlain(h: StaticFileHandler, site: Site, path: string)
    requires !IsInternal(path) && Target(h, path) in site.fs && site.fs[Target(h, path)].RegularFile?
    ensures BrowsableResponse(h, site, path) == SolveFileRequest(h, site, path)
  {
  }

  /** Following the trailing-slash redirect of a directory lists it. */
  lemma SlashRedirectLists(h: StaticFileHandler, site: Site, path: UrlPath)
    requires !IsInternal(path) && !EndsWith(path, "/")
    requires Target(h, path) in site.fs && site.fs[Target(h, path)].Directory?
    ensures BrowsableResponse(h, site, path) == RedirectResponse(path + "/")
    ensures IsUrlPath(path + "/")
    ensures var entries := site.fs[Target(h, path)].entries;
      BrowsableResponse(h, site, path + "/")
        == Content(HTML, Utf8(site.render(ListingContext(site, path + "/", entries))))
  {
    SlashIsUrlPath(path);
    SlashKeepsNormals(path);
    assert EndsWith(path + "/", "/") by {
      assert (path + "/")[|path + "/"| - 1..] == "/";
    }
  }

  /** The listing of a directory shows each of its entries once, in
      listing order, under crumbs that lead from the root to it. */
  lemma ListingShowsDirectory(site: Site, path: string, entries: seq<DirEntry>)
    ensures var ctx := ListingContext(site, path, entries);
      && multiset(ctx.files) == multiset(EntriesOf(entries, site.mimeByExt))
      && Sorted(ctx.files)
      && ctx.breadCrumbs[0] == Crumb("/", "/")
      && Normals(ctx.breadCrumbs[|ctx.breadCrumbs| - 1].path) == Normals(path)
  {
    FirstCrumbIsRoot(path);
    LastCrumbIsPath(path);
  }

  /** The root of a browsable handler that was built is listed at `/`. */
  lemma RootIsListed(fs: Fs, root: seq<string>, site: Site)
    requires NewHandler(fs, root, true).Success? && site.fs == fs
    ensures var h := NewHandler(fs, root, true).value;
      var ctx := ListingContext(site, "/", fs[root].entries);
      && BrowsableResponse(h, site, "/") == Content(HTML, Utf8(site.render(ctx)))
      && ctx.isRoot
  {
    var h := NewHandler(fs, root, true).value;
    RootPath();
    assert Target(h, "/") == root;
    DirectoryIsListed(h, site, "/");
  }

  /** A `/`-terminated path naming a directory is answered with its
      listing. */
  lemma DirectoryIsListed(h: StaticFileHandler, site: Site, path: string)
    requires !IsInternal(path) && EndsWith(path, "/")
    requires Target(h, path) in site.fs && site.fs[Target(h, path)].Directory?
    ensures BrowsableResponse(h, site, path) == ListingResponse(site, path, site.fs[Target(h, path)].entries)
  {
  }

  // ---------------------------------------------------------------------
  // Interceptors
  // ---------------------------------------------------------------------

  /** `ALLOWED_METHODS`. */
  const ALLOWED_METHODS: set<Method> := {Get, Head, Options}

  /** The order a `HashSet` of the allowed methods yields them in: any
      arrangement of the three. */
  type AllowedOrder = o: seq<Method> | multiset(o) == multiset{Get, Head, Options} witness [Get, Head, Options]

  /** An element counted once occurs once. */
  lemma CountedOnce<T>(s: seq<T>, i: nat, j: nat)
    requires i < j < |s| && multiset(s)[s[i]] <= 1
    ensures s[i] != s[j]
  {
    assert s == s[..j] + [s[j]] + s[j + 1..];
    assert s[i] == s[..j][i];
    assert multiset(s)[s[i]] >= multiset(s[..j])[s[i]] + multiset([s[j]])[s[i]];
  }

  lemma AllowedOrderEnumerates(order: AllowedOrder)
    ensures IsEnumeration(order, ALLOWED_METHODS)
  {
    var m := multiset(order);
    forall x
      ensures x in ALLOWED_METHODS <==> x in order
    {
      assert x in order <==> x in m;
    }
    forall i, j | 0 <= i < j < |order|
      ensures order[i] != order[j]
    {
      CountedOnce(order, i, j);
    }
  }

  /** `OnlyGetReqInterceptor`: reads pass untouched, `OPTIONS` is answered
      with the allowed methods, anything else with 405. */
  function OnlyGet(order: AllowedOrder, q: Request): (f: Pipeline.Flow)
    ensures (q.verb == Get || q.verb == Head) <==> f == Pipeline.Continue(q)
    ensures q.verb == Options ==> f.Break? && f.response.status == NoContent
    ensures q.verb !in ALLOWED_METHODS ==> f == Pipeline.Break(NewResponse(MethodNotAllowed))
  {
    match q.verb
    case Get => Pipeline.Continue(q)
    case Head => Pipeline.Continue(q)
    case Options =>
      AllowedOrderEnumerates(order);
      Pipeline.Break(AllowedResponse(ALLOWED_METHODS, order))
    case _ => Pipeline.Break(NewResponse(MethodNotAllowed))
  }

  /** The answer to `OPTIONS` names GET, HEAD and OPTIONS, each once. */
  lemma OptionsNamesAllowedMethods(order: AllowedOrder, q: Request)
    requires q.verb == Options
    ensures var names := Split(OnlyGet(order, q).response.headers["Allowed"], ',');
      |names| == 3 && ListsEachOnce(names, ALLOWED_METHODS)
  {
    AllowedOrderEnumerates(order);
    AllowedMethodsCount();
    assert OnlyGet(order, q).response == AllowedResponse(ALLOWED_METHODS, order);
    AllowedListsEachMethodOnce(ALLOWED_METHODS, order);
  }

  lemma AllowedMethodsCount()
    ensures |ALLOWED_METHODS| == 3
  {
    assert ALLOWED_METHODS == {Get} + {Head} + {Options};
  }

  function OnlyGetInterceptor(order: AllowedOrder): Pipeline.RequestInterceptor {
    q => OnlyGet(order, q)
  }

  /** Behind the method filter the handler sees GET and HEAD requests only,
      and answers nothing else. */
  lemma FilterGuardsHandler(order: AllowedOrder, handler: Pipeline.Handler, other: Pipeline.Handler,
                            chain: seq<Pipeline.ResponseInterceptor>, q: Request)
    requires q.verb != Get && q.verb != Head
    ensures Pipeline.Exchange([OnlyGetInterceptor(order)], handler, chain, q)
         == Pipeline.Exchange([OnlyGetInterceptor(order)], other, [], q)
  {
    Pipeline.SingleRequestInterceptor(OnlyGetInterceptor(order), q);
  }

  /** `NoBodyOnHeadResInterceptor`: a HEAD request's response loses its
      body, as RFC 9110 section 9.3.2 requires; any other passes. */
  function NoBodyOnHead(q: Request, r: Response): (r': Response)
    ensures r'.status == r.status && r'.headers == r.headers
    ensures q.verb == Head ==> r'.body == []
    ensures q.verb != Head ==> r' == r
  {
    if q.verb == Head then CleanBody(r) else r
  }

  /** `NotFoundRenderResInterceptor`: a 404 gets the rendered not-found
      page as its body; any other response passes. */
  function NotFoundRender(page: string, q: Request, r: Response): (r': Response)
    ensures r'.status == r.status && r'.headers == r.headers
    ensures r.status == NotFound ==> r'.body == Utf8(page)
    ensures r.status != NotFound ==> r' == r
  {
    if r.status == NotFound then AddBody(r, Utf8(page)) else r
  }

  function NoBodyOnHeadInterceptor(): Pipeline.ResponseInterceptor {
    (q, r) => NoBodyOnHead(q, r)
  }

  function NotFoundRenderInterceptor(page: string): Pipeline.ResponseInterceptor {
    (q, r) => NotFoundRender(page, q, r)
  }

  /** A GET or HEAD request passes the method filter unchanged, on to the
      handler and the response interceptors. */
  lemma PassesFilter(order: AllowedOrder, handler: Pipeline.Handler,
                     chain: seq<Pipeline.ResponseInterceptor>, q: Request)
    requires q.verb == Get || q.verb == Head
    ensures Pipeline.Exchange([OnlyGetInterceptor(order)], handler, chain, q)
         == Pipeline.RunResponseChain(chain, q, Pipeline.HandlerResponse(handler, q))
  {
    Pipeline.SingleRequestInterceptor(OnlyGetInterceptor(order), q);
  }

  /** The two body interceptors never touch status or headers, in either
      order. */
  lemma BodyInterceptorsKeepHead(page: string, q: Request, r: Response)
    ensures var a := Pipeline.RunResponseChain(ExampleResponseChain(page), q, r);
      var b := Pipeline.RunResponseChain(HeadSafeResponseChain(page), q, r);
      a.status == b.status == r.status && a.headers == b.headers == r.headers
  {
    Pipeline.TwoResponseInterceptors(NoBodyOnHeadInterceptor(), NotFoundRenderInterceptor(page), q, r);
    Pipeline.TwoResponseInterceptors(NotFoundRenderInterceptor(page), NoBodyOnHeadInterceptor(), q, r);
  }

  // ---------------------------------------------------------------------
  // The deployment of the static file server example
  // ---------------------------------------------------------------------

  /** The response interceptors in the order the example pushes them:
      the body is dropped for HEAD first, then a 404 gets its page. */
  function ExampleResponseChain(page: string): seq<Pipeline.ResponseInterceptor> {
    [NoBodyOnHeadInterceptor(), NotFoundRenderInterceptor(page)]
  }

  /** The same two in the order that keeps HEAD responses empty. */
  function HeadSafeResponseChain(page: string): seq<Pipeline.ResponseInterceptor> {
    [NotFoundRenderInterceptor(page), NoBodyOnHeadInterceptor()]
  }

  /** The example server as built: the method filter, then the two body
      interceptors in the order pushed. */
  method ExampleServer(bind: string, h: StaticFileHandler, site: Site, order: AllowedOrder, page: string)
    returns (server: Pipeline.Server)
    ensures server.handler == Handler(h, site)
    ensures server.requestChain == [OnlyGetInterceptor(order)]
    ensures server.responseChain == ExampleResponseChain(page)
  {
    server := new Pipeline.Server(bind, Handler(h, site));
    server.PushRequestInterceptor(OnlyGetInterceptor(order));
    server.PushResponseInterceptor(NoBodyOnHeadInterceptor());
    server.PushResponseInterceptor(NotFoundRenderInterceptor(page));
  }

  lemma Utf8NonEmpty(s: string)
    requires s != ""
    ensures Utf8(s) != []
  {
  }

  /** A request for a missing target outside `/__internal/` is answered
      with a bare 404 in either mode. */
  lemma MissingIsNotFound(h: StaticFileHandler, site: Site, q: Request)
    requires !IsInternal(RequestPath(site, q)) && Target(h, RequestPath(site, q)) !in site.fs
    ensures Pipeline.HandlerResponse(Handler(h, site), q) == NotFoundResponse()
  {
    var path := RequestPath(site, q);
    assert SolveFileRequest(h, site, path) == NotFoundResponse();
    assert BrowsableResponse(h, site, path) == NotFoundResponse();
  }

  /** As deployed, a HEAD request for a path that does not exist is
      answered with the not-found page as its body. */
  lemma ExampleHeadNotFoundHasBody(h: StaticFileHandler, site: Site, order: AllowedOrder,
                                   page: string, q: Request)
    requires q.verb == Head && page != ""
    requires !IsInternal(RequestPath(site, q)) && Target(h, RequestPath(site, q)) !in site.fs
    ensures var r := Pipeline.Exchange([OnlyGetInterceptor(order)], Handler(h, site), ExampleResponseChain(page), q);
      r.status == NotFound && r.body == Utf8(page) && r.body != []
  {
    Utf8NonEmpty(page);
    PassesFilter(order, Handler(h, site), ExampleResponseChain(page), q);
    MissingIsNotFound(h, site, q);
    var handled := Pipeline.HandlerResponse(Handler(h, site), q);
    Pipeline.TwoResponseInterceptors(NoBodyOnHeadInterceptor(), NotFoundRenderInterceptor(page), q, handled);
  }

  /** In the head-safe order every HEAD response is empty. */
  lemma HeadSafeHeadIsEmpty(page: string, q: Request, r: Response)
    requires q.verb == Head
    ensures Pipeline.RunResponseChain(HeadSafeResponseChain(page), q, r).body == []
  {
    Pipeline.TwoResponseInterceptors(NotFoundRenderInterceptor(page), NoBodyOnHeadInterceptor(), q, r);
  }

  /** The handler never reads the request method. */
  lemma HandlerIgnoresMethod(h: StaticFileHandler, site: Site, q: Request, verb: Method)
    ensures Handler(h, site)(q.(verb := verb)) == Handler(h, site)(q)
  {
  }

  /** The handler's answer depends on the request only through the URL
      path read from its `host` header and target. */
  lemma HandlerReadsOnlyPath(h: StaticFileHandler, site: Site, q1: Request, q2: Request)
    requires RequestPath(site, q1) == RequestPath(site, q2)
    ensures Handler(h, site)(q1) == Handler(h, site)(q2)
  {
  }

  /** In the head-safe order the server answers HEAD exactly as it answers
      GET for the same target, without the body (RFC 9110 section
      9.3.2). */
  lemma HeadMirrorsGet(h: StaticFileHandler, site: Site, order: AllowedOrder, page: string, q: Request)
    requires q.verb == Head
    ensures Pipeline.Exchange([OnlyGetInterceptor(order)], Handler(h, site), HeadSafeResponseChain(page), q)
         == CleanBody(Pipeline.Exchange([OnlyGetInterceptor(order)], Handler(h, site), HeadSafeResponseChain(page),
                                        q.(verb := Get)))
  {
    var g := q.(verb := Get);
    PassesFilter(order, Handler(h, site), HeadSafeResponseChain(page), q);
    PassesFilter(order, Handler(h, site), HeadSafeResponseChain(page), g);
    HandlerIgnoresMethod(h, site, q, Get);
    var handled := Pipeline.HandlerResponse(Handler(h, site), q);
    assert Pipeline.HandlerResponse(Handler(h, site), g) == handled;
    Pipeline.TwoResponseInterceptors(NotFoundRenderInterceptor(page), NoBodyOnHeadInterceptor(), q, handled);
    Pipeline.TwoResponseInterceptors(NotFoundRenderInterceptor(page), NoBodyOnHeadInterceptor(), g, handled);
  }
}
