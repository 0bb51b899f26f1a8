# httpr in Dafny

This is a model of the core of `httpr`, a small HTTP/1.1 server library written in Rust. The model covers two parts.

**The HTTP layer** (`src/http.rs`):
- the status catalogue and the `Method` enum;
- the request parser;
- the `Response` builders and mutators;
- the response serializer;
- the per-connection pipeline: request interceptors, then the handler, then response interceptors.

**The static file server** (`src/static_server.rs`):
- the `StaticFileHandler`, which resolves URL paths against a root directory;
- in browsable mode, the directory listing (sorted entries and breadcrumbs) and the embedded assets;
- the three interceptors it is deployed with.

The project has nine modules, each in its own file:

| file | module | what it holds |
|---|---|---|
| `wrappers.dfy` | `Wrappers` | `Option` and `Result` |
| `text.dfy` | `Text` | string helpers that mirror Rust's `str` methods: ASCII case mapping, `split_whitespace`, `split_once`, `split`/`join`, `trim`, `usize` parsing and printing, UTF-8 encoding |
| `paths.dfy` | `Paths` | `std::path` on a Unix target: components, `PathBuf::push`, `extension`, the `/__internal/` prefix |
| `vocabulary.dfy` | `Vocabulary` | `HttpStatus` with its code and reason phrase; `Method` with its name and parsing |
| `messages.dfy` | `Messages` | `Request`, `Response`, their builders and mutators |
| `codec.dfy` | `Codec` | the request parser and the response serializer, each as a specification function and as the looping method that the function specifies |
| `pipeline.dfy` | `Pipeline` | the interceptor chains and the handler as a fold; the `Server` class with its interceptor lists |
| `listing.dfy` | `Listing` | the listing order, sorting, and breadcrumbs |
| `static_server.dfy` | `StaticServer` | the handler, the interceptors, and the example deployment |

How the model treats the outside world:
- **The connection.** It is an `Incoming` value: the lines the buffered line reader yields for the head of the message, and the bytes that remain after it.
- **The filesystem.** It is a map from a path's components to a `Node`: a regular file (whose content is `None` when reading it fails) or a directory with its entries.
- **The embedded assets.** They are a map from asset path to bytes.
- **Opaque functions.** The MIME table (`mime_guess` with its `text/plain` fallback) is a function from extension to type. The directory template is a function from the template context to text. The `url` crate's reading of `http://<host><target>` is a function from the `host` header value and the request target to a URL path.
- **Responses.** Rust moves each `Response` and `Request` from stage to stage and never shares one. So they are values here, and every mutator returns the updated message.
- **The server.** It is a class whose methods append to its interceptor lists.

## Model

| member | source | states |
|---|---|---|
| Vocabulary.Code | src/http.rs:30-36 | every status has a code between 100 and 511 |
| Vocabulary.Description | src/http.rs:38-45 | every status has a non-empty reason phrase |
| Vocabulary.CodeRoundTrip | src/http.rs:49-121 | looking up a status's code in the table gives back that status, so each code names exactly one status |
| Vocabulary.CodeInjective | src/http.rs:49-121 | no two statuses share a code |
| Vocabulary.SuccessEntries | src/http.rs:49-121 | OK is (200, "OK") and No Content is (204, "No Content") |
| Vocabulary.RedirectEntries | src/http.rs:49-121 | Moved Permanently is (301, "Moved Permanently") and Not Found is (404, "Not Found") |
| Vocabulary.ErrorEntries | src/http.rs:49-121 | Method Not Allowed is (405, ...) and Internal Server Error is (500, ...) with their reason phrases |
| Vocabulary.Name | src/http.rs:153-166 | a method's display name is a non-empty, upper-case token with no whitespace and no comma |
| Vocabulary.FromName | src/http.rs:153-166 | a name parses to the method that displays as it, and a token that is no method's name is rejected |
| Vocabulary.NameInjective | src/http.rs:153-166 | distinct methods have distinct names |
| Vocabulary.ParseMethodSpec | src/http.rs:220-226 | a token parses to a method exactly when its upper-cased form is that method's name; otherwise parsing fails |
| Vocabulary.ParseMethodRoundTrip | src/http.rs:220-226 | a method's name parses back to it, in upper case and in lower case |
| Text.LowerIsLower | src/http.rs:228 | lower-casing yields lower-case text and leaves lower-case text unchanged |
| Text.UpperForgetsCase | src/http.rs:224 | upper-casing is idempotent and ignores an earlier lower-casing |
| Text.TokensAreWords | src/http.rs:218 | `split_whitespace` yields non-empty tokens with no whitespace |
| Text.TokensOfSpaced | src/http.rs:218 | a word followed by a space is the first token, and the rest is tokenized after it |
| Text.TokensOfWord | src/http.rs:218 | a single word is its only token |
| Text.SplitOnce | src/http.rs:238 | `split_once(": ")` fails exactly when the separator is absent; otherwise it splits at its first occurrence and the parts rebuild the line |
| Text.SplitOnceAtFirst | src/http.rs:238 | a name without ": " followed by ": " and a value splits back into that name and value |
| Text.SplitJoin | src/http.rs:285-289 | joining comma-free names with commas and cutting at the commas gives the names back |
| Text.NatToString | src/http.rs:333 | the decimal rendering of a length is non-empty and all digits |
| Text.DigitsOfNat | src/http.rs:333 | the digits of a number read back as that number |
| Text.ParseUsizeOfNat | src/http.rs:244 | the decimal rendering of any `usize` parses back to it |
| Text.ParseUsizeRejects | src/http.rs:244 | a text with a character that is neither a digit nor a leading `+` does not parse as a `usize` |
| Text.ParseUsize | src/http.rs:244 | a parsed length never exceeds the 64-bit `usize` maximum |
| Text.Utf8Char | src/http.rs:326-336 | a character encodes to 1 to 4 bytes, and ASCII to one byte equal to its code |
| Text.Utf8Append | src/http.rs:326-336 | encoding text piece by piece gives the encoding of the whole |
| Paths.PushPath | src/static_server.rs:111-112 | `PathBuf::push` keeps the base as a prefix |
| Paths.PushPathEndsWithName | src/static_server.rs:111-112 | the pushed name ends the result, and the result is the name alone, with no separator, exactly when the base is empty |
| Paths.PushPathNormals | src/static_server.rs:111-112 | pushing a name adds exactly that component |
| Paths.PushPathIsUrlPath | src/static_server.rs:111-112 | pushing a name onto a URL path gives a URL path |
| Paths.SlashKeepsNormals | src/static_server.rs:212-213 | a trailing `/` changes no component, so the trailing-slash redirect names the same target |
| Paths.SlashIsUrlPath | src/static_server.rs:212-213 | the trailing-slash redirect target is still a URL path |
| Paths.Extension | src/static_server.rs:182-185 | an extension has no dot |
| Paths.LastIndexOf | src/static_server.rs:182-185 | the index found is the last occurrence of the character, and none means the character is absent |
| Messages.NewRequest | src/http.rs:179-186 | a new request keeps method, target and version, with no headers and an empty body |
| Messages.NewResponse | src/http.rs:262-268 | a new response has the given status, no headers and an empty body |
| Messages.NotFoundResponse | src/http.rs:270-272 | `not_found` is a bare 404 |
| Messages.RedirectResponse | src/http.rs:274-282 | `redirect` is a 301 with one `Location` header equal to the path and no body |
| Messages.AllowedResponse | src/http.rs:284-299 | `allowed` is a 204 with one `Allowed` header and no body |
| Messages.AllowedHeaderNames | src/http.rs:284-299 | the `Allowed` value, cut at its commas, is the method names in the set's iteration order |
| Messages.AllowedListsEachMethodOnce | src/http.rs:284-299 | the `Allowed` value lists each method of the set exactly once, each name parses back to its method, and nothing else is listed |
| Messages.EnumerationNames | src/http.rs:285-288 | naming an enumeration of a set lists each member once |
| Messages.NamesCover | src/http.rs:285-288 | a method is in the set exactly when its name is in the list |
| Messages.NamesParse | src/http.rs:285-288 | each listed name parses back to its method |
| Messages.NamesDistinct | src/http.rs:285-288 | the listed names are pairwise distinct |
| Messages.EnumerationSize | src/http.rs:285-288 | an enumeration of a set is as long as the set is large |
| Messages.AddHeader | src/http.rs:305-307 | `add_header` files the value under the lower-cased name, replaces any earlier value there, and leaves status, body and every other header unchanged |
| Messages.AddHeaderLastWins | src/http.rs:305-307 | adding two headers whose names agree up to case keeps only the second |
| Messages.AddBody | src/http.rs:309-311 | `add_body` replaces the body wholesale and changes nothing else |
| Messages.CleanBody | src/http.rs:313-315 | `clean_body` empties the body and changes nothing else |
| Codec.RequestLine | src/http.rs:217-229 | the request line is accepted exactly when it has at least three tokens and the first names a method; an unknown first token is its own error |
| Codec.RequestLineSpaced | src/http.rs:217-229 | "method target version" yields that method, the target verbatim and the version lower-cased |
| Codec.HeaderSection | src/http.rs:233-236 | header lines are taken up to the first empty line or the end of the stream, and none of them is empty |
| Codec.HeaderSectionStops | src/http.rs:233-236 | the header section ends at the first empty line |
| Codec.HeaderMapSnoc | src/http.rs:238-240 | each header line with ": " stores its value under the lower-cased name, replacing an earlier one; a line without it changes nothing |
| Codec.InsertKeys | src/http.rs:238-240 | a name is in the header map exactly when some accepted line names it |
| Codec.InsertLastWins | src/http.rs:238-240 | a repeated name keeps the value of its last line |
| Codec.ReadHeaders | src/http.rs:233-241 | the header loop builds the map that the header section specifies |
| Codec.ParsedBody | src/http.rs:243-248 | without `content-length`, or with a value that is not a `usize`, the body is empty; with a length N the parse succeeds exactly when N bytes remain, and then the body is those N bytes |
| Codec.ParsedRequest | src/http.rs:213-251 | a request parses exactly when its request line is accepted and the announced body is there; its headers are those of the lines before the empty line |
| Codec.ParseRequest | src/http.rs:213-251 | the parser computes the specified request or error |
| Codec.WriteFields | src/http.rs:328-331 | the header loop writes one "name: value" CRLF line per header, visiting each header once in an unspecified order |
| Codec.AsBytes | src/http.rs:317-339 | `as_bytes` is the specified wire form for the order in which the header map is walked; whatever that order, the output starts with the status line and ends with the synthesized `Content-Length` line, an empty line and the body |
| Codec.WireFraming | src/http.rs:317-339 | the output starts with the status line; it ends with the synthesized `Content-Length` line, an empty line and the body; so the body is a suffix |
| Codec.FieldLines | src/http.rs:328-331 | there is one header line per visited header, holding its name and value |
| Codec.FieldBytesAreLines | src/http.rs:328-331 | the header bytes are the encoding of the CRLF-terminated header lines |
| Codec.WireIsHeadLines | src/http.rs:317-339 | the output is the head lines, each CRLF-terminated, then an empty line, then the body |
| Codec.FieldLineRead | src/http.rs:328-331 | a written header line parses back to its lower-cased name and its value |
| Codec.LengthLineRead | src/http.rs:333 | the `Content-Length` line parses back as `content-length` with the body length in decimal |
| Codec.HeaderLinesFields | src/http.rs:317-339 | every written header line, the length line included, parses back to its field |
| Codec.ReadBackKeys | src/http.rs:238-240 | reading the written head back yields exactly `content-length` and the lower-cased header names |
| Codec.ReadBackValue | src/http.rs:238-240 | a header whose lower-cased name no other header shares reads back with its value |
| Codec.HeadReadBack | src/http.rs:317-339 | parsing a serialized head recovers the body length, the lower-cased header names, and each unambiguous header value |
| Codec.StatusLineReadBack | src/http.rs:320-325 | cut into whitespace-separated tokens, the status line gives the protocol version, then the code, which parses as a number that names exactly the response's status, then the words of the reason phrase |
| Codec.StatusTokens | src/http.rs:320-325 | a line of the version, a decimal number and a phrase splits into the version, the number's digits (which parse back to it) and the phrase's words |
| Codec.NotFoundStatusLine | src/http.rs:320-325 | the status line of a 404 is "HTTP/1.1 404 Not Found" |
| Codec.NotFoundHead | src/http.rs:317-339 | a bare 404 is written as its status line and "Content-Length: 0" |
| Listing.CmpTextEqual | src/static_server.rs:65 | names compare equal exactly when they are equal |
| Listing.CmpTextFlip | src/static_server.rs:65 | swapping the names reverses their comparison |
| Listing.CmpTextTransitive | src/static_server.rs:65 | the name order is transitive |
| Listing.DirectoriesFirst | src/static_server.rs:60-67 | a directory sorts before any file |
| Listing.CmpEqual | src/static_server.rs:60-67 | two entries compare equal exactly when both their kinds and their names agree |
| Listing.CmpFlip | src/static_server.rs:60-67 | the entry order is antisymmetric |
| Listing.CmpTransitive | src/static_server.rs:60-67 | the entry order is transitive |
| Listing.InsertEntry | src/static_server.rs:238 | inserting an entry adds exactly that entry |
| Listing.InsertSorted | src/static_server.rs:238 | inserting into a sorted listing keeps it sorted |
| Listing.ConsSorted | src/static_server.rs:238 | an entry no greater than any entry of a sorted listing can go in front of it |
| Listing.SortEntries | src/static_server.rs:238 | `files.sort()` yields a sorted permutation of the entries |
| Listing.SortedIsUnique | src/static_server.rs:238 | two sorted arrangements of the same entries with distinct keys are equal |
| Listing.SortIsCanonical | src/static_server.rs:238 | when names are unique, every sorted permutation is the model's sort, so any sorting algorithm gives the same listing |
| Listing.EntryOf | src/static_server.rs:219-233 | an entry keeps its name and kind, and has a MIME type exactly when its name has an extension |
| Listing.EntriesOf | src/static_server.rs:219-236 | one template entry per directory entry, in read order |
| Listing.ReadListing | src/static_server.rs:217-238 | the read loop and the sort build the specified listing |
| Listing.ListingShowsEachEntry | src/static_server.rs:217-238 | the listing is a permutation of the directory's entries, directories come before files, and entries of one kind are in name order |
| Listing.BreadCrumbs | src/static_server.rs:120-144 | there is one crumb per component of the path, the root included |
| Listing.GenerateBreadCrumbs | src/static_server.rs:120-144 | the breadcrumb loop builds the specified crumbs |
| Listing.CrumbStep | src/static_server.rs:124-137 | pushing the next component onto the current path gives the next crumb |
| Listing.PushCrumb | src/static_server.rs:124 | pushing a name onto a crumb path gives the crumb path with that name added |
| Listing.NamesOfUrlPath | src/static_server.rs:123-139 | every component after the root is a normal name without a separator, so the unreachable arm is never taken |
| Listing.ComponentsAt | src/static_server.rs:123 | the components of a URL path are the root, then its names |
| Listing.RootCrumb | src/static_server.rs:127-131 | the first crumb is named "/" and links to "/" |
| Listing.BreadCrumbsAt | src/static_server.rs:120-144 | a crumb list that has each crumb in its place is the breadcrumb list |
| Listing.CrumbsNest | src/static_server.rs:120-144 | each crumb's path is a prefix of the next one's |
| Listing.CrumbPathNormals | src/static_server.rs:120-144 | a crumb path has exactly the components it was built from |
| Listing.FirstCrumbIsRoot | src/static_server.rs:127-131 | the first crumb of every path is the root crumb |
| Listing.LastCrumbIsPath | src/static_server.rs:120-144 | the last crumb's path has the same components as the listed path |
| Pipeline.HandlerResponse | src/http.rs:415-421 | the handler's response is used as it is, and an error becomes a bare 500 |
| Pipeline.RequestChainAppend | src/http.rs:404-412 | request interceptors run in registration order; a later one sees only what the earlier ones passed on |
| Pipeline.BreakIsFinal | src/http.rs:407-410 | once an interceptor answers, no later request interceptor runs |
| Pipeline.ResponseChainAppend | src/http.rs:424-426 | response interceptors compose in registration order |
| Pipeline.SingleRequestInterceptor | src/http.rs:404-412 | a chain of one request interceptor is that interceptor |
| Pipeline.TwoResponseInterceptors | src/http.rs:424-426 | two response interceptors apply the first, then the second, both seeing the same request |
| Pipeline.EarlyAnswerIsFinal | src/http.rs:407-410 | an early answer is written as it is; neither the handler nor any response interceptor affects it |
| Pipeline.BareExchange | src/http.rs:415-426 | with no interceptors the handler's answer is sent, and a failing handler yields a bare 500 |
| Pipeline.Server.constructor | src/http.rs:350-357 | a new server stores its bind address and handler and has no interceptors |
| Pipeline.Server.PushRequestInterceptor | src/http.rs:359-362 | the interceptor is appended to the request chain; the response chain is unchanged |
| Pipeline.Server.PushResponseInterceptor | src/http.rs:364-367 | the interceptor is appended to the response chain; the request chain is unchanged |
| Pipeline.Server.Serve | src/http.rs:404-426 | the two interceptor loops and the handler compute the specified exchange |
| Pipeline.Server.HandleConnection | src/http.rs:389-430 | an unparseable request is dropped without an answer; otherwise the serialized exchange is written |
| StaticServer.NewHandler | src/static_server.rs:81-96 | construction succeeds exactly when the root is an existing directory; a missing root and a root that is not a directory each fail with their own message; success keeps the root and the flag |
| StaticServer.MatchFileCases | src/static_server.rs:98-118 | a missing target gives NotFound, a directory gives a redirect (never a listing), and a file gives its content |
| StaticServer.RedirectLeadsToIndex | src/static_server.rs:110-114 | the redirect goes to a URL path whose target is the directory's `index.html` |
| StaticServer.IndexPathTarget | src/static_server.rs:111-112 | appending `index.html` to a URL path targets that file inside the path's target |
| StaticServer.IndexFileName | src/static_server.rs:36 | `index.html` is a single normal component |
| StaticServer.RootRedirectsToIndex | src/static_server.rs:98-118 | for a valid handler, the root path redirects to "/index.html" |
| StaticServer.Content | src/static_server.rs:165-169 | a served response is a 200 with exactly one `content-type` header and the given body |
| StaticServer.ContentIsAddHeader | src/static_server.rs:165-169 | that response is a new 200 with the content type added, then the body |
| StaticServer.FileStatuses | src/static_server.rs:146-171 | a file request answers 404 exactly for a missing target, 301 exactly for a directory, 500 exactly for an unreadable file, and 200 otherwise; only a 200 has a body |
| StaticServer.ServedFileIsWhole | src/static_server.rs:158-170 | a readable file is served whole, as a 200 labelled with its path's MIME type |
| StaticServer.AssetStatuses | src/static_server.rs:178-195 | an `/__internal/` request answers 200 exactly when the asset exists, and 404 otherwise |
| StaticServer.AssetIsServed | src/static_server.rs:181-191 | an existing asset is served whole, labelled with its extension's MIME type |
| StaticServer.PathStatuses | src/static_server.rs:197-253 | outside `/__internal/`: 404 exactly for a missing target; 301 exactly for a directory whose path lacks a trailing "/"; 500 exactly for an unreadable file |
| StaticServer.BrowsableStatuses | src/static_server.rs:173-254 | the browsable handler answers 404 exactly when the asset or the target is missing |
| StaticServer.BrowsableFileIsPlain | src/static_server.rs:208-210 | a file is answered exactly as in non-browsable mode |
| StaticServer.SlashRedirectLists | src/static_server.rs:212-253 | a directory path without a trailing "/" redirects to the path plus "/", and that path is listed |
| StaticServer.DirectoryIsListed | src/static_server.rs:217-253 | a directory path ending in "/" is answered with the rendered listing |
| StaticServer.ListingResponse | src/static_server.rs:247-253 | the listing page is a 200 |
| StaticServer.ListingShowsDirectory | src/static_server.rs:217-245 | the listing context holds a sorted permutation of the directory's entries, starts its breadcrumbs at the root, and ends them at the listed path |
| StaticServer.IsRootExactly | src/static_server.rs:241 | `is_root` holds exactly when the path is "/" |
| StaticServer.RootPath | src/static_server.rs:241 | "/" has no components, is not internal, ends in "/" and trims to itself |
| StaticServer.RootIsListed | src/static_server.rs:173-254 | in browsable mode, the root path is listed with `is_root` set |
| StaticServer.SolveBrowsableRequest | src/static_server.rs:173-254 | the browsable handler computes the specified response |
| StaticServer.ServePath | src/static_server.rs:197-253 | the non-asset branch computes the specified response |
| StaticServer.ListDirectory | src/static_server.rs:217-253 | building the listing page computes the specified response |
| StaticServer.SolveRequest | src/static_server.rs:261-267 | the static handler never reports an error |
| StaticServer.HandlerIgnoresMethod | src/static_server.rs:261-267 | the handler never reads the request method |
| StaticServer.HandlerReadsOnlyPath | src/http.rs:203-206 | two requests whose `host` header and target give the same URL path get the same answer |
| StaticServer.MissingIsNotFound | src/static_server.rs:146-205 | in either mode, a missing target outside `/__internal/` is answered with a bare 404 |
| StaticServer.AllowedOrderEnumerates | src/static_server.rs:280 | any iteration order of the allowed-method set lists each allowed method once |
| StaticServer.AllowedMethodsCount | src/static_server.rs:34 | exactly three methods are allowed |
| StaticServer.OnlyGet | src/static_server.rs:275-285 | GET and HEAD pass on unchanged, and only they do; OPTIONS is answered with 204; every other method is answered with a bare 405 |
| StaticServer.OptionsNamesAllowedMethods | src/static_server.rs:279-281 | the answer to OPTIONS lists exactly GET, HEAD and OPTIONS, each once |
| StaticServer.FilterGuardsHandler | src/static_server.rs:275-285 | behind the method filter, a method other than GET or HEAD never reaches the handler or the response interceptors |
| StaticServer.PassesFilter | src/static_server.rs:278 | behind the method filter, GET and HEAD get the handler's answer after the response interceptors |
| StaticServer.NoBodyOnHead | src/static_server.rs:292-300 | the body is emptied for HEAD and untouched otherwise; status and headers never change |
| StaticServer.NotFoundRender | src/static_server.rs:307-315 | a 404 gets the rendered not-found page as its body, anything else is untouched; status and headers never change |
| StaticServer.BodyInterceptorsKeepHead | src/static_server.rs:287-315 | in either order, the two body interceptors keep status and headers |
| StaticServer.ExampleServer | examples/static_file_server.rs:19-22 | the example server has the static handler, the method filter, then NoBodyOnHead and NotFoundRender in that order |
| StaticServer.ExampleHeadNotFoundHasBody | examples/static_file_server.rs:20-22 | as deployed, a HEAD request for a missing path gets a 404 whose body is the not-found page |
| StaticServer.HeadSafeHeadIsEmpty | src/static_server.rs:287-315 | with NotFoundRender before NoBodyOnHead, every HEAD response is empty |
| StaticServer.HeadMirrorsGet | src/static_server.rs:270-315 | in that order, HEAD is answered as GET would be for the same target, without the body |
| Vocabulary.ParseMethod | src/http.rs:220-226 | reference definition of method parsing; stated by Vocabulary.ParseMethodSpec and Vocabulary.ParseMethodRoundTrip |
| Codec.Parse | src/http.rs:213-251 | reference definition of the parser; stated by Codec.ParsedBody and Codec.ParsedRequest, and computed by Codec.ParseRequest |
| Codec.Wire | src/http.rs:317-339 | reference definition of the serializer's output; stated by Codec.WireFraming, Codec.WireIsHeadLines, Codec.HeadReadBack and Codec.StatusLineReadBack, and computed by Codec.AsBytes |
| Listing.Cmp | src/static_server.rs:60-67 | reference definition of the entry order; stated by Listing.DirectoriesFirst, Listing.CmpEqual, Listing.CmpFlip and Listing.CmpTransitive |
| Pipeline.Exchange | src/http.rs:404-426 | reference definition of the pipeline; stated by Pipeline.EarlyAnswerIsFinal and Pipeline.BareExchange, and computed by Pipeline.Server.Serve |
| StaticServer.RequestPath | src/http.rs:203-206 | reference definition of the URL path a request names; stated by StaticServer.HandlerReadsOnlyPath |
| StaticServer.MatchFile | src/static_server.rs:98-118 | reference definition of `match_file`, for any path including the empty one (whose redirect is `index.html` with no leading separator, as `PathBuf::push` gives); stated by StaticServer.MatchFileCases and StaticServer.RedirectLeadsToIndex |
| StaticServer.SolveFileRequest | src/static_server.rs:146-171 | reference definition of `solve_file_request`; stated by StaticServer.FileStatuses and StaticServer.ServedFileIsWhole |
| StaticServer.AssetResponse | src/static_server.rs:178-195 | reference definition of the asset branch; stated by StaticServer.AssetStatuses and StaticServer.AssetIsServed |
| StaticServer.PathResponse | src/static_server.rs:197-253 | reference definition of the non-asset branch; stated by StaticServer.PathStatuses, StaticServer.SlashRedirectLists and StaticServer.DirectoryIsListed, and computed by StaticServer.ServePath |
| StaticServer.BrowsableResponse | src/static_server.rs:173-254 | reference definition of `solve_browsable_request`; stated by StaticServer.BrowsableStatuses and StaticServer.BrowsableFileIsPlain, and computed by StaticServer.SolveBrowsableRequest |
| StaticServer.Handler | src/static_server.rs:261-267 | reference definition of the handler; stated by StaticServer.SolveRequest, StaticServer.HandlerIgnoresMethod and StaticServer.HandlerReadsOnlyPath |
| StaticServer.OnlyGetInterceptor | src/static_server.rs:275-285 | the method filter as a request interceptor, with one set order fixed for every request (the source builds a freshly seeded set on each OPTIONS request, so its order may change between requests; every lemma holds for all orders); stated by StaticServer.OnlyGet, StaticServer.FilterGuardsHandler and StaticServer.PassesFilter |
| StaticServer.NoBodyOnHeadInterceptor | src/static_server.rs:292-300 | the HEAD body stripper as a response interceptor; stated by StaticServer.NoBodyOnHead and StaticServer.HeadSafeHeadIsEmpty |
| StaticServer.NotFoundRenderInterceptor | src/static_server.rs:307-315 | the not-found page as a response interceptor; stated by StaticServer.NotFoundRender and StaticServer.ExampleHeadNotFoundHasBody |

## Left out

- Sockets, the `tokio` accept loop, task spawning and `write_all` (`src/http.rs:369-433` outside the pipeline) are left out because they are I/O and concurrency. A connection is an `Incoming` value, and the written bytes are the result of `Pipeline.Server.HandleConnection`. Logging is left out too.
- Codec.Parse: the parser's panics (no first line, a missing token, an unknown method) and its `Err` results (an I/O error, too few body bytes) are all modelled as `ParseError` failures. Either way the connection is dropped without an answer; the model does not distinguish a panic from an error return. A read error in the middle of the header lines is not modelled.
- StaticServer.RequestPath: `Request::url` wraps the `url` crate, which is not part of this model. The crate is the `urlPath` input of a `Site`; it is given the `host` header value and the request target, and its results are assumed to start with "/" and hold no ".." segment. How a host such as `x?` or `x/sub` changes the path is left to that input.
- StaticServer.RequestPath: the two `unwrap` panics of `Request::url` are not modelled: a missing `host` header, and a host and target the `url` crate rejects. Each ends the connection's task without an answer; the model reads a missing host as the empty host and always answers.
- `Request::method` and `Request::body_string` are not modelled: one is a field read, the other a UTF-8 decode.
- The `Named` trait and `Debug for Server` are left out; they are reflection and log formatting.
- Text.LowerIsLower: case mapping is ASCII-only. Rust's `to_lowercase` and `to_uppercase` are Unicode-aware, so the model's case mapping differs on non-ASCII letters.
- Vocabulary.ParseMethod: because case mapping is ASCII-only, a token that only Unicode upper-casing turns into a method name (such as "poſt", which Rust upper-cases to "POST") is rejected by the model and accepted by the source. The same holds for Vocabulary.ParseMethodSpec and Codec.RequestLine.
- Codec.HeaderMapSnoc: header names are lower-cased ASCII-only, so a name with non-ASCII capitals is stored under a different key than Rust's `to_lowercase` gives. The same holds for Messages.AddHeader.
- `usize` is taken to be 64 bits wide: a `Content-Length` above 2^64-1 fails to parse and gives an empty body.
- Codec.ParsedBody: the announced length is allocated (`request.body.resize`, `src/http.rs:245`) before any byte is read. Allocation failure is not modelled: a length above `isize::MAX` panics with a capacity overflow, and a length the allocator cannot provide aborts the whole server process. The model instead reports `BodyTooShort` and drops only that connection.
- HashMap and HashSet iteration order is unspecified. It is a ghost `order` parameter, or any arrangement (`AllowedOrder`). Codec.AsBytes and Messages.AllowedResponse are stated for every order, not for Rust's actual one.
- StaticServer.OnlyGetInterceptor: the interceptor is built with one set order that every request then sees. The source builds a freshly seeded `HashSet` on each OPTIONS request (`src/static_server.rs:280`), so the order of its `Allowed` value may change from one request to the next. Every lemma about the filter holds for all orders.
- Files: `File::open`, `read_to_end`, `read_dir` and their `expect`/`unwrap` panics are replaced by the filesystem map. An unreadable file is a `RegularFile(None)`. A failing `open` (which panics in the source) and a failing directory read are not modelled. Special files, which are neither regular files nor directories, are not modelled either.
- `mime_by_ext` and `mime_by_path` wrap `mime_guess`. They are modelled through an opaque extension-to-type function with the `text/plain` fallback; `type_by_ext` (a remote lookup behind a cache) is not modelled.
- Handlebars rendering is the opaque `render` function, and the not-found page is a `page` string. Its `unwrap` panics are not modelled.
- StaticServer.Assets: only assets whose path has an extension are modelled, because the source unwraps the extension (`src/static_server.rs:182-185`) and an asset without one would panic.
- Messages.AddHeader: mutators return updated values instead of changing a `Response` in place. No response is ever shared, so no aliasing is lost.
- Listing.SortEntries: `slice::sort` is modelled by an insertion sort. Listing.SortIsCanonical shows that any sort gives the same listing when names are unique, as they are in one directory; the stability of `slice::sort` among equal entries is not modelled.
- StaticServer.ListingResponse: its own contract states only the status. The full page is stated by StaticServer.DirectoryIsListed and StaticServer.ListingShowsDirectory.

## Findings

| source | as written | input that shows it | evidently intended | confidence | as-written member | corrected member |
|---|---|---|---|---|---|---|
| examples/static_file_server.rs:20-22 | NoBodyOnHead is pushed before NotFoundRender. NotFoundRender then fills the body of a 404 after the HEAD body has been emptied | a HEAD request for a path that does not exist, with a non-empty not-found page | a response to HEAD carries no body (RFC 9110 section 9.3.2). This needs NotFoundRender to run before NoBodyOnHead | not executed | StaticServer.ExampleHeadNotFoundHasBody | StaticServer.HeadMirrorsGet |
