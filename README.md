# monikim random-image handler, modelled in Dafny

monikim is a small Go HTTP server. On each request it lists its configured
image directory, keeps the files whose extension is allowed, picks one at random and
either serves it or redirects the client to it. A Referer allow-list can gate the
request, and CORS response headers are written according to the configuration.
The handler is registered for the pattern `/`, which in Go matches every path, so
`/favicon.ico` is answered by the same handler (main.go:153-155).

This project models the decision logic of that handler (`main.go`):

- `GoPath` — the two `path/filepath` functions the handler relies on: `Ext` (the
  suffix from the last `.` of the final path element) and `Join`.
- `Http` — the response header map as a class updated in place by `Set`, and the
  kinds of response a request ends with (403, 500, 404, 302, or the file served).
- `Types` — the configuration, the request headers read (Origin, Referer), directory
  entries and a `Result` for the directory listing.
- `Policy` — `isValidExtension` and `validateReferer`, both built on the same
  early-return search.
- `Cors` — `handleCORS`: the first-match-wins Access-Control-Allow-Origin loop and
  the method and header lists, written the way Go's `%s` prints a `[]string`.
- `Handler` — `serveRandomImage`: the referer gate, the CORS and cache-suppression
  headers, the candidate filter loop, and the choice between redirect and serve.

The directory listing (`os.ReadDir`) is an input value, either a list of entries or
an error. The random draw (`rand.Intn`) is an index parameter that lies within the
candidate list. `ServeRandomImage` is proved against the specification function
`Decide` and the header function `ResponseHeaders`. The lemmas then state what the
handler promises about those two.

In a few places the code does something other than one might expect; the model
follows the code:

- `ParamRedirects` (main.go:28) is never read; the directory is always `ImageDir`
  (`Handler.ParamRedirectsUnused`).
- An empty Referer allow-list admits every request, even with the restriction on.
- A 403 is returned before any header is written, so it has no CORS or cache headers.
- A non-empty method or header list is sent as Go's `%s` rendering of the slice,
  `"[GET POST]"`, not as a comma-separated list (`Cors.ConfiguredMethodsRendering`).
- With an absolute `ImageDir` the redirect target begins with `//`
  (`Handler.AbsoluteImageDirRedirect`).

## Model

| member | source | states |
|---|---|---|
| `GoPath.Ext` | main.go:75 | the extension is a suffix of the name. A non-empty one starts with `.` and holds no further `.` and no `/`. An empty one means every `.` of the name lies before a `/` |
| `GoPath.ExtOfDottedName` | main.go:75 | the extension of base + "." + ext is "." + ext whenever ext has no `.` or `/` |
| `GoPath.NoDotNoExt` | main.go:75 | a name whose final element has no `.` has the empty extension |
| `GoPath.Join` | main.go:138-140 | the joined path ends with the file name, and with a non-empty directory it starts with that directory followed by `/` |
| `Policy.Contains` | main.go:76-81 | the search succeeds iff some element equals the value |
| `Policy.IsValidExtension` | main.go:74-82 | true iff the name's extension equals some allowed entry, compared exactly. An empty allow-list rejects every name |
| `Policy.ValidExtensionOfDottedName` | main.go:74-82 | base + "." + ext passes iff "." + ext is in the allow-list |
| `Policy.ExtensionlessName` | main.go:74-82 | a name with no `.` in its final element passes iff the allow-list contains "" |
| `Policy.ExtensionIsCaseSensitive` | main.go:77 | "cat.jpg" passes `[".jpg"]` and "cat.JPG" does not |
| `Policy.ExampleExtensions` | main.go:74-82 | under `[".jpg", ".png"]`, a.jpg and b.png pass and note.txt does not |
| `Policy.OnlyLastDotCounts` | main.go:75-78 | "a.tar.gz" has extension ".gz": it passes `[".gz"]` and fails `[".tar.gz"]` |
| `Policy.ValidateReferer` | main.go:85-96 | an empty allow-list admits any referer. Otherwise the referer is admitted iff it equals one entry |
| `Policy.RefererMatchIsExact` | main.go:89-93 | neither another host nor a longer URL with an allowed prefix is admitted |
| `Cors.AllowedOrigin` | main.go:52-61 | the origin value is "*" or the request's own Origin, and the Origin only when it is listed |
| `Cors.AllowedOriginFirstMatch` | main.go:55-59 | the value is the earliest entry that is "*" or equals the Origin |
| `Cors.AllowedOriginNoMatch` | main.go:52-61 | with no matching entry, or an empty list, the value is "*" |
| `Cors.FormatList` | main.go:64 | the rendering of a list is bracketed: it starts with `[` and ends with `]` |
| `Cors.FormatListRoundTrip` | main.go:64-68 | for a non-empty list of space-free elements, splitting the inside of the brackets on single spaces gives back the list, in order |
| `Cors.FormatListHasNoComma` | main.go:64-68 | a rendered list of comma-free elements contains no comma |
| `Cors.ConfiguredMethodsRendering` | main.go:62-65 | a configured `["GET", "POST"]` is sent as "[GET POST]" |
| `Cors.SetListHeader` | main.go:62-69 | the key ends up holding the rendered list if it is non-empty, else the default. Nothing else changes |
| `Cors.HandleCors` | main.go:50-71 | the header map afterwards is `CorsHeaders` of the map before: unchanged when CORS is off, otherwise the three keys set |
| `Cors.CorsDisabledLeavesHeaders` | main.go:51 | with CORS disabled the header map is unchanged |
| `Cors.CorsEnabledSetsThreeKeys` | main.go:51-70 | with CORS enabled, exactly the three Access-Control-Allow-* keys are added or overwritten, each with its value, and every other key keeps its value |
| `Handler.Candidates` | main.go:122-127 | the candidate list is no longer than the listing, and each candidate is an eligible entry of the listing |
| `Handler.CandidatesComplete` | main.go:123-126 | every eligible entry of the listing is a candidate |
| `Handler.CandidatesAppend` | main.go:122-127 | the filter distributes over concatenation, so candidates keep listing order |
| `Handler.CandidatesWithBypass` | main.go:124 | with the file-type check disabled, the candidates are exactly the non-directory entries |
| `Handler.NoEligibleNoCandidates` | main.go:122-129 | a listing without an eligible entry gives no candidates |
| `Handler.ThreeEntryListing` | main.go:122-127 | two eligible entries and one ineligible give exactly the two eligible ones, in order |
| `Handler.CollectCandidates` | main.go:122-127 | the loop's `validFiles` is the candidate list of the whole listing |
| `Handler.ServeRandomImage` | main.go:104-142 | the outcome is `Decide`. The header map is untouched on 403 and otherwise becomes the CORS headers followed by the four cache headers |
| `Handler.ForbiddenIffRefererRejected` | main.go:105-108 | 403 iff the restriction is on, the allow-list is non-empty and no entry equals the referer |
| `Handler.ForbiddenIgnoresListing` | main.go:105-116 | a refused request's outcome does not depend on the directory |
| `Handler.RefererIrrelevantUnlessRestricted` | main.go:105-108 | without the restriction, or with an empty allow-list, the referer does not change the outcome and it is never 403 |
| `Handler.ParamRedirectsUnused` | main.go:28 | changing `ParamRedirects` changes neither the outcome nor the headers |
| `Handler.ErrorOutcomes` | main.go:116-132 | past the gate, a listing error gives 500, and no candidates (no eligible entry) gives 404 |
| `Handler.SelectionIsEligible` | main.go:134-141 | a success names an eligible listing entry joined to `ImageDir`. It is a redirect to "/" + that path iff the mode is "redir", else the file served |
| `Handler.SingleCandidateAlwaysChosen` | main.go:134-140 | with a single candidate, that file is the target whatever the draw, in either mode |
| `Handler.AbsoluteImageDirRedirect` | main.go:138 | with an `ImageDir` starting with `/`, the redirect target starts with `//` |
| `Handler.CacheSuppressed` | main.go:110-114 | every response past the gate carries Cache-Control, Expires "0", Pragma "no-cache" and Surrogate-Control "no-store" |
| `Handler.NoCorsHeadersWhenDisabled` | main.go:110-114 | with CORS off, no Access-Control-* key is added to the headers |

## Left out

- `loadConfig` and YAML decoding (main.go:34-47): the configuration is taken as a given value.
- `main`, flag parsing, `ListenAndServe` and logging (main.go:144-161): process plumbing. The unused `verbose` parameter is dropped.
- `serveFavicon` (main.go:99-101): it is never registered as a route.
- `os.ReadDir`: its result is an input. Go sorts entries by name, and a symlink to a directory reports `IsDir` false. The model accepts any listing order.
- `rand.Seed` and `rand.Intn` (main.go:134-135): time-seeded randomness is replaced by a caller-supplied index inside the candidate list.
- `http.Error`, `http.Redirect` and `http.ServeFile` internals: the error bodies and the headers they add themselves (Content-Type, X-Content-Type-Options, Location, content headers) are not modelled, nor a failure to read the chosen file. Only the outcome kind and target are. The `Redirect` target is the argument given to `http.Redirect`; Go then cleans a root-relative target and escapes non-ASCII bytes before writing the Location header, which the model does not do.
- `GoPath.Join`: Go's `filepath.Join` also cleans the path (removes `.` and duplicate `/`). The model joins with one `/` and takes the directory to be clean.
- `GoPath.Ext`: models the Unix separator `/` only, not the Windows `\`.
- `Http.Header.Set`: Go canonicalises the key. All keys the handler uses are already canonical.
- Concurrency: requests share only the read-only configuration, so there is no shared state to model.
