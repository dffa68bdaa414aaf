# frifetch crawl-and-classify core, modelled in Dafny

frifetch logs in to a Moodle-style course portal and mirrors each configured
course's resource files into a local directory. Its decision logic sits in one
file, `main.go`. This project models that logic and proves properties of it:

- **Link classifier** (`validName`): a constant allow-list of URL substrings.
  One row, the folder pattern, is honoured only while recursion is allowed.
  Module `Classifier`.
- **Link extractor** (`links`): collects the accepted `href` values of `<a>`
  start tags, in document order, up to the first error token. The HTML
  tokenizer's output is an input sequence of tokens. Module `Extractor`, with
  the imperative loops as `Links` and `AppendHrefs` and their specification as `Extract`.
- **Filename resolver** (`parseName`): with no Content-Disposition header, the
  id after a unique `?id=`; with a header, its `filename` parameter (the id is
  then never consulted); and the sentinel `"empty"` when the source it uses
  yields no name. Module `Naming`.
- **Download gate and fetch** (`fetch`, `fileExists`): skip a path that exists
  unless `update` is set, otherwise download into it. Module `Crawling`, class
  `Crawler`, whose `files` map is the disk.
- **Crawler** (`crawl`): for each accepted link in order, recurse into folder
  links with recursion off, else HEAD the link, name it and fetch it. A failed
  HEAD abandons the rest of the page. `Crawler.Crawl` changes the disk and
  returns a trace of `Action`s. `CrawlPage`/`CrawlLinks` give that trace as a
  function of the portal, and `Replay` gives the disk it leaves behind. `Crawler.Visit` is one turn of the loop.
- **Configuration helpers**: `findConf` (first `~` becomes the home directory)
  and the course filter of `initConf`. Module `Config`.

Go's `strings.Contains`, `Index`, `Split` and `Replace(…, 1)` are modelled in
module `Strings`, and `Option` in `Wrappers`. Go strings are byte sequences
while the model's are `seq<char>`; the two agree here because every pattern
searched for (`?id=`, `~` and the classifier's substrings) is ASCII, so a match
on bytes is a match on characters.

The outside world is a value of type `Crawling.Env`, fixed for one run. It
holds the tokens of each page, the HEAD result of each URL (an error, or the
Content-Disposition value), `mime.ParseMediaType`'s parameter map (`None` for a
parse error, whose nil map has no `filename`), and the outcome of downloading a
URL into a path: GET failed, create failed, copy failed after truncating, or
completed. A second run may see different download outcomes: the lemmas about
running twice take its outcomes as a separate function.

## Where the code and its documented intent differ (the model follows the code)

- Folder depth. The recursion flag is meant to limit folders to one nested
  level. But `crawl` recurses on every accepted link that contains
  `/folder/view.php` (main.go:144-145). With recursion off, `validName` still
  accepts such a link when it also carries a resource pattern (main.go:224,
  226-228, 239). So depth is unbounded, and a page that links to itself that way
  recurses forever. The model has a `fuel` bound and a `CutOff` action where
  the bound stops it. `FlagDoesNotBoundDepth` exhibits the unbounded descent.
  `OneLevelSuffices` shows that one level of fuel is exact on a portal without
  such links. `IntendedPage` is the crawl as the flag is meant to work.
- HEAD failure. It is meant to skip only the one resource. `crawl` instead
  returns (main.go:147-151), so the rest of that page is abandoned while the
  parent page continues. See `HeadFailureAbandonsPage`; `IntendedPage` also
  skips only the failing resource.
- Filenames. The id is never prefixed to a header-supplied filename
  (main.go:206-216), so two resources in one course with the same header
  filename overwrite each other, or the second is skipped. See
  `ParseNameWithHeader` and `ParseNameCollides`; `IntendedName` prefixes the id
  and a `_` separator.

The `Crawler` class and `ParseName` model the code as written. The intended
definitions sit beside them as specifications, and each pair is listed under
"## Findings".

## Model

| member | source | states |
|---|---|---|
| Classifier.ValidName | main.go:219-245 | defines `validName` as the first-match scan `Search` of the five-row table in source order; characterised by `ValidNameIff` and `SearchFindsAdmittingRow` |
| Classifier.ValidNameIff | main.go:219-245 | a name is accepted iff it contains `/resource/view.php`, `mod_label/intro/` or `mod_page/content`, or recursion is allowed and it contains `/folder/view.php`; a name with none of these is rejected |
| Classifier.SearchFindsAdmittingRow | main.go:231-244 | the scan of the table answers true iff some row admits the name, a recursion-only row admitting it only when recursion is allowed |
| Classifier.ValidNameScan | main.go:219-245 | the loop over the table, returning at the first admitting row, answers exactly `ValidName` |
| Extractor.Extract | main.go:247-270 | defines what `links` returns: the accepted `href` values of `a` start tags up to the first error token; characterised by `ExtractAccepted`, `ExtractAppend`, `ExtractStopsAtError`, `ExtractAnchor`, `ExtractIgnores` and `HrefsMembership` |
| Extractor.Links | main.go:247-270 | the tokenizer loop returns exactly `Extract` of the token stream |
| Extractor.AppendHrefs | main.go:260-266 | the loop over an anchor's attributes appends exactly its accepted `href` values, in attribute order |
| Extractor.ExtractAccepted | main.go:257-266 | every returned link passes `validName` and is the value of an `href` attribute of some `a` start tag |
| Extractor.HrefsMembership | main.go:261-265 | a value is collected from a tag iff the tag has an `href` attribute with that value and the classifier accepts it |
| Extractor.HrefsAppend | main.go:261-265 | a tag's attributes contribute in attribute order, duplicates included |
| Extractor.ExtractAppend | main.go:251-268 | before the first error token, the links of a token stream are those of its parts in document order |
| Extractor.ExtractStopsAtError | main.go:255-256 | nothing after the first error token contributes |
| Extractor.ExtractAnchor | main.go:257-266 | an `a` start tag contributes its accepted `href` values in place |
| Extractor.ExtractIgnores | main.go:254-260 | any other token (non-`a` tag, self-closing tag, text) contributes nothing |
| Strings.SplitAtUniqueOccurrence | main.go:201-204 | splitting on a separator that occurs exactly once yields the text before it and the text after it |
| Strings.SplitPairIsUniqueOccurrence | main.go:201-204 | conversely, two pieces mean the separator occurs exactly once (for a separator that cannot overlap itself) and the second piece is what follows it |
| Naming.ParseName | main.go:199-217 | defines `parseName`: the id from splitting on `?id=` when there is no header, the header's `filename` otherwise, `"empty"` when that yields nothing; characterised by `ParseNameUsesUniqueId`, `ParseNameSentinelWithoutUniqueId` and `ParseNameWithHeader` |
| Naming.IntendedName | main.go:199-217 | defines the name `parseName` evidently means to give: the id and a `_` separator prefixed to the header's `filename`; characterised by `IntendedNameWithoutHeader` and `IntendedNameSeparatesIds` |
| Naming.ParseNameUsesUniqueId | main.go:200-209 | without a header, a URL holding `?id=` exactly once with a non-empty id after it is named by that id |
| Naming.ParseNameWithoutHeader | main.go:200-211 | without a header, the name is `"empty"` or the non-empty id after the unique `?id=` |
| Naming.ParseNameSentinelWithoutUniqueId | main.go:200-211 | without a header, no `?id=`, several of them, or an empty id give `"empty"` |
| Naming.ParseNameWithHeader | main.go:206-216 | with a header the URL is ignored and no id is prefixed: the name is the `filename` parameter if the parse yields one, else `"empty"` (parse errors included) |
| Naming.ParseNameExampleId | main.go:199-211 | `view.php?id=42` with no header is named `42` |
| Naming.ParseNameExampleTwoIds | main.go:199-211 | `v.php?id=1?id=2` with no header is named `"empty"` |
| Crawling.FetchEffect | main.go:168-197 | without `update` an existing path is left alone; otherwise a created file holds what was copied into it, a failed GET or create changes nothing, and no other path changes |
| Crawling.Crawler.FileExists | main.go:160-166 | defines `fileExists`: the disk map holds the path; `Crawler.Fetch` and `FetchEffect` state the gate it drives |
| Crawling.Join | main.go:154 | defines the resolved path as the course directory, `/`, and the name, without `path.Join` cleaning; used by `CrawlPageSound` |
| Crawling.Crawler.Fetch | main.go:168-197 | `fetch` changes the disk exactly as `FetchEffect` says |
| Crawling.FetchIdempotent | main.go:169-171 | a second `fetch` of the same URL to the same path without `update`, whose download would turn out as the first one did, changes nothing |
| Crawling.FetchNoRewrite | main.go:169-186 | a second `fetch` without `update`, however its download turns out, rewrites no existing file, and changes nothing when the path existed or the first download created it; otherwise the GET is sent again and may write the file |
| Crawling.CrawlPage | main.go:140-158 | defines the trace of `crawl` on one page, over the links `Extract` accepts, with at most `fuel` nested crawls; characterised by `Crawler.Crawl`, `CrawlPageSound`, `FlagDoesNotBoundDepth` and `CrawlPageIgnoresTransfer` |
| Crawling.CrawlLinks | main.go:143-157 | defines the trace of the loop of `crawl`: a folder link recursed into (or `CutOff` past the bound), a failed HEAD ending the page, otherwise a fetch under the resolved name; characterised by `CrawlLinksAppend` and `HeadFailureAbandonsPage` |
| Crawling.IntendedPage | main.go:140-158 | defines the crawl as its flag is evidently meant to work: folders followed only from a page crawled with recursion on, a failed HEAD skipping one resource; characterised by `IntendedNestedIsFlat`, `IntendedStopsOnLoopingPortal` and `IntendedFetchesEveryResource` |
| Crawling.Crawler.Crawl | main.go:140-158 | `crawl` yields the trace `CrawlPage` and leaves the disk `Replay` of that trace |
| Crawling.Crawler.Visit | main.go:144-156 | one turn of the loop contributes the next actions of `CrawlLinks`, reports that the page goes on exactly when the link is not a resource link whose HEAD request fails, and leaves the disk `Replay` of those actions |
| Crawling.Replay | main.go:143-157 | a crawl never removes a file |
| Crawling.CrawlLinksAppend | main.go:143-157 | links are handled one after another in order as long as no HEAD request has failed |
| Crawling.HeadFailureAbandonsPage | main.go:147-151 | a failed HEAD ends the page: no later link of that page is handled |
| Crawling.CrawlPageSound | main.go:140-158 | every fetched link, at any depth, is a non-folder resource link fetched into the course directory under its own resolved name; every followed folder link was allowed by the recursion flag of the crawl that recorded it, the top-level flag for nested actions too, or carries a resource pattern |
| Crawling.NestedCrawlIsFlat | main.go:144-145 | on a portal with no link that is both a folder and a resource link, a crawl with recursion off follows no folder |
| Crawling.OneLevelSuffices | main.go:144-145 | on such a portal, one level of fuel never cuts the crawl short |
| Crawling.FlagDoesNotBoundDepth | main.go:144-145 | on a portal whose folder link also carries a resource pattern, every level recurses again, at any depth |
| Crawling.ReplaySettles | main.go:169-196 | after a crawl, each fetched path exists or its download cannot create it |
| Crawling.ReplayStable | main.go:169-171 | replaying such a trace without `update` writes nothing |
| Crawling.CrawlIdempotent | main.go:140-197 | crawling the same portal a second time without `update`, with every download turning out as before, leaves the disk unchanged |
| Crawling.ReplayKeepsFiles | main.go:169-171 | without `update`, a crawl leaves every existing file as it is, whatever its downloads do |
| Crawling.CrawlPageIgnoresTransfer | main.go:140-158 | the steps of a crawl, and so the paths it resolves, do not depend on how downloads turn out |
| Crawling.CrawlNoRewrite | main.go:140-197 | a second crawl of the same portal without `update`, with any download outcomes, takes the same steps and rewrites no file the first crawl left |
| Crawling.IntendedNestedIsFlat | main.go:144-145 | on every portal, the intended crawl of a page with recursion off follows no folder link |
| Crawling.IntendedStopsOnLoopingPortal | main.go:144-145 | on the portal that makes the source recurse forever, the intended crawl follows the folder link once and stops |
| Crawling.IntendedFetchesEveryResource | main.go:147-155 | the intended crawl fetches every accepted resource link whose HEAD request succeeds, whatever other HEAD requests fail |
| Crawling.AbandonedResource | main.go:147-151 | as written, a failed HEAD on a page's first resource link loses the next resource even though its HEAD succeeds; the intended crawl fetches it |
| Naming.ParseNameCollides | main.go:200-216 | as written, `view.php?id=1` and `view.php?id=2` have different ids but get the same name under any header |
| Naming.IntendedNameWithoutHeader | main.go:206-211 | without a header, the intended name is the one `parseName` gives |
| Naming.IntendedNameSeparatesIds | main.go:200-216 | two URLs with different numeric ids after a unique `?id=` never get the same intended name, whatever headers each of them returns |
| Config.FindConf | main.go:69-78 | defines `findConf` with the home directory as a parameter: the first `~` replaced if there is one; characterised by `FindConfWithoutTilde` and `FindConfReplacesFirstTilde` |
| Config.FindConfWithoutTilde | main.go:69-78 | a configuration path without `~` is returned unchanged |
| Config.FindConfReplacesFirstTilde | main.go:69-78 | otherwise only the first `~` is replaced by the home directory |
| Config.SelectCourses | main.go:109-117 | with course names given, the courses become the configured ones restricted to those names, unknown names dropped; with none, the configuration is unchanged; other fields are untouched |

## Findings

| source | as written | input that shows it | evidently intended | confidence | as-written member | corrected member |
|---|---|---|---|---|---|---|
| main.go:144-145 | every accepted link containing `/folder/view.php` is crawled again, and with recursion off `validName` still accepts one that also contains `/resource/view.php` | a page linking to `/folder/view.php/resource/view.php`, which links to itself: the crawl never ends | folder links are followed one level deep, from the course page only | medium, not executed | Crawling.FlagDoesNotBoundDepth | Crawling.IntendedNestedIsFlat |
| main.go:147-151 | a failed HEAD request returns from `crawl`, abandoning the rest of the page | resource links `[r1, r2]` where HEAD fails for `r1` and succeeds for `r2`: `r2` is never fetched | skip only the failing resource and go on | medium, not executed | Crawling.AbandonedResource | Crawling.IntendedFetchesEveryResource |
| main.go:200-216 | the id is computed into `idPrefix` but used only when there is no header | `view.php?id=1` and `view.php?id=2` whose headers both name `notes.pdf`: both go to one path | the id and `_` are prefixed to the header's filename, so different resource ids give different names | medium, not executed | Naming.ParseNameCollides | Naming.IntendedNameSeparatesIds |

## Left out

- Flag parsing, course listing and the `main` loop over courses (main.go:28-60). This is command-line plumbing, and Go's map iteration order is unspecified.
- JSON decoding of the configuration file and running the password command (main.go:83-107). These are file and process I/O.
- `login` (main.go:122-138). It is an HTTP POST with a cookie jar; the session is an opaque collaborator.
- The failure of `user.Current` in `findConf`, which ends the process. `Config.FindConf` takes the home directory as a parameter.
- Real HTTP requests, the HTML tokenizer and `mime.ParseMediaType`. They are inputs held in `Env`. The remote state is assumed fixed during a run.
- The unchecked error of the page GET (main.go:141). A nil response would crash the process, so every page is taken to yield a token sequence.
- `path.Join` cleaning, `os.Stat` errors other than "absent", `os.MkdirAll`. Paths are joined as `dir + "/" + name`, and a file exists iff the map has its path. Header-supplied filenames are not sanitised by the source, and nothing is claimed about them.
- An error from closing the file. It changes nothing on disk and is folded into a completed download. Logging is left out too.
- Crawling.Crawler.Crawl, Crawling.CrawlPage, Crawling.CrawlLinks: recursion is bounded by `fuel`. Where the source would recurse past the bound, the model records `CutOff` and does not recurse. So it does not capture the source's non-terminating runs, only that they happen (`FlagDoesNotBoundDepth`).
- Naming.IntendedNameSeparatesIds: it assumes the ids are decimal digits, as the portal's are. With arbitrary ids the separator could occur inside an id, and `1_a` with `b` would meet `1` with `a_b`.
- Crawling.IntendedNestedIsFlat, Crawling.IntendedFetchesEveryResource, Naming.IntendedNameSeparatesIds: these are proved about the intended definitions only. `Crawler.Crawl` and `ParseName` keep the code's behaviour, so the corrections are not run through the imperative crawler.
