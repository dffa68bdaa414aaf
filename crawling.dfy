/**
 The crawler of main.go: `crawl`, `fetch` and `fileExists`. The network and
 the disk are abstracted: an `Env` says what each page contains, what a HEAD
 request returns and how a download to a path turns out, and the disk is a map
 from paths to contents held by a `Crawler` object together with the run-wide
 `update` flag. Besides changing the disk, a crawl yields the trace of what it
 did, one `Action` per accepted link, nested crawls inlined in place.
 */
module Crawling {
  import opened Wrappers
  import opened Strings
  import opened Classifier
  import opened Extractor
  import opened Naming

  newtype byte = b: int | 0 <= b < 256

  type FileSystem = map<string, seq<byte>>

  /** How one download (GET, then `os.Create`, then `io.Copy`) turns out. */
  datatype Transfer =
    | RequestFailed                   // the GET failed: nothing is touched
    | CreateFailed                    // the file could not be created: nothing is touched
    | CopyFailed(written: seq<byte>)  // created (truncated) and only partly written
    | Completed(body: seq<byte>)      // the whole body was written
  {
    /** The file was (re)created. */
    predicate Created() {
      CopyFailed? || Completed?
    }

    /** What the file holds afterwards. */
    function Contents(): seq<byte>
      requires Created()
    {
      if CopyFailed? then written else body
    }
  }

  /** The world outside the crawler, fixed for one run. */
  datatype Env = Env(
    page: string -> seq<Token>,                     // the tokens of the page a GET of the URL returns
    head: string -> Option<string>,                 // a HEAD request: None on error, else the Content-Disposition value
    parse: string -> Option<map<string, string>>,   // `mime.ParseMediaType`'s parameters, None on error
    transfer: (string, string) -> Transfer)         // downloading a URL into a path

  /** `path.Join` without path cleaning. */
  function Join(dir: string, name: string): string {
    dir + "/" + name
  }

  /** One step of a crawl. */
  datatype Action =
    | Recursed(url: string)              // a folder link was crawled with recursion off
    | CutOff(url: string)                // a folder link the source would crawl, beyond the model's depth bound
    | Fetched(url: string, path: string) // `fetch(url, path)` was called
    | Aborted(url: string)               // the HEAD request failed: the rest of the page is abandoned

  /** What `fetch(url, p)` does to the disk. */
  function FetchEffect(env: Env, update: bool, files: FileSystem, url: string, p: string): (r: FileSystem)
    ensures !update && p in files ==> r == files
    ensures (update || p !in files) && env.transfer(url, p).Created() ==>
      p in r && r[p] == env.transfer(url, p).Contents()
    ensures (update || p !in files) && !env.transfer(url, p).Created() ==> r == files
    ensures forall q :: q != p ==> (q in r <==> q in files)
    ensures forall q :: q != p && q in files ==> r[q] == files[q]
  {
    if !update && p in files then files
    else match env.transfer(url, p)
      case CopyFailed(written) => files[p := written]
      case Completed(body) => files[p := body]
      case _ => files
  }

  /** What one action does to the disk: only `Fetched` writes. */
  function Step(env: Env, update: bool, files: FileSystem, a: Action): FileSystem {
    if a.Fetched? then FetchEffect(env, update, files, a.url, a.path) else files
  }

  /** The disk after a trace. Files are never removed. */
  function Replay(env: Env, update: bool, files: FileSystem, acts: seq<Action>): (r: FileSystem)
    decreases |acts|
    ensures files.Keys <= r.Keys
  {
    if acts == [] then files
    else Replay(env, update, Step(env, update, files, acts[0]), acts[1..])
  }

  /** The trace of `crawl(c, recurse, u, dir)`, with at most `fuel` nested crawls below it. */
  function CrawlPage(env: Env, fuel: nat, recurse: bool, u: string, dir: string): seq<Action>
    decreases fuel, 1, 0
  {
    CrawlLinks(env, fuel, dir, Extract(env.page(u), recurse))
  }

  /** The trace of the loop of `crawl` over the accepted links `urls`. */
  function CrawlLinks(env: Env, fuel: nat, dir: string, urls: seq<string>): seq<Action>
    decreases fuel, 0, |urls|
  {
    if urls == [] then []
    else
      var v := urls[0];
      if Contains(v, FolderView) then
        (if fuel == 0 then [CutOff(v)] else [Recursed(v)] + CrawlPage(env, fuel - 1, false, v, dir))
        + CrawlLinks(env, fuel, dir, urls[1..])
      else
        match env.head(v)
        case None => [Aborted(v)]
        case Some(disp) => [Fetched(v, Join(dir, ParseName(disp, v, env.parse)))] + CrawlLinks(env, fuel, dir, urls[1..])
  }

  /** The process state the crawl changes: the disk, and the run-wide `update` flag. */
  class Crawler {
    const env: Env
    const update: bool
    var files: FileSystem

    constructor (env: Env, update: bool, files: FileSystem)
      ensures this.env == env && this.update == update && this.files == files
    {
      this.env := env;
      this.update := update;
      this.files := files;
    }

    /** `fileExists(p)`. */
    predicate FileExists(p: string)
      reads this
    {
      p in files
    }

    /** `fetch(c, url, p)`: skip an existing file unless updating, else download into it. */
    method Fetch(url: string, p: string)
      modifies this
      ensures files == FetchEffect(env, update, old(files), url, p)
    {
      if !update && FileExists(p) {
        return;
      }
      match env.transfer(url, p) {
        case RequestFailed =>
          return;
        case CreateFailed =>
          return;
        case CopyFailed(written) =>
          files := files[p := []];  // os.Create truncates the file
          files := files[p := written];  // io.Copy then writes what arrived before the error
        case Completed(body) =>
          files := files[p := []];  // os.Create truncates the file
          files := files[p := body];  // io.Copy writes the whole body
      }
    }

    /** `crawl(c, recurse, u, filePath)`, bounded to `fuel` nested crawls. */
    method Crawl(fuel: nat, recurse: bool, u: string, filePath: string) returns (acts: seq<Action>)
      modifies this
      decreases fuel, 1
      ensures acts == CrawlPage(env, fuel, recurse, u, filePath)
      ensures files == Replay(env, update, old(files), acts)
    {
      var urls := Links(env.page(u), recurse);
      ghost var start := files;
      acts := [];
      var i := 0;
      while i < |urls|
        invariant 0 <= i <= |urls|
        invariant acts + CrawlLinks(env, fuel, filePath, urls[i..]) == CrawlLinks(env, fuel, filePath, urls)
        invariant files == Replay(env, update, start, acts)
      {
        ghost var rest := urls[i + 1..];
        assert urls[i..] == [urls[i]] + rest;
        var step, carryOn := Visit(fuel, urls[i], filePath, rest);
        ReplayAppend(env, update, start, acts, step);
        if !carryOn {
          acts := acts + step;
          assert acts == CrawlLinks(env, fuel, filePath, urls) by {
            assert step + [] == step;
          }
          return;
        }
        Assoc(acts, step, CrawlLinks(env, fuel, filePath, rest));
        acts := acts + step;
        i := i + 1;
      }
      assert urls[i..] == [];
      assert acts + [] == acts;
    }

    /**
     One turn of the loop of `crawl` on link `v`: recurse into a folder, or
     HEAD, name and fetch a resource. `carryOn` is false when the HEAD
     request failed and the page is abandoned. `rest` stands for the links
     that follow `v` on the page.
     */
    method Visit(fuel: nat, v: string, filePath: string, ghost rest: seq<string>) returns (step: seq<Action>, carryOn: bool)
      modifies this
      decreases fuel, 0
      ensures carryOn <==> !HeadFails(env, v)
      ensures CrawlLinks(env, fuel, filePath, [v] + rest) == step + (if carryOn then CrawlLinks(env, fuel, filePath, rest) else [])
      ensures files == Replay(env, update, old(files), step)
    {
      carryOn := true;
      if Contains(v, FolderView) {
        CrawlLinksFolder(env, fuel, filePath, v, rest);
        if fuel == 0 {
          step := [CutOff(v)];
        } else {
          var sub := Crawl(fuel - 1, false, v, filePath);
          step := [Recursed(v)] + sub;
          ReplayAppend(env, update, old(files), [Recursed(v)], sub);
        }
      } else {
        var res := env.head(v);
        if res.None? {
          CrawlLinksAbort(env, fuel, filePath, v, rest);
          step := [Aborted(v)];
          carryOn := false;
          assert [Aborted(v)] + [] == [Aborted(v)];
          return;
        }
        var fileName := ParseName(res.value, v, env.parse);
        var p := Join(filePath, fileName);
        Fetch(v, p);
        step := [Fetched(v, p)];
        CrawlLinksFetch(env, fuel, filePath, v, rest);
      }
    }
  }

  /** One turn of the loop of `crawl` on a folder link. */
  lemma CrawlLinksFolder(env: Env, fuel: nat, dir: string, v: string, rest: seq<string>)
    requires Contains(v, FolderView)
    ensures CrawlLinks(env, fuel, dir, [v] + rest) ==
      (if fuel == 0 then [CutOff(v)] else [Recursed(v)] + CrawlPage(env, fuel - 1, false, v, dir))
      + CrawlLinks(env, fuel, dir, rest)
  {
    assert ([v] + rest)[0] == v && ([v] + rest)[1..] == rest;
  }

  /** One turn of the loop of `crawl` on a resource link whose HEAD request fails. */
  lemma CrawlLinksAbort(env: Env, fuel: nat, dir: string, v: string, rest: seq<string>)
    requires !Contains(v, FolderView) && env.head(v).None?
    ensures CrawlLinks(env, fuel, dir, [v] + rest) == [Aborted(v)]
  {
    assert ([v] + rest)[0] == v;
  }

  /** One turn of the loop of `crawl` on a resource link whose HEAD request succeeds. */
  lemma CrawlLinksFetch(env: Env, fuel: nat, dir: string, v: string, rest: seq<string>)
    requires !Contains(v, FolderView) && env.head(v).Some?
    ensures CrawlLinks(env, fuel, dir, [v] + rest) ==
      [Fetched(v, Join(dir, ParseName(env.head(v).value, v, env.parse)))] + CrawlLinks(env, fuel, dir, rest)
  {
    assert ([v] + rest)[0] == v && ([v] + rest)[1..] == rest;
  }

  /** Replaying two traces one after the other is replaying their concatenation. */
  lemma {:induction false} ReplayAppend(env: Env, update: bool, files: FileSystem, a: seq<Action>, b: seq<Action>)
    decreases |a|
    ensures Replay(env, update, files, a + b) == Replay(env, update, Replay(env, update, files, a), b)
  {
    if a == [] {
      assert a + b == b;
    } else {
      assert (a + b)[0] == a[0];
      assert (a + b)[1..] == a[1..] + b;
      ReplayAppend(env, update, Step(env, update, files, a[0]), a[1..], b);
    }
  }

  /** A non-folder link whose HEAD request fails: the link at which `crawl` returns early. */
  predicate HeadFails(env: Env, v: string) {
    !Contains(v, FolderView) && env.head(v).None?
  }

  /** Links are handled one after another, in order, as long as no HEAD request has failed. */
  lemma {:induction false} CrawlLinksAppend(env: Env, fuel: nat, dir: string, a: seq<string>, b: seq<string>)
    requires forall v <- a :: !HeadFails(env, v)
    decreases |a|
    ensures CrawlLinks(env, fuel, dir, a + b) == CrawlLinks(env, fuel, dir, a) + CrawlLinks(env, fuel, dir, b)
  {
    if a == [] {
      assert a + b == b;
    } else {
      var v := a[0];
      assert a + b == [v] + (a[1..] + b);
      assert a == [v] + a[1..];
      CrawlLinksAppend(env, fuel, dir, a[1..], b);
      if Contains(v, FolderView) {
        CrawlLinksFolder(env, fuel, dir, v, a[1..] + b);
        CrawlLinksFolder(env, fuel, dir, v, a[1..]);
        var first := if fuel == 0 then [CutOff(v)] else [Recursed(v)] + CrawlPage(env, fuel - 1, false, v, dir);
        Assoc(first, CrawlLinks(env, fuel, dir, a[1..]), CrawlLinks(env, fuel, dir, b));
      } else {
        assert v in a;
        CrawlLinksFetch(env, fuel, dir, v, a[1..] + b);
        CrawlLinksFetch(env, fuel, dir, v, a[1..]);
        var first := [Fetched(v, Join(dir, ParseName(env.head(v).value, v, env.parse)))];
        Assoc(first, CrawlLinks(env, fuel, dir, a[1..]), CrawlLinks(env, fuel, dir, b));
      }
    }
  }

  /** A failed HEAD request abandons every later link of the same page. */
  lemma HeadFailureAbandonsPage(env: Env, fuel: nat, dir: string, a: seq<string>, v: string, b: seq<string>)
    requires forall x <- a :: !HeadFails(env, x)
    requires HeadFails(env, v)
    ensures CrawlLinks(env, fuel, dir, a + [v] + b) == CrawlLinks(env, fuel, dir, a) + [Aborted(v)]
  {
    Assoc(a, [v], b);
    CrawlLinksAppend(env, fuel, dir, a, [v] + b);
    CrawlLinksAbort(env, fuel, dir, v, b);
  }

  /**
   What each action of a trace tells about its link. A fetched link is a resource
   link, not a folder link, whose HEAD request succeeded, and its file lies in the
   course directory under the name its own header and URL resolve to. An aborted
   link is a resource link whose HEAD request failed. A folder link is followed
   only if recursion was allowed or it also carries a resource pattern.
   */
  ghost predicate ActionSound(env: Env, dir: string, recurse: bool, a: Action) {
    match a
    case Fetched(v, p) =>
      !Contains(v, FolderView) && ResourceLike(v) && env.head(v).Some? &&
      p == Join(dir, ParseName(env.head(v).value, v, env.parse))
    case Aborted(v) => !Contains(v, FolderView) && ResourceLike(v) && env.head(v).None?
    case Recursed(v) => Contains(v, FolderView) && (recurse || ResourceLike(v))
    case CutOff(v) => Contains(v, FolderView) && (recurse || ResourceLike(v))
  }

  /** Every action of a crawl, at every depth, is sound for the crawl's own recursion flag. */
  lemma {:induction false} CrawlPageSound(env: Env, fuel: nat, recurse: bool, u: string, dir: string)
    decreases fuel, 1, 0
    ensures forall a <- CrawlPage(env, fuel, recurse, u, dir) :: ActionSound(env, dir, recurse, a)
  {
    var urls := Extract(env.page(u), recurse);
    ExtractAccepted(env.page(u), recurse);
    CrawlLinksSound(env, fuel, dir, urls, recurse);
  }

  /** The loop half of `CrawlPageSound`: every action of the loop over accepted links is sound. */
  lemma {:induction false} CrawlLinksSound(env: Env, fuel: nat, dir: string, urls: seq<string>, recurse: bool)
    requires forall v <- urls :: ValidName(v, recurse)
    decreases fuel, 0, |urls|
    ensures forall a <- CrawlLinks(env, fuel, dir, urls) :: ActionSound(env, dir, recurse, a)
  {
    if urls != [] {
      var v := urls[0];
      ValidNameIff(v, recurse);
      assert urls == [v] + urls[1..];
      CrawlLinksSound(env, fuel, dir, urls[1..], recurse);
      if Contains(v, FolderView) {
        CrawlLinksFolder(env, fuel, dir, v, urls[1..]);
        if fuel > 0 {
          CrawlPageSound(env, fuel - 1, false, v, dir);
          forall a <- CrawlPage(env, fuel - 1, false, v, dir) ensures ActionSound(env, dir, recurse, a) {
            SoundWithoutRecursion(env, dir, recurse, a);
          }
        }
      } else if env.head(v).None? {
        CrawlLinksAbort(env, fuel, dir, v, urls[1..]);
      } else {
        CrawlLinksFetch(env, fuel, dir, v, urls[1..]);
      }
    }
  }

  /** An action sound for a crawl with recursion off is sound for any recursion flag. */
  lemma SoundWithoutRecursion(env: Env, dir: string, recurse: bool, a: Action)
    requires ActionSound(env, dir, false, a)
    ensures ActionSound(env, dir, recurse, a)
  {
  }

  /**
   No page offers, with recursion off, a link that is also a folder link, that
   is, no folder link on the portal also carries a resource pattern.
   */
  ghost predicate NoDoubleMatches(env: Env) {
    forall u: string, v: string :: v in Extract(env.page(u), false) ==> !Contains(v, FolderView)
  }

  /** A loop over links none of which is a folder link only fetches or aborts. */
  lemma {:induction false} LinksWithoutFolders(env: Env, fuel: nat, dir: string, urls: seq<string>)
    requires forall v <- urls :: !Contains(v, FolderView)
    decreases |urls|
    ensures forall a <- CrawlLinks(env, fuel, dir, urls) :: a.Fetched? || a.Aborted?
  {
    if urls != [] {
      var v := urls[0];
      assert urls == [v] + urls[1..];
      LinksWithoutFolders(env, fuel, dir, urls[1..]);
      if env.head(v).None? {
        CrawlLinksAbort(env, fuel, dir, v, urls[1..]);
      } else {
        CrawlLinksFetch(env, fuel, dir, v, urls[1..]);
      }
    }
  }

  /** On such a portal a crawl with recursion off follows no folder link: it only fetches or aborts. */
  lemma NestedCrawlIsFlat(env: Env, fuel: nat, u: string, dir: string)
    requires NoDoubleMatches(env)
    ensures forall a <- CrawlPage(env, fuel, false, u, dir) :: a.Fetched? || a.Aborted?
  {
    LinksWithoutFolders(env, fuel, dir, Extract(env.page(u), false));
  }

  /**
   On such a portal, crawling a course page with fuel for one nested level
   never reaches the depth bound: the model then does exactly what the source does.
   */
  lemma OneLevelSuffices(env: Env, fuel: nat, recurse: bool, u: string, dir: string)
    requires NoDoubleMatches(env) && fuel >= 1
    ensures forall a <- CrawlPage(env, fuel, recurse, u, dir) :: !a.CutOff?
  {
    OneLevelSufficesLinks(env, fuel, dir, Extract(env.page(u), recurse));
  }

  /** The loop half of `OneLevelSuffices`: with fuel left, the loop over a page's links records no `CutOff`. */
  lemma {:induction false} OneLevelSufficesLinks(env: Env, fuel: nat, dir: string, urls: seq<string>)
    requires NoDoubleMatches(env) && fuel >= 1
    decreases |urls|
    ensures forall a <- CrawlLinks(env, fuel, dir, urls) :: !a.CutOff?
  {
    if urls != [] {
      var v := urls[0];
      assert urls == [v] + urls[1..];
      OneLevelSufficesLinks(env, fuel, dir, urls[1..]);
      if Contains(v, FolderView) {
        CrawlLinksFolder(env, fuel, dir, v, urls[1..]);
        NestedCrawlIsFlat(env, fuel - 1, v, dir);
      } else if env.head(v).None? {
        CrawlLinksAbort(env, fuel, dir, v, urls[1..]);
      } else {
        CrawlLinksFetch(env, fuel, dir, v, urls[1..]);
      }
    }
  }

  /** A link that is both a folder link and a resource link. */
  const SelfLink := FolderView + ResourceView

  /** A portal every page of which links to `SelfLink`. */
  function LoopingPortal(): Env {
    Env(
      (u: string) => [StartTag("a", [Attribute("href", SelfLink)])],
      (u: string) => None,
      (d: string) => None,
      (u: string, p: string) => RequestFailed)
  }

  /**
   The recursion flag does not bound the depth: on a portal whose folder link
   also carries a resource pattern, every level recurses again, and only the
   model's depth bound stops the descent.
   */
  lemma {:induction false} FlagDoesNotBoundDepth(fuel: nat, recurse: bool, u: string, dir: string)
    decreases fuel
    ensures var acts := CrawlPage(LoopingPortal(), fuel, recurse, u, dir);
      |acts| == fuel + 1 && acts[fuel] == CutOff(SelfLink) &&
      forall i :: 0 <= i < fuel ==> acts[i] == Recursed(SelfLink)
  {
    var env := LoopingPortal();
    LoopingPageLinks(recurse, u);
    CrawlLinksFolder(env, fuel, dir, SelfLink, []);
    assert [SelfLink] + [] == [SelfLink];
    var acts := CrawlPage(env, fuel, recurse, u, dir);
    if fuel == 0 {
      assert acts == [CutOff(SelfLink)] + [];
    } else {
      var sub := CrawlPage(env, fuel - 1, false, SelfLink, dir);
      FlagDoesNotBoundDepth(fuel - 1, false, SelfLink, dir);
      assert acts == [Recursed(SelfLink)] + sub + [];
    }
  }

  /** Every page of the looping portal yields its self link, whatever the recursion context. */
  lemma LoopingPageLinks(recurse: bool, u: string)
    ensures Contains(SelfLink, FolderView)
    ensures Extract(LoopingPortal().page(u), recurse) == [SelfLink]
  {
    ContainsHalves(FolderView, ResourceView);
    ValidNameIff(SelfLink, recurse);
    var attrs := [Attribute("href", SelfLink)];
    assert Hrefs(attrs, recurse) == [SelfLink] + Hrefs(attrs[1..], recurse);
    assert Extract(LoopingPortal().page(u), recurse) == [SelfLink] + Extract([], recurse);
  }

  /**
   The crawl as its recursion flag is evidently meant to work: a folder link
   is followed only from a page crawled with recursion on, and a failed HEAD
   request skips that one resource instead of abandoning the page. It needs no
   depth bound. The model of `crawl` above keeps the source's behaviour; this
   definition states the intended one beside it.
   */
  function IntendedPage(env: Env, recurse: bool, u: string, dir: string): seq<Action>
    decreases if recurse then 1 else 0, 1, 0
  {
    IntendedLinks(env, recurse, dir, Extract(env.page(u), recurse))
  }

  /** The loop of the intended crawl over a page's accepted links. */
  function IntendedLinks(env: Env, recurse: bool, dir: string, urls: seq<string>): seq<Action>
    decreases if recurse then 1 else 0, 0, |urls|
  {
    if urls == [] then []
    else
      var v := urls[0];
      if Contains(v, FolderView) then
        if recurse then [Recursed(v)] + IntendedPage(env, false, v, dir) + IntendedLinks(env, recurse, dir, urls[1..])
        else IntendedLinks(env, recurse, dir, urls[1..])
      else
        match env.head(v)
        case None => [Aborted(v)] + IntendedLinks(env, recurse, dir, urls[1..])
        case Some(disp) => [Fetched(v, Join(dir, ParseName(disp, v, env.parse)))] + IntendedLinks(env, recurse, dir, urls[1..])
  }

  /** On every portal, the intended crawl of a page with recursion off follows no folder link, so folders are followed one level deep. */
  lemma IntendedNestedIsFlat(env: Env, u: string, dir: string)
    ensures forall a <- IntendedPage(env, false, u, dir) :: a.Fetched? || a.Aborted?
  {
    IntendedLinksFlat(env, dir, Extract(env.page(u), false));
  }

  /** The loop half of `IntendedNestedIsFlat`. */
  lemma {:induction false} IntendedLinksFlat(env: Env, dir: string, urls: seq<string>)
    decreases |urls|
    ensures forall a <- IntendedLinks(env, false, dir, urls) :: a.Fetched? || a.Aborted?
  {
    if urls != [] {
      IntendedLinksFlat(env, dir, urls[1..]);
    }
  }

  /** The intended crawl of the looping portal follows its folder link once and stops. */
  lemma IntendedStopsOnLoopingPortal(u: string, dir: string)
    ensures IntendedPage(LoopingPortal(), true, u, dir) == [Recursed(SelfLink)]
  {
    var env := LoopingPortal();
    LoopingPageLinks(true, u);
    LoopingPageLinks(false, SelfLink);
    assert [SelfLink][1..] == [];
    assert IntendedPage(env, false, SelfLink, dir) == [];
  }

  /**
   Every accepted resource link of a page whose HEAD request succeeds is
   fetched by the intended crawl, under its resolved name, whatever other
   HEAD requests fail.
   */
  lemma IntendedFetchesEveryResource(env: Env, recurse: bool, u: string, dir: string)
    ensures forall v <- Extract(env.page(u), recurse) | !Contains(v, FolderView) && env.head(v).Some? ::
      Fetched(v, Join(dir, ParseName(env.head(v).value, v, env.parse))) in IntendedPage(env, recurse, u, dir)
  {
    IntendedLinksFetchEvery(env, recurse, dir, Extract(env.page(u), recurse));
  }

  /** The loop half of `IntendedFetchesEveryResource`. */
  lemma {:induction false} IntendedLinksFetchEvery(env: Env, recurse: bool, dir: string, urls: seq<string>)
    decreases |urls|
    ensures forall v <- urls | !Contains(v, FolderView) && env.head(v).Some? ::
      Fetched(v, Join(dir, ParseName(env.head(v).value, v, env.parse))) in IntendedLinks(env, recurse, dir, urls)
  {
    if urls != [] {
      IntendedLinksFetchEvery(env, recurse, dir, urls[1..]);
      var tail := IntendedLinks(env, recurse, dir, urls[1..]);
      var v0 := urls[0];
      var r := IntendedLinks(env, recurse, dir, urls);
      if Contains(v0, FolderView) {
        if recurse {
          assert r == [Recursed(v0)] + IntendedPage(env, false, v0, dir) + tail;
        }
      }
      assert forall x <- tail :: x in r;
      forall v <- urls | !Contains(v, FolderView) && env.head(v).Some?
        ensures Fetched(v, Join(dir, ParseName(env.head(v).value, v, env.parse))) in r
      {
        if v != v0 {
          assert v in urls[1..];
        }
      }
    }
  }

  /**
   As written, a failed HEAD request on a page's first resource link loses the
   next one even when its HEAD request succeeds; the intended crawl fetches it.
   */
  lemma AbandonedResource(env: Env, fuel: nat, recurse: bool, dir: string, r1: string, r2: string)
    requires HeadFails(env, r1)
    requires !Contains(r2, FolderView) && env.head(r2).Some?
    ensures var fetched := Fetched(r2, Join(dir, ParseName(env.head(r2).value, r2, env.parse)));
      fetched !in CrawlLinks(env, fuel, dir, [r1, r2]) &&
      fetched in IntendedLinks(env, recurse, dir, [r1, r2])
  {
    HeadFailureAbandonsPage(env, fuel, dir, [], r1, [r2]);
    assert [] + [r1] + [r2] == [r1, r2];
    assert CrawlLinks(env, fuel, dir, []) + [Aborted(r1)] == [Aborted(r1)];
    IntendedLinksFetchEvery(env, recurse, dir, [r1, r2]);
  }

  /** A download action that, replayed on `files`, would not write: its file exists or the download cannot create it. */
  ghost predicate Settled(env: Env, files: FileSystem, a: Action) {
    a.Fetched? ==> a.path in files || !env.transfer(a.url, a.path).Created()
  }

  /** After a trace, every download of the trace is settled. */
  lemma {:induction false} ReplaySettles(env: Env, update: bool, files: FileSystem, acts: seq<Action>)
    decreases |acts|
    ensures forall a <- acts :: Settled(env, Replay(env, update, files, acts), a)
  {
    if acts != [] {
      var f := Step(env, update, files, acts[0]);
      ReplaySettles(env, update, f, acts[1..]);
      assert Settled(env, f, acts[0]);
      forall a <- acts ensures Settled(env, Replay(env, update, files, acts), a) {
        if a != acts[0] {
          assert a in acts[1..];
        }
      }
    }
  }

  /** Replaying, without `update`, a trace whose downloads are all settled changes nothing. */
  lemma {:induction false} ReplayStable(env: Env, files: FileSystem, acts: seq<Action>)
    requires forall a <- acts :: Settled(env, files, a)
    decreases |acts|
    ensures Replay(env, false, files, acts) == files
  {
    if acts != [] {
      assert Settled(env, files, acts[0]) by {
        assert acts[0] in acts;
      }
      assert Step(env, false, files, acts[0]) == files;
      ReplayStable(env, files, acts[1..]);
    }
  }

  /**
   A second `fetch` of the same URL to the same path, without `update`, whose
   download would turn out as the first one did, changes nothing.
   */
  lemma FetchIdempotent(env: Env, update: bool, files: FileSystem, url: string, p: string)
    ensures var once := FetchEffect(env, update, files, url, p);
      FetchEffect(env, false, once, url, p) == once
  {
  }

  /**
   A second `fetch` without `update`, however its download turns out this time
   (`again`), rewrites no file that exists; and it changes nothing at all when
   the path existed before or the first download created it.
   */
  lemma FetchNoRewrite(env: Env, again: (string, string) -> Transfer, update: bool, files: FileSystem, url: string, p: string)
    ensures var once := FetchEffect(env, update, files, url, p);
      var twice := FetchEffect(env.(transfer := again), false, once, url, p);
      (forall q <- once :: q in twice && twice[q] == once[q]) &&
      (p in files || env.transfer(url, p).Created() ==> twice == once)
  {
    var once := FetchEffect(env, update, files, url, p);
    var twice := FetchEffect(env.(transfer := again), false, once, url, p);
    if p in once {
      assert twice == once;
    }
  }

  /** Replaying a trace without `update` leaves every existing file as it is, whatever the downloads do. */
  lemma {:induction false} ReplayKeepsFiles(env: Env, files: FileSystem, acts: seq<Action>)
    decreases |acts|
    ensures var r := Replay(env, false, files, acts);
      forall q <- files :: q in r && r[q] == files[q]
  {
    if acts != [] {
      var f := Step(env, false, files, acts[0]);
      ReplayKeepsFiles(env, f, acts[1..]);
      assert forall q <- files :: q in f && f[q] == files[q];
    }
  }

  /** The trace of a crawl does not depend on how the downloads turn out. */
  lemma {:induction false} CrawlPageIgnoresTransfer(env: Env, again: (string, string) -> Transfer, fuel: nat, recurse: bool, u: string, dir: string)
    decreases fuel, 1, 0
    ensures CrawlPage(env.(transfer := again), fuel, recurse, u, dir) == CrawlPage(env, fuel, recurse, u, dir)
  {
    CrawlLinksIgnoresTransfer(env, again, fuel, dir, Extract(env.page(u), recurse));
  }

  /** The loop half of `CrawlPageIgnoresTransfer`. */
  lemma {:induction false} CrawlLinksIgnoresTransfer(env: Env, again: (string, string) -> Transfer, fuel: nat, dir: string, urls: seq<string>)
    decreases fuel, 0, |urls|
    ensures CrawlLinks(env.(transfer := again), fuel, dir, urls) == CrawlLinks(env, fuel, dir, urls)
  {
    var env2 := env.(transfer := again);
    if urls != [] {
      var v := urls[0];
      assert urls == [v] + urls[1..];
      CrawlLinksIgnoresTransfer(env, again, fuel, dir, urls[1..]);
      if Contains(v, FolderView) {
        CrawlLinksFolder(env, fuel, dir, v, urls[1..]);
        CrawlLinksFolder(env2, fuel, dir, v, urls[1..]);
        if fuel > 0 {
          CrawlPageIgnoresTransfer(env, again, fuel - 1, false, v, dir);
        }
      } else if env.head(v).None? {
        CrawlLinksAbort(env, fuel, dir, v, urls[1..]);
        CrawlLinksAbort(env2, fuel, dir, v, urls[1..]);
      } else {
        CrawlLinksFetch(env, fuel, dir, v, urls[1..]);
        CrawlLinksFetch(env2, fuel, dir, v, urls[1..]);
      }
    }
  }

  /**
   Crawling the same portal a second time without `update`, however its
   downloads turn out this time (`again`), takes the same steps and so resolves
   the same paths, and rewrites no file the first crawl left on disk.
   */
  lemma CrawlNoRewrite(env: Env, again: (string, string) -> Transfer, fuel: nat, recurse: bool, u: string, dir: string, update: bool, files: FileSystem)
    ensures var acts := CrawlPage(env, fuel, recurse, u, dir);
      var once := Replay(env, update, files, acts);
      var env2 := env.(transfer := again);
      var twice := Replay(env2, false, once, CrawlPage(env2, fuel, recurse, u, dir));
      CrawlPage(env2, fuel, recurse, u, dir) == acts &&
      forall q <- once :: q in twice && twice[q] == once[q]
  {
    var acts := CrawlPage(env, fuel, recurse, u, dir);
    CrawlPageIgnoresTransfer(env, again, fuel, recurse, u, dir);
    ReplayKeepsFiles(env.(transfer := again), Replay(env, update, files, acts), acts);
  }

  /**
   Crawling the same portal a second time without `update`, when every
   download turns out as it did the first time, writes nothing: every file the
   first crawl wrote is skipped, and every download that failed fails again
   without touching the disk.
   */
  lemma CrawlIdempotent(env: Env, fuel: nat, recurse: bool, u: string, dir: string, update: bool, files: FileSystem)
    ensures var acts := CrawlPage(env, fuel, recurse, u, dir);
      var once := Replay(env, update, files, acts);
      Replay(env, false, once, acts) == once
  {
    var acts := CrawlPage(env, fuel, recurse, u, dir);
    ReplaySettles(env, update, files, acts);
    ReplayStable(env, Replay(env, update, files, acts), acts);
  }
}
