/**
 * serveRandomImage: the referer gate, the response headers, the candidate
 * filter over the directory listing and the choice between redirecting and
 * serving. The listing and the random index are inputs.
 */
module Handler {
  import opened Types
  import opened GoPath
  import opened Http
  import opened Policy
  import opened Cors

  const CacheControlKey: string := "Cache-Control"
  const ExpiresKey: string := "Expires"
  const PragmaKey: string := "Pragma"
  const SurrogateControlKey: string := "Surrogate-Control"

  const NoCacheDirectives: string := "no-store, no-cache, must-revalidate, proxy-revalidate"

  /** An entry may be served: a file (not a directory) that the extension policy admits. */
  predicate Eligible(e: Entry, config: Config) {
    !e.isDir && (config.disableFileTypeCheck || IsValidExtension(e.name, config.allowedExtensions))
  }

  /** The candidate list: the eligible entries of a listing, in listing order. */
  function Candidates(entries: seq<Entry>, config: Config): (c: seq<Entry>)
    ensures |c| <= |entries|
    ensures forall e :: e in c ==> e in entries && Eligible(e, config)
  {
    if entries == [] then []
    else
      var last := entries[|entries| - 1];
      var init := Candidates(entries[..|entries| - 1], config);
      if Eligible(last, config) then init + [last] else init
  }

  /** The non-directory entries of a listing, in listing order. */
  function Files(entries: seq<Entry>): seq<Entry> {
    if entries == [] then []
    else
      var last := entries[|entries| - 1];
      var init := Files(entries[..|entries| - 1]);
      if !last.isDir then init + [last] else init
  }

  /** The loop of serveRandomImage that appends each eligible entry to validFiles. */
  method CollectCandidates(files: seq<Entry>, config: Config) returns (validFiles: seq<Entry>)
    ensures validFiles == Candidates(files, config)
  {
    validFiles := [];
    for i := 0 to |files|
      invariant validFiles == Candidates(files[..i], config)
    {
      var file := files[i];
      assert files[..i + 1][..i] == files[..i];
      if !file.isDir && (config.disableFileTypeCheck || IsValidExtension(file.name, config.allowedExtensions)) {
        validFiles := validFiles + [file];
      }
    }
    assert files[..|files|] == files;
  }

  /** The four cache-suppression headers, set after handleCORS. */
  function CacheHeaders(h: map<string, string>): map<string, string> {
    h[CacheControlKey := NoCacheDirectives][ExpiresKey := "0"][PragmaKey := "no-cache"][SurrogateControlKey := "no-store"]
  }

  /** The header map of every request that passes the referer gate. */
  function ResponseHeaders(h: map<string, string>, r: Request, config: Config): map<string, string> {
    CacheHeaders(CorsHeaders(h, r, config))
  }

  /** The referer gate of serveRandomImage: true when the request is refused with 403. */
  predicate RefererRejected(r: Request, config: Config) {
    config.refererRestriction && !ValidateReferer(r.referer, config.allowedReferers)
  }

  /** rand.Intn(len(validFiles)): the index lies in the candidate list whenever one is drawn. */
  predicate PickInRange(config: Config, listing: Result<seq<Entry>>, pick: nat) {
    match listing
    case Err(_) => true
    case Ok(entries) =>
      var n := |Candidates(entries, config)|;
      n == 0 || pick < n
  }

  /** The outcome of serveRandomImage for a request, a listing of ImageDir and a drawn index. */
  function Decide(config: Config, r: Request, listing: Result<seq<Entry>>, pick: nat): Outcome
    requires PickInRange(config, listing, pick)
  {
    if RefererRejected(r, config) then Forbidden
    else match listing
      case Err(_) => ServerError
      case Ok(entries) =>
        var c := Candidates(entries, config);
        if |c| == 0 then NotFound
        else Target(config, c[pick].name)
  }

  /** What a selected file name becomes: a 302 to "/" + its path in "redir" mode, else the file served. */
  function Target(config: Config, name: string): Outcome {
    var path := Join(config.imageDir, name);
    if config.mode == RedirectMode then Redirect("/" + path) else Serve(path)
  }

  /**
   * serveRandomImage. A refused referer returns before any header is written;
   * every other request gets the CORS and cache headers before the listing is
   * examined, so a 500 or 404 carries them too.
   */
  method ServeRandomImage(w: Header, r: Request, config: Config, listing: Result<seq<Entry>>, pick: nat)
    returns (outcome: Outcome)
    requires PickInRange(config, listing, pick)
    modifies w
    ensures outcome == Decide(config, r, listing, pick)
    ensures w.fields == if outcome.Forbidden? then old(w.fields) else ResponseHeaders(old(w.fields), r, config)
  {
    if config.refererRestriction && !ValidateReferer(r.referer, config.allowedReferers) {
      return Forbidden;
    }

    HandleCors(w, r, config);
    w.Set(CacheControlKey, NoCacheDirectives);
    w.Set(ExpiresKey, "0");
    w.Set(PragmaKey, "no-cache");
    w.Set(SurrogateControlKey, "no-store");

    if listing.Err? {
      return ServerError;
    }
    var files := listing.value;

    var validFiles := CollectCandidates(files, config);

    if |validFiles| == 0 {
      return NotFound;
    }

    var selectedFile := validFiles[pick];
    if config.mode == RedirectMode {
      outcome := Redirect("/" + Join(config.imageDir, selectedFile.name));
    } else {
      outcome := Serve(Join(config.imageDir, selectedFile.name));
    }
  }

  // ---------------------------------------------------------------------------
  // The candidate list

  /** Every eligible entry of the listing is a candidate (the converse is in Candidates' contract). */
  lemma {:induction false} CandidatesComplete(entries: seq<Entry>, config: Config, e: Entry)
    requires e in entries && Eligible(e, config)
    ensures e in Candidates(entries, config)
  {
    var n := |entries|;
    if entries[n - 1] != e {
      assert e in entries[..n - 1] by {
        var k :| 0 <= k < n && entries[k] == e;
        assert entries[..n - 1][k] == e;
      }
      CandidatesComplete(entries[..n - 1], config, e);
    }
  }

  /** Filtering distributes over concatenation of listings, so listing order is kept. */
  lemma {:induction false} CandidatesAppend(a: seq<Entry>, b: seq<Entry>, config: Config)
    ensures Candidates(a + b, config) == Candidates(a, config) + Candidates(b, config)
    decreases |b|
  {
    if b != [] {
      var n := |b|;
      assert (a + b)[..|a + b| - 1] == a + b[..n - 1];
      CandidatesAppend(a, b[..n - 1], config);
    } else {
      assert a + b == a;
    }
  }

  /** With the file-type check disabled, the candidates are exactly the non-directory entries. */
  lemma {:induction false} CandidatesWithBypass(entries: seq<Entry>, config: Config)
    requires config.disableFileTypeCheck
    ensures Candidates(entries, config) == Files(entries)
  {
    if entries != [] {
      CandidatesWithBypass(entries[..|entries| - 1], config);
    }
  }

  /** A listing with no eligible entry has no candidates. */
  lemma {:induction false} NoEligibleNoCandidates(entries: seq<Entry>, config: Config)
    requires forall k :: 0 <= k < |entries| ==> !Eligible(entries[k], config)
    ensures Candidates(entries, config) == []
  {
    if entries != [] {
      NoEligibleNoCandidates(entries[..|entries| - 1], config);
    }
  }

  /**
   * Two eligible entries followed by an ineligible one give exactly the first
   * two, in order, as for a.jpg, b.png, note.txt under [".jpg", ".png"].
   */
  lemma ThreeEntryListing(a: Entry, b: Entry, note: Entry, config: Config)
    requires Eligible(a, config) && Eligible(b, config) && !Eligible(note, config)
    ensures Candidates([a, b, note], config) == [a, b]
  {
    assert [a][..0] == [];
    assert Candidates([a], config) == [a];
    assert [a, b][..1] == [a];
    assert Candidates([a, b], config) == [a, b];
    assert [a, b, note][..2] == [a, b];
  }

  // ---------------------------------------------------------------------------
  // The decision

  /** 403 exactly when the referer gate refuses the request; nothing else can give 403. */
  lemma ForbiddenIffRefererRejected(config: Config, r: Request, listing: Result<seq<Entry>>, pick: nat)
    requires PickInRange(config, listing, pick)
    ensures Decide(config, r, listing, pick) == Forbidden <==> RefererRejected(r, config)
    ensures RefererRejected(r, config) <==>
      config.refererRestriction && |config.allowedReferers| > 0 &&
      forall k :: 0 <= k < |config.allowedReferers| ==> config.allowedReferers[k] != r.referer
  {
  }

  /** A refused request's outcome does not depend on the directory at all: it is never read. */
  lemma ForbiddenIgnoresListing(config: Config, r: Request, l1: Result<seq<Entry>>, p1: nat, l2: Result<seq<Entry>>, p2: nat)
    requires PickInRange(config, l1, p1) && PickInRange(config, l2, p2)
    requires RefererRejected(r, config)
    ensures Decide(config, r, l1, p1) == Decide(config, r, l2, p2) == Forbidden
  {
  }

  /** Without the restriction the Referer has no effect, and neither has an empty allow-list with it. */
  lemma RefererIrrelevantUnlessRestricted(config: Config, r1: Request, r2: Request, listing: Result<seq<Entry>>, pick: nat)
    requires PickInRange(config, listing, pick)
    requires !config.refererRestriction || |config.allowedReferers| == 0
    ensures Decide(config, r1, listing, pick) == Decide(config, r2, listing, pick) != Forbidden
  {
  }

  /** The source-parameter mapping is never consulted: changing it changes nothing. */
  lemma ParamRedirectsUnused(config: Config, m: map<string, string>, r: Request, listing: Result<seq<Entry>>, pick: nat)
    requires PickInRange(config, listing, pick)
    ensures PickInRange(config.(paramRedirects := m), listing, pick)
    ensures Decide(config.(paramRedirects := m), r, listing, pick) == Decide(config, r, listing, pick)
    ensures ResponseHeaders(map[], r, config.(paramRedirects := m)) == ResponseHeaders(map[], r, config)
  {
    if listing.Ok? {
      CandidatesIgnoreParamRedirects(listing.value, config, m);
    }
  }

  lemma {:induction false} CandidatesIgnoreParamRedirects(entries: seq<Entry>, config: Config, m: map<string, string>)
    ensures Candidates(entries, config.(paramRedirects := m)) == Candidates(entries, config)
  {
    if entries != [] {
      CandidatesIgnoreParamRedirects(entries[..|entries| - 1], config, m);
    }
  }

  /** A listing error past the gate gives 500; an empty candidate list gives 404. */
  lemma ErrorOutcomes(config: Config, r: Request, listing: Result<seq<Entry>>, pick: nat)
    requires PickInRange(config, listing, pick)
    requires !RefererRejected(r, config)
    ensures listing.Err? ==> Decide(config, r, listing, pick) == ServerError
    ensures listing.Ok? && |Candidates(listing.value, config)| == 0 ==>
      Decide(config, r, listing, pick) == NotFound
    ensures listing.Ok? && (forall k :: 0 <= k < |listing.value| ==> !Eligible(listing.value[k], config)) ==>
      StatusCode(Decide(config, r, listing, pick)) == 404
  {
    if listing.Ok? && (forall k :: 0 <= k < |listing.value| ==> !Eligible(listing.value[k], config)) {
      NoEligibleNoCandidates(listing.value, config);
    }
  }

  /**
   * A successful outcome names an eligible entry of the listing, joined to
   * ImageDir: a 302 to "/" + that path exactly when the mode is "redir", and
   * otherwise the file itself.
   */
  lemma SelectionIsEligible(config: Config, r: Request, entries: seq<Entry>, pick: nat)
    requires PickInRange(config, Ok(entries), pick)
    requires !RefererRejected(r, config) && |Candidates(entries, config)| > 0
    ensures exists k :: 0 <= k < |entries| && Eligible(entries[k], config) && Decide(config, r, Ok(entries), pick) == Target(config, entries[k].name)
    ensures Decide(config, r, Ok(entries), pick).Redirect? <==> config.mode == RedirectMode
  {
  }

  /** A directory holding a single eligible entry always yields that entry. */
  lemma SingleCandidateAlwaysChosen(config: Config, r: Request, entries: seq<Entry>, e: Entry, pick: nat)
    requires PickInRange(config, Ok(entries), pick)
    requires !RefererRejected(r, config)
    requires Candidates(entries, config) == [e]
    ensures Decide(config, r, Ok(entries), pick) == Target(config, e.name)
  {
  }

  /**
   * With an absolute ImageDir the redirect target starts with "//", which a
   * client reads as a network-path reference (section 4.2 of RFC 3986) naming
   * the first directory component as a host.
   */
  lemma AbsoluteImageDirRedirect(config: Config, r: Request, entries: seq<Entry>, pick: nat)
    requires PickInRange(config, Ok(entries), pick)
    requires |config.imageDir| > 0 && config.imageDir[0] == Separator
    requires Decide(config, r, Ok(entries), pick).Redirect?
    ensures var u := Decide(config, r, Ok(entries), pick).target; |u| >= 2 && u[..2] == "//"
  {
  }

  // ---------------------------------------------------------------------------
  // The response headers

  predicate IsAccessControlKey(k: string) {
    |k| >= 15 && k[..15] == "Access-Control-"
  }

  /** Every request past the gate, whatever its status, carries the four cache-suppression headers. */
  lemma CacheSuppressed(h: map<string, string>, r: Request, config: Config)
    ensures var h' := ResponseHeaders(h, r, config);
      && h'.Keys >= {CacheControlKey, ExpiresKey, PragmaKey, SurrogateControlKey}
      && h'[CacheControlKey] == NoCacheDirectives && h'[ExpiresKey] == "0"
      && h'[PragmaKey] == "no-cache" && h'[SurrogateControlKey] == "no-store"
  {
  }

  /** With CORS disabled the handler adds no Access-Control-* header. */
  lemma NoCorsHeadersWhenDisabled(h: map<string, string>, r: Request, config: Config)
    requires !config.corsEnabled
    requires forall k :: k in h ==> !IsAccessControlKey(k)
    ensures forall k :: k in ResponseHeaders(h, r, config) ==> !IsAccessControlKey(k)
  {
    assert CacheControlKey[0] == 'C' && ExpiresKey[0] == 'E';
    assert PragmaKey[0] == 'P' && SurrogateControlKey[0] == 'S';
  }
}
