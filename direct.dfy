/**
 * The `POST /direct` endpoint: the policy gate (API key, URL scheme, domain
 * blocklist), the call to the extractor, the choice of direct links and the
 * shape of the response.
 */
module DirectEndpoint {
  import opened Wrappers
  import opened PyStr
  import opened Blocklist
  import opened Formats

  /** Process-wide settings: `API_KEY` (unset is `None`) and the parsed
      `BLOCKLIST`. */
  datatype Config = Config(apiKey: Option<string>, blocklist: seq<string>)

  /** The request body. Its `format` field is never read, so it is not kept. */
  datatype DirectReq = DirectReq(url: string)

  /** What the extractor gives back: metadata, or a `DownloadError` with its
      message. */
  datatype Extraction = Extracted(info: Info) | DownloadError(message: string)

  datatype DirectLink = DirectLink(
    url: Option<string>,
    ext: Option<string>,
    formatId: Option<string>,
    filesize: Option<int>,
    protocol: Option<string>)

  datatype Response = Response(
    title: Option<string>,
    webpageUrl: Option<string>,
    duration: Option<real>,
    uploader: Option<string>,
    direct: seq<DirectLink>)

  datatype HttpError = HttpError(status: int, detail: string)

  datatype Outcome = Ok(response: Response) | Err(error: HttpError)

  const Unauthorized401 := HttpError(401, "Unauthorized")
  const BadUrl400 := HttpError(400, "Bad URL")
  const Blocked403 := HttpError(403, "Domain is blocked by policy")
  const NotFound404 := HttpError(404, "No direct URL found")

  function ExtractionFailed422(message: string): HttpError {
    HttpError(422, "yt-dlp error: " + message)
  }

  /** Python truthiness of an optional string: present and non-empty. */
  predicate Truthy(s: Option<string>) {
    s.Some? && s.value != ""
  }

  // ---------------------------------------------------------------------
  // The policy gate

  /** The key check refuses a request when a non-empty key is configured and
      the header is missing, empty or different from it. */
  predicate KeyRejected(apiKey: Option<string>, header: Option<string>) {
    Truthy(apiKey) && (!Truthy(header) || header != apiKey)
  }

  /** The URL check refuses an empty URL and one whose scheme prefix is not
      exactly "http://" or "https://" (case-sensitive). */
  predicate UrlRejected(url: string) {
    url == "" || !HasHttpScheme(url)
  }

  /** The three checks in their order; `None` lets the request through. */
  function Gate(req: DirectReq, header: Option<string>, config: Config): Option<HttpError> {
    if KeyRejected(config.apiKey, header) then Some(Unauthorized401)
    else if UrlRejected(req.url) then Some(BadUrl400)
    else if config.blocklist != [] && DomainBlocked(req.url, config.blocklist) then Some(Blocked403)
    else None
  }

  /** A configured key must be sent exactly; with no key configured (unset or
      empty) every request passes this check. */
  lemma KeyRejectedIff(apiKey: Option<string>, header: Option<string>)
    ensures KeyRejected(apiKey, header) <==> Truthy(apiKey) && header != apiKey
  {
  }

  /** The key check comes first: a wrong key gets 401 whatever the URL and the
      blocklist are. */
  lemma KeyCheckedFirst(req: DirectReq, header: Option<string>, config: Config)
    requires Truthy(config.apiKey) && header != config.apiKey
    ensures Gate(req, header, config) == Some(Unauthorized401)
  {
  }

  /** A request with an accepted key and an empty or non-http(s) URL gets 400,
      before the blocklist is consulted. */
  lemma BadUrlRejected(req: DirectReq, header: Option<string>, config: Config)
    requires !KeyRejected(config.apiKey, header)
    requires req.url == "" || !(StartsWith(req.url, "http://") || StartsWith(req.url, "https://"))
    ensures Gate(req, header, config) == Some(BadUrl400)
  {
  }

  /** Past the first two checks, the request is refused with 403 exactly when
      the blocklist is non-empty and blocks the URL, and passes otherwise; an
      empty blocklist lets every such URL through, even one that does not
      parse. */
  lemma BlocklistDecides(req: DirectReq, header: Option<string>, config: Config)
    requires !KeyRejected(config.apiKey, header) && HasHttpScheme(req.url)
    ensures Gate(req, header, config) == Some(Blocked403) <==>
      config.blocklist != [] && DomainBlocked(req.url, config.blocklist)
    ensures Gate(req, header, config) != Some(Blocked403) ==> Gate(req, header, config) == None
    ensures config.blocklist == [] ==> Gate(req, header, config) == None
  {
  }

  // ---------------------------------------------------------------------
  // Selection and shaping

  /** The size reported for a link: the exact size when it is present and
      non-zero, otherwise the approximate size, which may itself be absent. */
  function FileSizeOf(f: Format): Option<int> {
    if f.filesize.Some? && f.filesize.value != 0 then f.filesize else f.filesizeApprox
  }

  /** One entry of `result["direct"]`, built from a format dictionary. */
  function Shape(f: Format): DirectLink {
    DirectLink(f.url, f.ext, f.formatId, FileSizeOf(f), f.protocol)
  }

  function ShapeAll(fs: seq<Format>): seq<DirectLink> {
    seq(|fs|, i requires 0 <= i < |fs| => Shape(fs[i]))
  }

  /** `info.get("requested_formats")` is truthy: present and non-empty. */
  predicate HasRequested(info: Info) {
    info.requestedFormats.Some? && info.requestedFormats.value != []
  }

  /** The formats the links are built from, in the source's priority order. */
  function Selection(info: Info): seq<Format> {
    if HasRequested(info) then info.requestedFormats.value
    else if Truthy(info.top.url) then [info.top]
    else match PickBestProgressive(info)
      case Some(best) => [best]
      case None => []
  }

  /** The size is the exact one when that is a non-zero number, and otherwise
      whatever the approximate one is, absent included; 0 counts as no size. */
  lemma FileSizeFallback(f: Format)
    ensures f.filesize.Some? && f.filesize.value != 0 ==> FileSizeOf(f) == f.filesize
    ensures f.filesize == None || f.filesize == Some(0) ==> FileSizeOf(f) == f.filesizeApprox
    ensures FileSizeOf(f) == None <==> (f.filesize == None || f.filesize == Some(0)) && f.filesizeApprox == None
  {
  }

  /** Pre-merged formats win: every one of them, in order, whatever their
      bit rates and whatever else the metadata has. */
  lemma RequestedFormatsWin(info: Info)
    requires HasRequested(info)
    ensures |ShapeAll(Selection(info))| == |info.requestedFormats.value|
    ensures forall i :: 0 <= i < |info.requestedFormats.value| ==>
      ShapeAll(Selection(info))[i] == Shape(info.requestedFormats.value[i])
  {
  }

  /** Otherwise a truthy top-level URL gives exactly one link, built from the
      top-level keys. */
  lemma TopLevelUrlNext(info: Info)
    requires !HasRequested(info) && Truthy(info.top.url)
    ensures ShapeAll(Selection(info)) == [Shape(info.top)]
  {
  }

  /** Otherwise at most one link, from the best progressive format: none when
      no format is progressive, else one whose bit rate is the greatest and
      which comes first among those with that bit rate. */
  lemma ProgressiveLast(info: Info)
    requires !HasRequested(info) && !Truthy(info.top.url)
    ensures |Selection(info)| <= 1
    ensures Selection(info) == [] <==> forall f :: f in FormatList(info) ==> !IsProgressive(f)
    ensures |Selection(info)| == 1 ==>
      var b := Selection(info)[0];
      IsProgressive(b) &&
      (forall f :: f in FormatList(info) && IsProgressive(f) ==> SortKey(f) <= SortKey(b)) &&
      exists i :: 0 <= i < |FormatList(info)| && FormatList(info)[i] == b &&
        forall j :: 0 <= j < i && IsProgressive(FormatList(info)[j]) ==> SortKey(FormatList(info)[j]) < SortKey(b)
  {
    PickNoneIff(info);
    PickIsBest(info);
    PickIsEarliest(info);
  }

  // ---------------------------------------------------------------------
  // The whole request

  /** What `direct(req, x_api_key)` returns or raises, with the extractor
      given as a function of the URL. */
  function Pipeline(req: DirectReq, header: Option<string>, config: Config, extract: string -> Extraction): Outcome {
    match Gate(req, header, config)
    case Some(e) => Err(e)
    case None =>
      match extract(req.url)
      case DownloadError(message) => Err(ExtractionFailed422(message))
      case Extracted(info) =>
        var links := ShapeAll(Selection(info));
        if links == [] then Err(NotFound404)
        else Ok(Response(info.title, info.webpageUrl, info.duration, info.uploader, links))
  }

  /** A request the gate refuses gets the gate's answer whatever the extractor
      would have done: nothing is extracted before the checks pass. */
  lemma GateBeforeExtraction(req: DirectReq, header: Option<string>, config: Config,
                             extract1: string -> Extraction, extract2: string -> Extraction)
    requires Gate(req, header, config).Some?
    ensures Pipeline(req, header, config, extract1) == Err(Gate(req, header, config).value)
    ensures Pipeline(req, header, config, extract1) == Pipeline(req, header, config, extract2)
  {
  }

  /** Past the gate, an extractor error is answered with 422 and its message. */
  lemma ExtractionErrorIs422(req: DirectReq, header: Option<string>, config: Config, extract: string -> Extraction)
    requires Gate(req, header, config).None? && extract(req.url).DownloadError?
    ensures Pipeline(req, header, config, extract) == Err(HttpError(422, "yt-dlp error: " + extract(req.url).message))
  {
  }

  /** Past the gate and the extractor, the answer is 404 exactly when no
      format was selected. */
  lemma NothingSelectedIs404(req: DirectReq, header: Option<string>, config: Config, extract: string -> Extraction)
    requires Gate(req, header, config).None? && extract(req.url).Extracted?
    ensures Pipeline(req, header, config, extract) == Err(NotFound404) <==>
      Selection(extract(req.url).info) == []
  {
  }

  /** A successful answer passed every check, came from extracted metadata,
      copies its four top-level fields and holds at least one link, one per
      selected format and in the selected order. */
  lemma SuccessfulResponse(req: DirectReq, header: Option<string>, config: Config, extract: string -> Extraction)
    requires Pipeline(req, header, config, extract).Ok?
    ensures Gate(req, header, config).None?
    ensures !KeyRejected(config.apiKey, header) && HasHttpScheme(req.url)
    ensures extract(req.url).Extracted?
    ensures
      var info, r := extract(req.url).info, Pipeline(req, header, config, extract).response;
      r.title == info.title && r.webpageUrl == info.webpageUrl &&
      r.duration == info.duration && r.uploader == info.uploader &&
      |r.direct| == |Selection(info)| > 0 &&
      forall i :: 0 <= i < |r.direct| ==> r.direct[i] == Shape(Selection(info)[i])
  {
  }

  // ---------------------------------------------------------------------
  // Worked cases

  function TestFormat(id: string, acodec: string, vcodec: string, tbr: Option<real>): Format {
    Format(Some(id + ".url"), Some("mp4"), Some(id), Some(acodec), Some(vcodec), tbr, None, None, Some("https"))
  }

  function TestInfo(formats: seq<Format>, requested: Option<seq<Format>>): Info {
    Info(Some("t"), Some("w"), None, None, Some(formats), requested,
         Format(None, None, None, None, None, None, None, None, None))
  }

  /** Two pre-merged streams give two links, in their order, even when a
      better progressive format exists. */
  lemma RequestedExample()
    ensures
      var video, audio := TestFormat("137", "none", "avc1", None), TestFormat("140", "mp4a", "none", None);
      var best := TestFormat("22", "mp4a", "avc1", Some(900.0));
      ShapeAll(Selection(TestInfo([best], Some([video, audio])))) == [Shape(video), Shape(audio)]
  {
  }

  /** An audio-only format with a higher rate is skipped; of the progressive
      ones the one with rate 800 wins over the one with rate 300. */
  lemma ProgressiveExample()
    ensures
      var audioOnly := TestFormat("a", "mp3", "none", Some(500.0));
      var low, high := TestFormat("l", "aac", "h264", Some(300.0)), TestFormat("h", "aac", "h264", Some(800.0));
      Selection(TestInfo([audioOnly, low, high], None)) == [high]
  {
    var audioOnly := TestFormat("a", "mp3", "none", Some(500.0));
    var low, high := TestFormat("l", "aac", "h264", Some(300.0)), TestFormat("h", "aac", "h264", Some(800.0));
    var fmts := [audioOnly, low, high];
    assert !IsProgressive(audioOnly) && IsProgressive(low) && IsProgressive(high);
    assert Progressives([high]) == [high] by { assert [high][1..] == []; }
    assert Progressives([low, high]) == [low, high] by { assert [low, high][1..] == [high]; }
    assert Progressives(fmts) == [low, high] by { assert fmts[1..] == [low, high]; }
    assert SortByTbrDesc([high]) == [high];
    assert SortByTbrDesc([low, high]) == Insert(low, [high]);
  }

  /** With equal rates, the earlier progressive format wins; a missing rate
      counts as 0 and loses to any positive one. */
  lemma TieBreakExample()
    ensures
      var unrated := TestFormat("u", "aac", "h264", None);
      var first, second := TestFormat("1", "aac", "h264", Some(400.0)), TestFormat("2", "aac", "h264", Some(400.0));
      Selection(TestInfo([unrated, first, second], Some([]))) == [first]
  {
    var unrated := TestFormat("u", "aac", "h264", None);
    var first, second := TestFormat("1", "aac", "h264", Some(400.0)), TestFormat("2", "aac", "h264", Some(400.0));
    var fmts := [unrated, first, second];
    assert IsProgressive(unrated) && IsProgressive(first) && IsProgressive(second);
    assert Progressives([second]) == [second] by { assert [second][1..] == []; }
    assert Progressives([first, second]) == [first, second] by { assert [first, second][1..] == [second]; }
    assert Progressives(fmts) == fmts by { assert fmts[1..] == [first, second]; }
    assert SortByTbrDesc([second]) == [second];
    assert SortByTbrDesc([first, second]) == Insert(first, [second]);
    assert SortByTbrDesc(fmts) == Insert(unrated, [first, second]);
  }

  // ---------------------------------------------------------------------
  // The endpoint as the source writes it

  /** Builds `result["direct"]` by appending one entry per selected format. */
  method SelectDirect(info: Info) returns (direct: seq<DirectLink>)
    ensures direct == ShapeAll(Selection(info))
  {
    direct := [];
    if HasRequested(info) {
      var fs := info.requestedFormats.value;
      for i := 0 to |fs|
        invariant |direct| == i
        invariant forall k :: 0 <= k < i ==> direct[k] == Shape(fs[k])
      {
        direct := direct + [Shape(fs[i])];
      }
    } else if Truthy(info.top.url) {
      direct := direct + [Shape(info.top)];
    } else {
      var best := PickBestProgressive(info);
      if best.Some? {
        direct := direct + [Shape(best.value)];
      }
    }
  }

  /** `direct(req, x_api_key)`: each `raise` becomes an early `Err`. */
  method Direct(req: DirectReq, header: Option<string>, config: Config, extract: string -> Extraction)
    returns (outcome: Outcome)
    ensures outcome == Pipeline(req, header, config, extract)
  {
    if Truthy(config.apiKey) {
      if !Truthy(header) || header != config.apiKey {
        return Err(Unauthorized401);
      }
    }
    if req.url == "" || !(StartsWith(req.url, "http://") || StartsWith(req.url, "https://")) {
      return Err(BadUrl400);
    }
    if config.blocklist != [] && DomainBlocked(req.url, config.blocklist) {
      return Err(Blocked403);
    }
    var extraction := extract(req.url);
    if extraction.DownloadError? {
      return Err(ExtractionFailed422(extraction.message));
    }
    var info := extraction.info;
    var direct := SelectDirect(info);
    if direct == [] {
      return Err(NotFound404);
    }
    outcome := Ok(Response(info.title, info.webpageUrl, info.duration, info.uploader, direct));
  }
}
