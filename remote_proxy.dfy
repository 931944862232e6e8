/** The remote download backend (`VideoDownloadService` of
    backend/services/video_downloader_api.py): validates the URL with the same
    regular expression as the local backend, forwards the download to the
    extraction service over HTTP and turns its reply, or the transport
    failure, into the result dictionary or an exception.

    The HTTP call itself is not modelled; its outcome is a parameter. */
module RemoteProxy {
  import opened Base
  import opened Records
  import opened UrlValidator

  /** A JSON object received from the extraction service, restricted to the
      keys that are read. */
  datatype RemoteBody = RemoteBody(
    success: Field<bool>,
    videoId: Field<string>,
    filePath: Field<string>,
    title: Field<string>,
    duration: Field<int>,
    uploader: Field<string>,
    thumbnail: Field<string>,
    description: Field<string>,
    detail: Field<string>)

  /** The body of an HTTP reply: a JSON object, or text that `response.json()`
      cannot decode (the decoding error's text). */
  datatype Body = Json(obj: RemoteBody) | NotJson(error: string)

  /** How a `requests` call ends: `requests.Timeout`, `requests.ConnectionError`,
      any other exception (its text), or a reply. */
  datatype HttpOutcome =
    | Timeout
    | ConnectionFailed
    | TransportFailed(text: string)
    | Responded(status: int, body: Body)

  /** The request sent: method-specific target, JSON body and timeout. */
  datatype HttpRequest =
    | Post(url: string, youtubeUrl: string, timeoutSeconds: int)
    | Delete(url: string, timeoutSeconds: int)

  const DownloadTimeoutSeconds := 120
  const CleanupTimeoutSeconds := 10
  const TimeoutMessage := "Download timeout - video might be too large"
  const ApiErrorPrefix := "API returned error: "
  const UnknownError := "Unknown error"

  /** `f"{error_detail}"` of `response.json().get('detail', 'Unknown error')`. */
  function DetailText(detail: Field<string>): (t: string)
    ensures detail.Missing? ==> t == UnknownError
    ensures detail.Present? ==> t == detail.value
    ensures detail.Null? ==> t == "None"
  {
    match detail
    case Missing => UnknownError
    case Null => "None"
    case Present(d) => d
  }

  /** The result dictionary built from a 200 reply: defaults for absent keys,
      the description never truncated, the id and path copied as they are. */
  function RecordFromBody(b: RemoteBody): (r: VideoRecord)
    ensures Defaulted(b.success, false, r.success)
    ensures r.videoId == (if b.videoId.Present? then Some(b.videoId.value) else None)
    ensures r.filePath == (if b.filePath.Present? then Some(b.filePath.value) else None)
    ensures Defaulted(b.title, UnknownText, r.title) && Defaulted(b.uploader, UnknownText, r.uploader)
    ensures Defaulted(b.duration, 0, r.duration) && Defaulted(b.thumbnail, "", r.thumbnail)
    ensures Defaulted(b.description, "", r.description)
  {
    VideoRecord(
      success := GetOr(b.success, false),
      videoId := GetOrNone(b.videoId),
      filePath := GetOrNone(b.filePath),
      title := GetOr(b.title, UnknownText),
      duration := GetOr(b.duration, 0),
      uploader := GetOr(b.uploader, UnknownText),
      thumbnail := GetOr(b.thumbnail, ""),
      description := GetOr(b.description, ""))
  }

  /** What a `download_video` call sends (if anything) and what it returns. */
  datatype ProxyCall = ProxyCall(sent: Option<HttpRequest>, result: Result<VideoRecord, Raised>)

  /** What the `try` block yields once the request has been issued. The
      exception raised for a non-200 reply is caught by the block's own generic
      handler and so gains the generic prefix. */
  function MapOutcome(apiUrl: string, outcome: HttpOutcome): (r: Result<VideoRecord, Raised>)
    ensures r.Err? ==> r.error.OtherError?
    ensures outcome == Timeout ==> r == Err(OtherError(TimeoutMessage))
    ensures outcome == ConnectionFailed ==> r == Err(OtherError("Cannot connect to YT-DLP API at " + apiUrl))
    ensures outcome.TransportFailed? ==> r == Err(OtherError(FailedPrefix + outcome.text))
    ensures outcome.Responded? && outcome.body.NotJson? ==> r == Err(OtherError(FailedPrefix + outcome.body.error))
    ensures outcome.Responded? && outcome.body.Json? ==>
      if outcome.status == 200 then r == Ok(RecordFromBody(outcome.body.obj))
      else r == Err(OtherError(FailedPrefix + ApiErrorPrefix + DetailText(outcome.body.obj.detail)))
  {
    match outcome
    case Timeout => Err(OtherError(TimeoutMessage))
    case ConnectionFailed => Err(OtherError("Cannot connect to YT-DLP API at " + apiUrl))
    case TransportFailed(text) => Err(OtherError(FailedPrefix + text))
    case Responded(status, body) =>
      match body
      case NotJson(error) => Err(OtherError(FailedPrefix + error))
      case Json(obj) =>
        if status == 200 then Ok(RecordFromBody(obj))
        else Err(OtherError(FailedPrefix + ApiErrorPrefix + DetailText(obj.detail)))
  }

  /** `download_video(url)` against the service at `apiUrl`, the request ending
      as `outcome`. */
  function ProxyDownload(apiUrl: string, url: string, outcome: HttpOutcome): (c: ProxyCall)
    // An invalid URL raises ValueError and no request is issued.
    ensures !ValidateYouTubeUrl(url) ==> c == ProxyCall(None, Err(ValueError(InvalidUrlMessage)))
    // Otherwise one POST to `<api_url>/download` with the URL and a 120 s timeout.
    ensures ValidateYouTubeUrl(url) ==>
      c.sent == Some(Post(apiUrl + "/download", url, DownloadTimeoutSeconds)) &&
      c.result == MapOutcome(apiUrl, outcome)
  {
    if !ValidateYouTubeUrl(url) then ProxyCall(None, Err(ValueError(InvalidUrlMessage)))
    else ProxyCall(Some(Post(apiUrl + "/download", url, DownloadTimeoutSeconds)), MapOutcome(apiUrl, outcome))
  }

  /** The only `ValueError` is the invalid-URL one. */
  lemma ProxyValueErrorOnlyForInvalidUrl(apiUrl: string, url: string, outcome: HttpOutcome)
    ensures var r := ProxyDownload(apiUrl, url, outcome).result;
      (r.Err? && r.error.ValueError?) <==> !ValidateYouTubeUrl(url)
  {
  }

  /** `cleanup_video(video_id)`: the request sent and the flag returned. A
      `success` sent as `null` comes back as `None`, which is falsy; it is
      modelled as false. */
  function ProxyCleanup(apiUrl: string, videoId: string, outcome: HttpOutcome): (c: (HttpRequest, bool))
    ensures c.0 == Delete(apiUrl + "/cleanup/" + videoId, CleanupTimeoutSeconds)
    ensures c.1 ==> outcome.Responded? && outcome.status == 200 && outcome.body.Json?
    ensures outcome.Responded? && outcome.status == 200 && outcome.body.Json? ==>
      (c.1 <==> outcome.body.obj.success == Present(true))
  {
    var request := Delete(apiUrl + "/cleanup/" + videoId, CleanupTimeoutSeconds);
    match outcome
    case Responded(200, Json(obj)) =>
      (request, match obj.success case Present(b) => b case _ => false)
    case _ => (request, false)
  }
}
