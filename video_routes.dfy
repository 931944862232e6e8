/** The HTTP routes of the main service (backend/routes/video_routes.py):
    `fetch_video` turns the selected backend's result or exception into the
    response model or an HTTP error; `health_check` is a constant. */
module VideoRoutes {
  import opened Base
  import opened Records
  import opened FileSystem
  import opened UrlValidator
  import LocalDownloader
  import RemoteProxy

  /** `fetch_video`, given what `video_service.download_video` produced. */
  function FetchVideo(r: Result<VideoRecord, Raised>): (resp: Result<VideoResponse, HttpError>)
    // A ValueError becomes 400 with its text verbatim.
    ensures r.Err? && r.error.ValueError? ==> resp == Err(HttpError(400, r.error.message))
    // Any other exception becomes 500 and gains the prefix.
    ensures r.Err? && r.error.OtherError? ==> resp == Err(HttpError(500, FailedPrefix + r.error.message))
    // A normal return always reports success, whatever the backend's flag said,
    // and copies the other fields unchanged.
    ensures r.Ok? ==>
      resp.Ok? && resp.value.success && resp.value.message == DownloadedMessage &&
      resp.value.videoId == r.value.videoId && resp.value.filePath == r.value.filePath &&
      resp.value.title == r.value.title && resp.value.duration == r.value.duration &&
      resp.value.uploader == r.value.uploader && resp.value.thumbnail == r.value.thumbnail &&
      resp.value.description == r.value.description
  {
    match r
    case Ok(v) =>
      Ok(VideoResponse(
        success := true,
        message := DownloadedMessage,
        videoId := v.videoId,
        filePath := v.filePath,
        title := v.title,
        duration := v.duration,
        uploader := v.uploader,
        thumbnail := v.thumbnail,
        description := v.description))
    case Err(ValueError(m)) => Err(HttpError(400, m))
    case Err(OtherError(m)) => Err(HttpError(500, FailedPrefix + m))
  }

  predicate IsBadRequest(resp: Result<VideoResponse, HttpError>)
  {
    resp.Err? && resp.error.status == 400
  }

  /** With the local backend, 400 arises exactly for URLs the validator rejects,
      and then carries the invalid-URL text. */
  lemma LocalBadRequestIffInvalid(entries: map<string, Entry>, locked: set<string>, tempDir: string,
                                  url: string, videoId: string, x: Extraction)
    ensures var resp := FetchVideo(LocalDownloader.DownloadSpec(entries, locked, tempDir, url, videoId, x).result);
      (IsBadRequest(resp) <==> !ValidateYouTubeUrl(url)) &&
      (IsBadRequest(resp) ==> resp.error.detail == InvalidUrlMessage)
  {
  }

  /** With the remote backend, likewise. */
  lemma RemoteBadRequestIffInvalid(apiUrl: string, url: string, outcome: RemoteProxy.HttpOutcome)
    ensures var resp := FetchVideo(RemoteProxy.ProxyDownload(apiUrl, url, outcome).result);
      (IsBadRequest(resp) <==> !ValidateYouTubeUrl(url)) &&
      (IsBadRequest(resp) ==> resp.error.detail == InvalidUrlMessage)
  {
  }

  /** A failed local extraction reaches the client with the prefix doubled. */
  lemma LocalFailureDoublePrefix(entries: map<string, Entry>, locked: set<string>, tempDir: string,
                                 url: string, videoId: string, error: string, partial: Option<int>)
    requires ValidateYouTubeUrl(url)
    requires LocalDownloader.OutputPath(tempDir, videoId) !in locked
    requires partial.None? && LocalDownloader.OutputPath(tempDir, videoId) in entries ==>
      entries[LocalDownloader.OutputPath(tempDir, videoId)].File?
    ensures FetchVideo(LocalDownloader.DownloadSpec(entries, locked, tempDir, url, videoId,
                                                    ExtractionFailed(error, partial)).result)
      == Err(HttpError(500, FailedPrefix + FailedPrefix + error))
  {
    var out := LocalDownloader.OutputPath(tempDir, videoId);
    var written := LocalDownloader.AfterExtraction(entries, out, ExtractionFailed(error, partial));
    assert out in written ==> written[out].File?;
    assert out in written ==> UnlinkError(written, locked, out).None?;
    var d := LocalDownloader.DownloadSpec(entries, locked, tempDir, url, videoId, ExtractionFailed(error, partial));
    assert d.result == Err(OtherError(FailedPrefix + error));
    assert FailedPrefix + (FailedPrefix + error) == (FailedPrefix + FailedPrefix) + error;
  }

  /** A remote timeout and a remote connection failure keep their own texts
      (behind the route's prefix) instead of the generic backend prefix. */
  lemma RemoteTransportMessages(apiUrl: string, url: string)
    requires ValidateYouTubeUrl(url)
    ensures FetchVideo(RemoteProxy.ProxyDownload(apiUrl, url, RemoteProxy.Timeout).result)
      == Err(HttpError(500, FailedPrefix + "Download timeout - video might be too large"))
    ensures FetchVideo(RemoteProxy.ProxyDownload(apiUrl, url, RemoteProxy.ConnectionFailed).result)
      == Err(HttpError(500, FailedPrefix + "Cannot connect to YT-DLP API at " + apiUrl))
  {
    assert FailedPrefix + ("Cannot connect to YT-DLP API at " + apiUrl)
        == (FailedPrefix + "Cannot connect to YT-DLP API at ") + apiUrl;
  }

  /** A 200 reply whose `success` is false still yields a successful response. */
  lemma RemoteSuccessFlagIgnored(apiUrl: string, url: string, b: RemoteProxy.RemoteBody)
    requires ValidateYouTubeUrl(url) && b.success == Present(false)
    ensures var resp := FetchVideo(RemoteProxy.ProxyDownload(apiUrl, url, RemoteProxy.Responded(200, RemoteProxy.Json(b))).result);
      resp.Ok? && resp.value.success
  {
  }

  datatype Health = Health(status: string, service: string, version: string)

  /** `health_check`: a fixed payload, no dependency is checked. */
  function HealthCheck(): (h: Health)
    ensures h.status == "healthy" && h.service == "video-ingestion" && h.version == "1.0.0"
  {
    Health("healthy", "video-ingestion", "1.0.0")
  }
}
