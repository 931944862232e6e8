/** The main service configured with the remote backend, talking to the
    extraction service: the extraction service's reply, written as the JSON the
    proxy decodes, passed through the proxy and the route. */
module Deployment {
  import opened Base
  import opened Text
  import opened Records
  import opened UrlValidator
  import opened RemoteProxy
  import LocalDownloader
  import YtdlpApi
  import VideoRoutes

  /** How the extraction service's reply reaches the proxy: a 200 with every
      field of the response model (`None` as `null`), or the error status with
      a `detail`. */
  function ToWire(r: Result<VideoResponse, HttpError>): HttpOutcome
  {
    match r
    case Ok(v) =>
      Responded(200, Json(RemoteBody(
        success := Present(v.success),
        videoId := AsField(v.videoId),
        filePath := AsField(v.filePath),
        title := AsField(v.title),
        duration := AsField(v.duration),
        uploader := AsField(v.uploader),
        thumbnail := AsField(v.thumbnail),
        description := AsField(v.description),
        detail := Missing)))
    case Err(e) =>
      Responded(e.status, Json(RemoteBody(Missing, Missing, Missing, Missing, Missing, Missing, Missing, Missing,
                                          Present(e.detail))))
  }

  /** A successful extraction reaches the client, through the remote backend,
      with the extraction service's identifier and path and its description
      truncated to 200 characters without ellipsis. */
  lemma RemoteEndToEndSuccess(apiUrl: string, url: string, videoId: string, info: Info, mtime: int)
    requires ValidateYouTubeUrl(url)
    ensures VideoRoutes.FetchVideo(ProxyDownload(apiUrl, url, ToWire(YtdlpApi.ApiDownload(videoId, Extracted(info, mtime)))).result)
      == Ok(VideoResponse(true, DownloadedMessage, Some(videoId), Some(YtdlpApi.VideoPath(videoId)),
                          Title(info), Duration(info), Uploader(info), Thumbnail(info),
                          Some(YtdlpApi.ApiDescription(info))))
  {
    GetOrAsField(Title(info), UnknownText);
    GetOrAsField(Duration(info), 0);
    GetOrAsField(Uploader(info), UnknownText);
    GetOrAsField(Thumbnail(info), "");
  }

  /** A failed extraction reaches the client as 500 behind four stacked
      prefixes: the route's, the proxy's generic one, the proxy's API-error one
      and the extraction service's. */
  lemma RemoteEndToEndFailure(apiUrl: string, url: string, videoId: string, error: string, partial: Option<int>)
    requires ValidateYouTubeUrl(url)
    ensures VideoRoutes.FetchVideo(ProxyDownload(apiUrl, url, ToWire(YtdlpApi.ApiDownload(videoId, ExtractionFailed(error, partial)))).result)
      == Err(HttpError(500, FailedPrefix + FailedPrefix + ApiErrorPrefix + YtdlpApi.DownloadFailedPrefix + error))
  {
    var inner := YtdlpApi.DownloadFailedPrefix + error;
    var wire := ToWire(YtdlpApi.ApiDownload(videoId, ExtractionFailed(error, partial)));
    assert wire == Responded(500, Json(RemoteBody(Missing, Missing, Missing, Missing, Missing, Missing, Missing, Missing,
                                                  Present(inner))));
    var proxied := ProxyDownload(apiUrl, url, wire).result;
    assert proxied == Err(OtherError(FailedPrefix + ApiErrorPrefix + inner));
    assert FailedPrefix + (FailedPrefix + ApiErrorPrefix + inner)
        == FailedPrefix + FailedPrefix + ApiErrorPrefix + YtdlpApi.DownloadFailedPrefix + error;
  }

  /** End to end through the remote backend, for every extraction outcome. */
  lemma RemoteEndToEnd(apiUrl: string, url: string, videoId: string, x: Extraction)
    requires ValidateYouTubeUrl(url)
    ensures var resp := VideoRoutes.FetchVideo(ProxyDownload(apiUrl, url, ToWire(YtdlpApi.ApiDownload(videoId, x))).result);
      match x
      case Extracted(info, _) =>
        resp == Ok(VideoResponse(true, DownloadedMessage, Some(videoId), Some(YtdlpApi.VideoPath(videoId)),
                                 Title(info), Duration(info), Uploader(info), Thumbnail(info),
                                 Some(YtdlpApi.ApiDescription(info))))
      case ExtractionFailed(error, _) =>
        resp == Err(HttpError(500, FailedPrefix + FailedPrefix + ApiErrorPrefix + YtdlpApi.DownloadFailedPrefix + error))
  {
    match x
    case Extracted(info, mtime) => RemoteEndToEndSuccess(apiUrl, url, videoId, info, mtime);
    case ExtractionFailed(error, partial) =>
      RemoteEndToEndFailure(apiUrl, url, videoId, error, partial);
  }

  /** The two backends disagree on descriptions: the local one adds an
      ellipsis the extraction service does not, and both keep the first 200
      characters. */
  lemma DescriptionsDiffer(info: Info)
    ensures HasDescription(info) ==>
      LocalDownloader.LocalDescription(info) == YtdlpApi.ApiDescription(info) + "..."
    ensures !HasDescription(info) ==>
      LocalDownloader.LocalDescription(info) == YtdlpApi.ApiDescription(info) == ""
  {
  }
}
