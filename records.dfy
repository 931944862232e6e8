/** The data that flows between the components: the info dictionary the
    extraction library returns, the result dictionary both download backends
    return, the response model of the HTTP endpoints, and the two kinds of
    exception the backends raise. */
module Records {
  import opened Base

  /** The keys of the extraction library's info dictionary that are read. */
  datatype Info = Info(
    title: Field<string>,
    duration: Field<int>,
    uploader: Field<string>,
    thumbnail: Field<string>,
    description: Field<string>)

  /** What `extract_info(url, download=True)` of the extraction library does,
      seen from the caller: it returns an info dictionary after writing the
      video (with modification time `mtime`) at the output path, or it raises
      with the text `error`, possibly after writing a partial file there. */
  datatype Extraction =
    | Extracted(info: Info, mtime: int)
    | ExtractionFailed(error: string, partial: Option<int>)

  /** The dictionary returned by `download_video` of either backend. Every key
      is always present; a value may be `None`. */
  datatype VideoRecord = VideoRecord(
    success: Option<bool>,
    videoId: Option<string>,
    filePath: Option<string>,
    title: Option<string>,
    duration: Option<int>,
    uploader: Option<string>,
    thumbnail: Option<string>,
    description: Option<string>)

  /** The response model of a download endpoint (`VideoFetchResponse` of the
      main service, `DownloadResponse` of the extraction service: the same
      fields). */
  datatype VideoResponse = VideoResponse(
    success: bool,
    message: string,
    videoId: Option<string>,
    filePath: Option<string>,
    title: Option<string>,
    duration: Option<int>,
    uploader: Option<string>,
    thumbnail: Option<string>,
    description: Option<string>)

  /** An exception a backend raises: a `ValueError`, or any other kind. */
  datatype Raised = ValueError(message: string) | OtherError(message: string)

  /** An HTTP error raised as `HTTPException(status_code, detail)`. */
  datatype HttpError = HttpError(status: int, detail: string)

  const UnknownText := "Unknown"
  const DownloadedMessage := "Video downloaded successfully"
  const InvalidUrlMessage := "Invalid YouTube URL provided"
  const FailedPrefix := "Failed to download video: "

  /** The metadata defaults shared by both places that read an info
      dictionary: the title and the uploader default to `Unknown`, the duration
      to 0 and the thumbnail to the empty string, for absent keys only. */
  function Title(info: Info): (t: Option<string>)
    ensures info.title.Missing? ==> t == Some(UnknownText)
    ensures info.title.Present? ==> t == Some(info.title.value)
    ensures info.title.Null? ==> t == None
  {
    GetOr(info.title, UnknownText)
  }

  function Duration(info: Info): (d: Option<int>)
    ensures info.duration.Missing? ==> d == Some(0)
    ensures info.duration.Present? ==> d == Some(info.duration.value)
    ensures info.duration.Null? ==> d == None
  {
    GetOr(info.duration, 0)
  }

  function Uploader(info: Info): (u: Option<string>)
    ensures info.uploader.Missing? ==> u == Some(UnknownText)
    ensures info.uploader.Present? ==> u == Some(info.uploader.value)
    ensures info.uploader.Null? ==> u == None
  {
    GetOr(info.uploader, UnknownText)
  }

  function Thumbnail(info: Info): (t: Option<string>)
    ensures info.thumbnail.Missing? ==> t == Some("")
    ensures info.thumbnail.Present? ==> t == Some(info.thumbnail.value)
    ensures info.thumbnail.Null? ==> t == None
  {
    GetOr(info.thumbnail, "")
  }

  /** Python truthiness of `info.get('description')`. */
  predicate HasDescription(info: Info)
  {
    info.description.Present? && info.description.value != ""
  }
}
