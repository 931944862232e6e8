/** The extraction service (ytdlp_API/main.py): its `/download` endpoint, which
    shapes the extraction library's info dictionary into a response (or an
    HTTP 500), and its `/cleanup/{video_id}` endpoint, which removes one file
    of its temporary directory. */
module YtdlpApi {
  import opened Base
  import opened Text
  import opened Records
  import opened FileSystem
  import opened PyText

  /** `str(Path("./temp_videos"))`. */
  const TempDir := "temp_videos"
  const DownloadFailedPrefix := "Download failed: "

  function VideoPath(videoId: string): string
  {
    JoinPath(TempDir, videoId + ".mp4")
  }

  /** `info.get('description', '')[:200] if info.get('description') else ''`:
      truncated to 200 characters, with no ellipsis. */
  function ApiDescription(info: Info): (d: string)
    ensures |d| <= 200
    ensures !HasDescription(info) ==> d == ""
    ensures HasDescription(info) ==> StartsWith(info.description.value, d)
    ensures HasDescription(info) && |info.description.value| <= 200 ==> d == info.description.value
    ensures HasDescription(info) && |info.description.value| > 200 ==> |d| == 200
  {
    if HasDescription(info) then Take(info.description.value, 200) else ""
  }

  /** `download_video`: no URL validation, no removal of a partial file; any
      exception becomes HTTP 500. */
  function ApiDownload(videoId: string, x: Extraction): (r: Result<VideoResponse, HttpError>)
    ensures x.ExtractionFailed? ==> r == Err(HttpError(500, DownloadFailedPrefix + x.error))
    ensures x.Extracted? ==>
      r.Ok? && r.value.success && r.value.message == DownloadedMessage &&
      r.value.videoId == Some(videoId) && r.value.filePath == Some(VideoPath(videoId)) &&
      r.value.title == Title(x.info) && r.value.duration == Duration(x.info) &&
      r.value.uploader == Uploader(x.info) && r.value.thumbnail == Thumbnail(x.info) &&
      r.value.description == Some(ApiDescription(x.info))
  {
    match x
    case ExtractionFailed(error, _) => Err(HttpError(500, DownloadFailedPrefix + error))
    case Extracted(info, _) =>
      Ok(VideoResponse(
        success := true,
        message := DownloadedMessage,
        videoId := Some(videoId),
        filePath := Some(VideoPath(videoId)),
        title := Title(info),
        duration := Duration(info),
        uploader := Uploader(info),
        thumbnail := Thumbnail(info),
        description := Some(ApiDescription(info))))
  }

  /** The JSON object `cleanup_video` returns. */
  datatype CleanupReply = CleanupReply(success: bool, message: string)

  const Deleted := CleanupReply(true, "Video deleted")
  const NotFound := CleanupReply(false, "Video not found")

  datatype Cleanup = Cleanup(reply: Result<CleanupReply, HttpError>, entries: map<string, Entry>)

  /** `cleanup_video(video_id)`: only the key `<video_id>.mp4` is touched. */
  function CleanupSpec(entries: map<string, Entry>, locked: set<string>, videoId: string): (c: Cleanup)
    ensures VideoPath(videoId) !in entries ==> c == Cleanup(Ok(NotFound), entries)
    ensures VideoPath(videoId) in entries && UnlinkError(entries, locked, VideoPath(videoId)).None? ==>
      c == Cleanup(Ok(Deleted), entries - {VideoPath(videoId)})
    ensures VideoPath(videoId) in entries && UnlinkError(entries, locked, VideoPath(videoId)).Some? ==>
      c == Cleanup(Err(HttpError(500, OsErrorText(UnlinkError(entries, locked, VideoPath(videoId)).value, VideoPath(videoId)))), entries)
    ensures forall p :: p != VideoPath(videoId) ==> (p in c.entries <==> p in entries) && (p in entries ==> c.entries[p] == entries[p])
  {
    var path := VideoPath(videoId);
    if path in entries then
      match UnlinkError(entries, locked, path)
      case None => Cleanup(Ok(Deleted), entries - {path})
      case Some(e) => Cleanup(Err(HttpError(500, OsErrorText(e, path))), entries)
    else Cleanup(Ok(NotFound), entries)
  }

  /** The `/cleanup/{video_id}` endpoint. */
  method CleanupVideo(disk: Disk, videoId: string) returns (reply: Result<CleanupReply, HttpError>)
    modifies disk
    ensures Cleanup(reply, disk.entries) == CleanupSpec(old(disk.entries), disk.locked, videoId)
  {
    var path := VideoPath(videoId);
    if path in disk.entries {
      var err := disk.Unlink(path);
      if err.Some? {
        return Err(HttpError(500, OsErrorText(err.value, path)));
      }
      return Ok(Deleted);
    }
    return Ok(NotFound);
  }

  /** A second cleanup with the same identifier reports the video not found,
      after a first one that deleted it. */
  lemma CleanupTwice(entries: map<string, Entry>, locked: set<string>, videoId: string)
    requires CleanupSpec(entries, locked, videoId).reply == Ok(Deleted)
    ensures var after := CleanupSpec(entries, locked, videoId).entries;
      CleanupSpec(after, locked, videoId) == Cleanup(Ok(NotFound), after)
  {
  }

  /** A directory at `<video_id>.mp4` that the process may remove exists but
      cannot be unlinked: HTTP 500 with the `EISDIR` text, the path read back
      exactly from its `repr`. */
  lemma CleanupOfDirectory(entries: map<string, Entry>, locked: set<string>, videoId: string)
    requires VideoPath(videoId) in entries && entries[VideoPath(videoId)] == Dir
    requires VideoPath(videoId) !in locked
    ensures var reply := CleanupSpec(entries, locked, videoId).reply;
      var prefix := "[Errno 21] Is a directory: ";
      reply.Err? && reply.error.status == 500 &&
      StartsWith(reply.error.detail, prefix) &&
      PyUnrepr(reply.error.detail[|prefix|..]) == VideoPath(videoId)
  {
    var prefix := "[Errno 21] Is a directory: ";
    var detail := prefix + PyRepr(VideoPath(videoId));
    assert detail[..|prefix|] == prefix && detail[|prefix|..] == PyRepr(VideoPath(videoId));
    PyReprRoundTrip(VideoPath(videoId));
  }

  /** A `<video_id>.mp4` the process may not remove, file or directory: HTTP
      500 with the `EACCES` text naming the path, and nothing changes. */
  lemma CleanupOfLockedPath(entries: map<string, Entry>, locked: set<string>, videoId: string)
    requires VideoPath(videoId) in entries && VideoPath(videoId) in locked
    ensures var c := CleanupSpec(entries, locked, videoId);
      var prefix := "[Errno 13] Permission denied: ";
      c.entries == entries &&
      c.reply.Err? && c.reply.error.status == 500 &&
      StartsWith(c.reply.error.detail, prefix) &&
      PyUnrepr(c.reply.error.detail[|prefix|..]) == VideoPath(videoId)
  {
    var prefix := "[Errno 13] Permission denied: ";
    var detail := prefix + PyRepr(VideoPath(videoId));
    assert detail[..|prefix|] == prefix && detail[|prefix|..] == PyRepr(VideoPath(videoId));
    PyReprRoundTrip(VideoPath(videoId));
  }

  /** An identifier with a single quote and no double quote, as a request
      path may carry (`/cleanup/it's`): the file name is shown in double
      quotes. */
  lemma CleanupOfDirectoryQuoted(entries: map<string, Entry>, locked: set<string>, videoId: string)
    requires forall k :: 0 <= k < |videoId| ==> IsPlain(videoId[k])
    requires '\'' in videoId && '"' !in videoId
    requires VideoPath(videoId) in entries && entries[VideoPath(videoId)] == Dir
    requires VideoPath(videoId) !in locked
    ensures CleanupSpec(entries, locked, videoId).reply ==
      Err(HttpError(500, "[Errno 21] Is a directory: \"" + VideoPath(videoId) + "\""))
  {
    var dir, name := TempDir + "/", videoId + ".mp4";
    assert forall k :: 0 <= k < |dir| ==> IsPlain(dir[k]) && dir[k] != '"';
    assert forall k :: 0 <= k < |".mp4"| ==> IsPlain(".mp4"[k]) && ".mp4"[k] != '"';
    PlainConcat(videoId, ".mp4");
    PlainConcat(dir, name);
    var path := VideoPath(videoId);
    assert path == dir + name;
    assert '\'' in path by {
      var i :| 0 <= i < |videoId| && videoId[i] == '\'';
      assert path[|dir| + i] == '\'';
    }
    assert '"' !in path by {
      forall k | 0 <= k < |path| ensures path[k] != '"' {
        if k >= |dir| + |videoId| {
          assert path[k] == ".mp4"[k - |dir| - |videoId|];
        } else if k >= |dir| {
          assert path[k] == videoId[k - |dir|];
        }
      }
    }
    PyReprPlain(path);
    assert UnlinkError(entries, locked, path) == Some(IsADirectory);
    assert OsErrorText(IsADirectory, path) == "[Errno 21] Is a directory: " + ("\"" + path + "\"");
    assert "[Errno 21] Is a directory: " + ("\"" + path + "\"")
        == ("[Errno 21] Is a directory: " + "\"") + path + "\"";
    assert "[Errno 21] Is a directory: " + "\"" == "[Errno 21] Is a directory: \"";
  }

  /** The identifier `it's` is one of them. */
  lemma ApostropheIdIsPlain()
    ensures forall k :: 0 <= k < |"it's"| ==> IsPlain("it's"[k])
    ensures '\'' in "it's" && '"' !in "it's"
  {
    assert "it's"[2] == '\'';
  }
}
