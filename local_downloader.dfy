/** The local download backend (`VideoDownloadService` of
    backend/services/video_downloader.py): URL validation, shaping of the
    result dictionary, removal of a partial file when extraction fails, single
    file deletion and the age-based sweep of the temporary directory.

    The extraction library is an oracle (`Extraction`), the random identifier
    and the current time are parameters, and the directory is a `Disk`. */
module LocalDownloader {
  import opened Base
  import opened Text
  import opened Records
  import opened FileSystem
  import opened UrlValidator

  /** `temp_dir / f"{video_id}.mp4"`. */
  function OutputPath(tempDir: string, videoId: string): string
  {
    JoinPath(tempDir, videoId + ".mp4")
  }

  /** `info.get('description', '')[:200] + '...' if info.get('description') else ''`:
      the conditional binds looser than `+`, so a present description always
      gains the ellipsis, short or long. */
  function LocalDescription(info: Info): (d: string)
    ensures |d| <= 203
    ensures !HasDescription(info) ==> d == ""
    ensures HasDescription(info) ==>
      var text := info.description.value;
      EndsWith(d, "...") && StartsWith(text, d[..|d| - 3]) &&
      |d| - 3 == (if |text| <= 200 then |text| else 200)
  {
    if HasDescription(info) then
      var r := Take(info.description.value, 200) + "...";
      assert r[..|r| - 3] == Take(info.description.value, 200);
      r
    else ""
  }

  /** The result dictionary built after a successful extraction. */
  function LocalRecord(videoId: string, path: string, info: Info): (r: VideoRecord)
    ensures r.success == Some(true)
    ensures r.videoId == Some(videoId) && r.filePath == Some(path)
    ensures r.title == Title(info) && r.duration == Duration(info)
    ensures r.uploader == Uploader(info) && r.thumbnail == Thumbnail(info)
    ensures r.description == Some(LocalDescription(info))
  {
    VideoRecord(
      success := Some(true),
      videoId := Some(videoId),
      filePath := Some(path),
      title := Title(info),
      duration := Duration(info),
      uploader := Uploader(info),
      thumbnail := Thumbnail(info),
      description := Some(LocalDescription(info)))
  }

  /** What one call of `download_video` returns and leaves in the directory. */
  datatype Download = Download(result: Result<VideoRecord, Raised>, entries: map<string, Entry>)

  /** The directory after the extraction library has run, as far as the
      stand-in `Extraction` says: it writes the output path and nothing else
      (the library's `.part` and per-format intermediate files are not
      modelled), and a successful one is taken to write a file there even
      if a directory stands at that path. */
  function AfterExtraction(entries: map<string, Entry>, out: string, x: Extraction): map<string, Entry>
  {
    match x
    case Extracted(_, mtime) => entries[out := File(mtime)]
    case ExtractionFailed(_, partial) =>
      if partial.Some? then entries[out := File(partial.value)] else entries
  }

  /** `download_video(url)` with identifier `videoId`, in a directory whose
      unremovable paths are `locked`. */
  function DownloadSpec(entries: map<string, Entry>, locked: set<string>, tempDir: string,
                        url: string, videoId: string, x: Extraction): (d: Download)
    // An invalid URL raises ValueError before anything is touched.
    ensures !ValidateYouTubeUrl(url) ==> d == Download(Err(ValueError(InvalidUrlMessage)), entries)
    // Success: the file is at `temp_dir/<video_id>.mp4` for the returned id.
    ensures ValidateYouTubeUrl(url) && x.Extracted? ==>
      d.result == Ok(LocalRecord(videoId, OutputPath(tempDir, videoId), x.info)) &&
      d.entries == entries[OutputPath(tempDir, videoId) := File(x.mtime)]
    // Failure: the partial output is removed and the error is rewrapped, unless
    // the removal itself raises, in which case that OSError escapes.
    ensures ValidateYouTubeUrl(url) && x.ExtractionFailed? ==>
      var out := OutputPath(tempDir, videoId);
      var written := AfterExtraction(entries, out, x);
      if out in written && UnlinkError(written, locked, out).Some? then
        d == Download(Err(OtherError(OsErrorText(UnlinkError(written, locked, out).value, out))), written)
      else
        d == Download(Err(OtherError(FailedPrefix + x.error)), written - {out}) && out !in d.entries
    // No entry other than the output path changes: the stand-in extraction
    // writes only there, and the cleanup touches only that path.
    ensures forall p :: p != OutputPath(tempDir, videoId) ==>
      (p in d.entries <==> p in entries) && (p in entries ==> d.entries[p] == entries[p])
  {
    if !ValidateYouTubeUrl(url) then
      Download(Err(ValueError(InvalidUrlMessage)), entries)
    else
      var out := OutputPath(tempDir, videoId);
      var written := AfterExtraction(entries, out, x);
      match x
      case Extracted(info, _) => Download(Ok(LocalRecord(videoId, out, info)), written)
      case ExtractionFailed(error, _) =>
        if out in written then
          match UnlinkError(written, locked, out)
          case Some(e) => Download(Err(OtherError(OsErrorText(e, out))), written)
          case None => Download(Err(OtherError(FailedPrefix + error)), written - {out})
        else
          Download(Err(OtherError(FailedPrefix + error)), written)
  }

  /** `VideoDownloadService.download_video`. */
  method DownloadVideo(disk: Disk, tempDir: string, url: string, videoId: string, x: Extraction)
    returns (r: Result<VideoRecord, Raised>)
    modifies disk
    ensures Download(r, disk.entries) == DownloadSpec(old(disk.entries), disk.locked, tempDir, url, videoId, x)
  {
    if !ValidateYouTubeUrl(url) {
      return Err(ValueError(InvalidUrlMessage));
    }
    var out := OutputPath(tempDir, videoId);
    match x
    case Extracted(info, mtime) =>
      disk.Write(out, File(mtime));
      r := Ok(LocalRecord(videoId, out, info));
    case ExtractionFailed(error, partial) =>
      if partial.Some? {
        disk.Write(out, File(partial.value));
      }
      if out in disk.entries {
        var err := disk.Unlink(out);
        if err.Some? {
          return Err(OtherError(OsErrorText(err.value, out)));
        }
      }
      r := Err(OtherError(FailedPrefix + error));
  }

  // ---------------------------------------------------------------------------
  // delete_video

  /** Whether `delete_video(path)` removes `path`: it must exist, be a regular
      file and be removable (a failing unlink is caught and reported as False). */
  predicate Deletes(entries: map<string, Entry>, locked: set<string>, path: string)
  {
    UnlinkError(entries, locked, path).None?
  }

  /** The directory after `delete_video(path)`. */
  function AfterDelete(entries: map<string, Entry>, locked: set<string>, path: string): (m: map<string, Entry>)
    ensures Deletes(entries, locked, path) ==> path !in m
    ensures !Deletes(entries, locked, path) ==> m == entries
    ensures forall p :: p != path ==> (p in m <==> p in entries) && (p in m ==> m[p] == entries[p])
  {
    if Deletes(entries, locked, path) then entries - {path} else entries
  }

  /** `VideoDownloadService.delete_video`: never raises. */
  method DeleteVideo(disk: Disk, path: string) returns (deleted: bool)
    modifies disk
    ensures deleted == Deletes(old(disk.entries), disk.locked, path)
    ensures disk.entries == AfterDelete(old(disk.entries), disk.locked, path)
  {
    if path in disk.entries && disk.entries[path].File? {
      var err := disk.Unlink(path);
      if err.Some? {
        return false;
      }
      return true;
    }
    return false;
  }

  /** Deleting the same path a second time reports False and changes nothing. */
  lemma DeleteTwice(entries: map<string, Entry>, locked: set<string>, path: string)
    requires Deletes(entries, locked, path)
    ensures !Deletes(AfterDelete(entries, locked, path), locked, path)
    ensures AfterDelete(AfterDelete(entries, locked, path), locked, path) == AfterDelete(entries, locked, path)
  {
  }

  // ---------------------------------------------------------------------------
  // cleanup_old_videos

  /** `path` is listed by `temp_dir.glob("*.mp4")`: a direct child of the
      directory whose name ends in `.mp4`. */
  predicate InGlobMp4(tempDir: string, path: string)
  {
    StartsWith(path, tempDir + "/") &&
    var name := path[|tempDir| + 1..];
    '/' !in name && EndsWith(name, ".mp4")
  }

  /** The sweep selects a listed regular file whose age is strictly above the
      threshold. */
  predicate Expired(entries: map<string, Entry>, tempDir: string, maxAgeHours: int, now: int, path: string)
  {
    path in entries && InGlobMp4(tempDir, path) && entries[path].File? &&
    now - entries[path].mtime > maxAgeHours * 3600
  }

  /** The directory once the paths of `seen` have been visited by the sweep:
      expired ones are gone unless their unlink failed (which is only printed). */
  function SweptAmong(entries: map<string, Entry>, locked: set<string>, tempDir: string,
                      maxAgeHours: int, now: int, seen: set<string>): map<string, Entry>
  {
    map p | p in entries && !(p in seen && Expired(entries, tempDir, maxAgeHours, now, p) && p !in locked)
      :: entries[p]
  }

  /** `cleanup_old_videos(max_age_hours)` at time `now`. */
  function SweepSpec(entries: map<string, Entry>, locked: set<string>, tempDir: string,
                     maxAgeHours: int, now: int): (m: map<string, Entry>)
    ensures forall p :: p in m <==> p in entries && !(Expired(entries, tempDir, maxAgeHours, now, p) && p !in locked)
    ensures forall p :: p in m ==> m[p] == entries[p]
  {
    SweptAmong(entries, locked, tempDir, maxAgeHours, now, entries.Keys)
  }

  /** Visiting one more listed path removes it exactly when it is a regular
      file older than the threshold and removable. */
  lemma SweptAmongStep(entries: map<string, Entry>, locked: set<string>, tempDir: string,
                       maxAgeHours: int, now: int, seen: set<string>, p: string,
                       cur: map<string, Entry>)
    requires p !in seen && p in entries && InGlobMp4(tempDir, p)
    requires cur == SweptAmong(entries, locked, tempDir, maxAgeHours, now, seen)
    ensures p in cur && cur[p] == entries[p]
    ensures SweptAmong(entries, locked, tempDir, maxAgeHours, now, seen + {p}) ==
      if cur[p].File? && now - cur[p].mtime > maxAgeHours * 3600 && p !in locked
      then cur - {p} else cur
  {
  }

  /** Only listed paths can expire, so visiting all listed ones is the same as
      visiting everything. */
  lemma SweptAmongListed(entries: map<string, Entry>, locked: set<string>, tempDir: string,
                         maxAgeHours: int, now: int, seen: set<string>)
    requires forall p :: p in entries && InGlobMp4(tempDir, p) ==> p in seen
    ensures SweptAmong(entries, locked, tempDir, maxAgeHours, now, seen) ==
            SweptAmong(entries, locked, tempDir, maxAgeHours, now, entries.Keys)
  {
  }

  /** One pass of the sweep's loop body, for the listed path `p`. */
  method SweepOne(disk: Disk, p: string, maxAgeSeconds: int, now: int)
    modifies disk
    ensures disk.entries ==
      if p in old(disk.entries) && old(disk.entries)[p].File? &&
         now - old(disk.entries)[p].mtime > maxAgeSeconds && p !in disk.locked
      then old(disk.entries) - {p} else old(disk.entries)
  {
    if p in disk.entries && disk.entries[p].File? {
      var age := now - disk.entries[p].mtime;
      if age > maxAgeSeconds {
        var _ := disk.Unlink(p);
      }
    }
  }

  /** `VideoDownloadService.cleanup_old_videos`: visits the listed files one by
      one; a failed unlink does not stop the loop. */
  method CleanupOldVideos(disk: Disk, tempDir: string, maxAgeHours: int, now: int)
    modifies disk
    ensures disk.entries == SweepSpec(old(disk.entries), disk.locked, tempDir, maxAgeHours, now)
  {
    ghost var m0 := disk.entries;
    ghost var locked := disk.locked;
    var maxAgeSeconds := maxAgeHours * 3600;
    var listed := set p | p in disk.entries && InGlobMp4(tempDir, p);
    ghost var seen: set<string> := {};
    while listed != {}
      invariant listed !! seen
      invariant forall q :: q in listed ==> q in m0 && InGlobMp4(tempDir, q)
      invariant forall q :: q in m0 && InGlobMp4(tempDir, q) ==> q in listed || q in seen
      invariant disk.entries == SweptAmong(m0, locked, tempDir, maxAgeHours, now, seen)
      decreases |listed|
    {
      var p :| p in listed;
      SweptAmongStep(m0, locked, tempDir, maxAgeHours, now, seen, p, disk.entries);
      listed := listed - {p};
      SweepOne(disk, p, maxAgeSeconds, now);
      seen := seen + {p};
    }
    SweptAmongListed(m0, locked, tempDir, maxAgeHours, now, seen);
  }

  /** `max_age_hours` when the caller passes none. */
  const DefaultMaxAgeHours := 24

  /** `cleanup_old_videos()` called without an argument. */
  method CleanupOldVideosDefault(disk: Disk, tempDir: string, now: int)
    modifies disk
    ensures disk.entries == SweepSpec(old(disk.entries), disk.locked, tempDir, DefaultMaxAgeHours, now)
  {
    CleanupOldVideos(disk, tempDir, DefaultMaxAgeHours, now);
  }

  // ---------------------------------------------------------------------------
  // Properties of the sweep and of how it meets the downloads.

  /** The threshold is strict: a file exactly `max_age_hours` old stays, and so
      does every younger file, every unlisted entry and every directory. */
  lemma SweepKeeps(entries: map<string, Entry>, locked: set<string>, tempDir: string,
                   maxAgeHours: int, now: int, p: string)
    requires p in entries
    requires !InGlobMp4(tempDir, p) || entries[p].Dir? || now - entries[p].mtime <= maxAgeHours * 3600
    ensures p in SweepSpec(entries, locked, tempDir, maxAgeHours, now)
    ensures SweepSpec(entries, locked, tempDir, maxAgeHours, now)[p] == entries[p]
  {
  }

  /** By default, a file at most a day (86400 seconds) old survives the sweep,
      and a listed removable file older than that is removed. */
  lemma SweepDefaultIsADay(entries: map<string, Entry>, locked: set<string>, tempDir: string,
                           now: int, p: string)
    requires p in entries && entries[p].File? && InGlobMp4(tempDir, p)
    ensures now - entries[p].mtime <= 86400 ==>
      p in SweepSpec(entries, locked, tempDir, DefaultMaxAgeHours, now)
    ensures now - entries[p].mtime > 86400 && p !in locked ==>
      p !in SweepSpec(entries, locked, tempDir, DefaultMaxAgeHours, now)
  {
  }

  /** With a threshold of zero hours every listed, removable regular file
      modified strictly before `now` is removed, whatever its age. */
  lemma SweepZeroHours(entries: map<string, Entry>, locked: set<string>, tempDir: string, now: int, p: string)
    requires p in entries && InGlobMp4(tempDir, p) && entries[p].File? && entries[p].mtime < now
    requires p !in locked
    ensures p !in SweepSpec(entries, locked, tempDir, 0, now)
  {
  }

  /** A threshold no file has reached removes nothing. */
  lemma SweepNothingOldEnough(entries: map<string, Entry>, locked: set<string>, tempDir: string,
                              maxAgeHours: int, now: int)
    requires forall p :: p in entries && entries[p].File? ==> now - entries[p].mtime <= maxAgeHours * 3600
    ensures SweepSpec(entries, locked, tempDir, maxAgeHours, now) == entries
  {
  }

  /** A longer threshold keeps at least what a shorter one keeps. */
  lemma SweepMonotone(entries: map<string, Entry>, locked: set<string>, tempDir: string,
                      shorter: int, longer: int, now: int)
    requires shorter <= longer
    ensures SweepSpec(entries, locked, tempDir, shorter, now).Keys <=
            SweepSpec(entries, locked, tempDir, longer, now).Keys
  {
    forall p | p in SweepSpec(entries, locked, tempDir, shorter, now)
      ensures p in SweepSpec(entries, locked, tempDir, longer, now)
    {
      assert shorter * 3600 <= longer * 3600;
    }
  }

  /** Sweeping again at the same time removes nothing more. */
  lemma SweepIdempotent(entries: map<string, Entry>, locked: set<string>, tempDir: string,
                        maxAgeHours: int, now: int)
    ensures var once := SweepSpec(entries, locked, tempDir, maxAgeHours, now);
      SweepSpec(once, locked, tempDir, maxAgeHours, now) == once
  {
    var once := SweepSpec(entries, locked, tempDir, maxAgeHours, now);
    var twice := SweepSpec(once, locked, tempDir, maxAgeHours, now);
    forall p | p in once
      ensures p in twice
    {
      assert once[p] == entries[p];
      assert Expired(once, tempDir, maxAgeHours, now, p) ==> Expired(entries, tempDir, maxAgeHours, now, p);
    }
  }

  /** The file a download leaves is listed by the sweep (for an identifier
      without `/`, as the generated ones are). */
  lemma OutputPathListed(tempDir: string, videoId: string)
    requires '/' !in videoId
    ensures InGlobMp4(tempDir, OutputPath(tempDir, videoId))
  {
    var path := OutputPath(tempDir, videoId);
    assert path == (tempDir + "/") + (videoId + ".mp4");
    assert path[..|tempDir| + 1] == tempDir + "/";
    var name := path[|tempDir| + 1..];
    assert name == videoId + ".mp4";
    assert name[|name| - 4..] == ".mp4";
    assert forall k :: 0 <= k < |name| ==> name[k] != '/' by {
      forall k | 0 <= k < |name| ensures name[k] != '/' {
        if k < |videoId| { assert name[k] == videoId[k]; }
      }
    }
  }

  /** A downloaded video is removed by the first sweep that runs more than
      `max_age_hours` after it was written, unless it cannot be removed. */
  lemma DownloadedVideoSwept(entries: map<string, Entry>, locked: set<string>, tempDir: string,
                             url: string, videoId: string, info: Info, mtime: int,
                             maxAgeHours: int, now: int)
    requires ValidateYouTubeUrl(url) && '/' !in videoId
    requires now - mtime > maxAgeHours * 3600
    requires OutputPath(tempDir, videoId) !in locked
    ensures var d := DownloadSpec(entries, locked, tempDir, url, videoId, Extracted(info, mtime));
      d.result == Ok(LocalRecord(videoId, OutputPath(tempDir, videoId), info)) &&
      OutputPath(tempDir, videoId) in d.entries &&
      OutputPath(tempDir, videoId) !in SweepSpec(d.entries, locked, tempDir, maxAgeHours, now)
  {
    OutputPathListed(tempDir, videoId);
  }

  /** Deleting the path a download returned removes the video again. */
  lemma DownloadedVideoDeletable(entries: map<string, Entry>, locked: set<string>, tempDir: string,
                                 url: string, videoId: string, info: Info, mtime: int)
    requires ValidateYouTubeUrl(url)
    requires OutputPath(tempDir, videoId) !in locked
    ensures var d := DownloadSpec(entries, locked, tempDir, url, videoId, Extracted(info, mtime));
      d.result.Ok? && d.result.value.filePath.Some? &&
      Deletes(d.entries, locked, d.result.value.filePath.value) &&
      AfterDelete(d.entries, locked, d.result.value.filePath.value) == entries - {OutputPath(tempDir, videoId)}
  {
  }
}
