/** The two download registries of the service and the handlers that read and
    write them: background downloads (start, progress hooks, terminal record),
    the status and file endpoints, the direct-download endpoint, and the
    periodic sweep of old terminal records.

    yt-dlp and ffmpeg are not modelled: each call's result is a parameter.
    Clocks are parameters too, and file existence is a predicate or a flag. */
module Registry {
  import opened Wrappers
  import opened Text
  import opened Naming

  /** Terminal records older than this many seconds are evicted by the sweep. */
  const RetentionSeconds: real := 7200.0

  /** The status of an entry of the in-progress registry. */
  datatype ActiveStatus = Downloading | Processing

  /** An entry of the in-progress registry. */
  datatype Active = Active(status: ActiveStatus, progress: real, url: string, startTime: real)

  /** What a terminal record says about its download. */
  datatype Outcome =
    | Completed(filePath: string, downloadUrl: Option<string>)
    | Failed(error: string)

  /** An entry of the completed registry; `completionTime` is a key that the
      sweep reads with a default of 0. */
  datatype Record = Record(outcome: Outcome, url: string, completionTime: Option<real>)

  function ActiveStatusName(s: ActiveStatus): string {
    match s
    case Downloading => "downloading"
    case Processing => "processing"
  }

  function OutcomeStatusName(o: Outcome): string {
    match o
    case Completed(_, _) => "completed"
    case Failed(_) => "failed"
  }

  /** A progress-hook call from yt-dlp: its `status` and the result of parsing
      its percentage text as a float (nothing when that parse raised). */
  datatype Hook = Hook(status: string, parsedPercent: Option<real>)

  /** What one progress hook does to an in-progress entry. */
  function AfterHook(a: Active, h: Hook): (r: Active)
    ensures r.url == a.url && r.startTime == a.startTime
    ensures h.status == "finished" ==> r.status == Processing && r.progress == 100.0
    ensures h.status == "downloading" && h.parsedPercent.Some? ==>
      r.status == a.status && r.progress == h.parsedPercent.value
    ensures h.status == "downloading" && h.parsedPercent.None? ==> r == a
    ensures h.status != "downloading" && h.status != "finished" ==> r == a
    ensures a.status == Processing ==> r.status == Processing
  {
    if h.status == "downloading" then
      if h.parsedPercent.Some? then a.(progress := h.parsedPercent.value) else a
    else if h.status == "finished" then
      a.(status := Processing, progress := 100.0)
    else a
  }

  /** The entry after yt-dlp has called the progress hook once per element of
      `hooks`, in order. */
  function AfterHooks(a: Active, hooks: seq<Hook>): (r: Active)
    ensures r.url == a.url && r.startTime == a.startTime
    decreases |hooks|
  {
    if hooks == [] then a else AfterHook(AfterHooks(a, hooks[..|hooks| - 1]), hooks[|hooks| - 1])
  }

  /** Starting from a downloading entry, the entry reads "processing" after a
      run of hooks exactly when one of them reported "finished". */
  lemma {:induction false} ProcessingAfterFinishedHook(a: Active, hooks: seq<Hook>)
    requires a.status == Downloading
    ensures AfterHooks(a, hooks).status == Processing <==> exists i :: 0 <= i < |hooks| && hooks[i].status == "finished"
    decreases |hooks|
  {
    if hooks != [] {
      var init := hooks[..|hooks| - 1];
      ProcessingAfterFinishedHook(a, init);
      assert forall i :: 0 <= i < |init| ==> init[i] == hooks[i];
    }
  }

  /** After a "finished" hook, the progress reads 100 until a later
      "downloading" hook carries a parsed percentage. */
  lemma {:induction false} FinishedHookSetsFullProgress(a: Active, hooks: seq<Hook>, i: nat)
    requires i < |hooks| && hooks[i].status == "finished"
    requires forall j :: i < j < |hooks| ==> !(hooks[j].status == "downloading" && hooks[j].parsedPercent.Some?)
    ensures AfterHooks(a, hooks).progress == 100.0 && AfterHooks(a, hooks).status == Processing
    decreases |hooks|
  {
    if i < |hooks| - 1 {
      FinishedHookSetsFullProgress(a, hooks[..|hooks| - 1], i);
    }
  }

  /** What a yt-dlp extraction did: returned info (with its title, if any) or raised. */
  datatype Extraction = Extracted(title: Option<string>) | Raised(message: string)

  /** What the ffmpeg process did: exited successfully, or raised. */
  datatype ProcessOutcome = ProcessOk | ProcessRaised(message: string)

  /** Which yt-dlp route a background download takes. */
  datatype Plan =
    | SeparateStreams(videoFormat: string, audioFormat: string)
    | FormatWithBestAudio(selector: string)
    | BestVideoBestAudio

  /** The route for the requested ids: both ids given downloads the two streams
      and merges them with ffmpeg; a format id alone asks yt-dlp for that format
      plus the best audio; without a format id the audio id is ignored. */
  function PlanFor(formatId: Option<string>, audioId: Option<string>): (p: Plan)
    ensures p.SeparateStreams? <==> Truthy(formatId) && Truthy(audioId)
    ensures p.SeparateStreams? ==> p.videoFormat == formatId.value && p.audioFormat == audioId.value
    ensures p.FormatWithBestAudio? <==> Truthy(formatId) && !Truthy(audioId)
    ensures p.FormatWithBestAudio? ==> p.selector == formatId.value + "+bestaudio"
    ensures p.BestVideoBestAudio? <==> !Truthy(formatId)
  {
    if Truthy(formatId) then
      if Truthy(audioId) then SeparateStreams(formatId.value, audioId.value)
      else FormatWithBestAudio(FormatSelector(formatId.value, None))
    else BestVideoBestAudio
  }

  /** The ffmpeg merge: any failure is swallowed and reported as `false`. */
  function MergeVideoAudio(ffmpeg: ProcessOutcome): (ok: bool)
    ensures ok <==> ffmpeg.ProcessOk?
  {
    match ffmpeg
    case ProcessOk => true
    case ProcessRaised(_) => false
  }

  /** The link a completed background download advertises. */
  function FileUrl(id: string): string {
    "/api/get-file/" + id
  }

  /** The terminal record a background download writes: completed with the
      output path and file link when no yt-dlp call raised, failed with the
      message otherwise. The ffmpeg result does not enter it. */
  function ProcessRecord(folder: string, id: string, url: string, ytdlp: Extraction, now: real): (r: Record)
    ensures r.url == url && r.completionTime == Some(now)
    ensures r.outcome.Completed? <==> ytdlp.Extracted?
    ensures r.outcome.Completed? ==>
      r.outcome.filePath == Join(folder, id + ".mp4") && r.outcome.downloadUrl == Some(FileUrl(id))
    ensures r.outcome.Failed? ==> r.outcome.error == ytdlp.message
  {
    match ytdlp
    case Extracted(_) => Record(Completed(Join(folder, id + ".mp4"), Some(FileUrl(id))), url, Some(now))
    case Raised(message) => Record(Failed(message), url, Some(now))
  }

  /** Whether the sweep at time `now` evicts a record. */
  predicate Expired(r: Record, now: real) {
    now - r.completionTime.GetOr(0.0) > RetentionSeconds
  }

  /** The completed registry after one sweep at time `now`. */
  function Retained(m: map<string, Record>, now: real): (r: map<string, Record>)
    ensures forall id :: id in r <==> id in m && !Expired(m[id], now)
    ensures forall id :: id in r ==> r[id] == m[id]
  {
    map id | id in m && !Expired(m[id], now) :: m[id]
  }

  /** A second sweep at the same time or later evicts what a single sweep at
      that later time evicts: sweeps do not depend on earlier sweeps. */
  lemma RetainedComposes(m: map<string, Record>, t1: real, t2: real)
    requires t1 <= t2
    ensures Retained(Retained(m, t1), t2) == Retained(m, t2)
  {
  }

  /** A record written at time `t` survives every sweep up to `t + 7200`. */
  lemma RecentRecordSurvives(m: map<string, Record>, id: string, t: real, now: real)
    requires id in m && m[id].completionTime == Some(t) && now <= t + RetentionSeconds
    ensures id in Retained(m, now) && Retained(m, now)[id] == m[id]
  {
  }

  /** The reply of the status endpoint. */
  datatype StatusReply =
    | ActiveReply(downloadId: string, status: string, progress: real, url: string)
    | FinishedReply(downloadId: string, status: string, url: string, downloadUrl: Option<string>)
    | NotFound

  /** A file the file endpoint sends, with its attachment name. */
  datatype Served = Served(path: string, downloadName: string)

  /** The reply of the direct-download endpoint. */
  datatype DirectReply = SendFile(path: string, downloadName: string) | ErrorReply(code: int, message: string)

  /** The watch URL the direct-download endpoint builds from a video id. */
  function WatchUrl(videoId: string): string {
    "https://www.youtube.com/watch?v=" + videoId
  }

  /** What every terminal record satisfies: a completed download's file path
      starts with `<download folder>/` (it may still hold `..` segments taken
      from request parameters), and a file link it advertises names its own id. */
  predicate Fits(id: string, r: Record, folder: string) {
    r.outcome.Completed? ==>
      folder + "/" <= r.outcome.filePath
      && (r.outcome.downloadUrl.Some? ==> r.outcome.downloadUrl.value == FileUrl(id))
  }

  class DownloadRegistry {
    /** `downloads_in_progress`: download id to in-progress entry. */
    var inProgress: map<string, Active>
    /** `completed_downloads`: download id to terminal record. */
    var completed: map<string, Record>
    /** `DOWNLOAD_FOLDER`. */
    const downloadFolder: string

    ghost predicate Valid()
      reads this
    {
      forall id :: id in completed ==> Fits(id, completed[id], downloadFolder)
    }

    constructor (downloadFolder: string)
      ensures Valid()
      ensures this.downloadFolder == downloadFolder
      ensures inProgress == map[] && completed == map[]
    {
      this.downloadFolder := downloadFolder;
      inProgress := map[];
      completed := map[];
    }

    /** Registers a download as in progress: status downloading, progress 0. */
    method StartDownload(id: string, url: string, now: real)
      requires Valid()
      modifies this
      ensures Valid()
      ensures inProgress == old(inProgress)[id := Active(Downloading, 0.0, url, now)]
      ensures completed == old(completed)
    {
      inProgress := inProgress[id := Active(Downloading, 0.0, url, now)];
    }

    /** The body and the clean-up of a background download after its start:
        runs the plan, writes the terminal record and drops the in-progress
        entry. A failed ffmpeg merge is ignored, so the record is "completed"
        whenever no yt-dlp call raised. */
    method FinishDownload(id: string, url: string, formatId: Option<string>, audioId: Option<string>,
                          ytdlp: Extraction, ffmpeg: ProcessOutcome, now: real)
      requires Valid()
      modifies this
      ensures Valid()
      ensures inProgress == old(inProgress) - {id}
      ensures completed == old(completed)[id := ProcessRecord(downloadFolder, id, url, ytdlp, now)]
    {
      var plan := PlanFor(formatId, audioId);
      var record: Record;
      match ytdlp {
        case Extracted(_) =>
          if plan.SeparateStreams? {
            // The merge result is not looked at.
            var merged := MergeVideoAudio(ffmpeg);
          }
          record := Record(Completed(Join(downloadFolder, id + ".mp4"), Some(FileUrl(id))), url, Some(now));
        case Raised(message) =>
          record := Record(Failed(message), url, Some(now));
      }
      completed := completed[id := record];
      if id in inProgress {
        inProgress := inProgress - {id};
      }
    }

    /** A whole background download. Afterwards the id is not in progress and
        has exactly one terminal record, whatever the ffmpeg merge did. */
    method ProcessDownload(id: string, url: string, formatId: Option<string>, audioId: Option<string>,
                           ytdlp: Extraction, ffmpeg: ProcessOutcome, startTime: real, endTime: real)
      requires Valid()
      modifies this
      ensures Valid()
      ensures inProgress == old(inProgress) - {id}
      ensures completed == old(completed)[id := ProcessRecord(downloadFolder, id, url, ytdlp, endTime)]
      ensures Status(id).FinishedReply?
      ensures Status(id).status == (if ytdlp.Extracted? then "completed" else "failed")
    {
      StartDownload(id, url, startTime);
      FinishDownload(id, url, formatId, audioId, ytdlp, ffmpeg, endTime);
    }

    /** The yt-dlp progress hook: changes only the entry of `id`, and only when
        it is in progress. */
    method UpdateProgress(id: string, hook: Hook)
      requires Valid()
      modifies this
      ensures Valid()
      ensures completed == old(completed)
      ensures id !in old(inProgress) ==> inProgress == old(inProgress)
      ensures id in old(inProgress) ==> inProgress == old(inProgress)[id := AfterHook(old(inProgress)[id], hook)]
    {
      if id in inProgress {
        if hook.status == "downloading" {
          if hook.parsedPercent.Some? {
            inProgress := inProgress[id := inProgress[id].(progress := hook.parsedPercent.value)];
          }
        } else if hook.status == "finished" {
          inProgress := inProgress[id := inProgress[id].(status := Processing)];
          inProgress := inProgress[id := inProgress[id].(progress := 100.0)];
        }
      }
    }

    /** The status endpoint: an in-progress entry wins over a terminal record;
        an id in neither registry is not found. */
    function Status(id: string): (r: StatusReply)
      requires Valid()
      reads this
      ensures r.ActiveReply? <==> id in inProgress
      ensures r.FinishedReply? <==> id !in inProgress && id in completed
      ensures r.NotFound? <==> id !in inProgress && id !in completed
      ensures r.ActiveReply? ==>
        r.downloadId == id && r.status == ActiveStatusName(inProgress[id].status)
        && r.progress == inProgress[id].progress && r.url == inProgress[id].url
      ensures r.FinishedReply? ==>
        r.downloadId == id && r.status == OutcomeStatusName(completed[id].outcome)
        && r.url == completed[id].url
        && r.downloadUrl == (if completed[id].outcome.Completed? then completed[id].outcome.downloadUrl else None)
      ensures r.FinishedReply? && r.downloadUrl.Some? ==> r.downloadUrl.value == FileUrl(id)
    {
      if id in inProgress then
        var a := inProgress[id];
        ActiveReply(id, ActiveStatusName(a.status), a.progress, a.url)
      else if id in completed then
        var c := completed[id];
        FinishedReply(id, OutcomeStatusName(c.outcome), c.url,
                      if c.outcome.Completed? then c.outcome.downloadUrl else None)
      else NotFound
    }

    /** The file endpoint: a file is sent only for a completed record whose file
        exists, under the file's base name. */
    function FileToServe(id: string, onDisk: string -> bool): (r: Option<Served>)
      requires Valid()
      reads this
      ensures r.Some? <==> id in completed && completed[id].outcome.Completed? && onDisk(completed[id].outcome.filePath)
      ensures r.Some? ==>
        r.value.path == completed[id].outcome.filePath
        && r.value.downloadName == AfterLast(r.value.path, '/')
        && '/' !in r.value.downloadName
      ensures r.Some? ==> downloadFolder + "/" <= r.value.path
    {
      if id in completed && completed[id].outcome.Completed? then
        var path := completed[id].outcome.filePath;
        if onDisk(path) then Some(Served(path, AfterLast(path, '/'))) else None
      else None
    }

    /** The registry half of one pass of the clean-up thread: collect the ids
        of expired terminal records, then remove them. In-progress entries are
        never touched. */
    method CleanupRegistry(now: real)
      requires Valid()
      modifies this
      ensures Valid()
      ensures inProgress == old(inProgress)
      ensures completed == Retained(old(completed), now)
    {
      var toRemove: seq<string> := [];
      var unseen := completed.Keys;
      while unseen != {}
        invariant unseen <= completed.Keys
        invariant completed == old(completed)
        invariant forall k :: k in toRemove ==> k in completed && Expired(completed[k], now)
        invariant forall k :: k in completed && k !in unseen && Expired(completed[k], now) ==> k in toRemove
        decreases unseen
      {
        var k :| k in unseen;
        if now - completed[k].completionTime.GetOr(0.0) > RetentionSeconds {
          toRemove := toRemove + [k];
        }
        unseen := unseen - {k};
      }
      var i := 0;
      while i < |toRemove|
        invariant 0 <= i <= |toRemove|
        invariant inProgress == old(inProgress)
        invariant forall k :: k in completed <==> k in old(completed) && k !in toRemove[..i]
        invariant forall k :: k in completed ==> completed[k] == old(completed)[k]
      {
        assert toRemove[..i + 1] == toRemove[..i] + [toRemove[i]];
        completed := completed - {toRemove[i]};
        i := i + 1;
      }
      assert toRemove[..i] == toRemove;
      assert completed.Keys == Retained(old(completed), now).Keys;
    }

    /** The direct-download endpoint. A cached file is sent with no registry
        change. Otherwise an in-progress entry is created and updated by the
        progress hooks yt-dlp calls; when yt-dlp raises, the handler answers
        500 and leaves that entry behind as the hooks left it; when yt-dlp
        returns, the entry is replaced by a "completed" record (without a file
        link) and the file is sent if it exists, else 500. */
    method DirectDownload(videoId: string, formatId: string, audioId: Option<string>, custom: Option<string>,
                          id: string, cachedCopy: bool, hooks: seq<Hook>, ytdlp: Extraction, fileWritten: bool,
                          startTime: real, endTime: real)
      returns (reply: DirectReply)
      requires Valid()
      modifies this
      ensures Valid()
      ensures cachedCopy ==>
        reply == SendFile(Join(downloadFolder, CacheFilename(videoId, formatId, audioId)), DownloadName(custom, None, videoId))
        && inProgress == old(inProgress) && completed == old(completed)
      ensures !cachedCopy && ytdlp.Raised? ==>
        reply == ErrorReply(500, ytdlp.message)
        && inProgress == old(inProgress)[id := AfterHooks(Active(Downloading, 0.0, WatchUrl(videoId), startTime), hooks)]
        && completed == old(completed)
      ensures !cachedCopy && ytdlp.Extracted? ==>
        inProgress == old(inProgress) - {id}
        && completed == old(completed)[id := Record(Completed(Join(downloadFolder, CacheFilename(videoId, formatId, audioId)), None),
                                                    WatchUrl(videoId), Some(endTime))]
        && reply == (if fileWritten
                     then SendFile(Join(downloadFolder, CacheFilename(videoId, formatId, audioId)), DownloadName(custom, ytdlp.title, videoId))
                     else ErrorReply(500, "Download failed"))
    {
      var url := WatchUrl(videoId);
      var outputPath := Join(downloadFolder, CacheFilename(videoId, formatId, audioId));
      if cachedCopy {
        var name := if Truthy(custom) then custom.value else videoId + ".mp4";
        return SendFile(outputPath, name);
      }
      StartDownload(id, url, startTime);
      // yt-dlp runs here with the selector FormatSelector(formatId, audioId),
      // calling the progress hook once per element of `hooks`.
      var k := 0;
      while k < |hooks|
        invariant 0 <= k <= |hooks|
        invariant Valid()
        invariant completed == old(completed)
        invariant inProgress == old(inProgress)[id := AfterHooks(Active(Downloading, 0.0, url, startTime), hooks[..k])]
      {
        assert hooks[..k + 1][..k] == hooks[..k];
        UpdateProgress(id, hooks[k]);
        k := k + 1;
      }
      assert hooks[..k] == hooks;
      match ytdlp {
        case Raised(message) =>
          return ErrorReply(500, message);
        case Extracted(title) =>
          var name;
          if !Truthy(custom) && Truthy(title) {
            name := SanitizeTitle(title.value) + ".mp4";
          } else {
            name := if Truthy(custom) then custom.value else videoId + ".mp4";
          }
          if id in inProgress {
            inProgress := inProgress - {id};
          }
          completed := completed[id := Record(Completed(outputPath, None), url, Some(endTime))];
          if fileWritten {
            reply := SendFile(outputPath, name);
          } else {
            reply := ErrorReply(500, "Download failed");
          }
      }
    }
  }

  /** A completed background download is sent under the name `<id>.mp4`. */
  lemma CompletedFileName(folder: string, id: string, url: string, ytdlp: Extraction, now: real)
    requires '/' !in id && ytdlp.Extracted?
    ensures AfterLast(ProcessRecord(folder, id, url, ytdlp, now).outcome.filePath, '/') == id + ".mp4"
  {
    assert '/' !in id + ".mp4";
    AfterLastJoin(folder, '/', id + ".mp4");
  }
}
