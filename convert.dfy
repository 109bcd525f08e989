/** `process_convert_video`: download a video, convert it to MP4 with ffmpeg,
    upload the result, delete the local files and answer with one
    `(body, endpoint, status)` triple.

    The three collaborators are not modelled; what each of them did in a run
    is an input: the downloader returned a path (and the file may or may not
    be on disk), returned nothing, or raised; ffmpeg exited with a code and
    its standard-error text, or the call raised; either way it may have left
    an output file; the uploader returned a URL or raised. */
module Convert {
  import opened ConvertCommand
  import opened Scratch

  const Endpoint: string := "/v1/video/convert"
  const MissingUrlMessage: string := "Missing video_url parameter"
  const DownloadFailedMessage: string := "Failed to download video"

  /** `onDisk`: the downloader left a file at `path`. No file can sit at the
      empty path, so `onDisk` says nothing when `path` is empty. */
  datatype DownloadOutcome =
    | Returned(path: string, onDisk: bool)
    | ReturnedNone
    | DownloadRaised(message: string)

  /** `FfmpegRaised`: the call raised, either before the process started or
      after it exited, when its output or its standard error could not be
      decoded as text;
      in the second case the output file may already be there. */
  datatype FfmpegOutcome =
    | Exited(code: int, stderr: string, wroteOutput: bool)
    | FfmpegRaised(message: string, wroteOutput: bool)

  datatype UploadOutcome =
    | Uploaded(url: string)
    | UploadRaised(message: string)

  /** The first element of the answer: a message, or the success record. */
  datatype Body =
    | Text(message: string)
    | Converted(outputUrl: string, jobId: string, format: string, codec: string)

  datatype Response = Response(body: Body, endpoint: string, status: int)

  /** What a run answers and what it did, in order. */
  datatype Run = Run(response: Response, effects: seq<Effect>)

  function Reply(body: Body, status: int): Response
  {
    Response(body, Endpoint, status)
  }

  /** `data.get('video_url')`, with a missing key read as the empty string:
      both are falsy, and the job treats them alike. */
  function VideoUrl(data: map<string, string>): (url: string)
    ensures url == "" <==> "video_url" !in data || data["video_url"] == ""
    ensures url != "" ==> url == data["video_url"]
  {
    if "video_url" in data then data["video_url"] else ""
  }

  /** The file a collaborator leaves behind, if it leaves one. */
  function Leaves(path: string, wrote: bool): seq<Effect>
  {
    if wrote then [Created(path)] else []
  }

  function After(files: set<string>, path: string, wrote: bool): set<string>
  {
    if wrote then files + {path} else files
  }

  /** `if os.path.exists(path): os.remove(path)` against the directory `files`. */
  function RemoveIfPresent(files: set<string>, path: string): seq<Effect>
  {
    if path in files then [Removed(path)] else []
  }

  /** Whether the downloader's file is on disk: never at the empty path. */
  predicate Stored(path: string, onDisk: bool)
  {
    onDisk && path != ""
  }

  /** The download produced a non-empty path that exists afterwards. */
  predicate Downloaded(files: set<string>, data: map<string, string>, dl: DownloadOutcome)
  {
    VideoUrl(data) != "" && dl.Returned? && dl.path != "" && (dl.onDisk || dl.path in files)
  }

  /** ffmpeg ran on the downloaded file and exited with 0. */
  predicate Transcoded(files: set<string>, data: map<string, string>, dl: DownloadOutcome, ff: FfmpegOutcome)
  {
    Downloaded(files, data, dl) && ff.Exited? && ff.code == 0
  }

  /** The run of one job on a scratch directory holding `files`. */
  function Job(files: set<string>, storage: string, jobId: string, data: map<string, string>,
               dl: DownloadOutcome, ff: FfmpegOutcome, up: UploadOutcome): (r: Run)
    ensures r.response.endpoint == Endpoint
    ensures r.response.status in {200, 400, 500}
    ensures r.response.status == 200 <==> r.response.body.Converted?
  {
    var url := VideoUrl(data);
    if url == "" then Run(Reply(Text(MissingUrlMessage), 400), [])
    else
      var fetch := [Fetch(url, jobId)];
      match dl
      case DownloadRaised(e) => Run(Reply(Text(e), 500), fetch)
      case ReturnedNone => Run(Reply(Text(DownloadFailedMessage), 500), fetch)
      case Returned(input, onDisk) =>
        var rest := AfterDownload(files, storage, jobId, input, onDisk, ff, up);
        Run(rest.response, fetch + rest.effects)
  }

  /** The rest of the run once the downloader returned `input`: the file it
      left, then the failed-download answer unless the file exists, and
      otherwise the conversion. */
  function AfterDownload(files: set<string>, storage: string, jobId: string, input: string, onDisk: bool,
                         ff: FfmpegOutcome, up: UploadOutcome): (r: Run)
    ensures r.response.endpoint == Endpoint
    ensures r.response.status in {200, 500}
    ensures r.response.status == 200 <==> r.response.body.Converted?
  {
    var left := Leaves(input, Stored(input, onDisk));
    var afterFetch := After(files, input, Stored(input, onDisk));
    if input == "" || input !in afterFetch then Run(Reply(Text(DownloadFailedMessage), 500), left)
    else
      var rest := ConvertAndPublish(afterFetch, input, OutputPath(storage, jobId), jobId, ff, up);
      Run(rest.response, left + rest.effects)
  }

  /** `Job` once the downloader returned a path: the fetch and the file it
      left, then either the failed-download answer or the rest of the run. */
  lemma JobAfterDownload(files: set<string>, storage: string, jobId: string, data: map<string, string>,
                         dl: DownloadOutcome, ff: FfmpegOutcome, up: UploadOutcome)
    requires VideoUrl(data) != "" && dl.Returned?
    ensures var fetched := [Fetch(VideoUrl(data), jobId)] + Leaves(dl.path, Stored(dl.path, dl.onDisk));
            var afterFetch := After(files, dl.path, Stored(dl.path, dl.onDisk));
            var r := Job(files, storage, jobId, data, dl, ff, up);
            if dl.path == "" || dl.path !in afterFetch then
              r.response == Reply(Text(DownloadFailedMessage), 500) && r.effects == fetched
            else
              var rest := ConvertAndPublish(afterFetch, dl.path, OutputPath(storage, jobId), jobId, ff, up);
              r.response == rest.response && r.effects == fetched + rest.effects
  {
    var fetch := [Fetch(VideoUrl(data), jobId)];
    var left := Leaves(dl.path, Stored(dl.path, dl.onDisk));
    var afterFetch := After(files, dl.path, Stored(dl.path, dl.onDisk));
    if dl.path != "" && dl.path in afterFetch {
      var rest := ConvertAndPublish(afterFetch, dl.path, OutputPath(storage, jobId), jobId, ff, up);
      AppendAssociates(fetch, left, rest.effects);
    }
  }

  /** The rest of the run once `input` is on disk: ffmpeg writes `output`,
      which is uploaded, and the local files are deleted. */
  function ConvertAndPublish(files: set<string>, input: string, output: string, jobId: string,
                             ff: FfmpegOutcome, up: UploadOutcome): (r: Run)
    ensures r.response.endpoint == Endpoint
    ensures r.response.status in {200, 500}
    ensures r.response.status == 200 <==> r.response.body.Converted?
  {
    var transcoded := [Transcode(FfmpegArgs(input, output))] + Leaves(output, ff.wroteOutput);
    var afterTranscode := After(files, output, ff.wroteOutput);
    match ff
    case FfmpegRaised(e, _) => Run(Reply(Text(e), 500), transcoded)
    case Exited(code, stderr, _) =>
      if code != 0 then
        Run(Reply(Text("FFmpeg error: " + stderr), 500), transcoded + RemoveIfPresent(afterTranscode, input))
      else
        var uploading := transcoded + [Upload(output)];
        match up
        case UploadRaised(e) => Run(Reply(Text(e), 500), uploading)
        case Uploaded(link) =>
          var cleanup := RemoveIfPresent(afterTranscode, input)
                         + RemoveIfPresent(afterTranscode - {input}, output);
          Run(Reply(Converted(link, jobId, "mp4", "h264"), 200), uploading + cleanup)
  }

  /** The job itself, stepping through its side effects on `host`. `storage`
      is the configured local storage directory. */
  method ProcessConvertVideo(host: Host, storage: string, jobId: string, data: map<string, string>,
                             dl: DownloadOutcome, ff: FfmpegOutcome, up: UploadOutcome)
    returns (response: Response)
    requires host.Valid()
    modifies host
    ensures host.Valid() && host.origin == old(host.origin)
    ensures var run := Job(old(host.scratch), storage, jobId, data, dl, ff, up);
            response == run.response &&
            host.log == old(host.log) + run.effects &&
            host.scratch == Replay(old(host.scratch), run.effects)
  {
    ghost var before := host.log;
    ghost var trace: seq<Effect> := [];  // what this run has done so far
    var videoUrl := VideoUrl(data);
    if videoUrl == "" {
      response := Reply(Text(MissingUrlMessage), 400);
    } else {
      host.Perform(Fetch(videoUrl, jobId));
      trace := [Fetch(videoUrl, jobId)];
      match dl {
        case DownloadRaised(e) =>
          response := Reply(Text(e), 500);
        case ReturnedNone =>
          response := Reply(Text(DownloadFailedMessage), 500);
        case Returned(input, onDisk) =>
          ghost var rest := AfterDownload(host.scratch, storage, jobId, input, onDisk, ff, up);
          response := CheckAndConvert(host, storage, jobId, input, onDisk, ff, up);
          AppendAssociates(before, trace, rest.effects);
          trace := trace + rest.effects;
      }
    }
    assert host.log == before + trace;
    ghost var run := Job(old(host.scratch), storage, jobId, data, dl, ff, up);
    assert trace == run.effects;
    ReplayAppend(host.origin, before, run.effects);
  }

  /** The job once the downloader returned `input`: the file it left, the
      existence check, then the conversion. */
  method CheckAndConvert(host: Host, storage: string, jobId: string, input: string, onDisk: bool,
                         ff: FfmpegOutcome, up: UploadOutcome)
    returns (response: Response)
    requires host.Valid()
    modifies host
    ensures host.Valid() && host.origin == old(host.origin)
    ensures var run := AfterDownload(old(host.scratch), storage, jobId, input, onDisk, ff, up);
            response == run.response && host.log == old(host.log) + run.effects
  {
    ghost var before := host.log;
    if Stored(input, onDisk) {
      host.Perform(Created(input));
    }
    ghost var left := Leaves(input, Stored(input, onDisk));
    assert host.log == before + left;
    if input == "" || !host.Exists(input) {
      response := Reply(Text(DownloadFailedMessage), 500);
      return;
    }
    var output := OutputPath(storage, jobId);
    ghost var rest := ConvertAndPublish(host.scratch, input, output, jobId, ff, up);
    response := ConvertDownloaded(host, input, output, jobId, ff, up);
    AppendAssociates(before, left, rest.effects);
  }

  /** The job once the input is on disk: run ffmpeg from `input` to `output`,
      upload `output`, delete the local files. */
  method ConvertDownloaded(host: Host, input: string, output: string, jobId: string,
                           ff: FfmpegOutcome, up: UploadOutcome)
    returns (response: Response)
    requires host.Valid()
    modifies host
    ensures host.Valid() && host.origin == old(host.origin)
    ensures var run := ConvertAndPublish(old(host.scratch), input, output, jobId, ff, up);
            response == run.response && host.log == old(host.log) + run.effects
  {
    ghost var before := host.log;
    ghost var run := ConvertAndPublish(host.scratch, input, output, jobId, ff, up);
    var command := FfmpegArgs(input, output);
    host.Perform(Transcode(command));
    ghost var trace := [Transcode(command)];  // what this stage has done so far
    ghost var afterTranscode := host.scratch + (if ff.wroteOutput then {output} else {});
    if ff.wroteOutput {
      host.Perform(Created(output));
    }
    AppendAssociates(before, trace, Leaves(output, ff.wroteOutput));
    trace := trace + Leaves(output, ff.wroteOutput);
    assert host.log == before + trace && host.scratch == afterTranscode;
    match ff {
      case FfmpegRaised(e, _) =>
        assert run.effects == trace;
        response := Reply(Text(e), 500);
        return;
      case Exited(code, stderr, _) =>
        if code != 0 {
          ghost var cleanup := RemoveIfPresent(host.scratch, input);
          host.RemoveIfExists(input);
          AppendAssociates(before, trace, cleanup);
          trace := trace + cleanup;
          assert host.log == before + trace && run.effects == trace;
          response := Reply(Text("FFmpeg error: " + stderr), 500);
          return;
        }
    }
    host.Perform(Upload(output));
    AppendAssociates(before, trace, [Upload(output)]);
    trace := trace + [Upload(output)];
    match up {
      case UploadRaised(e) =>
        assert run.effects == trace;
        response := Reply(Text(e), 500);
      case Uploaded(link) =>
        ghost var uploading := trace;
        ghost var first := RemoveIfPresent(host.scratch, input);
        host.RemoveIfExists(input);
        AppendAssociates(before, trace, first);
        trace := trace + first;
        ghost var second := RemoveIfPresent(host.scratch, output);
        host.RemoveIfExists(output);
        AppendAssociates(before, trace, second);
        trace := trace + second;
        AppendAssociates(uploading, first, second);
        assert host.log == before + trace && run.effects == trace;
        response := Reply(Converted(link, jobId, "mp4", "h264"), 200);
    }
  }
}
