/** What a conversion job does to the scratch directory and what it answers,
    path by path, including the files it leaves behind. */
module ConvertProperties {
  import opened ConvertCommand
  import opened Scratch
  import opened Convert

  // ---------------------------------------------------------------------
  // Replaying the pieces a run is made of

  lemma ReplayOne(files: set<string>, e: Effect)
    ensures Replay(files, [e]) == Step(files, e)
  {
    assert [e][1..] == [];
  }

  lemma ReplayLeaves(files: set<string>, path: string, wrote: bool)
    ensures Replay(files, Leaves(path, wrote)) == After(files, path, wrote)
    ensures Guarded(files, Leaves(path, wrote))
  {
    if wrote {
      ReplayOne(files, Created(path));
      assert [Created(path)][1..] == [];
    }
  }

  lemma ReplayRemoveIfPresent(files: set<string>, path: string)
    ensures Replay(files, RemoveIfPresent(files, path)) == files - {path}
    ensures Guarded(files, RemoveIfPresent(files, path))
  {
    if path in files {
      ReplayOne(files, Removed(path));
      assert [Removed(path)][1..] == [];
    }
  }

  lemma ReplayCall(files: set<string>, e: Effect)
    requires e.Fetch? || e.Transcode? || e.Upload?
    ensures Replay(files, [e]) == files && Guarded(files, [e])
  {
    ReplayOne(files, e);
    assert [e][1..] == [];
  }

  // ---------------------------------------------------------------------
  // The scratch directory after a run

  /** The directory after ffmpeg, upload and cleanup, starting from a
      directory that holds the input. */
  lemma ScratchAfterConvert(files: set<string>, input: string, output: string, jobId: string,
                            ff: FfmpegOutcome, up: UploadOutcome)
    requires input in files
    ensures var r := ConvertAndPublish(files, input, output, jobId, ff, up);
            var converted := After(files, output, ff.wroteOutput);
            Guarded(files, r.effects) &&
            Replay(files, r.effects) ==
              if ff.FfmpegRaised? then converted
              else if ff.code != 0 then converted - {input}
              else if up.UploadRaised? then converted
              else converted - {input, output}
  {
    var started := [Transcode(FfmpegArgs(input, output))];
    var transcoded := started + Leaves(output, ff.wroteOutput);
    var converted := After(files, output, ff.wroteOutput);
    ReplayCall(files, started[0]);
    ReplayLeaves(files, output, ff.wroteOutput);
    ReplayAppend(files, started, Leaves(output, ff.wroteOutput));
    GuardedAppend(files, started, Leaves(output, ff.wroteOutput));
    assert Replay(files, transcoded) == converted && Guarded(files, transcoded);
    if ff.Exited? {
      if ff.code != 0 {
        ReplayRemoveIfPresent(converted, input);
        ReplayAppend(files, transcoded, RemoveIfPresent(converted, input));
        GuardedAppend(files, transcoded, RemoveIfPresent(converted, input));
      } else {
        var uploading := transcoded + [Upload(output)];
        ReplayCall(converted, Upload(output));
        ReplayAppend(files, transcoded, [Upload(output)]);
        GuardedAppend(files, transcoded, [Upload(output)]);
        if up.Uploaded? {
          var first := RemoveIfPresent(converted, input);
          var second := RemoveIfPresent(converted - {input}, output);
          ReplayRemoveIfPresent(converted, input);
          ReplayRemoveIfPresent(converted - {input}, output);
          ReplayAppend(converted, first, second);
          GuardedAppend(converted, first, second);
          ReplayAppend(files, uploading, first + second);
          GuardedAppend(files, uploading, first + second);
          assert converted - {input} - {output} == converted - {input, output};
        }
      }
    }
  }

  /** The scratch directory after a whole run, for every combination of what
      the collaborators did; every removal finds its file present. */
  lemma ScratchAfterJob(files: set<string>, storage: string, jobId: string, data: map<string, string>,
                        dl: DownloadOutcome, ff: FfmpegOutcome, up: UploadOutcome)
    ensures var r := Job(files, storage, jobId, data, dl, ff, up);
            Guarded(files, r.effects) &&
            Replay(files, r.effects) ==
              if VideoUrl(data) == "" || !dl.Returned? then files
              else
                var fetched := After(files, dl.path, Stored(dl.path, dl.onDisk));
                if !Downloaded(files, data, dl) then fetched
                else
                  var converted := After(fetched, OutputPath(storage, jobId), ff.wroteOutput);
                  if ff.FfmpegRaised? then converted
                  else if ff.code != 0 then converted - {dl.path}
                  else if up.UploadRaised? then converted
                  else converted - {dl.path, OutputPath(storage, jobId)}
  {
    var url := VideoUrl(data);
    if url != "" {
      var fetch := [Fetch(url, jobId)];
      ReplayCall(files, fetch[0]);
      if dl.Returned? {
        var stored := Stored(dl.path, dl.onDisk);
        var fetched := fetch + Leaves(dl.path, stored);
        var afterFetch := After(files, dl.path, stored);
        ReplayLeaves(files, dl.path, stored);
        ReplayAppend(files, fetch, Leaves(dl.path, stored));
        GuardedAppend(files, fetch, Leaves(dl.path, stored));
        JobAfterDownload(files, storage, jobId, data, dl, ff, up);
        if Downloaded(files, data, dl) {
          var rest := ConvertAndPublish(afterFetch, dl.path, OutputPath(storage, jobId), jobId, ff, up);
          ScratchAfterConvert(afterFetch, dl.path, OutputPath(storage, jobId), jobId, ff, up);
          ReplayAppend(files, fetched, rest.effects);
          GuardedAppend(files, fetched, rest.effects);
        }
      }
    }
  }

  // ---------------------------------------------------------------------
  // Which collaborators a run calls

  predicate NoTranscode(effects: seq<Effect>)
  {
    forall e | e in effects :: !e.Transcode?
  }

  predicate NoUpload(effects: seq<Effect>)
  {
    forall e | e in effects :: !e.Upload?
  }

  predicate NoRemoval(effects: seq<Effect>)
  {
    forall e | e in effects :: !e.Removed?
  }

  // ---------------------------------------------------------------------
  // The answer and the directory, path by path

  /** A missing or empty `video_url` is the one way to get 400, and then
      nothing is called and nothing changes. */
  lemma MissingVideoUrl(files: set<string>, storage: string, jobId: string, data: map<string, string>,
                        dl: DownloadOutcome, ff: FfmpegOutcome, up: UploadOutcome)
    ensures var r := Job(files, storage, jobId, data, dl, ff, up);
            (r.response.status == 400 <==> VideoUrl(data) == "") &&
            (VideoUrl(data) == "" ==> r.response == Reply(Text(MissingUrlMessage), 400) && r.effects == [])
  {
  }

  /** A falsy or absent download stops the run before ffmpeg and upload,
      and nothing is deleted. */
  lemma DownloadFailure(files: set<string>, storage: string, jobId: string, data: map<string, string>,
                        dl: DownloadOutcome, ff: FfmpegOutcome, up: UploadOutcome)
    requires VideoUrl(data) != "" && !dl.DownloadRaised? && !Downloaded(files, data, dl)
    ensures var r := Job(files, storage, jobId, data, dl, ff, up);
            r.response == Reply(Text(DownloadFailedMessage), 500) &&
            r.effects == [Fetch(VideoUrl(data), jobId)] &&
            NoTranscode(r.effects) && NoUpload(r.effects) && NoRemoval(r.effects) &&
            Replay(files, r.effects) == files
  {
    ScratchAfterJob(files, storage, jobId, data, dl, ff, up);
    if dl.Returned? {
      JobAfterDownload(files, storage, jobId, data, dl, ff, up);
    }
  }

  /** A non-zero exit answers with ffmpeg's standard error, skips the upload
      and deletes the input only: an output file ffmpeg left stays behind. */
  lemma FfmpegFailure(files: set<string>, storage: string, jobId: string, data: map<string, string>,
                      dl: DownloadOutcome, ff: FfmpegOutcome, up: UploadOutcome)
    requires Downloaded(files, data, dl) && ff.Exited? && ff.code != 0
    ensures var r := Job(files, storage, jobId, data, dl, ff, up);
            var output := OutputPath(storage, jobId);
            r.response == Reply(Text("FFmpeg error: " + ff.stderr), 500) &&
            NoUpload(r.effects) &&
            Replay(files, r.effects) == After(After(files, dl.path, dl.onDisk), output, ff.wroteOutput) - {dl.path} &&
            dl.path !in Replay(files, r.effects) &&
            (ff.wroteOutput && output != dl.path ==> output in Replay(files, r.effects))
  {
    ScratchAfterJob(files, storage, jobId, data, dl, ff, up);
    UploadNeedsTranscode(files, storage, jobId, data, dl, ff, up);
  }

  /** The uploader is only called after ffmpeg exited with 0. */
  lemma UploadNeedsTranscode(files: set<string>, storage: string, jobId: string, data: map<string, string>,
                             dl: DownloadOutcome, ff: FfmpegOutcome, up: UploadOutcome)
    requires !Transcoded(files, data, dl, ff)
    ensures NoUpload(Job(files, storage, jobId, data, dl, ff, up).effects)
  {
    CollaboratorCalls(files, storage, jobId, data, dl, ff, up);
  }

  /** A run succeeds exactly when every stage does; it then answers with the
      uploaded URL and leaves neither the input nor the output behind, and no
      other file changes. */
  lemma Success(files: set<string>, storage: string, jobId: string, data: map<string, string>,
                dl: DownloadOutcome, ff: FfmpegOutcome, up: UploadOutcome)
    ensures var r := Job(files, storage, jobId, data, dl, ff, up);
            (r.response.status == 200 <==> Transcoded(files, data, dl, ff) && up.Uploaded?) &&
            (r.response.status == 200 ==>
               r.response == Reply(Converted(up.url, jobId, "mp4", "h264"), 200) &&
               Replay(files, r.effects) == files - {dl.path, OutputPath(storage, jobId)})
  {
    ScratchAfterJob(files, storage, jobId, data, dl, ff, up);
  }

  /** An upload that raises answers with its message and deletes nothing:
      the input, and the output if ffmpeg wrote one, stay behind. */
  lemma UploadFailureKeepsFiles(files: set<string>, storage: string, jobId: string, data: map<string, string>,
                                dl: DownloadOutcome, ff: FfmpegOutcome, up: UploadOutcome)
    requires Transcoded(files, data, dl, ff) && up.UploadRaised?
    ensures var r := Job(files, storage, jobId, data, dl, ff, up);
            r.response == Reply(Text(up.message), 500) &&
            NoRemoval(r.effects) &&
            dl.path in Replay(files, r.effects) &&
            (ff.wroteOutput ==> OutputPath(storage, jobId) in Replay(files, r.effects))
  {
    ScratchAfterJob(files, storage, jobId, data, dl, ff, up);
    var r := Job(files, storage, jobId, data, dl, ff, up);
    var fetched := [Fetch(VideoUrl(data), jobId)] + Leaves(dl.path, dl.onDisk);
    var rest := ConvertAndPublish(After(files, dl.path, dl.onDisk), dl.path, OutputPath(storage, jobId), jobId, ff, up);
    ConvertCalls(After(files, dl.path, dl.onDisk), dl.path, OutputPath(storage, jobId), jobId, ff, up);
    JobAfterDownload(files, storage, jobId, data, dl, ff, up);
    assert r.effects == fetched + rest.effects;
  }

  /** A download or an ffmpeg call that raises answers with the exception's
      text, and nothing is uploaded or deleted: an output that ffmpeg wrote
      before the call raised stays behind. */
  lemma RaisedBeforeUpload(files: set<string>, storage: string, jobId: string, data: map<string, string>,
                           dl: DownloadOutcome, ff: FfmpegOutcome, up: UploadOutcome)
    requires VideoUrl(data) != ""
    requires dl.DownloadRaised? || (Downloaded(files, data, dl) && ff.FfmpegRaised?)
    ensures var r := Job(files, storage, jobId, data, dl, ff, up);
            r.response == Reply(Text(if dl.DownloadRaised? then dl.message else ff.message), 500) &&
            NoUpload(r.effects) && NoRemoval(r.effects) &&
            Replay(files, r.effects) ==
              if dl.DownloadRaised? then files
              else After(After(files, dl.path, dl.onDisk), OutputPath(storage, jobId), ff.wroteOutput)
  {
    ScratchAfterJob(files, storage, jobId, data, dl, ff, up);
    UploadNeedsTranscode(files, storage, jobId, data, dl, ff, up);
    var r := Job(files, storage, jobId, data, dl, ff, up);
    var fetch := [Fetch(VideoUrl(data), jobId)];
    if dl.DownloadRaised? {
      assert r.effects == fetch;
    } else {
      var output := OutputPath(storage, jobId);
      assert r.effects == (fetch + Leaves(dl.path, dl.onDisk))
                          + ([Transcode(FfmpegArgs(dl.path, output))] + Leaves(output, ff.wroteOutput));
    }
  }

  /** Whatever happens, only the input and the output path can change. */
  lemma OnlyJobPathsChange(files: set<string>, storage: string, jobId: string, data: map<string, string>,
                           dl: DownloadOutcome, ff: FfmpegOutcome, up: UploadOutcome, p: string)
    requires p != OutputPath(storage, jobId) && !(dl.Returned? && p == dl.path)
    ensures p in Replay(files, Job(files, storage, jobId, data, dl, ff, up).effects) <==> p in files
  {
    var effects := Job(files, storage, jobId, data, dl, ff, up).effects;
    CollaboratorCalls(files, storage, jobId, data, dl, ff, up);
    forall k | 0 <= k < |effects|
      ensures p !in Touched(effects[k])
    {
      assert effects[k] in effects;
    }
    ReplayFrame(files, effects, p);
  }

  /** The calls of the stage after the download. */
  lemma ConvertCalls(files: set<string>, input: string, output: string, jobId: string,
                     ff: FfmpegOutcome, up: UploadOutcome)
    ensures var r := ConvertAndPublish(files, input, output, jobId, ff, up);
            (forall e | e in r.effects ::
               !e.Fetch? &&
               (e.Transcode? ==> e.args == FfmpegArgs(input, output)) &&
               (e.Upload? ==> ff.Exited? && ff.code == 0 && e.path == output) &&
               (e.Created? || e.Removed? ==> e.path == input || e.path == output)) &&
            (ff.FfmpegRaised? || (ff.code == 0 && up.UploadRaised?) ==> NoRemoval(r.effects))
  {
    var r := ConvertAndPublish(files, input, output, jobId, ff, up);
    var transcoded := [Transcode(FfmpegArgs(input, output))] + Leaves(output, ff.wroteOutput);
    var converted := After(files, output, ff.wroteOutput);
    match ff
    case FfmpegRaised(_, _) =>
      assert r.effects == transcoded;
    case Exited(code, _, _) =>
      if code != 0 {
        assert r.effects == transcoded + RemoveIfPresent(converted, input);
      } else {
        var uploading := transcoded + [Upload(output)];
        match up
        case UploadRaised(_) =>
          assert r.effects == uploading;
        case Uploaded(_) =>
          assert r.effects == uploading + (RemoveIfPresent(converted, input)
                                           + RemoveIfPresent(converted - {input}, output));
      }
  }

  /** Each collaborator is called with what the job derives for it: the
      downloader with the URL and job id, ffmpeg with the fixed command on
      the downloaded file, the uploader with the output path; removals only
      hit the two job paths. */
  lemma CollaboratorCalls(files: set<string>, storage: string, jobId: string, data: map<string, string>,
                          dl: DownloadOutcome, ff: FfmpegOutcome, up: UploadOutcome)
    ensures var r := Job(files, storage, jobId, data, dl, ff, up);
            var output := OutputPath(storage, jobId);
            forall e | e in r.effects ::
              (e.Fetch? ==> e == Fetch(VideoUrl(data), jobId)) &&
              (e.Transcode? ==> Downloaded(files, data, dl) && e.args == FfmpegArgs(dl.path, output)) &&
              (e.Upload? ==> Transcoded(files, data, dl, ff) && e.path == output) &&
              (e.Created? || e.Removed? ==> (dl.Returned? && e.path == dl.path) || e.path == output)
  {
    var r := Job(files, storage, jobId, data, dl, ff, up);
    if VideoUrl(data) != "" && dl.Returned? {
      var stored := Stored(dl.path, dl.onDisk);
      var fetched := [Fetch(VideoUrl(data), jobId)] + Leaves(dl.path, stored);
      JobAfterDownload(files, storage, jobId, data, dl, ff, up);
      if Downloaded(files, data, dl) {
        var afterFetch := After(files, dl.path, stored);
        var output := OutputPath(storage, jobId);
        var rest := ConvertAndPublish(afterFetch, dl.path, output, jobId, ff, up);
        ConvertCalls(afterFetch, dl.path, output, jobId, ff, up);
        assert r.effects == fetched + rest.effects;
        assert forall e | e in r.effects :: e in fetched || e in rest.effects;
      } else {
        assert r.effects == fetched;
      }
    }
  }

  // ---------------------------------------------------------------------
  // The order of the stages, and how often each collaborator is called

  /** Every effect is a removal. */
  predicate OnlyRemovals(effects: seq<Effect>)
  {
    forall e | e in effects :: e.Removed?
  }

  /** After the download: the ffmpeg call and the file it left come first;
      after exit 0 the upload comes next, seeing the directory ffmpeg left;
      everything after that, or after a failed ffmpeg call, is a removal. */
  lemma ConvertOrder(files: set<string>, input: string, output: string, jobId: string,
                     ff: FfmpegOutcome, up: UploadOutcome)
    ensures var r := ConvertAndPublish(files, input, output, jobId, ff, up);
            var pre := [Transcode(FfmpegArgs(input, output))] + Leaves(output, ff.wroteOutput);
            |pre| <= |r.effects| && r.effects[..|pre|] == pre &&
            Replay(files, pre) == After(files, output, ff.wroteOutput) &&
            if ff.Exited? && ff.code == 0 then
              |pre| < |r.effects| && r.effects[|pre|] == Upload(output) && OnlyRemovals(r.effects[|pre| + 1..])
            else
              OnlyRemovals(r.effects[|pre|..])
  {
    var r := ConvertAndPublish(files, input, output, jobId, ff, up);
    var started := [Transcode(FfmpegArgs(input, output))];
    var pre := started + Leaves(output, ff.wroteOutput);
    var converted := After(files, output, ff.wroteOutput);
    ReplayCall(files, started[0]);
    ReplayLeaves(files, output, ff.wroteOutput);
    ReplayAppend(files, started, Leaves(output, ff.wroteOutput));
    var tail: seq<Effect>;
    if ff.FfmpegRaised? {
      tail := [];
    } else if ff.code != 0 {
      tail := RemoveIfPresent(converted, input);
    } else if up.UploadRaised? {
      tail := [Upload(output)];
    } else {
      var cleanup := RemoveIfPresent(converted, input) + RemoveIfPresent(converted - {input}, output);
      AppendAssociates(pre, [Upload(output)], cleanup);
      tail := [Upload(output)] + cleanup;
      assert tail[1..] == cleanup;
    }
    assert r.effects == pre + tail;
    assert r.effects[..|pre|] == pre && r.effects[|pre|..] == tail;
  }

  /** A run whose download succeeded is, in this order: the fetch, the file
      it left, the ffmpeg call, the file ffmpeg left; then, after exit 0, the
      upload, which sees the directory as ffmpeg left it; then removals only. */
  lemma StageOrder(files: set<string>, storage: string, jobId: string, data: map<string, string>,
                   dl: DownloadOutcome, ff: FfmpegOutcome, up: UploadOutcome)
    requires Downloaded(files, data, dl)
    ensures var r := Job(files, storage, jobId, data, dl, ff, up);
            var output := OutputPath(storage, jobId);
            var stored := Stored(dl.path, dl.onDisk);
            var pre := ([Fetch(VideoUrl(data), jobId)] + Leaves(dl.path, stored))
                       + ([Transcode(FfmpegArgs(dl.path, output))] + Leaves(output, ff.wroteOutput));
            |pre| <= |r.effects| && r.effects[..|pre|] == pre &&
            Replay(files, pre) == After(After(files, dl.path, stored), output, ff.wroteOutput) &&
            if ff.Exited? && ff.code == 0 then
              |pre| < |r.effects| && r.effects[|pre|] == Upload(output) && OnlyRemovals(r.effects[|pre| + 1..])
            else
              OnlyRemovals(r.effects[|pre|..])
  {
    var r := Job(files, storage, jobId, data, dl, ff, up);
    var output := OutputPath(storage, jobId);
    var stored := Stored(dl.path, dl.onDisk);
    var fetch := [Fetch(VideoUrl(data), jobId)];
    var fetched := fetch + Leaves(dl.path, stored);
    var afterFetch := After(files, dl.path, stored);
    var mid := [Transcode(FfmpegArgs(dl.path, output))] + Leaves(output, ff.wroteOutput);
    JobAfterDownload(files, storage, jobId, data, dl, ff, up);
    var rest := ConvertAndPublish(afterFetch, dl.path, output, jobId, ff, up);
    ConvertOrder(afterFetch, dl.path, output, jobId, ff, up);
    assert r.effects == fetched + rest.effects;
    var tail := rest.effects[|mid|..];
    assert rest.effects == mid + tail;
    AppendAssociates(fetched, mid, tail);
    assert r.effects[..|fetched + mid|] == fetched + mid;
    assert r.effects[|fetched + mid|..] == tail;
    ReplayCall(files, fetch[0]);
    ReplayLeaves(files, dl.path, stored);
    ReplayAppend(files, fetch, Leaves(dl.path, stored));
    ReplayAppend(files, fetched, mid);
  }

  datatype Collaborator = Downloader | Encoder | Uploader

  /** `e` is a call to collaborator `c`. */
  predicate Calls(e: Effect, c: Collaborator)
  {
    match c
    case Downloader => e.Fetch?
    case Encoder => e.Transcode?
    case Uploader => e.Upload?
  }

  /** How many times `effects` calls collaborator `c`. */
  function Count(effects: seq<Effect>, c: Collaborator): nat
    decreases |effects|
  {
    if effects == [] then 0 else (if Calls(effects[0], c) then 1 else 0) + Count(effects[1..], c)
  }

  lemma {:induction false} CountAppend(a: seq<Effect>, b: seq<Effect>, c: Collaborator)
    ensures Count(a + b, c) == Count(a, c) + Count(b, c)
    decreases |a|
  {
    if a == [] {
      assert a + b == b;
    } else {
      assert (a + b)[1..] == a[1..] + b;
      CountAppend(a[1..], b, c);
    }
  }

  lemma CountOne(e: Effect, c: Collaborator)
    ensures Count([e], c) == if Calls(e, c) then 1 else 0
  {
    assert [e][1..] == [];
  }

  /** Creations and removals call nobody. */
  lemma {:induction false} CountFileEffects(effects: seq<Effect>, c: Collaborator)
    requires forall e | e in effects :: e.Created? || e.Removed?
    ensures Count(effects, c) == 0
    decreases |effects|
  {
    if effects != [] {
      assert effects[0] in effects;
      assert forall e | e in effects[1..] :: e in effects;
      CountFileEffects(effects[1..], c);
    }
  }

  /** The calls in a log shaped as `StageOrder` says: one fetch, one ffmpeg
      call, and one upload when the tail starts with it. */
  lemma CountStages(fetch: Effect, left: seq<Effect>, transcode: Effect, written: seq<Effect>,
                    tail: seq<Effect>, c: Collaborator)
    requires fetch.Fetch? && transcode.Transcode?
    requires forall e | e in left + written :: e.Created? || e.Removed?
    requires |tail| > 0 && tail[0].Upload? ==> OnlyRemovals(tail[1..])
    requires !(|tail| > 0 && tail[0].Upload?) ==> OnlyRemovals(tail)
    ensures var n := Count(([fetch] + left) + ([transcode] + written) + tail, c);
            n == match c
                 case Downloader => 1
                 case Encoder => 1
                 case Uploader => if |tail| > 0 && tail[0].Upload? then 1 else 0
  {
    assert forall e | e in left :: e in left + written;
    assert forall e | e in written :: e in left + written;
    CountAppend(([fetch] + left) + ([transcode] + written), tail, c);
    CountAppend([fetch] + left, [transcode] + written, c);
    CountAppend([fetch], left, c);
    CountAppend([transcode], written, c);
    CountOne(fetch, c);
    CountOne(transcode, c);
    CountFileEffects(left, c);
    CountFileEffects(written, c);
    if |tail| > 0 && tail[0].Upload? {
      assert tail == [tail[0]] + tail[1..];
      CountAppend([tail[0]], tail[1..], c);
      CountOne(tail[0], c);
      CountFileEffects(tail[1..], c);
    } else {
      CountFileEffects(tail, c);
    }
  }

  lemma PrefixThenRest(effects: seq<Effect>, pre: seq<Effect>)
    requires |pre| <= |effects| && effects[..|pre|] == pre
    ensures effects == pre + effects[|pre|..]
  {
    assert effects == effects[..|pre|] + effects[|pre|..];
  }

  /** A run whose download did not succeed fetches at most once and does
      nothing else. */
  lemma ShortRun(files: set<string>, storage: string, jobId: string, data: map<string, string>,
                 dl: DownloadOutcome, ff: FfmpegOutcome, up: UploadOutcome)
    requires !Downloaded(files, data, dl)
    ensures Job(files, storage, jobId, data, dl, ff, up).effects ==
              if VideoUrl(data) == "" then [] else [Fetch(VideoUrl(data), jobId)]
  {
    if VideoUrl(data) != "" && !dl.DownloadRaised? {
      DownloadFailure(files, storage, jobId, data, dl, ff, up);
    }
  }

  /** Each collaborator is called at most once: the downloader exactly when
      `video_url` is set, ffmpeg exactly when the download succeeded, the
      uploader exactly when ffmpeg also exited with 0. */
  lemma CallCounts(files: set<string>, storage: string, jobId: string, data: map<string, string>,
                   dl: DownloadOutcome, ff: FfmpegOutcome, up: UploadOutcome, c: Collaborator)
    ensures var n := Count(Job(files, storage, jobId, data, dl, ff, up).effects, c);
            n == match c
                 case Downloader => if VideoUrl(data) != "" then 1 else 0
                 case Encoder => if Downloaded(files, data, dl) then 1 else 0
                 case Uploader => if Transcoded(files, data, dl, ff) then 1 else 0
  {
    var r := Job(files, storage, jobId, data, dl, ff, up);
    var url := VideoUrl(data);
    if !Downloaded(files, data, dl) {
      ShortRun(files, storage, jobId, data, dl, ff, up);
      if url != "" {
        CountOne(Fetch(url, jobId), c);
      }
    } else {
      var output := OutputPath(storage, jobId);
      var left := Leaves(dl.path, Stored(dl.path, dl.onDisk));
      var written := Leaves(output, ff.wroteOutput);
      var pre := ([Fetch(url, jobId)] + left) + ([Transcode(FfmpegArgs(dl.path, output))] + written);
      StageOrder(files, storage, jobId, data, dl, ff, up);
      var tail := r.effects[|pre|..];
      PrefixThenRest(r.effects, pre);
      if ff.Exited? && ff.code == 0 {
        assert tail[0] == Upload(output);
      } else if tail != [] {
        assert tail[0] in tail;
      }
      CountStages(Fetch(url, jobId), left, Transcode(FfmpegArgs(dl.path, output)), written, tail, c);
    }
  }

  /** The end-to-end run of a job `abc123` whose every stage succeeds. */
  lemma ExampleRun()
    ensures var r := Job({}, "/scratch", "abc123", map["video_url" := "https://example.com/clip.webm"],
                         Returned("/scratch/abc123_input", true), Exited(0, "", true),
                         Uploaded("https://cdn.example.com/abc123_output.mp4"));
            r.response == Response(Converted("https://cdn.example.com/abc123_output.mp4", "abc123", "mp4", "h264"),
                                   "/v1/video/convert", 200) &&
            Replay({}, r.effects) == {}
  {
    var data := map["video_url" := "https://example.com/clip.webm"];
    assert VideoUrl(data) == "https://example.com/clip.webm";
    assert Transcoded({}, data, Returned("/scratch/abc123_input", true), Exited(0, "", true));
    Success({}, "/scratch", "abc123", data, Returned("/scratch/abc123_input", true), Exited(0, "", true),
            Uploaded("https://cdn.example.com/abc123_output.mp4"));
  }

  /** The same run through the job itself, on a host whose scratch directory
      starts empty. */
  method ExampleJob() returns (response: Response, left: set<string>)
    ensures response.body == Converted("https://cdn.example.com/abc123_output.mp4", "abc123", "mp4", "h264")
    ensures response.status == 200 && left == {}
  {
    var host := new Host({});
    response := ProcessConvertVideo(host, "/scratch", "abc123", map["video_url" := "https://example.com/clip.webm"],
                                    Returned("/scratch/abc123_input", true), Exited(0, "", true),
                                    Uploaded("https://cdn.example.com/abc123_output.mp4"));
    ExampleRun();
    left := host.scratch;
  }
}
