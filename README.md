# Video conversion job (`/v1/video/convert`)

A Dafny model of `process_convert_video`, the job that turns a remotely
hosted video into an H.264/AAC MP4. Given a job id and a request body holding
`video_url`, the job downloads the video to a local path that the downloader
chooses, runs ffmpeg with a fixed encoding profile, uploads the output, deletes its
local files and answers with exactly one `(body, endpoint, status)` triple.

The three collaborators (the downloader, the ffmpeg process and the
uploader) are not modelled. What each of them did in a run is an input to
the model:

- the downloader returned a path, which may or may not be on disk afterwards
  (no file can sit at the empty path); or it returned nothing; or it raised;
- ffmpeg exited with a code and its standard-error text; or the call raised,
  either before the process started or after it exited, when its output or
  its standard error could not be decoded as text. In both cases it may have left an
  output file;
- the uploader returned a URL, or it raised.

Once these are fixed the job is a deterministic state machine over the
scratch directory.

The model is split into four files:

- `command.dfy` (module `ConvertCommand`): the pure parts.
  - The output path is `os.path.join` of the storage directory and
    `<job_id>_output.mp4`, with POSIX semantics.
  - The ffmpeg argument list is built from a fixed profile.
  - A parser reads an argument list back into what it asks of ffmpeg. It
    reads back what the builder produced.
- `scratch.dfy` (module `Scratch`): the worker host, a class `Host`.
  - It holds the scratch directory as a set of paths, plus the log of
    everything the job did: a fetch, a file appearing, the ffmpeg call,
    an upload, a removal.
  - `Replay` gives the directory that a log produces, and `Host.Valid()`
    keeps the directory equal to that replay.
  - `Guarded` says that every removal finds its file present.
  - `Host.RemoveIfExists` is the `os.path.exists` / `os.remove` pair.
- `convert.dfy` (module `Convert`):
  - `Job` is the specification: the answer and the log of one run, for
    every combination of collaborator outcomes.
  - `AfterDownload` is the part of `Job` after the downloader returned a
    path, and `ConvertAndPublish` the part after the existence check.
  - `ProcessConvertVideo` is the job itself, an imperative method over a
    `Host`, with its later stages in `CheckAndConvert` and
    `ConvertDownloaded`. Each is proved to answer what its specification
    function answers and to append exactly that function's log.
- `properties.dfy` (module `ConvertProperties`): what each exit path
  answers, and what it leaves in the scratch directory.

Cleanup runs on two paths only:

- after a non-zero ffmpeg exit, it deletes the input;
- after a successful upload, it deletes the input and the output.

On every other exit the job's files stay, and this is proved:

- `FfmpegFailure`: an output that ffmpeg left behind stays.
- `UploadFailureKeepsFiles`: an upload that raises deletes nothing.
- `RaisedBeforeUpload`: a download or an ffmpeg call that raises deletes
  nothing, so an output that ffmpeg wrote before the call raised stays.

## Model

| member | source | states |
|---|---|---|
| ConvertCommand.Join | services/v1/video/convert.py:42 | `os.path.join` on POSIX: an absolute second part replaces the first; a relative one is appended to the first part, with a separator only when the first part is non-empty and does not already end in `/`; the result always ends with the second part |
| ConvertCommand.OutputPath | services/v1/video/convert.py:42 | The output path ends with `<job_id>_output.mp4`; for a relative job id it is the storage directory followed by that name, with a `/` between them only when the directory is non-empty and does not already end in `/` |
| ConvertCommand.OutputPathUnique | services/v1/video/convert.py:42 | Two relative job ids that give the same output path string are equal, so distinct relative job ids get distinct output path strings |
| ConvertCommand.OutputPathCollision | services/v1/video/convert.py:42 | An absolute job id escapes the storage directory and can land on another job's output path |
| ConvertCommand.FfmpegArgs | services/v1/video/convert.py:46-60 | The command has 23 arguments: `ffmpeg` first, the input right after `-i`, then the fixed profile, then `-y`, with the output last |
| ConvertCommand.FfmpegArgsOnlyPathsVary | services/v1/video/convert.py:46-60 | Every position other than the input (2) and the output (22) is the same for all inputs and outputs |
| ConvertCommand.FfmpegArgsRoundTrip | services/v1/video/convert.py:46-60 | Reading the command back gives program `ffmpeg`, the input, the profile's flag/value pairs in order, overwrite on, and the output; nothing else reaches the encoder |
| ConvertCommand.ProfileRoundTrip | services/v1/video/convert.py:49-58 | The options part of the command (profile and `-y`) reads back as the profile's pairs with overwrite set: nine pairs, pair `k` being the flag at position `2k` and its value at `2k+1` |
| ConvertCommand.PairsThenParse | services/v1/video/convert.py:49-58 | Any flag/value list followed by `-y` reads back as its pairs with overwrite set |
| ConvertCommand.PairsAt | services/v1/video/convert.py:49-57 | Pair `k` of an even-length argument list is its arguments `2k` (the flag) and `2k+1` (the value) |
| ConvertCommand.ProfileFlags | services/v1/video/convert.py:49-57 | Every even position of the profile holds a flag |
| ConvertCommand.ProfileReencodesWithoutSeeking | services/v1/video/convert.py:44-57 | The profile never seeks or cuts (no `-ss`, `-t`, `-to`), and neither codec is `copy` |
| Convert.VideoUrl | services/v1/video/convert.py:30-31 | `video_url` is falsy exactly when the key is missing or empty; otherwise it is the request's value |
| Convert.Job | services/v1/video/convert.py:29-99 | Every run answers on `/v1/video/convert` with status 200, 400 or 500, and the status is 200 exactly when the body is the success record |
| Convert.AfterDownload | services/v1/video/convert.py:38-95 | The stage after the downloader returned a path answers 200 or 500 on `/v1/video/convert`, with 200 exactly for the success record |
| Convert.JobAfterDownload | services/v1/video/convert.py:36-95 | Once the downloader returned a path, the run is the fetch and the file it left, then the failed-download answer if the path is empty or absent, and otherwise the conversion stage |
| Convert.ConvertAndPublish | services/v1/video/convert.py:46-95 | The stage after the existence check answers 200 or 500 on `/v1/video/convert`, with 200 exactly for the success record |
| Convert.ProcessConvertVideo | services/v1/video/convert.py:15-99 | The job answers what `Job` answers, appends exactly `Job`'s calls and file changes to the host's log, and leaves the directory as that log's replay |
| Convert.CheckAndConvert | services/v1/video/convert.py:36-95 | Recording the downloaded file, the existence check and the conversion answer and log exactly what `AfterDownload` says |
| Convert.ConvertDownloaded | services/v1/video/convert.py:46-95 | The conversion, upload and cleanup steps answer and log exactly what `ConvertAndPublish` says |
| Scratch.Host.Perform | services/v1/video/convert.py:36-80 | Recording a collaborator call or a file change appends it to the log and applies it to the directory, keeping the directory equal to the log's replay |
| Scratch.Host.Remove | services/v1/video/convert.py:75 | `os.remove` of a present file removes exactly that path and logs the removal |
| Scratch.Host.RemoveIfExists | services/v1/video/convert.py:74-75 | The guarded removal logs a removal only when the file is there; afterwards the path is absent and nothing else changed |
| Scratch.ReplayAppend | services/v1/video/convert.py:29-99 | Replaying two parts of a run one after the other gives the directory of the whole run |
| Scratch.GuardedAppend | services/v1/video/convert.py:74-86 | A run's removals all find their files exactly when those of each part do, the second part starting from the first part's directory |
| Scratch.ReplayFrame | services/v1/video/convert.py:74-86 | A path that no step creates or removes is present after a run exactly when it was present before |
| ConvertProperties.ScratchAfterConvert | services/v1/video/convert.py:63-86 | Once the input is present, the final directory is given for each ffmpeg and upload outcome, including an output left by a raising ffmpeg call, and every removal finds its file |
| ConvertProperties.ScratchAfterJob | services/v1/video/convert.py:29-99 | The final directory is given for every combination of outcomes, and no removal ever hits a missing file |
| ConvertProperties.MissingVideoUrl | services/v1/video/convert.py:30-32 | Status 400 happens exactly when `video_url` is missing or empty; the answer is then the fixed message and nothing is called or changed |
| ConvertProperties.DownloadFailure | services/v1/video/convert.py:36-39 | If the download returns nothing, an empty path or a path that is not on disk, the answer is the fixed message with 500, the log is exactly the one fetch, and the directory is unchanged |
| ConvertProperties.FfmpegFailure | services/v1/video/convert.py:70-76 | A non-zero exit answers `FFmpeg error: ` plus stderr with 500 and skips the upload; the input is deleted, and an output that ffmpeg left behind stays |
| ConvertProperties.UploadNeedsTranscode | services/v1/video/convert.py:70-80 | Unless the download succeeded and ffmpeg exited with 0, the uploader is never called |
| ConvertProperties.Success | services/v1/video/convert.py:80-95 | Status 200 happens exactly when download, ffmpeg and upload all succeed; the body then carries the uploader's URL, the job id, `mp4` and `h264`, and neither job file remains |
| ConvertProperties.UploadFailureKeepsFiles | services/v1/video/convert.py:80-99 | An upload that raises answers with its message and 500 and deletes nothing: the input stays, and so does the output if ffmpeg wrote one |
| ConvertProperties.RaisedBeforeUpload | services/v1/video/convert.py:97-99 | A download or ffmpeg call that raises answers with the exception's text and 500, with no upload and no removal; an output ffmpeg wrote before the raise stays |
| ConvertProperties.OnlyJobPathsChange | services/v1/video/convert.py:74-86 | Whatever the outcomes, no path other than the input and the output changes |
| ConvertProperties.ConvertCalls | services/v1/video/convert.py:63-86 | After the download: ffmpeg gets the fixed command, an upload happens only when ffmpeg exited with 0 and only of the output, and files change only at the input and the output |
| ConvertProperties.CollaboratorCalls | services/v1/video/convert.py:36-86 | The downloader gets the URL and job id; ffmpeg runs only on a downloaded file and gets the fixed command; an upload happens only when the download succeeded and ffmpeg exited with 0, and only of the output |
| ConvertProperties.ConvertOrder | services/v1/video/convert.py:63-86 | After the download the ffmpeg call and the file it left come first; after exit 0 the upload of the output comes next, on the directory ffmpeg left; everything after it, or after a failed ffmpeg call, is a removal |
| ConvertProperties.StageOrder | services/v1/video/convert.py:36-86 | A run whose download succeeded logs, in this order, the fetch, the downloaded file, the ffmpeg call and its output file; then the upload after exit 0, seeing that directory with nothing removed yet; then only removals |
| ConvertProperties.ShortRun | services/v1/video/convert.py:30-39 | A run whose download did not succeed (nothing, an absent file, or a raise) logs nothing without `video_url` and exactly one fetch otherwise |
| ConvertProperties.CallCounts | services/v1/video/convert.py:36-80 | The downloader is called once exactly when `video_url` is set, ffmpeg once exactly when the download succeeded, the uploader once exactly when ffmpeg also exited with 0, and otherwise never |
| ConvertProperties.ExampleRun | services/v1/video/convert.py:15-99 | Job `abc123` with every stage succeeding answers the success record with the CDN URL and leaves an empty directory empty |
| ConvertProperties.ExampleJob | services/v1/video/convert.py:15-99 | The same run through the imperative job on a fresh host answers 200 with the success record, and the directory ends empty |

## Left out

- The HTTP route, authentication, payload validation and job queueing are not modelled. The route only forwards `(job_id, data)` to the job.
- The internals of the downloader, the uploader and ffmpeg are not modelled. Each is an outcome given as input, because they are network, cloud storage and subprocess I/O.
- No integrity check of the output file is modelled, because the code makes none. ffmpeg's encoding itself is left out too.
- Logging is left out, because it has no effect on the result.
- `LOCAL_STORAGE_PATH` is a parameter (`storage`), because it comes from configuration.
- Request values are modelled as strings. A non-string `video_url` is not modelled, and the model reads only truthiness, as the empty string.
- An exception message is modelled as the collaborator's message string. How `str(e)` renders each exception type is not modelled.
- A download that leaves a partial file and then raises is not modelled: a raising download leaves the directory unchanged.
- `os.remove` raising between the existence check and the removal is not modelled. A concurrent deletion by another job is left out as concurrency.
- Paths are compared as strings. There is no normalisation of `..` or `//`, and symlinks are not modelled, so distinct path strings can still name one file (a job id `b/../a` and a job id `a`, when `<storage>/b` exists).
- Timeouts and retries are left out, because the code has neither.
- The ffmpeg call is recorded by its argument list. Its stdout and stderr piping are not recorded. A failure to decode its output or its stderr as text is modelled only as a raising call that may have left the output file.
- Convert.Job: its own contract states only the endpoint and the status range. The exact answer and log for each path are stated by the lemmas in `ConvertProperties`.
