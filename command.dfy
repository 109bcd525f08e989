/** The pure part of the conversion job: where the output file goes and the
    ffmpeg argument list that turns the downloaded video into an H.264/AAC MP4. */
module ConvertCommand {

  datatype Option<T> = None | Some(value: T)

  /** `os.path.join(a, b)` on POSIX: an absolute `b` replaces `a`, an empty `a`
      or one ending in a separator is extended as is, otherwise a separator is
      put between them. */
  function Join(a: string, b: string): (r: string)
    ensures |b| > 0 && b[0] == '/' ==> r == b
    ensures !(|b| > 0 && b[0] == '/') ==> r == JoinPrefix(a) + b
    ensures |r| >= |b| && r[|r| - |b|..] == b
  {
    if |b| > 0 && b[0] == '/' then b else JoinPrefix(a) + b
  }

  /** The part of `Join(a, b)` in front of a relative `b`: `a` itself when it
      is empty or ends in a separator, otherwise `a` and a separator. */
  function JoinPrefix(a: string): string
  {
    if a == [] || a[|a| - 1] == '/' then a else a + "/"
  }

  /** File name of a job's output, `f"{job_id}_output.mp4"`. */
  function OutputName(jobId: string): string
  {
    jobId + "_output.mp4"
  }

  /** Where ffmpeg writes the converted video: the storage directory joined
      with the job's output name. */
  function OutputPath(storage: string, jobId: string): (r: string)
    ensures |r| >= |OutputName(jobId)| && r[|r| - |OutputName(jobId)|..] == OutputName(jobId)
    ensures (|jobId| == 0 || jobId[0] != '/') ==> r == JoinPrefix(storage) + OutputName(jobId)
  {
    Join(storage, OutputName(jobId))
  }

  /** Two jobs with distinct relative identifiers never share an output path. */
  lemma OutputPathUnique(storage: string, j1: string, j2: string)
    requires |j1| == 0 || j1[0] != '/'
    requires |j2| == 0 || j2[0] != '/'
    requires OutputPath(storage, j1) == OutputPath(storage, j2)
    ensures j1 == j2
  {
    var p := JoinPrefix(storage);
    var n1, n2 := OutputName(j1), OutputName(j2);
    assert p + n1 == p + n2;
    assert n1 == (p + n1)[|p|..];
    assert n2 == (p + n2)[|p|..];
    assert j1 == n1[..|j1|];
    assert j2 == n2[..|j2|];
  }

  /** An absolute job identifier escapes the storage directory and can land on
      the output path of a relative one. */
  lemma OutputPathCollision()
    ensures OutputPath("/tmp", "/tmp/a") == OutputPath("/tmp", "a")
  {
    assert OutputPath("/tmp", "a") == "/tmp" + "/" + "a_output.mp4";
  }

  /** The fixed encoding profile: `-flag value` pairs, flag first. */
  const ProfileArgs: seq<string> := [
    "-c:v", "libx264",         // H.264 video
    "-preset", "fast",
    "-crf", "23",              // constant-rate-factor quality
    "-c:a", "aac",             // AAC audio
    "-b:a", "128k",
    "-ar", "48000",            // sample rate
    "-ac", "2",                // stereo
    "-pix_fmt", "yuv420p",     // 4:2:0 chroma subsampling
    "-movflags", "+faststart"  // index at the front, for progressive playback
  ]

  /** Consecutive arguments taken two by two as `(flag, value)` pairs. */
  function Pairs(ts: seq<string>): (r: seq<(string, string)>)
    requires |ts| % 2 == 0
    ensures |r| == |ts| / 2
    decreases |ts|
  {
    if ts == [] then [] else [(ts[0], ts[1])] + Pairs(ts[2..])
  }

  /** Pair `k` is the arguments at positions `2k` and `2k + 1`. */
  lemma {:induction false} PairsAt(ts: seq<string>, k: nat)
    requires |ts| % 2 == 0 && k < |ts| / 2
    ensures Pairs(ts)[k] == (ts[2 * k], ts[2 * k + 1])
    decreases k
  {
    if k > 0 {
      PairsAt(ts[2..], k - 1);
    }
  }

  /** The argument list handed to the ffmpeg process. */
  function FfmpegArgs(input: string, output: string): (r: seq<string>)
    ensures |r| == 23 && r[0] == "ffmpeg" && r[1] == "-i" && r[2] == input && r[|r| - 1] == output
    ensures r[3..|r| - 2] == ProfileArgs && r[|r| - 2] == "-y"
  {
    ["ffmpeg", "-i", input] + ProfileArgs + ["-y"] + [output]
  }

  /** Only the input path (position 2) and the output path (the last position)
      vary between two commands. */
  lemma FfmpegArgsOnlyPathsVary(i1: string, o1: string, i2: string, o2: string, k: nat)
    requires k < 23 && k != 2 && k != 22
    ensures FfmpegArgs(i1, o1)[k] == FfmpegArgs(i2, o2)[k]
  {
  }

  /** What an ffmpeg command line asks for, read back from its arguments. */
  datatype Invocation = Invocation(program: string, input: string, options: seq<(string, string)>,
                                   overwrite: bool, output: string)

  predicate IsFlag(t: string)
  {
    |t| >= 2 && t[0] == '-' && t != "-y"
  }

  /** Reads the options between the input and the output: `-y` sets overwrite,
      any other flag takes the next argument as its value. */
  function ParseOptions(ts: seq<string>): Option<(seq<(string, string)>, bool)>
    decreases |ts|
  {
    if ts == [] then Some(([], false))
    else if ts[0] == "-y" then
      match ParseOptions(ts[1..])
      case None => None
      case Some(rest) => Some((rest.0, true))
    else if |ts| >= 2 && IsFlag(ts[0]) then
      match ParseOptions(ts[2..])
      case None => None
      case Some(rest) => Some(([(ts[0], ts[1])] + rest.0, rest.1))
    else None
  }

  /** Reads `program -i input options... output`. */
  function ParseArgs(args: seq<string>): Option<Invocation>
  {
    if |args| < 4 || args[1] != "-i" then None
    else match ParseOptions(args[3..|args| - 1])
      case None => None
      case Some(opts) => Some(Invocation(args[0], args[2], opts.0, opts.1, args[|args| - 1]))
  }

  /** Arguments whose even positions hold flags, followed by `-y`, read back
      as their pairs with overwrite set. */
  lemma {:induction false} PairsThenParse(ts: seq<string>)
    requires |ts| % 2 == 0
    requires forall k :: 0 <= k < |ts| && k % 2 == 0 ==> IsFlag(ts[k])
    ensures ParseOptions(ts + ["-y"]) == Some((Pairs(ts), true))
    decreases |ts|
  {
    var us := ts + ["-y"];
    if ts == [] {
      assert us[1..] == [];
    } else {
      assert IsFlag(ts[0]);
      forall k | 0 <= k < |ts[2..]| && k % 2 == 0
        ensures IsFlag(ts[2..][k])
      {
        assert ts[2..][k] == ts[k + 2];
      }
      PairsThenParse(ts[2..]);
      assert us[2..] == ts[2..] + ["-y"];
    }
  }

  /** Reading the command back gives ffmpeg, the two paths, the profile's
      pairs and overwrite: nothing else reaches the encoder. */
  lemma FfmpegArgsRoundTrip(input: string, output: string)
    ensures ParseArgs(FfmpegArgs(input, output)) == Some(Invocation("ffmpeg", input, Pairs(ProfileArgs), true, output))
  {
    ProfileRoundTrip();
    Between(["ffmpeg", "-i", input], ProfileArgs, ["-y"], [output]);
  }

  lemma Between(a: seq<string>, b: seq<string>, c: seq<string>, d: seq<string>)
    ensures (a + b + c + d)[|a|..|a| + |b| + |c|] == b + c
  {
  }

  /** The options part of the command reads back as the profile's pairs with
      overwrite: each flag paired with the value after it. */
  lemma ProfileRoundTrip()
    ensures ParseOptions(ProfileArgs + ["-y"]) == Some((Pairs(ProfileArgs), true))
    ensures |Pairs(ProfileArgs)| == 9
    ensures forall k :: 0 <= k < |Pairs(ProfileArgs)| ==> Pairs(ProfileArgs)[k] == (ProfileArgs[2 * k], ProfileArgs[2 * k + 1])
  {
    ProfileFlags();
    PairsThenParse(ProfileArgs);
    forall k | 0 <= k < |Pairs(ProfileArgs)|
      ensures Pairs(ProfileArgs)[k] == (ProfileArgs[2 * k], ProfileArgs[2 * k + 1])
    {
      PairsAt(ProfileArgs, k);
    }
  }

  lemma ProfileFlags()
    ensures forall k :: 0 <= k < |ProfileArgs| && k % 2 == 0 ==> IsFlag(ProfileArgs[k])
  {
  }

  /** The profile always re-encodes (no stream copy) and never seeks or cuts. */
  lemma ProfileReencodesWithoutSeeking()
    ensures forall k :: 0 <= k < |ProfileArgs| && k % 2 == 0 ==> ProfileArgs[k] !in {"-ss", "-t", "-to"}
    ensures forall k :: 0 <= k < |ProfileArgs| && k % 2 == 0 && ProfileArgs[k] in {"-c:v", "-c:a"} ==>
              ProfileArgs[k + 1] != "copy"
  {
  }
}
