/** The worker host as the conversion job sees it: the shared scratch
    directory (a set of paths) and the calls the job makes to the outside
    world, recorded in the order they happen. */
module Scratch {

  /** One observable step of a job. */
  datatype Effect =
    | Fetch(url: string, jobId: string)   // download_file(video_url, job_id)
    | Created(path: string)               // a collaborator left a file in scratch
    | Transcode(args: seq<string>)        // subprocess.run is called with `args`
    | Upload(path: string)                // upload_file(output_filename)
    | Removed(path: string)               // os.remove(path)

  /** The scratch directory after one effect. */
  function Step(files: set<string>, e: Effect): set<string>
  {
    match e
    case Created(p) => files + {p}
    case Removed(p) => files - {p}
    case _ => files
  }

  /** The scratch directory after a sequence of effects. */
  function Replay(files: set<string>, effects: seq<Effect>): set<string>
    decreases |effects|
  {
    if effects == [] then files else Replay(Step(files, effects[0]), effects[1..])
  }

  /** Every removal in `effects` finds its file present, so none of them fails. */
  predicate Guarded(files: set<string>, effects: seq<Effect>)
    decreases |effects|
  {
    effects == [] ||
    ((effects[0].Removed? ==> effects[0].path in files) && Guarded(Step(files, effects[0]), effects[1..]))
  }

  /** The paths an effect creates or removes. */
  function Touched(e: Effect): set<string>
  {
    if e.Created? || e.Removed? then {e.path} else {}
  }

  lemma {:induction false} ReplayAppend(files: set<string>, a: seq<Effect>, b: seq<Effect>)
    ensures Replay(files, a + b) == Replay(Replay(files, a), b)
    decreases |a|
  {
    if a == [] {
      assert a + b == b;
    } else {
      assert (a + b)[1..] == a[1..] + b;
      ReplayAppend(Step(files, a[0]), a[1..], b);
    }
  }

  lemma {:induction false} GuardedAppend(files: set<string>, a: seq<Effect>, b: seq<Effect>)
    ensures Guarded(files, a + b) <==> Guarded(files, a) && Guarded(Replay(files, a), b)
    decreases |a|
  {
    if a == [] {
      assert a + b == b;
    } else {
      assert (a + b)[1..] == a[1..] + b;
      GuardedAppend(Step(files, a[0]), a[1..], b);
    }
  }

  lemma AppendAssociates(a: seq<Effect>, b: seq<Effect>, c: seq<Effect>)
    ensures (a + b) + c == a + (b + c)
  {
  }

  /** A path no effect creates or removes is present afterwards exactly when it
      was present before. */
  lemma {:induction false} ReplayFrame(files: set<string>, effects: seq<Effect>, p: string)
    requires forall k :: 0 <= k < |effects| ==> p !in Touched(effects[k])
    ensures p in Replay(files, effects) <==> p in files
    decreases |effects|
  {
    if effects != [] {
      assert p !in Touched(effects[0]);
      ReplayFrame(Step(files, effects[0]), effects[1..], p);
    }
  }

  /** The worker host: `scratch` is the directory, `log` what the job did.
      `origin` is the directory before anything was logged, so that the
      directory is always the log replayed on it. */
  class Host {
    var scratch: set<string>
    ghost var log: seq<Effect>
    ghost var origin: set<string>

    ghost predicate Valid()
      reads this
    {
      scratch == Replay(origin, log)
    }

    constructor (initial: set<string>)
      ensures Valid() && scratch == initial && log == [] && origin == initial
    {
      scratch, log, origin := initial, [], initial;
    }

    /** `os.path.exists(path)`. */
    predicate Exists(path: string)
      reads this
    {
      path in scratch
    }

    /** Performs `e` on the directory and records it. */
    method Perform(e: Effect)
      requires Valid()
      requires e.Removed? ==> e.path in scratch
      modifies this
      ensures Valid() && origin == old(origin)
      ensures log == old(log) + [e]
      ensures scratch == Step(old(scratch), e)
    {
      ReplayAppend(origin, log, [e]);
      scratch := Step(scratch, e);
      log := log + [e];
    }

    /** `os.remove(path)`: raises unless the file is there, so callers must
        know it exists. */
    method Remove(path: string)
      requires Valid() && path in scratch
      modifies this
      ensures Valid() && origin == old(origin)
      ensures log == old(log) + [Removed(path)]
      ensures scratch == old(scratch) - {path}
    {
      Perform(Removed(path));
    }

    /** `if os.path.exists(path): os.remove(path)`. */
    method RemoveIfExists(path: string)
      requires Valid()
      modifies this
      ensures Valid() && origin == old(origin)
      ensures log == old(log) + (if path in old(scratch) then [Removed(path)] else [])
      ensures scratch == old(scratch) - {path}
    {
      if Exists(path) {
        Remove(path);
      }
    }
  }
}
