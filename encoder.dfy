/**
 * The encode-verify-publish-delete batch job of encode_timelapse.py.
 *
 * The filesystem is a `Host`: the set of files present, the set of
 * directories, the files the operating system refuses to unlink, and a log of
 * the external actions taken (tool runs and the publishing move). Whatever the
 * external tools do is an input: how ffmpeg's encode ends, what ffprobe
 * prints, how the full decode ends, whether the move raises.
 */
module Encoder {

  import opened Wrappers
  import opened Strings

  /** A file: the directory as the script names it, and the entry's name in it. */
  datatype Path = Path(dir: string, name: string)

  const FramePrefix: string := "frame_"
  const FrameSuffix: string := ".jpg"
  const VideoPrefix: string := "timelapse_"
  const VideoSuffix: string := ".mp4"

  // ---------------------------------------------------------------------------
  // get_sorted_frames
  // ---------------------------------------------------------------------------

  /** `fnmatch` of an entry name against `frame_*.jpg`; the `*` matches any run of characters, the empty one too. */
  predicate IsFrameName(name: string)
  {
    |name| >= |FramePrefix| + |FrameSuffix| && FramePrefix <= name && EndsWith(name, FrameSuffix)
  }

  function FrameNames(files: set<Path>, dir: string): set<string>
  {
    set p | p in files && p.dir == dir && IsFrameName(p.name) :: p.name
  }

  /**
   * `sorted(dir.glob("frame_*.jpg"))`. All results share the directory, so
   * pathlib's order on them is the order of their names as strings.
   */
  function GetSortedFrames(files: set<Path>, dir: string): (frames: seq<Path>)
    ensures forall p :: p in frames <==> p in files && p.dir == dir && IsFrameName(p.name)
    ensures forall i, j :: 0 <= i < j < |frames| ==> Below(frames[i].name, frames[j].name)
  {
    var names := SortedSet(FrameNames(files, dir));
    var frames := seq(|names|, i requires 0 <= i < |names| => Path(dir, names[i]));
    assert forall i :: 0 <= i < |frames| ==> frames[i].name == names[i] && names[i] in FrameNames(files, dir);
    assert forall p :: p in files && p.dir == dir && IsFrameName(p.name) ==> p.name in FrameNames(files, dir);
    frames
  }

  /** A frame that sorts before every other frame of its directory comes first. */
  lemma FirstFrame(files: set<Path>, dir: string, m: Path)
    requires m in files && m.dir == dir && IsFrameName(m.name)
    requires forall q :: q in files && q.dir == dir && IsFrameName(q.name) && q != m ==> Below(m.name, q.name)
    ensures var frames := GetSortedFrames(files, dir); |frames| > 0 && frames[0] == m
  {
    var frames := GetSortedFrames(files, dir);
    assert m in frames;
    var j :| 0 <= j < |frames| && frames[j] == m;
    if j != 0 {
      BelowAsymmetric(m.name, frames[0].name);
    }
  }

  /** No frame is listed twice. */
  lemma SortedFramesDistinct(files: set<Path>, dir: string)
    ensures var frames := GetSortedFrames(files, dir);
      forall i, j :: 0 <= i < j < |frames| ==> frames[i] != frames[j]
  {
    var frames := GetSortedFrames(files, dir);
    forall i, j | 0 <= i < j < |frames| ensures frames[i] != frames[j] {
      if frames[i] == frames[j] {
        BelowIrreflexive(frames[i].name);
      }
    }
  }

  // ---------------------------------------------------------------------------
  // The output name: "timelapse_" + the first frame's stem + ".mp4"
  // ---------------------------------------------------------------------------

  /** Index of the last '.' in `name`, if there is one. */
  function LastDot(name: string): (r: Option<nat>)
    ensures r.Some? ==> r.value < |name| && name[r.value] == '.'
    ensures r.Some? ==> forall j :: r.value < j < |name| ==> name[j] != '.'
    ensures r.None? ==> forall j :: 0 <= j < |name| ==> name[j] != '.'
  {
    if name == [] then None
    else if name[|name| - 1] == '.' then Some(|name| - 1)
    else LastDot(name[..|name| - 1])
  }

  /** `PurePath.stem`: the name without its suffix, which starts at the last '.' unless that dot is the first or the last character. */
  function Stem(name: string): string
  {
    match LastDot(name)
    case Some(i) => if 0 < i < |name| - 1 then name[..i] else name
    case None => name
  }

  /** The stem of a frame is its name without ".jpg". */
  lemma FrameStem(name: string)
    requires IsFrameName(name)
    ensures Stem(name) == name[..|name| - 4]
    ensures Stem(name) + FrameSuffix == name
  {
    var n := |name|;
    assert name[n - 4..] == ".jpg";
    assert name[n - 4] == '.' && name[n - 3] == 'j' && name[n - 2] == 'p' && name[n - 1] == 'g';
    var r := LastDot(name);
    assert r == Some(n - 4);
    assert name == name[..n - 4] + name[n - 4..];
  }

  function OutputName(firstFrame: string): string
  {
    VideoPrefix + Stem(firstFrame) + VideoSuffix
  }

  /** Two frame names give the same video name only when they are the same name. */
  lemma OutputNameInjective(a: string, b: string)
    requires IsFrameName(a) && IsFrameName(b)
    ensures OutputName(a) == OutputName(b) <==> a == b
  {
    FrameStem(a);
    FrameStem(b);
    if OutputName(a) == OutputName(b) {
      var x := OutputName(a);
      assert Stem(a) == x[|VideoPrefix|..|x| - |VideoSuffix|];
      assert Stem(b) == x[|VideoPrefix|..|x| - |VideoSuffix|];
    }
  }

  /** The video is never taken for a frame: the suffixes differ. */
  lemma OutputNameNotFrame(first: string)
    ensures !IsFrameName(OutputName(first))
  {
    var x := OutputName(first);
    assert x[|x| - 4..] == VideoSuffix;
  }

  /** Names `tempfile` makes by default: "tmp", random characters, then the suffix asked for. */
  predicate IsTempName(name: string, suffix: string)
  {
    |name| >= 3 + |suffix| && "tmp" <= name && EndsWith(name, suffix)
  }

  // ---------------------------------------------------------------------------
  // External tools: how each `subprocess.run` ends.
  // ---------------------------------------------------------------------------

  /** An ffmpeg run: its exit status and stderr, a timeout, or no process at all (FileNotFoundError). */
  datatype ToolRun = Exited(code: int, stderr: string) | TimedOut | CannotStart

  /** An ffprobe run; `doc` is what `json.loads` makes of its stdout. */
  datatype ProbeRun = ProbeExited(code: int, doc: ProbeDoc) | ProbeTimedOut | ProbeCannotStart

  datatype ProbeDoc =
    | NotJson                           // json.JSONDecodeError
    | NoStreams                         // data["streams"] raises KeyError
    | Streams(entries: seq<StreamEntry>)

  datatype StreamEntry = NoPacketCount | PacketCount(text: string)

  datatype VerifyFailure =
    | ProbeError            // ffprobe exited non-zero: CalledProcessError
    | ProbeTimeout
    | BadJson
    | MissingKey
    | NotANumber            // int() raised ValueError
    | CountMismatch(actual: int)
    | DecodeErrors
    | DecodeTimeout

  /** How `verify_video` ends: True, False with a reason, or an exception it does not catch. */
  datatype Verdict = Verified | Rejected(why: VerifyFailure) | Escaped

  // ---------------------------------------------------------------------------
  // verify_video
  // ---------------------------------------------------------------------------

  /** The packet-count check, up to the comparison; `Verified` here means the decode pass runs next. */
  function ProbeStage(probe: ProbeRun, expected: int): Verdict
  {
    match probe
    case ProbeTimedOut => Rejected(ProbeTimeout)
    case ProbeCannotStart => Escaped
    case ProbeExited(code, doc) =>
      if code != 0 then Rejected(ProbeError)
      else
        match doc
        case NotJson => Rejected(BadJson)
        case NoStreams => Rejected(MissingKey)
        case Streams(entries) =>
          if entries == [] then Escaped   // IndexError is not among the caught exceptions
          else
            match entries[0]
            case NoPacketCount => Rejected(MissingKey)
            case PacketCount(text) =>
              match ParseInt(text)
              case None => Rejected(NotANumber)
              case Some(n) => if n != expected then Rejected(CountMismatch(n)) else Verified
  }

  /** The full decode pass: it passes only with exit status 0 and nothing on stderr. */
  function DecodeStage(decode: ToolRun): Verdict
  {
    match decode
    case TimedOut => Rejected(DecodeTimeout)
    case CannotStart => Escaped
    case Exited(code, stderr) => if code != 0 || stderr != "" then Rejected(DecodeErrors) else Verified
  }

  /** The count ffprobe reports, when its answer can be read at all. */
  predicate ReportsCount(probe: ProbeRun, n: int)
  {
    && probe.ProbeExited? && probe.code == 0
    && probe.doc.Streams? && |probe.doc.entries| > 0
    && probe.doc.entries[0].PacketCount?
    && ParseInt(probe.doc.entries[0].text) == Some(n)
  }

  /** The decode pass is reached exactly when ffprobe reports the expected count. */
  lemma ProbeStageVerified(probe: ProbeRun, expected: int)
    ensures ProbeStage(probe, expected) == Verified <==> ReportsCount(probe, expected)
  {
  }

  /** `verify_video`: fail-closed, it passes only when ffprobe reports exactly the expected count and the decode is clean. */
  function VerifyVideo(probe: ProbeRun, decode: ToolRun, expected: int): (v: Verdict)
    ensures v == Verified <==> ReportsCount(probe, expected) && decode == Exited(0, "")
    ensures v == Escaped <==>
      probe.ProbeCannotStart? || (probe == ProbeExited(0, Streams([]))) ||
      (ReportsCount(probe, expected) && decode.CannotStart?)
    ensures (exists n :: ReportsCount(probe, n) && n != expected) ==> v.Rejected? && v.why.CountMismatch?
    ensures v.Rejected? && v.why.CountMismatch? ==> v.why.actual != expected && ReportsCount(probe, v.why.actual)
  {
    var p := ProbeStage(probe, expected);
    if p == Verified then DecodeStage(decode) else p
  }

  /**
   * ffprobe printing the count in decimal (any width that holds it) and a
   * clean decode make the video pass; the same answer for another count is a
   * mismatch that carries the count read.
   */
  lemma DecimalCountPasses(n: nat, width: nat, rest: seq<StreamEntry>, expected: int)
    requires width > 0 && n < Pow10(width)
    ensures var probe := ProbeExited(0, Streams([PacketCount(Padded(n, width))] + rest));
      VerifyVideo(probe, Exited(0, ""), expected) == if n == expected then Verified else Rejected(CountMismatch(n))
  {
    ParsePadded(n, width);
  }

  // ---------------------------------------------------------------------------
  // The filesystem and the log of external actions.
  // ---------------------------------------------------------------------------

  datatype Action =
    | Encoded(list: string, output: Path, framerate: int)   // ffmpeg was launched on this concat list, whether or not it started
    | Probed(video: Path)                                   // ffprobe was launched, whether or not it started
    | Decoded(video: Path)                                  // the full decode was launched, whether or not it started
    | Moved(src: Path, dst: Path)

  class Host {
    var files: set<Path>
    var dirs: set<string>
    /** Files whose unlink raises (permissions, immutable files). */
    const denied: set<Path>
    var log: seq<Action>

    constructor (files: set<Path>, dirs: set<string>, denied: set<Path>)
      ensures this.files == files && this.dirs == dirs && this.denied == denied && log == []
    {
      this.files := files;
      this.dirs := dirs;
      this.denied := denied;
      log := [];
    }

    /** `Path.unlink(missing_ok)`; the result says whether it raised. */
    method Unlink(p: Path, missingOk: bool) returns (raised: bool)
      modifies this
      ensures raised == (if p in old(files) then p in denied else !missingOk)
      ensures files == if p in old(files) && p !in denied then old(files) - {p} else old(files)
      ensures dirs == old(dirs) && log == old(log)
    {
      if p in files {
        raised := p in denied;
        if !raised {
          files := files - {p};
        }
      } else {
        raised := !missingOk;
      }
    }

    /** A new empty file under a name nobody holds (tempfile opens with O_EXCL). */
    method Create(p: Path)
      requires p !in files
      modifies this
      ensures files == old(files) + {p} && dirs == old(dirs) && log == old(log)
    {
      files := files + {p};
    }

    /** `mkdir(exist_ok=True)`; `creatable` says whether the system lets a missing directory be made. */
    method MakeDir(d: string, creatable: bool) returns (raised: bool)
      modifies this
      ensures raised == (d !in old(dirs) && !creatable)
      ensures dirs == if d !in old(dirs) && creatable then old(dirs) + {d} else old(dirs)
      ensures files == old(files) && log == old(log)
    {
      raised := d !in dirs && !creatable;
      if d !in dirs && creatable {
        dirs := dirs + {d};
      }
    }

    /** `shutil.move`, taken as one step that either happens or raises. */
    method Move(src: Path, dst: Path, fails: bool) returns (raised: bool)
      modifies this
      ensures raised == (fails || src !in old(files))
      ensures files == if raised then old(files) else old(files) - {src} + {dst}
      ensures log == if raised then old(log) else old(log) + [Moved(src, dst)]
      ensures dirs == old(dirs)
    {
      raised := fails || src !in files;
      if !raised {
        files := files - {src} + {dst};
        log := log + [Moved(src, dst)];
      }
    }

    method Record(a: Action)
      modifies this
      ensures log == old(log) + [a] && files == old(files) && dirs == old(dirs)
    {
      log := log + [a];
    }
  }

  // ---------------------------------------------------------------------------
  // encode_frames
  // ---------------------------------------------------------------------------

  /** `frame.absolute()`: a relative path is taken from the working directory. */
  function Absolute(cwd: string, p: Path): string
  {
    var rel := p.dir + "/" + p.name;
    if "/" <= p.dir then rel else cwd + "/" + rel
  }

  /** One line of the concat list, without its newline. */
  function ListLine(cwd: string, frame: Path): string
  {
    "file '" + Absolute(cwd, frame) + "'"
  }

  function ListLines(cwd: string, frames: seq<Path>): seq<string>
  {
    seq(|frames|, i requires 0 <= i < |frames| => ListLine(cwd, frames[i]))
  }

  /** The text of the concat list for `frames`. */
  function ConcatList(cwd: string, frames: seq<Path>): string
  {
    Join(ListLines(cwd, frames))
  }

  /** The path the concat demuxer reads from a line `file '<path>'` without escapes. */
  function Unquote(line: string): Option<string>
  {
    if |line| >= 7 && "file '" <= line && line[|line| - 1] == '\'' then Some(line[6..|line| - 1]) else None
  }

  function ListEntries(text: string): seq<Option<string>>
  {
    var lines := Lines(text);
    seq(|lines|, i requires 0 <= i < |lines| => Unquote(lines[i]))
  }

  /** Reading the concat list back gives every frame's absolute path, once each, in batch order. */
  lemma ConcatListRoundTrip(cwd: string, frames: seq<Path>)
    requires forall i :: 0 <= i < |frames| ==> '\n' !in Absolute(cwd, frames[i]) && '\'' !in Absolute(cwd, frames[i])
    ensures |ListEntries(ConcatList(cwd, frames))| == |frames|
    ensures forall i :: 0 <= i < |frames| ==> ListEntries(ConcatList(cwd, frames))[i] == Some(Absolute(cwd, frames[i]))
  {
    var lines := ListLines(cwd, frames);
    forall i | 0 <= i < |lines| ensures '\n' !in lines[i] {
      var a := Absolute(cwd, frames[i]);
      assert lines[i] == "file '" + a + "'";
    }
    LinesOfJoin(lines);
    forall i | 0 <= i < |frames| ensures Unquote(lines[i]) == Some(Absolute(cwd, frames[i])) {
      var a := Absolute(cwd, frames[i]);
      assert lines[i] == "file '" + a + "'";
      assert lines[i][6..|lines[i]| - 1] == a;
    }
  }

  /** The loop that writes the concat list, one line per frame. */
  method BuildList(cwd: string, frames: seq<Path>) returns (text: string)
    ensures text == ConcatList(cwd, frames)
  {
    text := "";
    for i := 0 to |frames|
      invariant text == Join(ListLines(cwd, frames[..i]))
    {
      assert ListLines(cwd, frames[..i + 1]) == ListLines(cwd, frames[..i]) + [ListLine(cwd, frames[i])];
      JoinSnoc(ListLines(cwd, frames[..i]), ListLine(cwd, frames[i]));
      text := text + ListLine(cwd, frames[i]) + "\n";
    }
    assert frames[..|frames|] == frames;
  }

  /** How the concat list file fares: it cannot be created, a write to it raises, or it is written. */
  datatype ListFile = Unwritable | WriteFails | Writable

  /** ffmpeg's own verdict on the encode: only a zero exit status counts as success. */
  predicate EncodeOk(run: ToolRun)
  {
    run.Exited? && run.code == 0
  }

  /**
   * `encode_frames` as written: the list file is created and written inside a
   * `with` block that comes before the `try`, so an exception while writing it
   * leaves the file behind.
   */
  method EncodeFrames(host: Host, frames: seq<Path>, output: Path, framerate: int,
                      cwd: string, list: Path, listFile: ListFile, run: ToolRun)
    returns (r: Outcome<bool>)
    requires list !in host.files && list !in host.denied
    modifies host
    ensures r == if listFile == Writable && !run.CannotStart? then Returned(EncodeOk(run)) else Raised
    ensures host.log == old(host.log) + if listFile == Writable then [Encoded(ConcatList(cwd, frames), output, framerate)] else []
    ensures host.files == if listFile == WriteFails then old(host.files) + {list} else old(host.files)
    ensures host.dirs == old(host.dirs)
  {
    if listFile == Unwritable {
      return Raised;
    }
    host.Create(list);
    var text := BuildList(cwd, frames);
    if listFile == WriteFails {
      return Raised;
    }
    host.Record(Encoded(text, output, framerate));
    r := if run.CannotStart? then Raised else Returned(EncodeOk(run));
    var raised := host.Unlink(list, true);
    assert !raised;
  }

  /** `encode_frames` with the list written inside the `try`, so the `finally` removes it on every path. */
  method EncodeFramesCleaned(host: Host, frames: seq<Path>, output: Path, framerate: int,
                             cwd: string, list: Path, listFile: ListFile, run: ToolRun)
    returns (r: Outcome<bool>)
    requires list !in host.files && list !in host.denied
    modifies host
    ensures r == if listFile == Writable && !run.CannotStart? then Returned(EncodeOk(run)) else Raised
    ensures host.log == old(host.log) + if listFile == Writable then [Encoded(ConcatList(cwd, frames), output, framerate)] else []
    ensures host.files == old(host.files)
    ensures host.dirs == old(host.dirs)
  {
    if listFile == Unwritable {
      return Raised;
    }
    host.Create(list);
    var text := BuildList(cwd, frames);
    if listFile == WriteFails {
      r := Raised;
    } else {
      host.Record(Encoded(text, output, framerate));
      r := if run.CannotStart? then Raised else Returned(EncodeOk(run));
    }
    var raised := host.Unlink(list, true);
    assert !raised;
  }

  /** A run of the as-written `encode_frames` whose list write raises: the list file is still there afterwards. */
  method ListLeftBehind()
  {
    var list := Path("/tmp", "tmpabc.txt");
    var host := new Host({}, {"/tmp"}, {});
    var r := EncodeFrames(host, [Path("timelapse", "frame_1.jpg")], Path("out", "tmpdef.mp4"), 30,
                          "/home", list, WriteFails, Exited(0, ""));
    assert r == Raised;
    assert list in host.files;
  }

  /** The `encode_frames` that `main` calls: as written, or corrected. */
  method EncodeWith(host: Host, frames: seq<Path>, output: Path, framerate: int, env: Env, fixedList: bool)
    returns (r: Outcome<bool>)
    requires env.list !in host.files && env.list !in host.denied
    modifies host
    ensures r == if env.listFile == Writable && !env.encode.CannotStart? then Returned(EncodeOk(env.encode)) else Raised
    ensures host.log == old(host.log) +
      if env.listFile == Writable then [Encoded(ConcatList(env.cwd, frames), output, framerate)] else []
    ensures host.files == old(host.files) + ListLeft(env, fixedList)
    ensures host.dirs == old(host.dirs)
  {
    if fixedList {
      r := EncodeFramesCleaned(host, frames, output, framerate, env.cwd, env.list, env.listFile, env.encode);
    } else {
      r := EncodeFrames(host, frames, output, framerate, env.cwd, env.list, env.listFile, env.encode);
    }
  }

  // ---------------------------------------------------------------------------
  // verify_video, as `main` runs it
  // ---------------------------------------------------------------------------

  /** `verify_video` with its tool runs logged: the decode pass runs only after the count matched. */
  method CheckVideo(host: Host, video: Path, expected: int, probe: ProbeRun, decode: ToolRun)
    returns (r: Outcome<bool>)
    modifies host
    ensures host.log == old(host.log) + [Probed(video)] + if ReportsCount(probe, expected) then [Decoded(video)] else []
    ensures host.files == old(host.files) && host.dirs == old(host.dirs)
    ensures r == match VerifyVideo(probe, decode, expected)
                 case Verified => Returned(true)
                 case Rejected(_) => Returned(false)
                 case Escaped => Raised
  {
    host.Record(Probed(video));
    ProbeStageVerified(probe, expected);
    var v := ProbeStage(probe, expected);
    if v == Verified {
      host.Record(Decoded(video));
      v := DecodeStage(decode);
    }
    r := match v
         case Verified => Returned(true)
         case Rejected(_) => Returned(false)
         case Escaped => Raised;
  }

  // ---------------------------------------------------------------------------
  // safe_delete_frames
  // ---------------------------------------------------------------------------

  /** The frames whose unlink raises, trying them in order against the files still present. */
  function FailedUnlinks(frames: seq<Path>, present: set<Path>, denied: set<Path>): seq<Path>
  {
    if frames == [] then []
    else if frames[0] in present && frames[0] !in denied then FailedUnlinks(frames[1..], present - {frames[0]}, denied)
    else [frames[0]] + FailedUnlinks(frames[1..], present, denied)
  }

  /** For distinct frames, the failures are exactly the frames that are missing or refused. */
  lemma {:induction false} FailedUnlinksExact(frames: seq<Path>, present: set<Path>, denied: set<Path>)
    requires forall i, j :: 0 <= i < j < |frames| ==> frames[i] != frames[j]
    ensures forall p :: p in FailedUnlinks(frames, present, denied) <==> p in frames && (p !in present || p in denied)
  {
    if frames != [] {
      var p0 := frames[0];
      var rest := frames[1..];
      assert forall p :: p in frames <==> p == p0 || p in rest;
      assert p0 !in rest;
      if p0 in present && p0 !in denied {
        FailedUnlinksExact(rest, present - {p0}, denied);
      } else {
        FailedUnlinksExact(rest, present, denied);
      }
    }
  }

  /** `safe_delete_frames`: tries every frame, whatever happened to the ones before. */
  method SafeDeleteFrames(host: Host, frames: seq<Path>) returns (failed: seq<Path>)
    modifies host
    ensures failed == FailedUnlinks(frames, old(host.files), host.denied)
    ensures host.files == old(host.files) - set p | p in frames && p !in host.denied
    ensures host.dirs == old(host.dirs) && host.log == old(host.log)
  {
    failed := [];
    var i := 0;
    while i < |frames|
      invariant 0 <= i <= |frames|
      invariant failed + FailedUnlinks(frames[i..], host.files, host.denied) == FailedUnlinks(frames, old(host.files), host.denied)
      invariant host.files == old(host.files) - set p | p in frames[..i] && p !in host.denied
      invariant host.dirs == old(host.dirs) && host.log == old(host.log)
    {
      var p := frames[i];
      assert frames[i..][0] == p && frames[i..][1..] == frames[i + 1..];
      assert frames[..i + 1] == frames[..i] + [p];
      var raised := host.Unlink(p, false);
      if raised {
        failed := failed + [p];
      }
      i := i + 1;
    }
    assert frames[..|frames|] == frames;
  }

  // ---------------------------------------------------------------------------
  // main
  // ---------------------------------------------------------------------------

  /** The command line. */
  datatype Args = Args(timelapseDir: string, outputDir: string, frames: int, framerate: int, keepFrames: bool)

  /** Everything `main` learns from the outside world during one run. */
  datatype Env = Env(
    cwd: string,
    canMakeOutputDir: bool,
    tmp: Path,           // the name tempfile picks for the video
    list: Path,          // the name tempfile picks for the concat list
    listFile: ListFile,
    encode: ToolRun,
    probe: ProbeRun,
    decode: ToolRun,
    moveFails: bool)

  /**
   * The names tempfile picks are fresh, and the model takes the process to be
   * able to unlink the two files it has just created there.
   */
  predicate FreshNames(host: Host, args: Args, env: Env)
    reads host
  {
    && env.tmp.dir == args.outputDir && IsTempName(env.tmp.name, VideoSuffix)
    && IsTempName(env.list.name, ".txt")
    && env.tmp !in host.files && env.list !in host.files
    && env.tmp !in host.denied && env.list !in host.denied
  }

  /** The run gets past every step before the `try`, up to creating the temporary video. */
  predicate ReachesEncode(args: Args, env: Env, dirs: set<string>, batch: seq<Path>)
  {
    && args.timelapseDir in dirs
    && |batch| >= args.frames
    && |batch| > 0
    && (args.outputDir in dirs || env.canMakeOutputDir)
  }

  function OutputFile(args: Args, batch: seq<Path>): Path
    requires |batch| > 0
  {
    Path(args.outputDir, OutputName(batch[0].name))
  }

  /** Inside the `try`: encode, verify and move all succeed. */
  predicate TrySucceeds(env: Env, batch: seq<Path>)
  {
    && env.listFile == Writable
    && EncodeOk(env.encode)
    && VerifyVideo(env.probe, env.decode, |batch|) == Verified
    && !env.moveFails
  }

  /** The video is published. */
  predicate Publishes(args: Args, env: Env, dirs: set<string>, batch: seq<Path>)
  {
    ReachesEncode(args, env, dirs, batch) && TrySucceeds(env, batch)
  }

  /** The external actions inside the `try`, in order. */
  function TryLog(args: Args, env: Env, batch: seq<Path>): seq<Action>
    requires |batch| > 0
  {
    if env.listFile != Writable then []
    else
      [Encoded(ConcatList(env.cwd, batch), env.tmp, args.framerate)] +
      if !EncodeOk(env.encode) then []
      else
        [Probed(env.tmp)] +
        (if ReportsCount(env.probe, |batch|) then [Decoded(env.tmp)] else []) +
        (if TrySucceeds(env, batch) then [Moved(env.tmp, OutputFile(args, batch))] else [])
  }

  /**
   * The concat list a run leaves behind: with `encode_frames` as written, a
   * failed write to the list leaves it on disk; the corrected one never does.
   */
  function ListLeft(env: Env, fixedList: bool): set<Path>
  {
    if !fixedList && env.listFile == WriteFails then {env.list} else {}
  }

  /** The external actions of one run, in order. */
  function RunLog(args: Args, env: Env, dirs: set<string>, batch: seq<Path>): seq<Action>
  {
    if ReachesEncode(args, env, dirs, batch) then TryLog(args, env, batch) else []
  }

  function ExitCode(args: Args, env: Env, dirs: set<string>, batch: seq<Path>): int
  {
    if args.timelapseDir in dirs && |batch| < args.frames then 0
    else if Publishes(args, env, dirs, batch) then 0
    else 1
  }

  /** The differences between a frame, the video, and the two temporary files. */
  lemma NamesApart(args: Args, env: Env, batch: seq<Path>)
    requires IsTempName(env.tmp.name, VideoSuffix) && IsTempName(env.list.name, ".txt")
    requires |batch| > 0
    requires forall p :: p in batch ==> IsFrameName(p.name)
    ensures env.tmp != env.list
    ensures env.tmp != OutputFile(args, batch) && env.list != OutputFile(args, batch)
    ensures OutputFile(args, batch) !in batch
  {
    var t := env.tmp.name;
    var l := env.list.name;
    assert t[|t| - 4..] == VideoSuffix && l[|l| - 4..] == ".txt";
    assert t[|t| - 3] != l[|l| - 3];
    var o := OutputName(batch[0].name);
    assert t[1] == 'm' && o[1] == 'i';
    assert o[|o| - 4..] == VideoSuffix;
    assert o[|o| - 3] != l[|l| - 3];
    OutputNameNotFrame(batch[0].name);
  }

  /**
   * After a publishing run whose first frame could not be deleted, the next
   * run (with only later frames added) starts from that same frame, so it
   * publishes under the same name and its move replaces the earlier video.
   */
  lemma RepeatedOutputName(args: Args, files: set<Path>, denied: set<Path>, later: set<Path>)
    requires var batch := GetSortedFrames(files, args.timelapseDir); |batch| > 0 && batch[0] in denied
    requires var batch := GetSortedFrames(files, args.timelapseDir);
      forall p :: p in later && p.dir == args.timelapseDir && IsFrameName(p.name) ==> Below(batch[0].name, p.name)
    ensures var batch := GetSortedFrames(files, args.timelapseDir);
      var after := (files + {OutputFile(args, batch)}) - (set f | f in batch && f !in denied) + later;
      var next := GetSortedFrames(after, args.timelapseDir);
      |next| > 0 && OutputFile(args, next) == OutputFile(args, batch) && OutputFile(args, batch) in after
  {
    var dir := args.timelapseDir;
    var batch := GetSortedFrames(files, dir);
    var out := OutputFile(args, batch);
    var gone := set f | f in batch && f !in denied;
    var after := (files + {out}) - gone + later;
    var first := batch[0];
    assert first !in gone;
    OutputNameNotFrame(first.name);
    forall q | q in after && q.dir == dir && IsFrameName(q.name) && q != first
      ensures Below(first.name, q.name)
    {
      if q !in later {
        assert q in files;
        assert q in batch;
        var k :| 0 <= k < |batch| && batch[k] == q;
      }
    }
    FirstFrame(after, dir, first);
    assert out in after by {
      assert out !in batch;
    }
  }

  /**
   * `main`. It encodes every frame present once there are at least
   * `args.frames`, verifies the video against that count, publishes it under
   * the first frame's name and only then deletes the frames, unless
   * `--keep-frames` is given. Exceptions that escape `main` (on the steps
   * before its `try`) end the interpreter with status 1.
   *
   * `fixedList` chooses the `encode_frames` it calls: `false` is the code as
   * written (`EncodeFrames`), `true` the corrected `EncodeFramesCleaned`.
   */
  method RunEncoder(host: Host, args: Args, env: Env, fixedList: bool) returns (code: int)
    requires FreshNames(host, args, env)
    modifies host
    ensures var batch := GetSortedFrames(old(host.files), args.timelapseDir);
      code == ExitCode(args, env, old(host.dirs), batch)
    ensures var batch := GetSortedFrames(old(host.files), args.timelapseDir);
      host.files ==
        if Publishes(args, env, old(host.dirs), batch) then
          (old(host.files) + {OutputFile(args, batch)}) - (if args.keepFrames then {} else set f | f in batch && f !in host.denied)
        else old(host.files) + (if ReachesEncode(args, env, old(host.dirs), batch) then ListLeft(env, fixedList) else {})
    ensures var batch := GetSortedFrames(old(host.files), args.timelapseDir);
      host.log == old(host.log) + RunLog(args, env, old(host.dirs), batch)
    ensures var batch := GetSortedFrames(old(host.files), args.timelapseDir);
      host.dirs ==
        if ReachesEncode(args, env, old(host.dirs), batch) then old(host.dirs) + {args.outputDir} else old(host.dirs)
    // The safety rule: a frame disappears only after a verified video was moved into place, and never with --keep-frames.
    ensures var batch := GetSortedFrames(old(host.files), args.timelapseDir);
      forall f :: f in old(host.files) && f !in host.files ==>
        f in batch && !args.keepFrames && Publishes(args, env, old(host.dirs), batch)
        && Moved(env.tmp, OutputFile(args, batch)) in host.log
    // The temporary video never outlives the run; the concat list does exactly when its write failed in the code as written.
    ensures env.tmp !in host.files
    ensures var batch := GetSortedFrames(old(host.files), args.timelapseDir);
      env.list in host.files <==> !fixedList && ReachesEncode(args, env, old(host.dirs), batch) && env.listFile == WriteFails
  {
    var dirs0 := host.dirs;
    if args.timelapseDir !in host.dirs {
      return 1;
    }
    var batch := GetSortedFrames(host.files, args.timelapseDir);
    if |batch| < args.frames {
      return 0;
    }
    if |batch| == 0 {
      // frames_to_encode[0] raises IndexError before the `try`
      return 1;
    }
    var mkdirRaised := host.MakeDir(args.outputDir, env.canMakeOutputDir);
    if mkdirRaised {
      return 1;
    }
    assert ReachesEncode(args, env, dirs0, batch);
    NamesApart(args, env, batch);
    code := PublishBatch(host, args, env, batch, fixedList);
    if TrySucceeds(env, batch) {
      assert Moved(env.tmp, OutputFile(args, batch)) in TryLog(args, env, batch);
    }
  }

  /** From creating the temporary video to its `finally`, which removes it whichever way the `try` ended. */
  method PublishBatch(host: Host, args: Args, env: Env, batch: seq<Path>, fixedList: bool) returns (code: int)
    requires |batch| > 0 && forall p :: p in batch ==> IsFrameName(p.name)
    requires IsTempName(env.tmp.name, VideoSuffix) && IsTempName(env.list.name, ".txt")
    requires env.tmp !in host.files && env.list !in host.files
    requires env.tmp !in host.denied && env.list !in host.denied
    modifies host
    ensures code == if TrySucceeds(env, batch) then 0 else 1
    ensures host.files ==
      if TrySucceeds(env, batch) then
        (old(host.files) + {OutputFile(args, batch)}) - (if args.keepFrames then {} else set f | f in batch && f !in host.denied)
      else old(host.files) + ListLeft(env, fixedList)
    ensures host.log == old(host.log) + TryLog(args, env, batch)
    ensures host.dirs == old(host.dirs)
  {
    NamesApart(args, env, batch);
    host.Create(env.tmp);
    code := TryPublish(host, args, env, batch, fixedList);
    var raised := host.Unlink(env.tmp, true);
    assert !raised;
  }

  /** The `try` block of `main`, from the encode to the deletion of the frames. */
  method TryPublish(host: Host, args: Args, env: Env, batch: seq<Path>, fixedList: bool) returns (code: int)
    requires |batch| > 0
    requires env.tmp in host.files && env.list !in host.files && env.list !in host.denied
    requires env.tmp != env.list && env.tmp != OutputFile(args, batch) && OutputFile(args, batch) !in batch
    modifies host
    ensures code == if TrySucceeds(env, batch) then 0 else 1
    ensures host.files ==
      if TrySucceeds(env, batch) then
        (old(host.files) - {env.tmp} + {OutputFile(args, batch)}) - (if args.keepFrames then {} else set f | f in batch && f !in host.denied)
      else old(host.files) + ListLeft(env, fixedList)
    ensures host.log == old(host.log) + TryLog(args, env, batch)
    ensures host.dirs == old(host.dirs)
  {
    var encoded := EncodeWith(host, batch, env.tmp, args.framerate, env, fixedList);
    if encoded != Returned(true) {
      return 1;
    }
    var verified := CheckVideo(host, env.tmp, |batch|, env.probe, env.decode);
    if verified != Returned(true) {
      return 1;
    }
    var moveRaised := host.Move(env.tmp, OutputFile(args, batch), env.moveFails);
    if moveRaised {
      return 1;
    }
    if !args.keepFrames {
      var failed := SafeDeleteFrames(host, batch);
    }
    code := 0;
  }
}
