/**
 * The camera monitor of prusalink_timelapse.py: the frame file names it
 * writes, the camera lookup, the startup checks, and one pass of the polling
 * loop as a step on (last hash, offline flag, frame count).
 *
 * HTTP replies, the clock, the image hash and whether PIL manages to save an
 * image are inputs.
 */
module Capture {

  import opened Wrappers
  import opened Strings
  import Encoder

  // ---------------------------------------------------------------------------
  // save_image: the file name
  // ---------------------------------------------------------------------------

  /** A reading of `datetime.now()`, to the second. */
  datatype DateTime = DateTime(year: nat, month: nat, day: nat, hour: nat, minute: nat, second: nat)

  /** Readings the model covers: every field fits its `strftime` width. */
  predicate ValidTime(t: DateTime)
  {
    && 1000 <= t.year <= 9999 && 1 <= t.month <= 12 && 1 <= t.day <= 31
    && t.hour < 24 && t.minute < 60 && t.second < 60
  }

  /** The order of two clock readings, field by field from the year down. */
  predicate Earlier(a: DateTime, b: DateTime)
  {
    || a.year < b.year
    || (a.year == b.year && a.month < b.month)
    || (a.year == b.year && a.month == b.month && a.day < b.day)
    || (a.year == b.year && a.month == b.month && a.day == b.day && a.hour < b.hour)
    || (a.year == b.year && a.month == b.month && a.day == b.day && a.hour == b.hour && a.minute < b.minute)
    || (a.year == b.year && a.month == b.month && a.day == b.day && a.hour == b.hour && a.minute == b.minute
        && a.second < b.second)
  }

  /** `strftime("%Y%m%d_%H%M%S")`. */
  function Timestamp(t: DateTime): (s: string)
    requires ValidTime(t)
    ensures |s| == 15
  {
    Padded(t.year, 4) + (Padded(t.month, 2) + (Padded(t.day, 2) + ("_" +
      (Padded(t.hour, 2) + (Padded(t.minute, 2) + Padded(t.second, 2))))))
  }

  /** The name `save_image` gives a frame; the encoder's `frame_*.jpg` pattern picks it up. */
  function FrameName(t: DateTime): (name: string)
    requires ValidTime(t)
    ensures Encoder.IsFrameName(name)
  {
    var name := "frame_" + Timestamp(t) + ".jpg";
    assert name[|name| - 4..] == ".jpg";
    name
  }

  /** Two fields of equal width compare as their numbers do; the rest of the strings decide a tie. */
  lemma FieldThen(n: nat, m: nat, w: nat, x: string, y: string)
    requires n < Pow10(w) && m < Pow10(w)
    ensures Below(Padded(n, w) + x, Padded(m, w) + y) <==> n < m || (n == m && Below(x, y))
    ensures Padded(n, w) + x == Padded(m, w) + y <==> n == m && x == y
  {
    PaddedOrder(n, m, w);
    BelowAppend(Padded(n, w), x, Padded(m, w), y);
  }

  lemma {:induction false} TimestampOrder(a: DateTime, b: DateTime)
    requires ValidTime(a) && ValidTime(b)
    ensures Below(Timestamp(a), Timestamp(b)) <==> Earlier(a, b)
    ensures Timestamp(a) == Timestamp(b) <==> a == b
  {
    assert Pow10(2) == 100 && Pow10(4) == 10000;
    var sa := Padded(a.minute, 2) + Padded(a.second, 2);
    var sb := Padded(b.minute, 2) + Padded(b.second, 2);
    PaddedOrder(a.second, b.second, 2);
    FieldThen(a.minute, b.minute, 2, Padded(a.second, 2), Padded(b.second, 2));
    var ha := Padded(a.hour, 2) + sa;
    var hb := Padded(b.hour, 2) + sb;
    FieldThen(a.hour, b.hour, 2, sa, sb);
    BelowAppend("_", ha, "_", hb);
    BelowIrreflexive("_");
    var da := Padded(a.day, 2) + ("_" + ha);
    var db := Padded(b.day, 2) + ("_" + hb);
    FieldThen(a.day, b.day, 2, "_" + ha, "_" + hb);
    var ma := Padded(a.month, 2) + da;
    var mb := Padded(b.month, 2) + db;
    FieldThen(a.month, b.month, 2, da, db);
    FieldThen(a.year, b.year, 4, ma, mb);
  }

  /** Name order is the order of the clock readings, and two names coincide only for equal readings. */
  lemma FrameNameOrder(a: DateTime, b: DateTime)
    requires ValidTime(a) && ValidTime(b)
    ensures Below(FrameName(a), FrameName(b)) <==> Earlier(a, b)
    ensures FrameName(a) == FrameName(b) <==> a == b
  {
    TimestampOrder(a, b);
    BelowAppend("frame_", Timestamp(a), "frame_", Timestamp(b));
    BelowIrreflexive("frame_");
    BelowAppend("frame_" + Timestamp(a), ".jpg", "frame_" + Timestamp(b), ".jpg");
    BelowIrreflexive(".jpg");
  }

  // ---------------------------------------------------------------------------
  // get_camera_id
  // ---------------------------------------------------------------------------

  /** One entry of `camera_list`; `None` stands for a key the entry lacks. */
  datatype Camera = Camera(name: Option<string>, id: Option<string>)

  /** What `response.json()` makes of the body. */
  datatype CameraDoc = NotJson | NoCameraList | CameraList(cameras: seq<Camera>)

  /** The GET of /api/v1/cameras: a status and a body, or a requests exception. */
  datatype CameraReply = Reply(status: int, doc: CameraDoc) | RequestFailed

  /** A camera id, `None`, or a KeyError that escapes `get_camera_id`. */
  datatype Lookup = CameraId(id: string) | NoCamera | LookupRaised

  /** `raise_for_status` raises on 4xx and 5xx. */
  predicate HttpError(status: int)
  {
    400 <= status < 600
  }

  predicate NoneMatch(cameras: seq<Camera>, name: string)
  {
    forall j :: 0 <= j < |cameras| ==> cameras[j].name.Some? && cameras[j].name.value != name
  }

  /** The scan stops at entry `k`: all entries before it carry another name, and `k` carries the one sought or none. */
  predicate ScanStops(cameras: seq<Camera>, name: string, k: int)
  {
    && 0 <= k < |cameras|
    && NoneMatch(cameras[..k], name)
    && (cameras[k].name.None? || cameras[k].name.value == name)
  }

  /** What the scan of `camera_list` may answer. */
  predicate ScanResult(cameras: seq<Camera>, name: string, r: Lookup)
  {
    && (r == NoCamera <==> NoneMatch(cameras, name))
    && (r.CameraId? ==>
          exists k :: 0 <= k < |cameras| && ScanStops(cameras, name, k) && cameras[k].name == Some(name) && cameras[k].id == Some(r.id))
    && (r == LookupRaised ==>
          exists k :: 0 <= k < |cameras| && ScanStops(cameras, name, k) && (cameras[k].name.None? || cameras[k].id.None?))
  }

  lemma ScanStopsUnique(cameras: seq<Camera>, name: string, k1: int, k2: int)
    requires ScanStops(cameras, name, k1) && ScanStops(cameras, name, k2)
    ensures k1 == k2
  {
  }

  /** The scan has one answer only: the first entry with the name sought decides. */
  lemma ScanResultUnique(cameras: seq<Camera>, name: string, r1: Lookup, r2: Lookup)
    requires ScanResult(cameras, name, r1) && ScanResult(cameras, name, r2)
    ensures r1 == r2
  {
    if r1.CameraId? {
      var k1 :| ScanStops(cameras, name, k1) && cameras[k1].name == Some(name) && cameras[k1].id == Some(r1.id);
      if r2.CameraId? {
        var k2 :| ScanStops(cameras, name, k2) && cameras[k2].name == Some(name) && cameras[k2].id == Some(r2.id);
        ScanStopsUnique(cameras, name, k1, k2);
      } else if r2 == LookupRaised {
        var k2 :| ScanStops(cameras, name, k2) && (cameras[k2].name.None? || cameras[k2].id.None?);
        ScanStopsUnique(cameras, name, k1, k2);
      }
    } else if r1 == LookupRaised && r2.CameraId? {
      var k1 :| ScanStops(cameras, name, k1) && (cameras[k1].name.None? || cameras[k1].id.None?);
      var k2 :| ScanStops(cameras, name, k2) && cameras[k2].name == Some(name) && cameras[k2].id == Some(r2.id);
      ScanStopsUnique(cameras, name, k1, k2);
    }
  }

  /** The `for camera in camera_list` loop, returning at the first entry named `name`. */
  method FindCamera(cameras: seq<Camera>, name: string) returns (r: Lookup)
    ensures ScanResult(cameras, name, r)
  {
    var i := 0;
    while i < |cameras|
      invariant 0 <= i <= |cameras|
      invariant NoneMatch(cameras[..i], name)
    {
      var c := cameras[i];
      if c.name.None? || c.name.value == name {
        assert ScanStops(cameras, name, i);
        if c.name.None? || c.id.None? {
          return LookupRaised;
        }
        return CameraId(c.id.value);
      }
      assert cameras[..i + 1] == cameras[..i] + [c];
      i := i + 1;
    }
    assert cameras[..i] == cameras;
    r := NoCamera;
  }

  /** What `get_camera_id` answers for a reply. */
  predicate ReplyResult(reply: CameraReply, name: string, r: Lookup)
  {
    if reply.RequestFailed? || HttpError(reply.status) || reply.doc == NotJson then r == NoCamera
    else if reply.doc == NoCameraList then r == LookupRaised
    else ScanResult(reply.doc.cameras, name, r)
  }

  /**
   * `get_camera_id`. A refused login (401, 403), any other HTTP error, a
   * request exception or an undecodable body give `None`; a body without
   * `camera_list` raises KeyError.
   */
  method GetCameraId(reply: CameraReply, name: string) returns (r: Lookup)
    ensures ReplyResult(reply, name, r)
    ensures reply.Reply? && (reply.status == 401 || reply.status == 403) ==> r == NoCamera
  {
    if reply.RequestFailed? {
      return NoCamera;
    }
    if reply.status == 401 || reply.status == 403 {
      return NoCamera;
    }
    if HttpError(reply.status) {
      return NoCamera;
    }
    match reply.doc
    case NotJson => r := NoCamera;
    case NoCameraList => r := LookupRaised;
    case CameraList(cameras) => r := FindCamera(cameras, name);
  }

  // ---------------------------------------------------------------------------
  // setup and main
  // ---------------------------------------------------------------------------

  type Bytes = seq<bv8>

  /** Truthiness of what `get_snapshot` returns: `None` and empty bytes are falsy. */
  predicate HasContent(b: Option<Bytes>)
  {
    b.Some? && |b.value| > 0
  }

  /** How `setup` ends: a camera id, a failure it reports, or an exception that escapes it. */
  datatype SetupResult = Ready(cameraId: string) | SetupFailed | SetupRaised

  /**
   * The checks of `setup`, in order: the password is set, the frame directory
   * can be made, the camera lookup gives a non-empty id, the test snapshot has
   * content.
   */
  function Setup(password: Option<string>, canMakeDir: bool, lookup: Lookup, testSnapshot: Option<Bytes>): (r: SetupResult)
    ensures r.Ready? <==> IsSet(password) && canMakeDir && lookup.CameraId? && lookup.id != "" && HasContent(testSnapshot)
    ensures r.Ready? ==> r.cameraId == lookup.id
    ensures r == SetupRaised <==> IsSet(password) && canMakeDir && lookup == LookupRaised
  {
    if !IsSet(password) then SetupFailed
    else if !canMakeDir then SetupFailed
    else
      match lookup
      case LookupRaised => SetupRaised
      case NoCamera => SetupFailed
      case CameraId(id) =>
        if id == "" then SetupFailed
        else if !HasContent(testSnapshot) then SetupFailed
        else Ready(id)
  }

  /** `main`: anything but a ready camera ends the process with status 1 before the loop; `None` means the loop runs. */
  function MainExit(r: SetupResult): (code: Option<int>)
    ensures code == None <==> r.Ready?
    ensures code != None ==> code == Some(1)
  {
    if r.Ready? then None else Some(1)
  }

  // ---------------------------------------------------------------------------
  // run_monitoring_loop
  // ---------------------------------------------------------------------------

  /** Encoding is triggered every this many saved frames. */
  const EncodeEvery: nat := 240

  datatype Event =
    | Saved(name: string)     // save_image returned a path
    | EncodingTriggered       // trigger_encoding was called
    | WentOffline             // the "appears offline" warning
    | BackOnline

  datatype LoopState = LoopState(lastHash: Option<string>, printerWasOffline: bool, frameCount: nat)

  const Start := LoopState(None, false, 0)

  /** One pass of the `while True` body: the new state and what it emitted. */
  function Step(s: LoopState, hash: Bytes -> string, snapshot: Option<Bytes>, now: DateTime, saveOk: bool)
    : (r: (LoopState, seq<Event>))
    requires ValidTime(now)
    // a frame is saved exactly when there is content, its hash differs and the save succeeds
    ensures Saved(FrameName(now)) in r.1 <==>
      HasContent(snapshot) && s.lastHash != Some(hash(snapshot.value)) && saveOk
    // the durable state moves only with a save, and then by exactly one frame
    ensures Saved(FrameName(now)) in r.1 ==>
      r.0.lastHash == Some(hash(snapshot.value)) && r.0.frameCount == s.frameCount + 1
    ensures Saved(FrameName(now)) !in r.1 ==> r.0.lastHash == s.lastHash && r.0.frameCount == s.frameCount
    // encoding is triggered exactly when a save reaches a multiple of 240
    ensures EncodingTriggered in r.1 <==> Saved(FrameName(now)) in r.1 && r.0.frameCount % EncodeEvery == 0
    // the offline flag follows the snapshot; the warning comes only when the flag turns on
    ensures r.0.printerWasOffline <==> !HasContent(snapshot)
    ensures WentOffline in r.1 <==> !HasContent(snapshot) && !s.printerWasOffline
    ensures BackOnline in r.1 <==> HasContent(snapshot) && s.printerWasOffline
  {
    if !HasContent(snapshot) then
      (s.(printerWasOffline := true), if s.printerWasOffline then [] else [WentOffline])
    else
      var back: seq<Event> := if s.printerWasOffline then [BackOnline] else [];
      var h := hash(snapshot.value);
      if s.lastHash == Some(h) || !saveOk then
        (s.(printerWasOffline := false), back)
      else
        var n := s.frameCount + 1;
        (LoopState(Some(h), false, n), back + [Saved(FrameName(now))] + if n % EncodeEvery == 0 then [EncodingTriggered] else [])
  }

  /** The inputs of one pass. */
  datatype Poll = Poll(snapshot: Option<Bytes>, now: DateTime, saveOk: bool)

  predicate ValidPolls(polls: seq<Poll>)
  {
    forall i :: 0 <= i < |polls| ==> ValidTime(polls[i].now)
  }

  /** Passes of the loop one after another. */
  function Run(s: LoopState, hash: Bytes -> string, polls: seq<Poll>): (LoopState, seq<Event>)
    requires ValidPolls(polls)
    decreases |polls|
  {
    if polls == [] then (s, [])
    else
      var first := Step(s, hash, polls[0].snapshot, polls[0].now, polls[0].saveOk);
      var rest := Run(first.0, hash, polls[1..]);
      (rest.0, first.1 + rest.1)
  }

  function CountSaved(events: seq<Event>): nat
  {
    if events == [] then 0 else (if events[0].Saved? then 1 else 0) + CountSaved(events[1..])
  }

  function CountTriggers(events: seq<Event>): nat
  {
    if events == [] then 0 else (if events[0] == EncodingTriggered then 1 else 0) + CountTriggers(events[1..])
  }

  lemma {:induction false} CountsAppend(a: seq<Event>, b: seq<Event>)
    ensures CountSaved(a + b) == CountSaved(a) + CountSaved(b)
    ensures CountTriggers(a + b) == CountTriggers(a) + CountTriggers(b)
  {
    if a == [] {
      assert a + b == b;
    } else {
      assert (a + b)[1..] == a[1..] + b;
      CountsAppend(a[1..], b);
    }
  }

  lemma StepCounts(s: LoopState, hash: Bytes -> string, snapshot: Option<Bytes>, now: DateTime, saveOk: bool)
    requires ValidTime(now)
    ensures var r := Step(s, hash, snapshot, now, saveOk);
      r.0.frameCount == s.frameCount + CountSaved(r.1)
      && CountTriggers(r.1) == r.0.frameCount / EncodeEvery - s.frameCount / EncodeEvery
  {
    var r := Step(s, hash, snapshot, now, saveOk);
    var c := s.frameCount;
    if HasContent(snapshot) && s.lastHash != Some(hash(snapshot.value)) && saveOk {
      var back: seq<Event> := if s.printerWasOffline then [BackOnline] else [];
      var tail: seq<Event> := if (c + 1) % EncodeEvery == 0 then [EncodingTriggered] else [];
      assert r.1 == back + [Saved(FrameName(now))] + tail;
      CountsAppend(back, [Saved(FrameName(now))]);
      CountsAppend(back + [Saved(FrameName(now))], tail);
      assert (c + 1) / EncodeEvery - c / EncodeEvery == if (c + 1) % EncodeEvery == 0 then 1 else 0;
    } else {
      assert CountSaved(r.1) == 0 && CountTriggers(r.1) == 0;
    }
  }

  /** Over any run, the count grows by the frames saved, and one encoding is triggered per multiple of 240 passed. */
  lemma {:induction false} RunCounts(s: LoopState, hash: Bytes -> string, polls: seq<Poll>)
    requires ValidPolls(polls)
    decreases |polls|
    ensures var r := Run(s, hash, polls);
      r.0.frameCount == s.frameCount + CountSaved(r.1)
      && CountTriggers(r.1) == r.0.frameCount / EncodeEvery - s.frameCount / EncodeEvery
  {
    if polls != [] {
      var first := Step(s, hash, polls[0].snapshot, polls[0].now, polls[0].saveOk);
      StepCounts(s, hash, polls[0].snapshot, polls[0].now, polls[0].saveOk);
      assert ValidPolls(polls[1..]) by {
        forall i | 0 <= i < |polls[1..]| ensures ValidTime(polls[1..][i].now) {
          assert polls[1..][i] == polls[i + 1];
        }
      }
      RunCounts(first.0, hash, polls[1..]);
      CountsAppend(first.1, Run(first.0, hash, polls[1..]).1);
    }
  }

  /** From startup: one encoding on start, then one more for every 240 frames saved. */
  lemma TriggersFromStart(hash: Bytes -> string, polls: seq<Poll>)
    requires ValidPolls(polls)
    ensures var r := Run(Start, hash, polls);
      CountTriggers([EncodingTriggered] + r.1) == 1 + r.0.frameCount / EncodeEvery
      && r.0.frameCount == CountSaved(r.1)
  {
    var r := Run(Start, hash, polls);
    RunCounts(Start, hash, polls);
    CountsAppend([EncodingTriggered], r.1);
  }

  /** The loop's variables, with what each pass emits appended to `events`. */
  class Monitor {
    const hash: Bytes -> string
    var lastHash: Option<string>
    var printerWasOffline: bool
    var frameCount: nat
    var events: seq<Event>

    function State(): LoopState
      reads this
    {
      LoopState(lastHash, printerWasOffline, frameCount)
    }

    /** The loop's start: empty state, and one encoding triggered for frames left from earlier. */
    constructor (hash: Bytes -> string)
      ensures this.hash == hash && State() == Start && events == [EncodingTriggered]
    {
      this.hash := hash;
      lastHash := None;
      printerWasOffline := false;
      frameCount := 0;
      events := [EncodingTriggered];
    }

    /** One pass of the loop. */
    method Poll(snapshot: Option<Bytes>, now: DateTime, saveOk: bool)
      requires ValidTime(now)
      modifies this
      ensures State() == Step(old(State()), hash, snapshot, now, saveOk).0
      ensures events == old(events) + Step(old(State()), hash, snapshot, now, saveOk).1
    {
      if !HasContent(snapshot) {
        if !printerWasOffline {
          events := events + [WentOffline];
          printerWasOffline := true;
        }
        return;
      }
      if printerWasOffline {
        events := events + [BackOnline];
        printerWasOffline := false;
      }
      var currentHash := hash(snapshot.value);
      if Some(currentHash) != lastHash {
        if saveOk {
          events := events + [Saved(FrameName(now))];
          lastHash := Some(currentHash);
          frameCount := frameCount + 1;
          if frameCount % EncodeEvery == 0 {
            events := events + [EncodingTriggered];
          }
        }
      }
    }
  }
}
