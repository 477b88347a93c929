/**
 * The speed scheduler of speed_scheduler.py: the status decision of
 * `set_print_speed`, the checks of `setup`, and the 30-second tick of
 * `run_scheduler` as a transition on the `speed_changed` flag.
 *
 * The HTTP reply and the clock reading of each tick are inputs.
 */
module Speed {

  import opened Wrappers

  /** How the POST to the printer ends: a status, or one of the requests exceptions. */
  datatype Reply = Status(code: int) | ConnectionError | Timeout | OtherRequestError

  /** The POST `set_print_speed` sends: URL, API key, and the JSON body's two fields. */
  datatype Request = Request(url: string, apiKey: string, command: string, factor: int)

  /** The request for `percent` on the OctoPrint-compatible print-head endpoint. */
  function SpeedRequest(host: string, apiKey: string, percent: int): (q: Request)
    ensures q.command == "speed" && q.factor == percent && q.apiKey == apiKey
    ensures q.url == "http://" + host + "/api/printer/printhead"
  {
    Request("http://" + host + "/api/printer/printhead", apiKey, "speed", percent)
  }

  /** What `set_print_speed` returns for a reply. */
  function SpeedAccepted(reply: Reply): (ok: bool)
    ensures ok <==> reply == Status(200) || reply == Status(204)
    ensures !reply.Status? ==> !ok
  {
    match reply
    case Status(code) => code == 200 || code == 204
    case _ => false
  }

  /** The outcome of `setup`. */
  datatype SetupCheck = SchedulerReady | HostMissing | PasswordMissing

  /** `setup`: the host is checked first, then the password. */
  function SchedulerSetup(host: Option<string>, password: Option<string>): (r: SetupCheck)
    ensures r == SchedulerReady <==> IsSet(host) && IsSet(password)
    ensures r == HostMissing <==> !IsSet(host)
    ensures r == PasswordMissing <==> IsSet(host) && !IsSet(password)
  {
    if !IsSet(host) then HostMissing
    else if !IsSet(password) then PasswordMissing
    else SchedulerReady
  }

  /** `main`: a failed setup exits with status 1; `None` means the scheduler runs. */
  function MainExit(r: SetupCheck): (code: Option<int>)
    ensures code == None <==> r == SchedulerReady
    ensures code != None ==> code == Some(1)
  {
    if r == SchedulerReady then None else Some(1)
  }

  /**
   * One tick: the new flag, and whether the daytime call was made. `reply` is
   * what the call would get; it is looked at only when the call is made.
   */
  function TickStep(changed: bool, target: int, hour: int, minute: int, reply: Reply): (r: (bool, bool))
    // the daytime call is made exactly at target:00 while the flag is down
    ensures r.1 <==> hour == target && minute == 0 && !changed
    // the flag goes up only through an accepted call
    ensures !changed && r.0 ==> r.1 && SpeedAccepted(reply)
    ensures r.1 ==> (r.0 <==> SpeedAccepted(reply))
    // the flag goes down exactly at target:01 while it is up
    ensures changed && !r.0 <==> changed && hour == target && minute == 1
    // outside target:00 and target:01 nothing happens
    ensures !(hour == target && (minute == 0 || minute == 1)) ==> r == (changed, false)
  {
    var call := hour == target && minute == 0 && !changed;
    var afterCall := if call && SpeedAccepted(reply) then true else changed;
    var afterReset := if hour == target && minute == 1 && afterCall then false else afterCall;
    (afterReset, call)
  }

  /** The scheduler's running state and the requests it has sent so far. */
  class Scheduler {
    const host: string
    const apiKey: string
    const targetHour: int
    const daytimeSpeed: int
    const nighttimeSpeed: int
    var speedChanged: bool
    var sent: seq<Request>

    /**
     * The start of `run_scheduler`: the nighttime speed is requested once.
     * Its reply is ignored: whatever `set_print_speed` answers, the scheduler
     * carries on with the flag down.
     */
    constructor (host: string, apiKey: string, targetHour: int, daytimeSpeed: int, nighttimeSpeed: int, reply: Reply)
      ensures this.host == host && this.apiKey == apiKey && this.targetHour == targetHour
      ensures this.daytimeSpeed == daytimeSpeed && this.nighttimeSpeed == nighttimeSpeed
      ensures sent == [SpeedRequest(host, apiKey, nighttimeSpeed)]
      ensures !speedChanged
    {
      this.host := host;
      this.apiKey := apiKey;
      this.targetHour := targetHour;
      this.daytimeSpeed := daytimeSpeed;
      this.nighttimeSpeed := nighttimeSpeed;
      sent := [SpeedRequest(host, apiKey, nighttimeSpeed)];
      speedChanged := false;
    }

    /** One pass of the `while True` body at clock reading `hour:minute`. */
    method Tick(hour: int, minute: int, reply: Reply)
      modifies this
      ensures speedChanged == TickStep(old(speedChanged), targetHour, hour, minute, reply).0
      ensures sent == old(sent) +
        (if TickStep(old(speedChanged), targetHour, hour, minute, reply).1
         then [SpeedRequest(host, apiKey, daytimeSpeed)] else [])
    {
      if hour == targetHour && minute == 0 && !speedChanged {
        sent := sent + [SpeedRequest(host, apiKey, daytimeSpeed)];
        if SpeedAccepted(reply) {
          speedChanged := true;
        }
      }
      if hour == targetHour && minute == 1 && speedChanged {
        speedChanged := false;
      }
    }
  }

  /** One clock reading and the reply a call on that tick would get. */
  datatype Clock = Clock(hour: int, minute: int, reply: Reply)

  /** Ticks one after another: the final flag, the calls made and the calls accepted. */
  function Ticks(changed: bool, target: int, ts: seq<Clock>): (bool, nat, nat)
    decreases |ts|
  {
    if ts == [] then (changed, 0, 0)
    else
      var step := TickStep(changed, target, ts[0].hour, ts[0].minute, ts[0].reply);
      var rest := Ticks(step.0, target, ts[1..]);
      (rest.0, rest.1 + (if step.1 then 1 else 0), rest.2 + (if step.1 && SpeedAccepted(ts[0].reply) then 1 else 0))
  }

  /** No tick re-arms the flag. */
  predicate NoRearm(target: int, ts: seq<Clock>)
  {
    forall i :: 0 <= i < |ts| ==> !(ts[i].hour == target && ts[i].minute == 1)
  }

  lemma NoRearmTail(target: int, ts: seq<Clock>)
    requires ts != [] && NoRearm(target, ts)
    ensures NoRearm(target, ts[1..])
  {
    forall i | 0 <= i < |ts[1..]| ensures !(ts[1..][i].hour == target && ts[1..][i].minute == 1) {
      assert ts[1..][i] == ts[i + 1];
    }
  }

  /** While the flag is up and nothing re-arms it, no call is made and the flag stays up. */
  lemma {:induction false} RaisedStaysQuiet(target: int, ts: seq<Clock>)
    requires NoRearm(target, ts)
    ensures Ticks(true, target, ts) == (true, 0, 0)
    decreases |ts|
  {
    if ts != [] {
      assert !(ts[0].hour == target && ts[0].minute == 1);
      NoRearmTail(target, ts);
      RaisedStaysQuiet(target, ts[1..]);
    }
  }

  /** Between two re-arms the daytime speed is accepted at most once, and never if the flag starts up. */
  lemma {:induction false} AtMostOncePerWindow(changed: bool, target: int, ts: seq<Clock>)
    requires NoRearm(target, ts)
    ensures Ticks(changed, target, ts).2 <= (if changed then 0 else 1)
    ensures Ticks(changed, target, ts).0 ==> changed || Ticks(changed, target, ts).2 == 1
    decreases |ts|
  {
    if changed {
      RaisedStaysQuiet(target, ts);
    } else if ts != [] {
      var step := TickStep(changed, target, ts[0].hour, ts[0].minute, ts[0].reply);
      NoRearmTail(target, ts);
      AtMostOncePerWindow(step.0, target, ts[1..]);
    }
  }

  /** The ticks at target:01, the only ones that can re-arm the flag. */
  function CountRearms(target: int, ts: seq<Clock>): nat
    decreases |ts|
  {
    if ts == [] then 0
    else (if ts[0].hour == target && ts[0].minute == 1 then 1 else 0) + CountRearms(target, ts[1..])
  }

  /**
   * Over any run, the daytime speed is accepted at most once per re-arm tick,
   * plus once more if the flag started down; a flag that ends down takes one
   * more away.
   */
  lemma {:induction false} AcceptedPerRearm(changed: bool, target: int, ts: seq<Clock>)
    ensures var r := Ticks(changed, target, ts);
      r.2 + (if r.0 then 0 else 1) <= (if changed then 0 else 1) + CountRearms(target, ts)
    ensures Ticks(changed, target, ts).2 <= (if changed then 0 else 1) + CountRearms(target, ts)
    ensures Ticks(changed, target, ts).2 <= Ticks(changed, target, ts).1
    decreases |ts|
  {
    if ts != [] {
      var step := TickStep(changed, target, ts[0].hour, ts[0].minute, ts[0].reply);
      AcceptedPerRearm(step.0, target, ts[1..]);
    }
  }

  /** A failed daytime call leaves the flag down, so the next tick in the same minute calls again. */
  lemma FailedCallRetried(target: int, reply: Reply, next: Reply)
    requires !SpeedAccepted(reply)
    ensures TickStep(false, target, target, 0, reply) == (false, true)
    ensures TickStep(TickStep(false, target, target, 0, reply).0, target, target, 0, next).1
  {
  }
}
