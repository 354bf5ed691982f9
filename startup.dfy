/** The rules `main` in update53.go applies around the update cycles: the
    flag consistency checks, and the `dowhile` loop that handles one event per
    iteration. The `select` is modelled by the sequence of events in the order
    it picks them; the timer, the signals and the cycles themselves run
    elsewhere. */
module Startup {
  import opened Errors

  /** The values `flag.Parse` stores into the `update53` struct. */
  datatype Flags = Flags(forceip: string, getip: string, hostname: string, hostedzone: string,
                         daemon: bool, verbose: bool, debug: bool)

  /** The checks after `flag.Parse`: `-debug` turns on `-verbose`, and
      `-forceip` together with `-getip` ends the program with exit status 1
      (`None`) before any cycle runs. Nothing else is changed. */
  function Configure(f: Flags): (r: Option<Flags>)
    ensures r == None <==> f.forceip != "" && f.getip != ""
    ensures r != None ==> r.value.verbose == (f.verbose || f.debug)
    ensures r != None ==> r.value.(verbose := f.verbose) == f
    ensures r != None ==> r.value.forceip == "" || r.value.getip == ""
  {
    var g := if f.debug then f.(verbose := true) else f;
    if g.forceip != "" && g.getip != "" then None else Some(g)
  }

  /** What one `select` receives: a timer tick, a cycle's report on
      `errChan` (its error may be nil), or a termination signal. */
  datatype Event = Tick | Reported(err: Option<Error>) | Signal

  /** How many of `events` the loop handles before it stops: every one up to
      and including the first signal in daemon mode, exactly one otherwise. */
  function Handled(daemon: bool, events: seq<Event>): (r: nat)
    ensures r <= |events|
    ensures events != [] ==> r >= 1
    ensures !daemon ==> r == if events == [] then 0 else 1
    ensures daemon ==> forall j :: 0 <= j < r - 1 ==> events[j] != Signal
    ensures daemon && 0 < r < |events| ==> events[r - 1] == Signal
  {
    if events == [] then 0
    else if !daemon || events[0] == Signal then 1
    else 1 + Handled(daemon, events[1..])
  }

  /** The number of ticks in `events`. */
  function Ticks(events: seq<Event>): nat
  {
    if events == [] then 0
    else Ticks(events[..|events| - 1]) + (if events[|events| - 1] == Tick then 1 else 0)
  }

  /** The errors, in order, that the loop logs as warnings: the non-nil reports. */
  function Warnings(events: seq<Event>): seq<Error>
  {
    if events == [] then []
    else
      var logged := match events[|events| - 1]
        case Reported(Some(e)) => [e]
        case _ => [];
      Warnings(events[..|events| - 1]) + logged
  }

  /** The loop of `main`: `cycles` counts the update cycles started (the
      initial one and one per tick), `warnings` the errors logged. */
  method EventLoop(daemon: bool, events: seq<Event>) returns (handled: nat, cycles: nat, warnings: seq<Error>)
    ensures handled == Handled(daemon, events)
    ensures cycles == 1 + Ticks(events[..handled])
    ensures warnings == Warnings(events[..handled])
  {
    cycles := 1;
    warnings := [];
    var i := 0;
    var dowhile := true;
    while dowhile && i < |events|
      invariant 0 <= i <= |events|
      invariant cycles == 1 + Ticks(events[..i])
      invariant warnings == Warnings(events[..i])
      invariant dowhile ==> Handled(daemon, events) == i + Handled(daemon, events[i..])
      invariant !dowhile ==> Handled(daemon, events) == i
      decreases |events| - i, dowhile
    {
      var e := events[i];
      assert events[..i + 1][..i] == events[..i];
      assert events[i..][1..] == events[i + 1..];
      match e {
        case Tick =>
          cycles := cycles + 1;
        case Reported(err) =>
          if err != None {
            warnings := warnings + [err.value];
          }
        case Signal =>
          dowhile := false;
      }
      if !daemon {
        dowhile := false;
      }
      i := i + 1;
    }
    handled := i;
  }

  /** In single-shot mode the loop ends after the first event, whatever it is. */
  lemma SingleShotHandlesOne(events: seq<Event>)
    requires events != []
    ensures Handled(false, events) == 1
    ensures Ticks(events[..Handled(false, events)]) == if events[0] == Tick then 1 else 0
  {
  }
}
