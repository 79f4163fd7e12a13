/**
 The endpoint supervisor of internal/supervisor/supervisor.go.

 `Supervisor` is the object: each of its methods is one section the Go code runs under the mutex,
 and says what it makes of the `Core` value of the object. `World` adds everything that runs beside
 it - child processes, the watcher goroutine of each child, sleeping restart timers, Stop calls
 waiting for a child - and `Next` interleaves their steps. Times are nanoseconds.
 */
module Supervisor {
  import opened Wrappers

  datatype State = Stopped | Starting | Ready | Degraded | CrashLoop

  datatype Child = Child(id: nat, pid: nat, revision: string)

  datatype EndpointStatus = EndpointStatus(state: State, revision: string, pid: nat)

  datatype Core = Core(cmd: Option<Child>, desired: bool, stopping: bool, status: EndpointStatus, restarts: seq<int>)

  datatype Limits = Limits(maxRestarts: nat, window: int)

  /** How the watcher goes on after a child exit. */
  datatype Watch = Stale | Gone | Sleep(delay: int)

  // ----- What each critical section does

  function After(times: seq<int>, cutoff: int): seq<int> {
    if times == [] then []
    else
      var last := times[|times| - 1];
      After(times[..|times| - 1], cutoff) + if last > cutoff then [last] else []
  }

  function Doubled(n: nat): nat {
    if n == 0 then 1 else 2 * Doubled(n - 1)
  }

  function Backoff(restarts: nat): int {
    Doubled(if restarts - 1 < 0 then 0 else if restarts - 1 < 5 then restarts - 1 else 5) * 100_000_000
  }

  /** `spawned` is None when exec fails. */
  function Launch(c: Core, spawned: Option<Child>): Core {
    match spawned
    case None => c.(status := c.status.(state := Stopped))
    case Some(child) => c.(cmd := spawned, status := EndpointStatus(Starting, child.revision, child.pid))
  }

  function Start(c: Core, spawned: Option<Child>): Core {
    if c.cmd.Some? then c else Launch(c.(desired := true, stopping := false), spawned)
  }

  function Exit(c: Core, child: Child, cancelled: bool, now: int, limits: Limits): (Core, Watch) {
    if c.cmd != Some(child) then (c, Stale)
    else
      var freed := c.(cmd := None, status := c.status.(pid := 0));
      if !c.desired || c.stopping || cancelled then (freed.(status := freed.status.(state := Stopped)), Gone)
      else Crashed(freed, now, limits)
  }

  /** A crash of a desired run, once the command is released. */
  function Crashed(c: Core, now: int, limits: Limits): (Core, Watch) {
    Judged(c.(restarts := After(c.restarts, now - limits.window) + [now]), limits)
  }

  /** Whether the counted crashes trip the breaker. */
  function Judged(c: Core, limits: Limits): (Core, Watch) {
    if |c.restarts| > limits.maxRestarts
    then (c.(desired := false, status := c.status.(state := CrashLoop)), Gone)
    else (c.(status := c.status.(state := Starting)), Sleep(Backoff(|c.restarts|)))
  }

  predicate MaySpawn(c: Core) {
    c.desired && c.cmd.None? && !c.stopping
  }

  function Fire(c: Core, spawned: Option<Child>): Core {
    if MaySpawn(c) then Launch(c, spawned) else c
  }

  function Mark(c: Core, state: State): Core {
    if c.cmd.Some? then c.(status := c.status.(state := state)) else c
  }

  function StopBegin(c: Core): Core {
    if c.cmd.None? then c.(desired := false, status := c.status.(state := Stopped))
    else c.(desired := false, stopping := true)
  }

  function StopEnd(c: Core): Core {
    c.(stopping := false, status := c.status.(state := Stopped))
  }

  // ----- The object

  class Supervisor {
    const limits: Limits
    var cmd: Option<Child>
    var desired: bool
    var stopping: bool
    var status: EndpointStatus
    var restarts: array<int>
    var count: nat

    ghost predicate Valid()
      reads this
    {
      count <= restarts.Length
    }

    ghost function Value(): Core
      reads this, restarts
      requires Valid()
    {
      Core(cmd, desired, stopping, status, restarts[..count])
    }

    constructor (maxRestarts: int, window: int)
      ensures Valid() && fresh(restarts)
      ensures Value() == Core(None, false, false, EndpointStatus(Stopped, "", 0), [])
      ensures limits == Limits(if maxRestarts <= 0 then 5 else maxRestarts,
                               if window <= 0 then 60_000_000_000 else window)
    {
      limits := Limits(if maxRestarts <= 0 then 5 else maxRestarts, if window <= 0 then 60_000_000_000 else window);
      cmd, desired, stopping, status := None, false, false, EndpointStatus(Stopped, "", 0);
      restarts, count := new int[0], 0;
    }

    method StartLocked(spawned: Option<Child>) returns (s: Wrappers.Status)
      requires Valid()
      modifies this`cmd, this`status
      ensures Valid() && Value() == Launch(old(Value()), spawned)
      ensures s.Done? <==> spawned.Some?
    {
      if spawned.None? {
        status := status.(state := Stopped);
        return Wrappers.Failed;
      }
      cmd := spawned;
      status := EndpointStatus(Starting, spawned.value.revision, spawned.value.pid);
      s := Wrappers.Done;
    }

    method Begin(spawned: Option<Child>) returns (s: Wrappers.Status)
      requires Valid()
      modifies this`cmd, this`status, this`desired, this`stopping
      ensures Valid() && Value() == Start(old(Value()), spawned)
      ensures s.Done? <==> old(cmd).None? && spawned.Some?
    {
      if cmd.Some? {
        return Wrappers.Failed;
      }
      desired := true;
      stopping := false;
      s := StartLocked(spawned);
    }

    /** Keeps, in place, the crash times after the cutoff. */
    method Compact(cutoff: int) returns (kept: nat)
      requires Valid()
      modifies restarts
      ensures kept <= count
      ensures restarts[..kept] == After(old(restarts[..count]), cutoff)
    {
      ghost var times := restarts[..count];
      kept := 0;
      var i := 0;
      while i < count
        invariant 0 <= kept <= i <= count
        invariant restarts[..kept] == After(times[..i], cutoff)
        invariant forall j | i <= j < count :: restarts[j] == times[j]
      {
        var t := restarts[i];
        assert times[..i + 1][..i] == times[..i];
        if t > cutoff {
          restarts[kept] := t;
          kept := kept + 1;
          assert restarts[..kept] == restarts[..kept - 1] + [t];
        }
        i := i + 1;
      }
      assert times[..count] == times;
    }

    /** Appends to the first `kept` times, in place where there is room. */
    method Append(kept: nat, now: int)
      requires Valid() && kept <= count
      modifies this`restarts, this`count, restarts
      ensures Valid() && (restarts == old(restarts) || fresh(restarts))
      ensures restarts[..count] == old(restarts[..kept]) + [now]
    {
      ghost var before := restarts[..kept];
      if kept < restarts.Length {
        restarts[kept] := now;
      } else {
        var grown := new int[2 * kept + 1];
        forall j | 0 <= j < kept {
          grown[j] := restarts[j];
        }
        grown[kept] := now;
        assert grown[..kept] == before;
        restarts := grown;
      }
      count := kept + 1;
      assert restarts[..count] == before + [now];
    }

    /** The watcher takes the lock after its child was waited for. */
    method ChildExited(child: Child, cancelled: bool, now: int) returns (next: Watch)
      requires Valid()
      modifies this, restarts
      ensures Valid() && (restarts == old(restarts) || fresh(restarts))
      ensures (Value(), next) == Exit(old(Value()), child, cancelled, now, limits)
    {
      if cmd != Some(child) {
        return Stale;
      }
      cmd := None;
      status := status.(pid := 0);
      if !desired || stopping || cancelled {
        status := status.(state := Stopped);
        return Gone;
      }
      Register(now);
      next := Judge();
    }

    /** Old crash times go, in place; the new one is appended. */
    method Register(now: int)
      requires Valid()
      modifies this`restarts, this`count, restarts
      ensures Valid() && (restarts == old(restarts) || fresh(restarts))
      ensures restarts[..count] == After(old(restarts[..count]), now - limits.window) + [now]
    {
      var kept := Compact(now - limits.window);
      Append(kept, now);
    }

    method Judge() returns (next: Watch)
      requires Valid()
      modifies this`status, this`desired
      ensures Valid() && (Value(), next) == Judged(old(Value()), limits)
    {
      if count > limits.maxRestarts {
        status := status.(state := CrashLoop);
        desired := false;
        return Gone;
      }
      status := status.(state := Starting);
      next := Sleep(Backoff(count));
    }

    method TimerFired(spawned: Option<Child>)
      requires Valid()
      modifies this`cmd, this`status
      ensures Valid() && Value() == Fire(old(Value()), spawned)
    {
      if desired && cmd.None? && !stopping {
        var _ := StartLocked(spawned);
      }
    }

    method MarkReady()
      requires Valid()
      modifies this`status
      ensures Valid() && Value() == Mark(old(Value()), Ready)
      ensures status == if cmd.None? then old(status) else old(status).(state := Ready)
    {
      if cmd.Some? {
        status := status.(state := Ready);
      }
    }

    method MarkDegraded()
      requires Valid()
      modifies this`status
      ensures Valid() && Value() == Mark(old(Value()), Degraded)
      ensures status == if cmd.None? then old(status) else old(status).(state := Degraded)
    {
      if cmd.Some? {
        status := status.(state := Degraded);
      }
    }

    /** The first section of `Stop`; a returned child must be signalled and waited for. */
    method BeginStop() returns (child: Option<Child>)
      requires Valid()
      modifies this`desired, this`stopping, this`status
      ensures Valid() && Value() == StopBegin(old(Value()))
      ensures child == old(cmd)
    {
      if cmd.None? {
        desired := false;
        status := status.(state := Stopped);
        return None;
      }
      desired := false;
      stopping := true;
      child := cmd;
    }

    /** The last section of `Stop`, reached once the child it captured was waited for. */
    method EndStop()
      requires Valid()
      modifies this`stopping, this`status
      ensures Valid() && Value() == StopEnd(old(Value()))
    {
      stopping := false;
      status := status.(state := Stopped);
    }

    /** The child a SIGHUP goes to. */
    method Reload() returns (child: Option<Child>)
      requires Valid()
      ensures child == Value().cmd
    {
      child := cmd;
    }
  }

  // ----- Everything that runs beside the object

  datatype Sleeper = Sleeper(revision: string, due: int)

  datatype Crash = Crash(time: int, scheduled: bool)

  /**
   `running`: children not yet waited for. `reaped`: children whose watcher has seen them exit but
   not yet taken the lock. `stops`: children that Stop calls wait for. `crashes`: every counted
   crash so far, with whether it scheduled an automatic restart.
   */
  datatype World = World(core: Core, running: set<Child>, reaped: set<Child>, sleepers: multiset<Sleeper>,
                         stops: multiset<Child>, clock: int, used: set<nat>, crashes: seq<Crash>)

  datatype Step =
    | StartCall(spawned: Option<Child>)
    | ChildDies(child: Child)
    | WatcherLocks(child: Child, cancelled: bool)
    | TimerFires(sleeper: Sleeper, spawned: Option<Child>)
    | SleeperCancelled(sleeper: Sleeper)
    | StopCall
    | StopReturns(child: Child)
    | StopGivesUp(child: Child)
    | Readiness(up: bool)
    | Tick(now: int)

  const Initial := World(Core(None, false, false, EndpointStatus(Stopped, "", 0), []), {}, {}, multiset{}, multiset{},
                         0, {}, [])

  predicate Fresh(w: World, spawned: Option<Child>) {
    spawned.Some? ==> spawned.value.id !in w.used && spawned.value.pid != 0
  }

  predicate Enabled(w: World, s: Step) {
    match s
    case StartCall(spawned) => Fresh(w, spawned)
    case ChildDies(child) => child in w.running
    case WatcherLocks(child, _) => child in w.reaped
    case TimerFires(sleeper, spawned) =>
      sleeper in w.sleepers && sleeper.due <= w.clock && Fresh(w, spawned) &&
      (spawned.Some? ==> spawned.value.revision == sleeper.revision)
    case SleeperCancelled(sleeper) => sleeper in w.sleepers
    case StopCall => true
    case StopReturns(child) => child in w.stops && child !in w.running
    case StopGivesUp(child) => child in w.stops
    case Readiness(_) => true
    case Tick(now) => now >= w.clock
  }

  /** A section that may spawn: the new child, if the object took one, starts to run. */
  function Spawning(w: World, core: Core, spawned: Option<Child>): World {
    if core.cmd == w.core.cmd || core.cmd.None? then w.(core := core)
    else w.(core := core, running := w.running + {core.cmd.value}, used := w.used + {core.cmd.value.id})
  }

  predicate Counted(c: Core, child: Child, cancelled: bool) {
    c.cmd == Some(child) && c.desired && !c.stopping && !cancelled
  }

  function Next(w: World, s: Step, limits: Limits): World
    requires Enabled(w, s)
  {
    match s
    case StartCall(spawned) => Spawning(w, Start(w.core, spawned), spawned)
    case ChildDies(child) => w.(running := w.running - {child}, reaped := w.reaped + {child})
    case WatcherLocks(child, cancelled) =>
      var (core, watch) := Exit(w.core, child, cancelled, w.clock, limits);
      w.(core := core,
         reaped := w.reaped - {child},
         sleepers := if watch.Sleep? then w.sleepers + multiset{Sleeper(child.revision, w.clock + watch.delay)}
                     else w.sleepers,
         crashes := if Counted(w.core, child, cancelled) then w.crashes + [Crash(w.clock, watch.Sleep?)] else w.crashes)
    case TimerFires(sleeper, spawned) =>
      Spawning(w.(sleepers := w.sleepers - multiset{sleeper}), Fire(w.core, spawned), spawned)
    case SleeperCancelled(sleeper) => w.(sleepers := w.sleepers - multiset{sleeper})
    case StopCall =>
      w.(core := StopBegin(w.core),
         stops := if w.core.cmd.Some? then w.stops + multiset{w.core.cmd.value} else w.stops)
    case StopReturns(child) => w.(core := StopEnd(w.core), stops := w.stops - multiset{child})
    case StopGivesUp(child) => w.(stops := w.stops - multiset{child})
    case Readiness(up) => w.(core := Mark(w.core, if up then Ready else Degraded))
    case Tick(now) => w.(clock := now)
  }

  ghost predicate Run(steps: seq<Step>, w: World, limits: Limits) {
    steps == [] || (Enabled(w, steps[0]) && Run(steps[1..], Next(w, steps[0], limits), limits))
  }

  function Final(steps: seq<Step>, w: World, limits: Limits): World
    requires Run(steps, w, limits)
  {
    if steps == [] then w else Final(steps[1..], Next(w, steps[0], limits), limits)
  }

  // ----- Invariants of every interleaving

  /** The unwaited or just waited-for children are exactly the held command. */
  ghost predicate Held(w: World) {
    && w.running !! w.reaped
    && w.running + w.reaped == (if w.core.cmd.Some? then {w.core.cmd.value} else {})
    && (w.core.cmd.Some? ==> w.core.cmd.value.id in w.used && w.core.cmd.value.pid != 0)
    && w.core.status.pid == (if w.core.cmd.Some? then w.core.cmd.value.pid else 0)
    && (w.core.cmd.Some? ==> w.core.status.revision == w.core.cmd.value.revision)
    && (w.core.status.state in {Ready, Degraded} ==> w.core.cmd.Some?)
  }

  lemma WatcherKeepsHeld(w: World, s: Step, limits: Limits)
    requires Held(w) && Enabled(w, s) && s.WatcherLocks?
    ensures Held(Next(w, s, limits))
  {
    assert w.core.cmd == Some(s.child);
    assert w.running == {} && w.reaped - {s.child} == {};
  }

  lemma SpawnKeepsHeld(w: World, s: Step, limits: Limits)
    requires Held(w) && Enabled(w, s) && (s.StartCall? || s.TimerFires?)
    ensures Held(Next(w, s, limits))
  {
    var next := Next(w, s, limits);
    if next.core.cmd != w.core.cmd {
      assert w.running == {} && w.reaped == {};
      assert next.core.cmd == s.spawned;
    }
  }

  lemma HeldKept(w: World, s: Step, limits: Limits)
    requires Held(w) && Enabled(w, s)
    ensures Held(Next(w, s, limits))
  {
    if s.WatcherLocks? {
      WatcherKeepsHeld(w, s, limits);
    } else if s.StartCall? || s.TimerFires? {
      SpawnKeepsHeld(w, s, limits);
    } else if s.ChildDies? {
      assert w.running - {s.child} + (w.reaped + {s.child}) == w.running + w.reaped;
    }
  }

  lemma {:induction false} HeldAlways(steps: seq<Step>, w: World, limits: Limits)
    requires Held(w) && Run(steps, w, limits)
    ensures Held(Final(steps, w, limits))
  {
    if steps != [] {
      HeldKept(w, steps[0], limits);
      HeldAlways(steps[1..], Next(w, steps[0], limits), limits);
    }
  }

  lemma SingletonSize<T>(s: set<T>, x: T)
    requires s <= {x}
    ensures |s| <= 1
  {
    if s != {} {
      assert s == {x};
    }
  }

  /**
   In every interleaving at most one child is unwaited for; a watcher that takes the lock finds its
   own command held, so the stale exit never happens; the PID is set exactly while a command is
   held, and then the reported revision is its own; ready and degraded are only reported for a held
   command.
   */
  lemma OneChild(steps: seq<Step>, limits: Limits)
    requires Run(steps, Initial, limits)
    ensures var w := Final(steps, Initial, limits);
            && |w.running| <= 1
            && (forall child, cancelled | child in w.reaped ::
                  w.core.cmd == Some(child) && !Exit(w.core, child, cancelled, w.clock, limits).1.Stale?)
            && (w.core.status.pid != 0 <==> w.core.cmd.Some?)
            && (w.core.cmd.Some? ==> w.core.status.revision == w.core.cmd.value.revision)
            && (w.core.status.state in {Ready, Degraded} ==> w.core.cmd.Some?)
  {
    HeldAlways(steps, Initial, limits);
    var w := Final(steps, Initial, limits);
    if w.core.cmd.Some? {
      SingletonSize(w.running, w.core.cmd.value);
    }
    forall child | child in w.reaped
      ensures w.core.cmd == Some(child)
    {
      assert child in w.running + w.reaped;
    }
  }

  predicate IsStart(s: Step) {
    s.StartCall?
  }

  /**
   Once `desired` is cleared - by Stop or by a crash loop - nothing is spawned until the next Start,
   whatever watchers and timers are still pending.
   */
  lemma {:induction false} NothingSpawnedUntilStart(steps: seq<Step>, w: World, limits: Limits)
    requires Run(steps, w, limits) && !w.core.desired
    requires forall s | s in steps :: !IsStart(s)
    ensures Final(steps, w, limits).used == w.used
    ensures Final(steps, w, limits).running <= w.running
  {
    if steps != [] {
      assert steps[0] in steps;
      NothingSpawnedUntilStart(steps[1..], Next(w, steps[0], limits), limits);
    }
  }

  /** A reported crash loop always means that no run is desired. */
  lemma {:induction false} CrashLoopIsUndesired(steps: seq<Step>, w: World, limits: Limits)
    requires Run(steps, w, limits) && (w.core.status.state.CrashLoop? ==> !w.core.desired)
    ensures var c := Final(steps, w, limits).core; c.status.state.CrashLoop? ==> !c.desired
  {
    if steps != [] {
      var next := Next(w, steps[0], limits);
      if steps[0].StartCall? && w.core.cmd.None? {
        assert !next.core.status.state.CrashLoop?;
      }
      CrashLoopIsUndesired(steps[1..], next, limits);
    }
  }

  lemma {:induction false} UndesiredStays(steps: seq<Step>, w: World, limits: Limits)
    requires Run(steps, w, limits) && !w.core.desired
    requires forall s | s in steps :: !IsStart(s)
    ensures !Final(steps, w, limits).core.desired
  {
    if steps != [] {
      assert steps[0] in steps;
      UndesiredStays(steps[1..], Next(w, steps[0], limits), limits);
    }
  }

  /** From a Stop to the next Start no run is desired and nothing is spawned. */
  lemma StopHoldsUntilStart(steps: seq<Step>, w: World, limits: Limits)
    requires Run(steps, Next(w, StopCall, limits), limits)
    requires forall s | s in steps :: !IsStart(s)
    ensures var after := Final(steps, Next(w, StopCall, limits), limits);
            !after.core.desired && after.used == w.used && after.running <= w.running
  {
    UndesiredStays(steps, Next(w, StopCall, limits), limits);
    NothingSpawnedUntilStart(steps, Next(w, StopCall, limits), limits);
  }

  // ----- The sliding window

  function TimesOf(crashes: seq<Crash>): seq<int> {
    if crashes == [] then [] else TimesOf(crashes[..|crashes| - 1]) + [crashes[|crashes| - 1].time]
  }

  /** A crash in (from, to] that scheduled an automatic restart. */
  predicate ScheduledIn(c: Crash, from: int, to: int) {
    c.scheduled && from < c.time <= to
  }

  /** How many there are. */
  function Scheduled(crashes: seq<Crash>, from: int, to: int): nat {
    if crashes == [] then 0
    else
      var last := crashes[|crashes| - 1];
      Scheduled(crashes[..|crashes| - 1], from, to) + if ScheduledIn(last, from, to) then 1 else 0
  }

  /** Each of them is counted once. */
  lemma {:induction false} ScheduledCounts(crashes: seq<Crash>, from: int, to: int)
    ensures Scheduled(crashes, from, to) == |set i | 0 <= i < |crashes| && ScheduledIn(crashes[i], from, to)|
  {
    if crashes != [] {
      var init, n := crashes[..|crashes| - 1], |crashes| - 1;
      ScheduledCounts(init, from, to);
      var before := set i | 0 <= i < |init| && ScheduledIn(init[i], from, to);
      var all := set i | 0 <= i < |crashes| && ScheduledIn(crashes[i], from, to);
      assert n !in before && forall i | 0 <= i < n :: init[i] == crashes[i];
      assert all == before + if ScheduledIn(crashes[n], from, to) then {n} else {};
    }
  }

  /** The kept times are the crashes in the window of the last one. */
  ghost predicate WindowedAt(crashes: seq<Crash>, restarts: seq<int>, clock: int, limits: Limits) {
    && Ordered(crashes, clock)
    && (crashes != [] ==> restarts == After(TimesOf(crashes), crashes[|crashes| - 1].time - limits.window))
    && (crashes == [] ==> restarts == [])
    && Rationed(crashes, limits)
  }

  ghost predicate Windowed(w: World, limits: Limits) {
    WindowedAt(w.crashes, w.core.restarts, w.clock, limits)
  }

  ghost predicate Ordered(crashes: seq<Crash>, clock: int) {
    crashes == [] ||
    var last := crashes[|crashes| - 1];
    last.time <= clock && Ordered(crashes[..|crashes| - 1], last.time)
  }

  /** At each crash that scheduled a restart, few enough crashes lay in its window. */
  ghost predicate Rationed(crashes: seq<Crash>, limits: Limits) {
    crashes == [] ||
    var last := crashes[|crashes| - 1];
    && Rationed(crashes[..|crashes| - 1], limits)
    && (last.scheduled ==> |After(TimesOf(crashes), last.time - limits.window)| <= limits.maxRestarts)
  }

  lemma {:induction false} AfterAfter(times: seq<int>, older: int, newer: int)
    requires older <= newer
    ensures After(After(times, older), newer) == After(times, newer)
    ensures |After(times, newer)| <= |After(times, older)|
  {
    if times != [] {
      var init, last := times[..|times| - 1], times[|times| - 1];
      AfterAfter(init, older, newer);
      if last > older {
        assert (After(init, older) + [last])[..|After(init, older)|] == After(init, older);
      } else {
        assert After(init, older) + [] == After(init, older) && After(init, newer) + [] == After(init, newer);
      }
    }
  }

  lemma CompactedIsWindow(crashes: seq<Crash>, restarts: seq<int>, now: int, window: int)
    requires window > 0
    requires crashes != [] ==>
               && crashes[|crashes| - 1].time <= now
               && restarts == After(TimesOf(crashes), crashes[|crashes| - 1].time - window)
    requires crashes == [] ==> restarts == []
    ensures After(restarts, now - window) + [now] ==
            After(TimesOf(crashes) + [now], now - window)
  {
    assert (TimesOf(crashes) + [now])[..|TimesOf(crashes)|] == TimesOf(crashes);
    if crashes != [] {
      AfterAfter(TimesOf(crashes), crashes[|crashes| - 1].time - window, now - window);
    }
  }

  predicate CountsCrash(w: World, s: Step) {
    s.WatcherLocks? && Counted(w.core, s.child, s.cancelled)
  }

  lemma WindowUntouched(w: World, s: Step, limits: Limits)
    requires Enabled(w, s) && !CountsCrash(w, s)
    ensures var next := Next(w, s, limits);
            next.crashes == w.crashes && next.core.restarts == w.core.restarts && next.clock >= w.clock
  {
  }

  lemma WindowExtended(w: World, s: Step, limits: Limits)
    requires Enabled(w, s) && CountsCrash(w, s)
    ensures var next := Next(w, s, limits);
            && next.clock == w.clock
            && next.core.restarts == After(w.core.restarts, w.clock - limits.window) + [w.clock]
            && next.crashes == w.crashes + [Crash(w.clock, |next.core.restarts| <= limits.maxRestarts)]
  {
  }

  lemma WindowGrows(crashes: seq<Crash>, restarts: seq<int>, now: int, limits: Limits, more: seq<Crash>, kept: seq<int>)
    requires WindowedAt(crashes, restarts, now, limits) && limits.window > 0
    requires kept == After(restarts, now - limits.window) + [now]
    requires more == crashes + [Crash(now, |kept| <= limits.maxRestarts)]
    ensures WindowedAt(more, kept, now, limits)
  {
    CompactedIsWindow(crashes, restarts, now, limits.window);
    assert more[..|more| - 1] == crashes;
    assert TimesOf(more) == TimesOf(crashes) + [now];
  }

  lemma {:induction false} OrderedLater(crashes: seq<Crash>, clock: int, later: int)
    requires Ordered(crashes, clock) && clock <= later
    ensures Ordered(crashes, later)
  {
  }

  lemma WindowedKept(w: World, s: Step, limits: Limits)
    requires Windowed(w, limits) && Enabled(w, s) && limits.window > 0
    ensures Windowed(Next(w, s, limits), limits)
  {
    var next := Next(w, s, limits);
    if CountsCrash(w, s) {
      WindowExtended(w, s, limits);
      WindowGrows(w.crashes, w.core.restarts, w.clock, limits, next.crashes, next.core.restarts);
    } else {
      WindowUntouched(w, s, limits);
      OrderedLater(w.crashes, w.clock, next.clock);
    }
  }

  lemma {:induction false} WindowedAlways(steps: seq<Step>, w: World, limits: Limits)
    requires Windowed(w, limits) && Run(steps, w, limits) && limits.window > 0
    ensures Windowed(Final(steps, w, limits), limits)
  {
    if steps != [] {
      WindowedKept(w, steps[0], limits);
      WindowedAlways(steps[1..], Next(w, steps[0], limits), limits);
    }
  }

  lemma {:induction false} ScheduledWithinAfter(crashes: seq<Crash>, from: int, to: int)
    ensures Scheduled(crashes, from, to) <= |After(TimesOf(crashes), from)|
  {
    if crashes != [] {
      var init := crashes[..|crashes| - 1];
      ScheduledWithinAfter(init, from, to);
      assert TimesOf(crashes)[..|TimesOf(init)|] == TimesOf(init);
    }
  }

  lemma ScheduledByLast(crashes: seq<Crash>, limits: Limits, t: int)
    requires crashes != [] && Rationed(crashes, limits) && crashes[|crashes| - 1].scheduled
    requires t - limits.window < crashes[|crashes| - 1].time <= t
    ensures Scheduled(crashes, t - limits.window, t) <= limits.maxRestarts
  {
    ScheduledWithinAfter(crashes, t - limits.window, t);
    AfterAfter(TimesOf(crashes), crashes[|crashes| - 1].time - limits.window, t - limits.window);
  }

  lemma {:induction false} ScheduledBound(crashes: seq<Crash>, limits: Limits, clock: int, t: int)
    requires Ordered(crashes, clock) && Rationed(crashes, limits)
    ensures Scheduled(crashes, t - limits.window, t) <= limits.maxRestarts
  {
    if crashes != [] {
      var last := crashes[|crashes| - 1];
      if last.scheduled && t - limits.window < last.time <= t {
        ScheduledByLast(crashes, limits, t);
      } else {
        ScheduledBound(crashes[..|crashes| - 1], limits, last.time, t);
      }
    }
  }

  /**
   In every run, across manual restarts and tripped breakers, each window (t - RestartWindow, t]
   holds at most MaxRestarts crashes that scheduled an automatic restart.
   */
  lemma RestartsPerWindow(steps: seq<Step>, limits: Limits, t: int)
    requires Run(steps, Initial, limits) && limits.window > 0
    ensures Scheduled(Final(steps, Initial, limits).crashes, t - limits.window, t) <= limits.maxRestarts
  {
    WindowedAlways(steps, Initial, limits);
    var w := Final(steps, Initial, limits);
    ScheduledBound(w.crashes, limits, w.clock, t);
  }

  // ----- The restart after a crash

  /** 100 ms after the first crash of a window, doubling up to 3.2 s. */
  lemma BackoffExact(n: nat)
    ensures Backoff(n) ==
            if n <= 1 then 100_000_000
            else if n == 2 then 200_000_000
            else if n == 3 then 400_000_000
            else if n == 4 then 800_000_000
            else if n == 5 then 1_600_000_000
            else 3_200_000_000
  {
    assert Doubled(2) == 4;
    assert Doubled(4) == 16;
  }

  /** A timer that is due while a run is desired and nothing is held spawns its revision, once. */
  lemma TimerSpawns(w: World, t: Sleeper, next: Child, limits: Limits)
    requires t in w.sleepers && t.due <= w.clock && w.running == {}
    requires w.core.desired && !w.core.stopping && w.core.cmd.None?
    requires next.id !in w.used && next.pid != 0 && next.revision == t.revision
    ensures Enabled(w, TimerFires(t, Some(next)))
    ensures var fired := Next(w, TimerFires(t, Some(next)), limits);
            && fired.core.cmd == Some(next) && fired.running == {next}
            && fired.sleepers == w.sleepers - multiset{t}
            && fired.core.status == EndpointStatus(Starting, t.revision, next.pid)
  {
  }

  /**
   The crash of a desired run: unless the breaker trips, the command is released and a timer is set for
   the revision of the dead child, which is spawned, held and reported once the delay is over. One crash
   more than allowed in its window reports the crash loop, wishes for no run and sets no timer.
   */
  lemma CrashRestarts(w: World, child: Child, next: Child, limits: Limits)
    requires Held(w) && child in w.reaped && w.core.desired && !w.core.stopping
    requires next.id !in w.used && next.pid != 0 && next.revision == child.revision
    ensures var n := |After(w.core.restarts, w.clock - limits.window)| + 1;
            var crashed := Next(w, WatcherLocks(child, false), limits);
            && crashed.core.cmd == None && crashed.core.status.pid == 0
            && if n > limits.maxRestarts then
                 && crashed.core.status.state == CrashLoop && !crashed.core.desired
                 && crashed.sleepers == w.sleepers
               else
                 var t := Sleeper(child.revision, w.clock + Backoff(n));
                 && crashed.core.status.state == Starting && crashed.core.desired
                 && crashed.sleepers == w.sleepers + multiset{t}
                 && Run([Tick(t.due), TimerFires(t, Some(next))], crashed, limits)
                 && var after := Final([Tick(t.due), TimerFires(t, Some(next))], crashed, limits);
                    && after.core.cmd == Some(next) && after.running == {next} && after.sleepers == w.sleepers
                    && after.core.status == EndpointStatus(Starting, child.revision, next.pid)
  {
    var n := |After(w.core.restarts, w.clock - limits.window)| + 1;
    var crashed := Next(w, WatcherLocks(child, false), limits);
    assert child in w.running + w.reaped && w.running == {};
    if n <= limits.maxRestarts {
      var t := Sleeper(child.revision, w.clock + Backoff(n));
      var due := crashed.(clock := t.due);
      BackoffExact(n);
      TimerSpawns(due, t, next, limits);
      RunOne(TimerFires(t, Some(next)), due, limits);
      RunCons(Tick(t.due), [TimerFires(t, Some(next))], crashed, limits);
      assert [Tick(t.due)] + [TimerFires(t, Some(next))] == [Tick(t.due), TimerFires(t, Some(next))];
    }
  }

  /** A child that is stopped: the Stop may return before or after the watcher has seen the child exit. */
  function StopSteps(child: Child, cancelled: bool, returnsFirst: bool): seq<Step> {
    [StopCall, ChildDies(child)] +
    if returnsFirst then [StopReturns(child), WatcherLocks(child, cancelled)]
    else [WatcherLocks(child, cancelled), StopReturns(child)]
  }

  /**
   Stopping a running child, in either order: no command is held, no run is desired and stopped is
   reported; the exit is not counted as a crash and no timer is set.
   */
  lemma StopEnds(w: World, child: Child, cancelled: bool, returnsFirst: bool, limits: Limits)
    requires Held(w) && child in w.running && w.core.cmd == Some(child)
    ensures var steps := StopSteps(child, cancelled, returnsFirst);
            && Run(steps, w, limits)
            && var after := Final(steps, w, limits);
               && after.core == w.core.(cmd := None, desired := false, stopping := false,
                                        status := w.core.status.(state := Stopped, pid := 0))
               && after.crashes == w.crashes && after.sleepers == w.sleepers && after.stops == w.stops
               && after.running == {} && after.reaped == {}
  {
    var steps := StopSteps(child, cancelled, returnsFirst);
    var w1 := Next(w, steps[0], limits);
    var w2 := Next(w1, steps[1], limits);
    assert w2.running == {} && w2.reaped == {child};
    assert w2.stops == w.stops + multiset{child};
    var w3 := Next(w2, steps[2], limits);
    RunOne(steps[3], w3, limits);
    RunCons(steps[2], [steps[3]], w2, limits);
    RunCons(steps[1], [steps[2]] + [steps[3]], w1, limits);
    RunCons(steps[0], [steps[1]] + ([steps[2]] + [steps[3]]), w, limits);
    assert steps == [steps[0]] + ([steps[1]] + ([steps[2]] + [steps[3]]));
  }

  /** A Start whose exec fails reports stopped and holds no command; readiness is reported as it is. */
  lemma Reported(w: World, up: bool, limits: Limits)
    ensures w.core.cmd.None? ==>
              var c := Next(w, StartCall(None), limits).core;
              c.cmd.None? && c.status == w.core.status.(state := Stopped)
    ensures Next(w, Readiness(up), limits).core ==
            if w.core.cmd.None? then w.core
            else w.core.(status := w.core.status.(state := if up then Ready else Degraded))
  {
  }

  // ----- Where children come from

  function Starts(steps: seq<Step>): nat {
    if steps == [] then 0 else (if IsStart(steps[0]) then 1 else 0) + Starts(steps[1..])
  }

  /** The crashes so far that scheduled a restart. */
  function Restarts(crashes: seq<Crash>): nat {
    if crashes == [] then 0
    else Restarts(crashes[..|crashes| - 1]) + if crashes[|crashes| - 1].scheduled then 1 else 0
  }

  lemma CrashesGrow(w: World, s: Step, limits: Limits)
    requires Enabled(w, s)
    ensures var next := Next(w, s, limits);
            Restarts(next.crashes) ==
            Restarts(w.crashes) +
            if s.WatcherLocks? && Exit(w.core, s.child, s.cancelled, w.clock, limits).1.Sleep? then 1 else 0
  {
    var next := Next(w, s, limits);
    if s.WatcherLocks? && Counted(w.core, s.child, s.cancelled) {
      assert next.crashes[..|next.crashes| - 1] == w.crashes;
    }
  }

  lemma SpawnsOne(w: World, s: Step, limits: Limits)
    requires Enabled(w, s)
    ensures |Next(w, s, limits).used| <= |w.used| + if IsStart(s) || s.TimerFires? then 1 else 0
  {
  }

  lemma SleepersAccounted(w: World, s: Step, limits: Limits)
    requires Enabled(w, s)
    ensures var next := Next(w, s, limits);
            |next.sleepers| ==
            |w.sleepers| + (if s.WatcherLocks? && Exit(w.core, s.child, s.cancelled, w.clock, limits).1.Sleep? then 1
                            else 0) - (if s.TimerFires? || s.SleeperCancelled? then 1 else 0)
  {
  }

  /**
   Every child was spawned by a Start or by the one timer of a crash that scheduled a restart: in no run
   are there more children, and timers still sleeping, than Starts and such crashes.
   */
  lemma {:induction false} SpawnsAccounted(steps: seq<Step>, w: World, limits: Limits)
    requires Run(steps, w, limits)
    ensures var after := Final(steps, w, limits);
            |after.used| + |after.sleepers| - Restarts(after.crashes) <=
            |w.used| + |w.sleepers| - Restarts(w.crashes) + Starts(steps)
  {
    if steps != [] {
      CrashesGrow(w, steps[0], limits);
      SpawnsOne(w, steps[0], limits);
      SleepersAccounted(w, steps[0], limits);
      SpawnsAccounted(steps[1..], Next(w, steps[0], limits), limits);
    }
  }


  // ----- What does not hold

  /** Start took the child: it is held and a run is desired. */
  predicate Accepted(c: Core, child: Child) {
    Start(c, Some(child)).cmd == Some(child)
  }

  /**
   In every run, a Start that can spawn a new child is accepted exactly while the reported PID is zero,
   and that is exactly while no child is alive or waiting for its watcher. A Stop that returned does
   not ensure it.
   */
  lemma StartAcceptedWhenIdle(steps: seq<Step>, limits: Limits, child: Child)
    requires Run(steps, Initial, limits) && Fresh(Final(steps, Initial, limits), Some(child))
    ensures var w := Final(steps, Initial, limits);
            && (Accepted(w.core, child) <==> w.core.status.pid == 0)
            && (Accepted(w.core, child) <==> w.running + w.reaped == {})
  {
    HeldAlways(steps, Initial, limits);
  }

  /** Stop has returned, nothing was started since, and Start is still refused. */
  lemma RestartCanBeRefused(limits: Limits)
    ensures var c := Child(1, 100, "A");
            var steps := [StartCall(Some(c)), StopCall, ChildDies(c), StopReturns(c)];
            && Run(steps, Initial, limits)
            && var w := Final(steps, Initial, limits);
               w.stops == multiset{} && forall spawned :: Start(w.core, spawned) == w.core
  {
    var c := Child(1, 100, "A");
    var steps := [StartCall(Some(c)), StopCall, ChildDies(c), StopReturns(c)];
    var w1 := Next(Initial, steps[0], limits);
    var w2 := Next(w1, steps[1], limits);
    var w3 := Next(w2, steps[2], limits);
    var w4 := Next(w3, steps[3], limits);
    assert steps[1..][0] == steps[1] && steps[1..][1..] == steps[2..];
    assert steps[2..][0] == steps[2] && steps[2..][1..] == steps[3..];
    assert steps[3..][0] == steps[3] && steps[3..][1..] == [];
    assert Run([], w4, limits) && Final([], w4, limits) == w4;
    assert Run(steps[3..], w3, limits) && Final(steps[3..], w3, limits) == w4;
    assert Run(steps[2..], w2, limits) && Final(steps[2..], w2, limits) == w4;
    assert Run(steps[1..], w1, limits) && Final(steps[1..], w1, limits) == w4;
  }

  ghost predicate OnlyRevision(w: World, revision: string) {
    && (w.core.cmd.Some? ==> w.core.cmd.value.revision == revision)
    && (forall s | s in w.sleepers :: s.revision == revision)
    && (forall c | c in w.reaped :: c.revision == revision)
    && (forall c | c in w.running :: c.revision == revision)
  }

  lemma WatcherKeepsRevision(w: World, s: Step, limits: Limits, revision: string)
    requires OnlyRevision(w, revision) && Enabled(w, s) && s.WatcherLocks?
    ensures OnlyRevision(Next(w, s, limits), revision)
  {
    var next := Next(w, s, limits);
    assert next.running == w.running && next.reaped <= w.reaped;
    forall t | t in next.sleepers
      ensures t.revision == revision
    {
      assert t in w.sleepers || t.revision == s.child.revision;
    }
  }

  lemma TimerKeepsRevision(w: World, s: Step, limits: Limits, revision: string)
    requires OnlyRevision(w, revision) && Enabled(w, s) && s.TimerFires?
    ensures OnlyRevision(Next(w, s, limits), revision)
  {
    var next := Next(w, s, limits);
    assert next.core.cmd.Some? ==> next.core.cmd == w.core.cmd || next.core.cmd == s.spawned;
    assert forall t | t in next.sleepers :: t in w.sleepers;
  }

  lemma OneRevisionKept(w: World, s: Step, limits: Limits, revision: string)
    requires OnlyRevision(w, revision) && Enabled(w, s) && !IsStart(s)
    ensures OnlyRevision(Next(w, s, limits), revision)
  {
    if s.WatcherLocks? {
      WatcherKeepsRevision(w, s, limits, revision);
    } else if s.TimerFires? {
      TimerKeepsRevision(w, s, limits, revision);
    } else {
      var next := Next(w, s, limits);
      assert next.core.cmd == w.core.cmd;
      assert forall t | t in next.sleepers :: t in w.sleepers;
    }
  }

  /**
   Until the next Start only one revision is ever spawned, provided no timer of another revision was
   already sleeping. `OtherRevisionExact` says when another one can come to run.
   */
  lemma {:induction false} OneRevisionUntilStart(steps: seq<Step>, w: World, limits: Limits, revision: string)
    requires Run(steps, w, limits) && OnlyRevision(w, revision)
    requires forall s | s in steps :: !IsStart(s)
    ensures OnlyRevision(Final(steps, w, limits), revision)
  {
    if steps != [] {
      assert steps[0] in steps;
      OneRevisionKept(w, steps[0], limits, revision);
      OneRevisionUntilStart(steps[1..], Next(w, steps[0], limits), limits, revision);
    }
  }

  /** A continuation without a Start at whose end another revision is held. */
  ghost predicate Diverts(more: seq<Step>, w: World, limits: Limits, revision: string) {
    && Run(more, w, limits) && (forall s | s in more :: !IsStart(s))
    && var c := Final(more, w, limits).core; c.cmd.Some? && c.cmd.value.revision != revision
  }

  ghost predicate OtherSleeper(w: World, revision: string) {
    exists t :: t in w.sleepers && t.revision != revision
  }

  lemma ExitKeepsWishes(c: Core, child: Child, cancelled: bool, now: int, limits: Limits)
    ensures var after := Exit(c, child, cancelled, now, limits).0;
            after.stopping == c.stopping && (after.desired ==> c.desired)
  {
  }

  lemma DesiredKept(w: World, s: Step, limits: Limits)
    requires Enabled(w, s) && (w.core.desired ==> !w.core.stopping)
    ensures Next(w, s, limits).core.desired ==> !Next(w, s, limits).core.stopping
  {
    if s.WatcherLocks? {
      ExitKeepsWishes(w.core, s.child, s.cancelled, w.clock, limits);
    }
  }

  /** A desired run is never being stopped. */
  lemma {:induction false} DesiredIsNotStopping(steps: seq<Step>, w: World, limits: Limits)
    requires Run(steps, w, limits) && (w.core.desired ==> !w.core.stopping)
    ensures var c := Final(steps, w, limits).core; c.desired ==> !c.stopping
  {
    if steps != [] {
      DesiredKept(w, steps[0], limits);
      DesiredIsNotStopping(steps[1..], Next(w, steps[0], limits), limits);
    }
  }

  /** Without a desired run, the held command can only go away. */
  lemma {:induction false} UndesiredHoldsNothingNew(steps: seq<Step>, w: World, limits: Limits)
    requires Run(steps, w, limits) && !w.core.desired
    requires forall s | s in steps :: !IsStart(s)
    ensures var c := Final(steps, w, limits).core; c.cmd.None? || c.cmd == w.core.cmd
  {
    if steps != [] {
      assert steps[0] in steps;
      UndesiredHoldsNothingNew(steps[1..], Next(w, steps[0], limits), limits);
    }
  }

  lemma {:induction false} UnusedId(used: set<nat>) returns (n: nat)
    ensures forall i | i in used :: i < n
  {
    n := 0;
    if used != {} {
      var i :| i in used;
      var m := UnusedId(used - {i});
      n := if i < m then m else i + 1;
      assert forall j | j in used :: j == i || j in used - {i};
    }
  }

  predicate UpTo(times: seq<int>, bound: int) {
    forall i | 0 <= i < |times| :: times[i] <= bound
  }

  lemma {:induction false} AllBefore(times: seq<int>, cutoff: int)
    requires UpTo(times, cutoff)
    ensures After(times, cutoff) == []
  {
    if times != [] {
      AllBefore(times[..|times| - 1], cutoff);
    }
  }

  lemma {:induction false} AfterUpTo(times: seq<int>, cutoff: int, bound: int)
    requires UpTo(times, bound)
    ensures UpTo(After(times, cutoff), bound)
  {
    if times != [] {
      AfterUpTo(times[..|times| - 1], cutoff, bound);
    }
  }

  lemma {:induction false} TimesUpTo(crashes: seq<Crash>, clock: int)
    requires Ordered(crashes, clock)
    ensures UpTo(TimesOf(crashes), clock)
  {
    if crashes != [] {
      TimesUpTo(crashes[..|crashes| - 1], crashes[|crashes| - 1].time);
    }
  }

  lemma RestartsUpTo(w: World, limits: Limits)
    requires Windowed(w, limits)
    ensures UpTo(w.core.restarts, w.clock)
  {
    if w.crashes != [] {
      TimesUpTo(w.crashes, w.clock);
      AfterUpTo(TimesOf(w.crashes), w.crashes[|w.crashes| - 1].time - limits.window, w.clock);
    }
  }

  /** With no command held, the timer spawns once it is due. */
  lemma FireDiverts(w: World, t: Sleeper, limits: Limits, revision: string) returns (more: seq<Step>)
    requires w.core.cmd.None? && w.core.desired && !w.core.stopping
    requires t in w.sleepers && t.due <= w.clock && t.revision != revision
    ensures Diverts(more, w, limits, revision)
  {
    var id := UnusedId(w.used);
    var s := TimerFires(t, Some(Child(id, 1, t.revision)));
    more := [s];
    RunOne(s, w, limits);
  }

  lemma DivertsLater(s: Step, more: seq<Step>, w: World, limits: Limits, revision: string)
    requires Enabled(w, s) && !IsStart(s) && Diverts(more, Next(w, s, limits), limits, revision)
    ensures Diverts([s] + more, w, limits, revision)
  {
    RunCons(s, more, w, limits);
  }

  /** The watcher of a dead child takes the lock when all earlier crashes are out of the window. */
  lemma LockDiverts(w: World, t: Sleeper, limits: Limits, revision: string) returns (more: seq<Step>)
    requires w.core.cmd.Some? && w.core.cmd.value in w.reaped && w.core.desired && !w.core.stopping
    requires limits.maxRestarts >= 1 && UpTo(w.core.restarts, w.clock - limits.window)
    requires t in w.sleepers && t.due <= w.clock && t.revision != revision
    ensures Diverts(more, w, limits, revision)
  {
    var s := WatcherLocks(w.core.cmd.value, false);
    AllBefore(w.core.restarts, w.clock - limits.window);
    var next := Next(w, s, limits);
    assert next.core.cmd.None? && next.core.desired && t in next.sleepers;
    var rest := FireDiverts(next, t, limits, revision);
    DivertsLater(s, rest, w, limits, revision);
    more := [s] + rest;
  }

  /** First time passes until the timer is due and the window is empty. */
  lemma TickDiverts(w: World, t: Sleeper, limits: Limits, revision: string) returns (more: seq<Step>)
    requires w.core.cmd.Some? ==> w.core.cmd.value in w.reaped
    requires w.core.desired && !w.core.stopping && limits.maxRestarts >= 1 && limits.window > 0
    requires UpTo(w.core.restarts, w.clock)
    requires t in w.sleepers && t.revision != revision
    ensures Diverts(more, w, limits, revision)
  {
    var later := w.clock + limits.window;
    var s := Tick(if later < t.due then t.due else later);
    var next := Next(w, s, limits);
    var rest;
    if w.core.cmd.Some? {
      rest := LockDiverts(next, t, limits, revision);
    } else {
      rest := FireDiverts(next, t, limits, revision);
    }
    DivertsLater(s, rest, w, limits, revision);
    more := [s] + rest;
  }

  lemma SleeperDiverts(w: World, t: Sleeper, limits: Limits, revision: string) returns (more: seq<Step>)
    requires Held(w) && Windowed(w, limits) && w.core.desired && !w.core.stopping
    requires limits.maxRestarts >= 1 && limits.window > 0 && t in w.sleepers && t.revision != revision
    ensures Diverts(more, w, limits, revision)
  {
    RestartsUpTo(w, limits);
    if w.core.cmd.Some? && w.core.cmd.value in w.running {
      var s := ChildDies(w.core.cmd.value);
      var rest := TickDiverts(Next(w, s, limits), t, limits, revision);
      DivertsLater(s, rest, w, limits, revision);
      more := [s] + rest;
    } else {
      assert w.core.cmd.Some? ==> w.core.cmd.value in w.running + w.reaped;
      more := TickDiverts(w, t, limits, revision);
    }
  }

  lemma NoSleeperNoDiversion(w: World, more: seq<Step>, limits: Limits, revision: string)
    requires Held(w) && (w.core.cmd.Some? ==> w.core.cmd.value.revision == revision)
    requires Diverts(more, w, limits, revision)
    ensures w.core.desired && OtherSleeper(w, revision)
  {
    if !w.core.desired {
      UndesiredHoldsNothingNew(more, w, limits);
    } else if !OtherSleeper(w, revision) {
      forall c | c in w.running || c in w.reaped
        ensures c.revision == revision
      {
        assert c in w.running + w.reaped;
      }
      OneRevisionUntilStart(more, w, limits, revision);
    }
  }

  /**
   In every reachable world that holds nothing but `revision`: another revision can come to run before
   the next Start if and only if a run is desired and a timer of another revision is sleeping.
   */
  lemma OtherRevisionExact(steps: seq<Step>, limits: Limits, revision: string)
    requires Run(steps, Initial, limits) && limits.maxRestarts >= 1 && limits.window > 0
    requires var c := Final(steps, Initial, limits).core; c.cmd.Some? ==> c.cmd.value.revision == revision
    ensures var w := Final(steps, Initial, limits);
            (exists more :: Diverts(more, w, limits, revision)) <==> w.core.desired && OtherSleeper(w, revision)
  {
    var w := Final(steps, Initial, limits);
    HeldAlways(steps, Initial, limits);
    WindowedAlways(steps, Initial, limits);
    DesiredIsNotStopping(steps, Initial, limits);
    if more :| Diverts(more, w, limits, revision) {
      NoSleeperNoDiversion(w, more, limits, revision);
    }
    if w.core.desired && OtherSleeper(w, revision) {
      var t :| t in w.sleepers && t.revision != revision;
      var more := SleeperDiverts(w, t, limits, revision);
    }
  }

  const ChildA := Child(1, 100, "A")
  const ChildB := Child(2, 101, "B")
  const ChildC := Child(3, 102, "A")

  /** Start A; A crashes and its timer sleeps. */
  const FirstCrash := [StartCall(Some(ChildA)), ChildDies(ChildA), WatcherLocks(ChildA, false)]

  /** B crashes as well, and A's timer is due first. */
  const SecondCrash := [ChildDies(ChildB), WatcherLocks(ChildB, false), Tick(100_000_000),
                        TimerFires(Sleeper("A", 100_000_000), Some(ChildC))]

  lemma CrashA(limits: Limits)
    requires limits.maxRestarts >= 2 && limits.window > 0
    ensures Exit(Core(Some(ChildA), true, false, EndpointStatus(Starting, "A", 100), []), ChildA, false, 0, limits) ==
            (Core(None, true, false, EndpointStatus(Starting, "A", 0), [0]), Sleep(100_000_000))
  {
    BackoffExact(1);
    BackoffExact(2);
    assert After([], 0 - limits.window) + [0] == [0];
  }

  lemma CrashB(limits: Limits)
    requires limits.maxRestarts >= 2 && limits.window > 0
    ensures Exit(Core(Some(ChildB), true, false, EndpointStatus(Starting, "B", 101), [0]), ChildB, false, 0, limits) ==
            (Core(None, true, false, EndpointStatus(Starting, "B", 0), [0, 0]), Sleep(200_000_000))
  {
    BackoffExact(1);
    BackoffExact(2);
    assert [0][..0] == [] && After([0], 0 - limits.window) == [0];
    assert [0] + [0] == [0, 0];
  }

  const AfterFirst := World(Core(None, true, false, EndpointStatus(Starting, "A", 0), [0]), {}, {},
                            multiset{Sleeper("A", 100_000_000)}, multiset{}, 0, {1}, [Crash(0, true)])

  const AfterStartB := AfterFirst.(core := Core(Some(ChildB), true, false, EndpointStatus(Starting, "B", 101), [0]),
                                   running := {ChildB}, used := {1, 2})

  lemma FirstCrashRuns(limits: Limits)
    requires limits.maxRestarts >= 2 && limits.window > 0
    ensures Run(FirstCrash, Initial, limits) && Final(FirstCrash, Initial, limits) == AfterFirst
  {
    var w1 := Next(Initial, FirstCrash[0], limits);
    var w2 := Next(w1, FirstCrash[1], limits);
    CrashA(limits);
    RunOne(FirstCrash[2], w2, limits);
    RunCons(FirstCrash[1], [FirstCrash[2]], w1, limits);
    RunCons(FirstCrash[0], [FirstCrash[1]] + [FirstCrash[2]], Initial, limits);
    assert FirstCrash == [FirstCrash[0]] + ([FirstCrash[1]] + [FirstCrash[2]]);
  }

  /** Both crashes are counted, and both timers sleep. */
  const AfterSecond := AfterFirst.(core := Core(None, true, false, EndpointStatus(Starting, "B", 0), [0, 0]),
                                   sleepers := multiset{Sleeper("A", 100_000_000), Sleeper("B", 200_000_000)},
                                   used := {1, 2}, crashes := [Crash(0, true), Crash(0, true)])

  lemma CrashOfB(limits: Limits)
    requires limits.maxRestarts >= 2 && limits.window > 0
    ensures Enabled(AfterStartB, SecondCrash[0])
    ensures var w1 := Next(AfterStartB, SecondCrash[0], limits);
            Enabled(w1, SecondCrash[1]) && Next(w1, SecondCrash[1], limits) == AfterSecond
  {
    CrashB(limits);
    var w1 := Next(AfterStartB, SecondCrash[0], limits);
    assert w1 == AfterStartB.(running := {}, reaped := {ChildB});
    assert w1.reaped - {ChildB} == {};
    assert w1.sleepers + multiset{Sleeper("B", 200_000_000)} == AfterSecond.sleepers;
  }

  /** Time passes, and the timer of A fires. */
  lemma TimerOfA(limits: Limits)
    ensures Run([SecondCrash[2], SecondCrash[3]], AfterSecond, limits)
    ensures Final([SecondCrash[2], SecondCrash[3]], AfterSecond, limits).core.cmd == Some(ChildC)
  {
    var w3 := Next(AfterSecond, SecondCrash[2], limits);
    assert w3 == AfterSecond.(clock := 100_000_000);
    RunOne(SecondCrash[3], w3, limits);
    RunCons(SecondCrash[2], [SecondCrash[3]], AfterSecond, limits);
    assert [SecondCrash[2]] + [SecondCrash[3]] == [SecondCrash[2], SecondCrash[3]];
  }

  lemma SecondCrashRuns(limits: Limits)
    requires limits.maxRestarts >= 2 && limits.window > 0
    ensures Run(SecondCrash, AfterStartB, limits)
    ensures Final(SecondCrash, AfterStartB, limits).core.cmd == Some(ChildC)
  {
    CrashOfB(limits);
    TimerOfA(limits);
    var last := [SecondCrash[2], SecondCrash[3]];
    RunCons(SecondCrash[1], last, Next(AfterStartB, SecondCrash[0], limits), limits);
    RunCons(SecondCrash[0], [SecondCrash[1]] + last, AfterStartB, limits);
    assert SecondCrash == [SecondCrash[0]] + ([SecondCrash[1]] + last);
  }

  /** A timer set for revision A survives a Start of revision B and then spawns A again. */
  lemma OlderRevisionReturns(limits: Limits)
    requires limits.maxRestarts >= 2 && limits.window > 0
    ensures Run(FirstCrash, Initial, limits)
    ensures var w := Final(FirstCrash, Initial, limits);
            && Enabled(w, StartCall(Some(ChildB)))
            && var started := Next(w, StartCall(Some(ChildB)), limits);
               && started.core.cmd == Some(ChildB)
               && Run(SecondCrash, started, limits)
               && Final(SecondCrash, started, limits).core.cmd == Some(ChildC)
    ensures ChildC.revision != ChildB.revision && forall s | s in SecondCrash :: !IsStart(s)
  {
    FirstCrashRuns(limits);
    SecondCrashRuns(limits);
    assert Next(AfterFirst, StartCall(Some(ChildB)), limits) == AfterStartB;
  }

  lemma RunOne(s: Step, w: World, limits: Limits)
    requires Enabled(w, s)
    ensures Run([s], w, limits) && Final([s], w, limits) == Next(w, s, limits)
  {
    assert [s][1..] == [];
  }

  lemma RunCons(s: Step, rest: seq<Step>, w: World, limits: Limits)
    requires Enabled(w, s) && Run(rest, Next(w, s, limits), limits)
    ensures Run([s] + rest, w, limits)
    ensures Final([s] + rest, w, limits) == Final(rest, Next(w, s, limits), limits)
  {
    assert ([s] + rest)[1..] == rest;
  }
}
