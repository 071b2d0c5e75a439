/** The machine a release changes, and what a release comes to when each of its calls turns out in a given way. */
module Rollout {
  import opened Types
  import EnvFile
  import Fence

  // ----- The machine and everything that can happen to it -----

  /** A Windows service: the configured command line and, while it runs, the one it was started from. */
  datatype Service = Service(configured: string, running: Option<string>)

  datatype Site = Site(env: string, runtime: Service, broker: Service)

  /** What other processes change all the time: the Registry's migration version, its active Jobs and the
      admissions under way. */
  datatype World = World(migration: nat, active: seq<string>, admitting: set<string>)

  function YardOf(w: World, fenced: bool): Fence.Yard {
    Fence.Yard(w.active, w.admitting, fenced)
  }

  /** What goes on by itself before a call takes effect. */
  datatype Drift = Drift(runtimeCrashes: bool, brokerCrashes: bool, migrations: nat, events: seq<Fence.Event>)

  /** How one external call turns out. A call that fails leaves `debris` where it was writing, and a
      service it was stopping or starting may be up (`up`) or down. The calls of a run are numbered. */
  datatype Fate = Fate(ok: bool, healthy: bool, debris: string, up: bool, drift: Drift)

  datatype Step = StopRuntime | StopBroker | WriteEnv(text: string) | SetRuntime(path: string) | SetBroker(path: string)
    | StartBroker | StartRuntime

  function Crashed(s: Service, crashes: bool): Service {
    if crashes then s.(running := None) else s
  }

  function DriftedSite(site: Site, d: Drift): Site {
    site.(runtime := Crashed(site.runtime, d.runtimeCrashes), broker := Crashed(site.broker, d.brokerCrashes))
  }

  function Drifted(w: World, d: Drift, fenced: bool): World {
    var yard := Fence.HappenAll(YardOf(w, fenced), d.events);
    World(w.migration + d.migrations, yard.active, yard.admitting)
  }

  /** A service told to start comes up, although the call may report a failure. */
  predicate GoesUp(f: Fate) {
    f.ok || f.up
  }

  function Stopped(s: Service, f: Fate): Service {
    s.(running := if !f.ok && f.up then s.running else None)
  }

  /** Starting a service that is already up does nothing and succeeds. */
  function Started(s: Service, f: Fate): Service {
    if s.running.None? && GoesUp(f) then s.(running := Some(s.configured)) else s
  }

  function Written(text: string, f: Fate): string {
    if f.ok then text else f.debris
  }

  function Effect(site: Site, step: Step, f: Fate): Site {
    match step
    case StopRuntime => site.(runtime := Stopped(site.runtime, f))
    case StopBroker => site.(broker := Stopped(site.broker, f))
    case WriteEnv(text) => site.(env := Written(text, f))
    case SetRuntime(path) => site.(runtime := site.runtime.(configured := Written(path, f)))
    case SetBroker(path) => site.(broker := site.broker.(configured := Written(path, f)))
    case StartBroker => site.(broker := Started(site.broker, f))
    case StartRuntime => site.(runtime := Started(site.runtime, f))
  }

  // ----- What goes on over many calls -----

  /** How each call turns out, by its number: as the script says, and past its end always in the same way.
      A run makes finitely many calls, so every run has its script. */
  datatype Fates = Fates(script: seq<Fate>, rest: Fate)

  function FateOf(fates: Fates, call: nat): Fate {
    if call < |fates.script| then fates.script[call] else fates.rest
  }

  predicate AllWork(fates: Fates, start: nat, calls: nat) {
    forall k | start <= k < start + calls :: FateOf(fates, k).ok
  }

  predicate RuntimeSurvives(fates: Fates, start: nat, calls: int) {
    forall k | start <= k < start + calls :: !FateOf(fates, k).drift.runtimeCrashes
  }

  predicate BrokerSurvives(fates: Fates, start: nat, calls: int) {
    forall k | start <= k < start + calls :: !FateOf(fates, k).drift.brokerCrashes
  }

  /** The migration version before a call, counted from the first one; a call sees its own drift. */
  function Migrated(fates: Fates, base: nat, call: nat): nat {
    if call == 0 then base else Migrated(fates, base, call - 1) + FateOf(fates, call - 1).drift.migrations
  }

  lemma {:induction false} MigratedGrows(fates: Fates, base: nat, a: nat, b: nat)
    requires a <= b
    ensures Migrated(fates, base, a) <= Migrated(fates, base, b)
    decreases b
  {
    if a < b { MigratedGrows(fates, base, a, b - 1); }
  }

  /** The exclusive lock is held, no admission is under way, and nobody but the owner is active. */
  predicate IsFenced(w: World, fenced: bool, owner: string) {
    fenced && w.admitting == {} && forall x | x in w.active :: x == owner
  }

  lemma DriftKeepsFence(w: World, d: Drift, fenced: bool, owner: string)
    requires Fence.IsLockState(YardOf(w, fenced))
    ensures Fence.IsLockState(YardOf(Drifted(w, d, fenced), fenced))
    ensures IsFenced(w, fenced, owner) ==> IsFenced(Drifted(w, d, fenced), fenced, owner)
    ensures YardOf(Drifted(w, d, fenced), fenced) == Fence.HappenAll(YardOf(w, fenced), d.events)
  {
    Fence.LockIsNotTouched(YardOf(w, fenced), d.events);
    Fence.FencedRun(YardOf(w, fenced), d.events);
  }

  // ----- The drain -----

  /** The drain loop that starts with this call finds nobody but the owner before its polls run out. */
  predicate DrainEnds(fates: Fates, owner: string, yard: Fence.Yard, call: nat, polls: nat)
    decreases polls
  {
    var seen := Fence.HappenAll(yard, FateOf(fates, call).drift.events);
    FateOf(fates, call).ok
      && (Fence.IsQuiet(seen, owner) || (polls > 0 && DrainEnds(fates, owner, seen, call + 1, polls - 1)))
  }

  /** How many polls the drain loop makes. */
  function DrainCalls(fates: Fates, owner: string, yard: Fence.Yard, call: nat, polls: nat): (calls: nat)
    ensures calls > 0
    decreases polls
  {
    var seen := Fence.HappenAll(yard, FateOf(fates, call).drift.events);
    if !FateOf(fates, call).ok || Fence.IsQuiet(seen, owner) || polls == 0 then 1
    else 1 + DrainCalls(fates, owner, seen, call + 1, polls - 1)
  }

  // ----- What a release changes -----

  /** The environment text and both configured command lines. */
  datatype Setup = Setup(env: string, runtime: string, broker: string)

  function SetupOf(site: Site): Setup {
    Setup(site.env, site.runtime.configured, site.broker.configured)
  }

  predicate RunsOnly(s: Service, image: string) {
    s.running == None || s.running == Some(image)
  }

  /** Nothing but drift: the same setup, and services that went on or went down. */
  predicate Idled(a: Site, b: Site) {
    && SetupOf(a) == SetupOf(b)
    && (b.runtime.running == None || b.runtime.running == a.runtime.running)
    && (b.broker.running == None || b.broker.running == a.broker.running)
  }

  /** The commands that install a setup, in order. */
  function InstallSteps(setup: Setup): seq<Step> {
    [WriteEnv(setup.env), SetRuntime(setup.runtime), SetBroker(setup.broker), StartBroker, StartRuntime]
  }

  /** Whatever is up was started from this setup. */
  predicate Runs(site: Site, setup: Setup) {
    RunsOnly(site.runtime, setup.runtime) && RunsOnly(site.broker, setup.broker)
  }

  /** What writing both command lines from this call on leaves configured; a write that fails is the last. */
  function Repointed(fates: Fates, from: Setup, to: Setup, call: nat): Setup {
    if !FateOf(fates, call).ok then from.(runtime := FateOf(fates, call).debris)
    else if !FateOf(fates, call + 1).ok then from.(runtime := to.runtime, broker := FateOf(fates, call + 1).debris)
    else from.(runtime := to.runtime, broker := to.broker)
  }

  /** The same, with the environment file written first. */
  function Configured(fates: Fates, from: Setup, to: Setup, call: nat): Setup {
    if FateOf(fates, call).ok then Repointed(fates, from.(env := to.env), to, call + 1)
      else from.(env := FateOf(fates, call).debris)
  }

  datatype Plan = Plan(owner: string, preMigration: nat, maxMigration: nat, activeAtPreflight: seq<string>)

  datatype Candidate = Candidate(launcher: string, broker: string, runtimeImage: string, brokerImage: string)

  function NewSetup(env: string, candidate: Candidate): Option<Setup> {
    match EnvFile.Rewrite(env, candidate.launcher, candidate.broker)
    case Err(_) => None
    case Ok(text) => Some(Setup(text, candidate.runtimeImage, candidate.brokerImage))
  }

  function NextOf(derive: string -> Option<Setup>, env: string): Option<Setup> {
    derive(env)
  }

  datatype Result =
    Deployed(migration: nat) | RolledBack | RollbackFailed | RecoveryFailed(rollbackBlockedByMigration: bool)

  datatype Receipts = Receipts(
    plan: Option<seq<string>>, preimage: Option<(string, string)>, envPreimage: Option<string>, restored: bool,
      result: Option<Result>)

  /** The old setup and the drained plan are on disk. */
  predicate IsOnRecord(receipts: Receipts, before: Setup, plan: Plan) {
    && receipts.preimage == Some((before.runtime, before.broker)) && receipts.envPreimage == Some(before.env)
    && receipts.plan.Some? && Fence.Blockers(receipts.plan.value, plan.owner) == []
  }

  /** The receipts after a result was published, or not. */
  function Published(receipts: Receipts, result: Option<Result>, restored: bool): Receipts {
    receipts.(result := if result.Some? then result else receipts.result, restored := receipts.restored || restored)
  }

  // ----- The course of a release from its first service stop -----

  /** A recovery whose first call asks the Doctor; `base` is the migration version before call 0. */
  datatype Recovery = Recovery(fates: Fates, plan: Plan, base: nat, call: nat) {

    /** What the Doctor reports if it can be read. */
    function Reported(): nat {
      Migrated(fates, base, call + 1)
    }

    /** The Doctor is readable and reports no higher migration than planned. */
    predicate Permits() {
      FateOf(fates, call).ok && Reported() <= plan.preMigration
    }

    /** The five calls of the rollback whose failure counts; two stops come before them. */
    predicate Restores() {
      Permits() && AllWork(fates, call + 3, 5)
    }

    function Final(left: Setup, before: Setup): Setup {
      if Permits() then Configured(fates, left, before, call + 3) else left
    }

    /** How many calls are made, the receipt's included. */
    function Length(): nat {
      if Permits() then 1 + RestoreCalls(fates, call + 1) else 2
    }

    /** The stop of the Runtime service fails and leaves it up, and it does not crash in the whole recovery. */
    predicate KeepsRuntime() {
      !FateOf(fates, call + 1).ok && FateOf(fates, call + 1).up && RuntimeSurvives(fates, call, Length())
    }

    predicate KeepsBroker() {
      !FateOf(fates, call + 2).ok && FateOf(fates, call + 2).up && BrokerSurvives(fates, call, Length())
    }

    /** The commands that are issued: a rollback's, up to the first that fails and counts, or none. */
    function Commands(before: Setup): seq<Step> {
      if Permits() then RollbackSteps(fates, call + 1, before) else []
    }

    function Receipt(): Option<Result> {
      if Permits() then RestoreReceipt(fates, call + 1)
      else if FateOf(fates, call + 1).ok then Some(RecoveryFailed(true))
      else None
    }
  }

  /** The commands of a rollback that begins with this call. */
  function RollbackSteps(fates: Fates, call: nat, before: Setup): seq<Step> {
    [StopRuntime, StopBroker] + InstallSteps(before)[..Calls(fates, call + 2, 5)]
  }

  /** What the services run after an installation from this call on, when both were down before it. */
  function RuntimeInstalled(fates: Fates, call: nat, setup: Setup): Option<string> {
    if AllWork(fates, call, 4) && GoesUp(FateOf(fates, call + 4)) then Some(setup.runtime) else None
  }

  function BrokerInstalled(fates: Fates, call: nat, end: nat, setup: Setup): Option<string> {
    if AllWork(fates, call, 3) && GoesUp(FateOf(fates, call + 3)) && BrokerSurvives(fates, call + 4, end - (call + 4))
    then Some(setup.broker) else None
  }

  // The commands issued so far, piece by piece.

  lemma InstallFront(issued: seq<Step>, setup: Setup, fates: Fates, call: nat)
    ensures var steps := InstallSteps(setup)[..Calls(fates, call, 3)];
      issued + steps ==
        if !FateOf(fates, call).ok then issued + [WriteEnv(setup.env)]
        else if !FateOf(fates, call + 1).ok then issued + [WriteEnv(setup.env)] + [SetRuntime(setup.runtime)]
        else issued + [WriteEnv(setup.env)] + [SetRuntime(setup.runtime)] + [SetBroker(setup.broker)]
  {
    assert Calls(fates, call + 2, 1) == 1;
  }

  lemma InstallBack(issued: seq<Step>, setup: Setup, fates: Fates, call: nat)
    requires AllWork(fates, call, 3)
    ensures issued + InstallSteps(setup)[..Calls(fates, call, 5)] ==
      if FateOf(fates, call + 3).ok then issued + InstallSteps(setup)[..3] + [StartBroker] + [StartRuntime]
      else issued + InstallSteps(setup)[..3] + [StartBroker]
  {
    CallsOfBoth(fates, call, 3, 2);
    assert Calls(fates, call + 4, 1) == 1;
  }

  lemma SwitchBack(issued: seq<Step>, next: Setup, fates: Fates, start: nat)
    ensures issued + ([StopRuntime, StopBroker] + InstallSteps(next)[..Calls(fates, start + 2, 5)])
         == issued + [StopRuntime] + [StopBroker] + InstallSteps(next)[..Calls(fates, start + 2, 5)]
  {
  }

  lemma RollbackTrace(issued: seq<Step>, before: Setup, fates: Fates, call: nat)
    ensures issued + RollbackSteps(fates, call, before)
         == issued + [StopRuntime] + [StopBroker] + InstallSteps(before)[..Calls(fates, call + 2, 5)]
  {
  }

  /** How many calls a rollback and its receipts make, from its first stop on. */
  function RestoreCalls(fates: Fates, call: nat): nat {
    if !AllWork(fates, call + 2, 5) then 3 + Calls(fates, call + 2, 5) else if FateOf(fates, call + 7).ok then 9 else 8
  }

  function RestoreReceipt(fates: Fates, call: nat): Option<Result> {
    if AllWork(fates, call + 2, 5) then
      if AllWork(fates, call + 7, 2) then Some(RolledBack) else None
    else
      if FateOf(fates, call + 2 + Calls(fates, call + 2, 5)).ok then Some(RollbackFailed) else None
  }

  /** A service that was to be stopped with this fate and started anew runs another image than this one exactly
      when it did so before, its failed stop left it up and it did not crash; it is then still that image. */
  predicate StaysStale(before: Service, after: Service, image: string, stop: Fate, survives: bool) {
    && (!RunsOnly(after, image) <==> !stop.ok && stop.up && survives && !RunsOnly(before, image))
    && (!RunsOnly(after, image) ==> after.running == before.running)
  }

  /** A service that went on by itself: it runs what it ran, unless it crashed. */
  predicate WentOn(before: Service, after: Service, survives: bool) {
    after.running == if survives then before.running else None
  }

  /** A service that was started on this image, unless it was up already. */
  predicate WasStarted(before: Service, after: Service, image: string, survives: bool) {
    && (!RunsOnly(after, image) <==> survives && !RunsOnly(before, image))
    && (!RunsOnly(after, image) ==> after.running == before.running)
  }

  lemma StaleFromStop(a: Service, b: Service, c: Service, image: string, stop: Fate, s: bool, t: bool)
    requires WentOn(a, b, !stop.ok && stop.up && s) && WasStarted(b, c, image, t)
    ensures StaysStale(a, c, image, stop, s && t)
  {
  }

  lemma StaleGoesOn(
    a: Service, b: Service, c: Service, d: Service, image: string, stop: Fate, s: bool, t: bool, u: bool)
    requires WentOn(a, b, s) && StaysStale(b, c, image, stop, t) && WentOn(c, d, u)
    ensures StaysStale(a, d, image, stop, s && t && u)
  {
  }

  lemma SurvivalSplits(fates: Fates, start: nat, m: nat, n: nat)
    ensures RuntimeSurvives(fates, start, m + n) <==>
      RuntimeSurvives(fates, start, m) && RuntimeSurvives(fates, start + m, n)
    ensures BrokerSurvives(fates, start, m + n) <==>
      BrokerSurvives(fates, start, m) && BrokerSurvives(fates, start + m, n)
  {
  }

  /** Both services, through a rollback that begins with this call. */
  predicate StaysStaleBoth(fates: Fates, call: nat, calls: nat, left: Site, now: Site, before: Setup) {
    && StaysStale(left.runtime, now.runtime, before.runtime, FateOf(fates, call), RuntimeSurvives(fates, call, calls))
    && StaysStale(left.broker, now.broker, before.broker, FateOf(fates, call + 1), BrokerSurvives(fates, call, calls))
  }

  lemma StaleFromStops(fates: Fates, call: nat, a: Site, b: Site, c: Site, before: Setup)
    requires WentOn(a.runtime, b.runtime, !FateOf(fates, call).ok && FateOf(fates, call).up
      && RuntimeSurvives(fates, call, 2))
    requires WentOn(a.broker, b.broker, !FateOf(fates, call + 1).ok && FateOf(fates, call + 1).up
      && BrokerSurvives(fates, call, 2))
    requires WasStarted(b.runtime, c.runtime, before.runtime, RuntimeSurvives(fates, call + 2, 5))
    requires WasStarted(b.broker, c.broker, before.broker, BrokerSurvives(fates, call + 2, 5))
    ensures StaysStaleBoth(fates, call, 7, a, c, before)
  {
    SurvivalSplits(fates, call, 2, 5);
    StaleFromStop(a.runtime, b.runtime, c.runtime, before.runtime, FateOf(fates, call),
                  RuntimeSurvives(fates, call, 2), RuntimeSurvives(fates, call + 2, 5));
    StaleFromStop(a.broker, b.broker, c.broker, before.broker, FateOf(fates, call + 1),
                  BrokerSurvives(fates, call, 2), BrokerSurvives(fates, call + 2, 5));
  }

  lemma StaleBothGoesOn(fates: Fates, call: nat, calls: nat, a: Site, b: Site, c: Site, before: Setup)
    requires calls >= 7 && StaysStaleBoth(fates, call, 7, a, b, before)
    requires WentOn(b.runtime, c.runtime, RuntimeSurvives(fates, call + 7, calls - 7))
    requires WentOn(b.broker, c.broker, BrokerSurvives(fates, call + 7, calls - 7))
    ensures StaysStaleBoth(fates, call, calls, a, c, before)
  {
    SurvivalSplits(fates, call, 7, calls - 7);
    StaleGoesOn(a.runtime, a.runtime, b.runtime, c.runtime, before.runtime, FateOf(fates, call), true,
      RuntimeSurvives(fates, call, 7), RuntimeSurvives(fates, call + 7, calls - 7));
    StaleGoesOn(a.broker, a.broker, b.broker, c.broker, before.broker, FateOf(fates, call + 1), true,
      BrokerSurvives(fates, call, 7), BrokerSurvives(fates, call + 7, calls - 7));
  }

  /** After a completed rollback a service runs another image than the old one exactly when it ran one before
      and its failed stop left it up; it is then still that one. */
  predicate WasRestored(r: Recovery, left: Site, now: Site, before: Setup) {
    && StaysStale(left.runtime, now.runtime, before.runtime, FateOf(r.fates, r.call + 1),
      RuntimeSurvives(r.fates, r.call, r.Length()))
    && StaysStale(left.broker, now.broker, before.broker, FateOf(r.fates, r.call + 2),
      BrokerSurvives(r.fates, r.call, r.Length()))
  }

  lemma RestoredSinceCall(r: Recovery, a: Site, b: Site, c: Site, before: Setup)
    requires r.Permits() && b == DriftedSite(a, FateOf(r.fates, r.call).drift)
    requires StaysStaleBoth(r.fates, r.call + 1, RestoreCalls(r.fates, r.call + 1), b, c, before)
    ensures WasRestored(r, a, c, before)
  {
    var n := RestoreCalls(r.fates, r.call + 1);
    SurvivalSplits(r.fates, r.call, 1, n);
    StaleGoesOn(a.runtime, b.runtime, c.runtime, c.runtime, before.runtime, FateOf(r.fates, r.call + 1),
                RuntimeSurvives(r.fates, r.call, 1), RuntimeSurvives(r.fates, r.call + 1, n), true);
    StaleGoesOn(a.broker, b.broker, c.broker, c.broker, before.broker, FateOf(r.fates, r.call + 2),
                BrokerSurvives(r.fates, r.call, 1), BrokerSurvives(r.fates, r.call + 1, n), true);
  }

  /** The release's first stop is call `start`. */
  datatype Course = Course(fates: Fates, plan: Plan, base: nat, start: nat) {

    /** The migration version that a call sees. */
    function Seen(call: nat): nat {
      Migrated(fates, base, call + 1)
    }

    /** The nine calls of the switch work: two stops, three writes, two starts, the self-check, the Doctor. */
    predicate Switches() {
      && AllWork(fates, start, 9) && FateOf(fates, start + 7).healthy && FateOf(fates, start + 8).healthy
      && Seen(start + 8) <= plan.maxMigration
    }

    /** The first call after the switch and the unlock. */
    function Next(): nat {
      start + SwitchCalls(fates, start) + 1
    }

    /** What the Runtime service runs when the calls before `end` have been made, no fewer than the switch's:
        what it ran, if its stop failed and left it up; the new image, if its start was reached and brought it up;
        and nothing in either case if it crashed since. */
    function RuntimeLeft(running: Option<string>, next: Setup, end: nat): Option<string> {
      if !FateOf(fates, start).ok then
        if FateOf(fates, start).up && RuntimeSurvives(fates, start, end - start) then running else None
      else if StartsRuntime(end) then Some(next.runtime)
      else None
    }

    predicate StartsRuntime(end: nat) {
      AllWork(fates, start, 6) && GoesUp(FateOf(fates, start + 6))
        && RuntimeSurvives(fates, start + 7, end - (start + 7))
    }

    /** The same for the broker, which is stopped second and started first. */
    function BrokerLeft(running: Option<string>, next: Setup, end: nat): Option<string> {
      if !FateOf(fates, start).ok then
        if BrokerSurvives(fates, start, end - start) then running else None
      else if !FateOf(fates, start + 1).ok then
        if FateOf(fates, start + 1).up && BrokerSurvives(fates, start, end - start) then running else None
      else if StartsBroker(end) then Some(next.broker)
      else None
    }

    predicate StartsBroker(end: nat) {
      AllWork(fates, start, 5) && GoesUp(FateOf(fates, start + 5))
        && BrokerSurvives(fates, start + 6, end - (start + 6))
    }

    /** The whole site when the calls before `end` have been made. */
    function SiteLeft(site: Site, next: Setup, end: nat): Site {
      var setup := Left(SetupOf(site), next);
      Site(setup.env,
           Service(setup.runtime, RuntimeLeft(site.runtime.running, next, end)),
           Service(setup.broker, BrokerLeft(site.broker.running, next, end)))
    }

    /** The commands that the switch issues. */
    function Commands(next: Setup): seq<Step> {
      if !FateOf(fates, start).ok then [StopRuntime]
      else if !FateOf(fates, start + 1).ok then [StopRuntime, StopBroker]
      else [StopRuntime, StopBroker] + InstallSteps(next)[..Calls(fates, start + 2, 5)]
    }

    function AllCommands(before: Setup, next: Setup): seq<Step> {
      Commands(next) + if Switches() then [] else Failure().Commands(before)
    }

    /** What happens when the switch fails. */
    function Failure(): Recovery {
      Recovery(fates, plan, base, Next())
    }

    /** What is configured when the switch has ended. */
    function Left(before: Setup, next: Setup): Setup {
      if AllWork(fates, start, 2) then Configured(fates, before, next, start + 2) else before
    }

    function Final(before: Setup, next: Setup): Setup {
      if Switches() then next else Failure().Final(Left(before, next), before)
    }

    /** The receipt that is published. */
    function Receipt(): Option<Result> {
      if !Switches() then Failure().Receipt()
      else if AllWork(fates, start + 10, 2) then Some(Deployed(Seen(start + 10)))
      else None
    }
  }

  /** How many calls a switch makes: two stops, five calls that install the new setup, the self-check and the
      Doctor; the first that fails is the last. */
  function SwitchCalls(fates: Fates, start: nat): nat {
    if !FateOf(fates, start).ok then 1
    else if !FateOf(fates, start + 1).ok then 2
    else if !AllWork(fates, start + 2, 5) then 2 + Calls(fates, start + 2, 5)
    else if FateOf(fates, start + 7).ok && FateOf(fates, start + 7).healthy then 9
    else 8
  }

  /** How many of n calls are made when the first that fails is the last. */
  function Calls(fates: Fates, call: nat, n: nat): (calls: nat)
    ensures calls <= n && (n > 0 ==> calls > 0)
    decreases n
  {
    if n == 0 then 0 else if FateOf(fates, call).ok then 1 + Calls(fates, call + 1, n - 1) else 1
  }

  lemma {:induction false} CallsOfWorking(fates: Fates, call: nat, n: nat)
    ensures AllWork(fates, call, n) ==> Calls(fates, call, n) == n
    decreases n
  {
    if n > 0 { CallsOfWorking(fates, call + 1, n - 1); }
  }

  lemma {:induction false} CallsOfBoth(fates: Fates, call: nat, m: nat, n: nat)
    ensures Calls(fates, call, m + n) == if AllWork(fates, call, m) then m + Calls(fates, call + m, n)
      else Calls(fates, call, m)
    decreases m
  {
    if m > 0 { CallsOfBoth(fates, call + 1, m - 1, n); }
  }

  lemma FailureReceipts(r: Recovery, left: Setup, before: Setup)
    ensures match r.Receipt()
      case None => true
      case Some(Deployed(_)) => false
      case Some(RolledBack) => r.Final(left, before) == before && r.Permits()
      case Some(RollbackFailed) => !AllWork(r.fates, r.call + 3, 5) && r.Permits()
      case Some(RecoveryFailed(blocked)) => r.Final(left, before) == left && blocked && !r.Permits()
  {
  }

  /** Every receipt tells the truth: `deployed` means the new setup at a version that was supported when it was
      last checked, `rolled_back` the old setup after a permitted rollback, `rollback_failed` that a step of a
      permitted rollback failed, and `recovery_failed` that nothing was touched after the switch because no
      rollback was permitted. What that last one says about the migration is true exactly when the Doctor
      could be read. */
  lemma ReceiptsAreTruthful(c: Course, before: Setup, next: Setup)
    ensures match c.Receipt()
      case None => true
      case Some(Deployed(migration)) =>
        && c.Final(before, next) == next
        && c.Seen(c.start + 8) <= c.plan.maxMigration && c.Seen(c.start + 8) <= migration == c.Seen(c.start + 10)
      case Some(RolledBack) =>
        && c.Final(before, next) == before
        && FateOf(c.fates, c.Next()).ok && c.Seen(c.Next()) <= c.plan.preMigration
      case Some(RollbackFailed) =>
        && !AllWork(c.fates, c.Next() + 3, 5)
        && FateOf(c.fates, c.Next()).ok && c.Seen(c.Next()) <= c.plan.preMigration
      case Some(RecoveryFailed(blocked)) =>
        && c.Final(before, next) == c.Left(before, next)
        && blocked
        && (FateOf(c.fates, c.Next()).ok && c.Seen(c.Next()) > c.plan.preMigration <==> FateOf(c.fates, c.Next()).ok)
  {
    if c.Switches() {
      MigratedGrows(c.fates, c.base, c.start + 9, c.start + 11);
    } else {
      FailureReceipts(c.Failure(), c.Left(before, next), before);
    }
  }

  lemma LeftByStops(c: Course, a: Site, b: Site, next: Setup)
    requires !AllWork(c.fates, c.start, 2) && SetupOf(a) == SetupOf(b)
    requires var n := SwitchCalls(c.fates, c.start);
      && WentOn(a.runtime, b.runtime,
           !FateOf(c.fates, c.start).ok && FateOf(c.fates, c.start).up && RuntimeSurvives(c.fates, c.start, 1))
      && WentOn(a.broker, b.broker,
           && BrokerSurvives(c.fates, c.start, n)
           && (FateOf(c.fates, c.start).ok ==> !FateOf(c.fates, c.start + 1).ok && FateOf(c.fates, c.start + 1).up))
    ensures b == c.SiteLeft(a, next, c.start + SwitchCalls(c.fates, c.start))
  {
  }

  lemma LeftByInstall(c: Course, a: Site, b: Site, next: Setup)
    requires AllWork(c.fates, c.start, 2) && !AllWork(c.fates, c.start + 2, 5)
    requires SetupOf(b) == Configured(c.fates, SetupOf(a), next, c.start + 2)
    requires b.runtime.running == RuntimeInstalled(c.fates, c.start + 2, next)
    requires b.broker.running ==
      BrokerInstalled(c.fates, c.start + 2, c.start + 2 + Calls(c.fates, c.start + 2, 5), next)
    ensures b == c.SiteLeft(a, next, c.start + SwitchCalls(c.fates, c.start))
  {
    CallsOfBoth(c.fates, c.start + 2, 4, 1);
  }

  lemma LeftByCheck(c: Course, a: Site, b: Site, d: Site, next: Setup)
    requires AllWork(c.fates, c.start, 7) && SetupOf(b) == next && Idled(b, d)
    requires b.runtime.running == RuntimeInstalled(c.fates, c.start + 2, next)
    requires b.broker.running == BrokerInstalled(c.fates, c.start + 2, c.start + 7, next)
    requires var n := SwitchCalls(c.fates, c.start) - 7;
      && WentOn(b.runtime, d.runtime, RuntimeSurvives(c.fates, c.start + 7, n))
      && WentOn(b.broker, d.broker, BrokerSurvives(c.fates, c.start + 7, n))
    ensures d == c.SiteLeft(a, next, c.start + SwitchCalls(c.fates, c.start))
  {
    var n := SwitchCalls(c.fates, c.start) - 7;
    SurvivalSplits(c.fates, c.start + 6, 1, n);
  }

  /** One more call behind the switch only lets a service crash. */
  lemma OneCallLater(c: Course, site: Site, next: Setup, end: nat)
    requires end == c.start + SwitchCalls(c.fates, c.start)
    ensures c.SiteLeft(site, next, end + 1) == DriftedSite(c.SiteLeft(site, next, end), FateOf(c.fates, end).drift)
  {
    var a, b := c.SiteLeft(site, next, end), c.SiteLeft(site, next, end + 1);
    assert b.runtime.running == Crashed(a.runtime, FateOf(c.fates, end).drift.runtimeCrashes).running;
    assert b.broker.running == Crashed(a.broker, FateOf(c.fates, end).drift.brokerCrashes).running;
  }

  /** After a switch from services that ran the old setup or nothing and a completed rollback, a service runs
      another image than the old one exactly when the switch had brought it up on another image and the
      rollback's stop of it failed and left it up; it is then that new image. */
  predicate StaleExactlyWhen(c: Course, now: Site, before: Setup, next: Setup) {
    && (!RunsOnly(now.runtime, before.runtime) <==>
          next.runtime != before.runtime && c.StartsRuntime(c.Next()) && c.Failure().KeepsRuntime())
    && (!RunsOnly(now.broker, before.broker) <==>
          next.broker != before.broker && c.StartsBroker(c.Next()) && c.Failure().KeepsBroker())
    && (!RunsOnly(now.runtime, before.runtime) ==> now.runtime.running == Some(next.runtime))
    && (!RunsOnly(now.broker, before.broker) ==> now.broker.running == Some(next.broker))
  }

  lemma StaleAfterSwitch(c: Course, ready: Site, now: Site, before: Setup, next: Setup)
    requires Runs(ready, before)
    requires WasRestored(c.Failure(), c.SiteLeft(ready, next, c.Next()), now, before)
    ensures StaleExactlyWhen(c, now, before, next)
  {
  }

  // ----- A whole run -----

  /** A run of the deployer from this setup to the next, if that can be worked out, on this world from this call
      on, with so many polls before the drain's deadline; `base` is the migration version before call 0. */
  datatype Run = Run(fates: Fates, plan: Plan, base: nat, before: Setup, next: Option<Setup>, world: World, call: nat,
    polls: nat) {

    /** The yard in which the fence is asked for, and the yard once it is held. */
    function AtFence(): Fence.Yard {
      Fence.HappenAll(Fence.HappenAll(Fence.HappenAll(YardOf(world, false),
        FateOf(fates, call).drift.events), FateOf(fates, call + 1).drift.events), FateOf(fates, call + 2).drift.events)
    }

    function Behind(): Fence.Yard {
      AtFence().(exclusive := true)
    }

    /** The first call after the drain. */
    function Drained(): nat {
      call + 3 + DrainCalls(fates, plan.owner, Behind(), call + 3, polls)
    }

    predicate Locks() {
      AllWork(fates, call, 3) && Fence.MayLock(AtFence())
    }

    predicate Prepares() {
      && DrainEnds(fates, plan.owner, Behind(), call + 3, polls)
      && IsReady(fates, plan, base, Drained())
      && next.Some?
    }

    /** The run gets as far as its first service stop. */
    predicate Begins() {
      Locks() && Prepares()
    }

    function Onward(): Course {
      Course(fates, plan, base, Drained() + 9)
    }

    function Receipt(): Option<Result> {
      if Begins() then Onward().Receipt() else None
    }

    /** The switch fails and the rollback completes. */
    predicate EndsRestored() {
      Begins() && !Onward().Switches() && Onward().Failure().Restores()
    }

    /** Every command that the run issues. */
    function Commands(): seq<Step> {
      if Begins() then Onward().AllCommands(before, next.value) else []
    }

    function Final(): Setup {
      if Begins() then Onward().Final(before, next.value) else before
    }
  }

  /** The nine calls between the drain and the first stop work, and the Doctor's report, the second of them, is good. */
  predicate IsReady(fates: Fates, plan: Plan, base: nat, drained: nat) {
    && AllWork(fates, drained, 9) && FateOf(fates, drained + 1).healthy
    && Migrated(fates, base, drained + 2) <= plan.maxMigration
  }

  function Count(steps: seq<Step>, step: Step): nat {
    if steps == [] then 0 else Count(steps[1..], step) + if steps[0] == step then 1 else 0
  }

  lemma {:induction false} CountAppend(a: seq<Step>, b: seq<Step>, step: Step)
    ensures Count(a + b, step) == Count(a, step) + Count(b, step)
    decreases |a|
  {
    if a == [] {
      assert a + b == b;
    } else {
      assert (a + b)[0] == a[0] && (a + b)[1..] == a[1..] + b;
      CountAppend(a[1..], b, step);
    }
  }

  lemma {:induction false} CountAbsent(steps: seq<Step>, step: Step)
    requires step !in steps
    ensures Count(steps, step) == 0
  {
    if steps != [] { CountAbsent(steps[1..], step); }
  }

  lemma StopsAndInstalls(setup: Setup, n: nat)
    requires n <= 5
    ensures Count([StopRuntime, StopBroker] + InstallSteps(setup)[..n], StopRuntime) == 1
  {
    var stops, installs := [StopRuntime, StopBroker], InstallSteps(setup)[..n];
    CountAppend(stops, installs, StopRuntime);
    CountAbsent(installs, StopRuntime);
    assert stops[1..] == [StopBroker] && stops[1..][1..] == [];
  }

  lemma SwitchStopsOnce(c: Course, next: Setup)
    ensures Count(c.Commands(next), StopRuntime) == 1
  {
    StopsAndInstalls(next, Calls(c.fates, c.start + 2, 5));
    StopsAndInstalls(next, 0);
    assert [StopRuntime][1..] == [];
    assert [StopRuntime, StopBroker] + InstallSteps(next)[..0] == [StopRuntime, StopBroker];
  }

  lemma RecoveryStopsOnce(r: Recovery, before: Setup)
    ensures Count(r.Commands(before), StopRuntime) == if r.Permits() then 1 else 0
  {
    StopsAndInstalls(before, Calls(r.fates, r.call + 3, 5));
  }

  lemma CourseStops(c: Course, before: Setup, next: Setup)
    ensures Count(c.AllCommands(before, next), StopRuntime) == if !c.Switches() && c.Failure().Permits() then 2 else 1
  {
    SwitchStopsOnce(c, next);
    RecoveryStopsOnce(c.Failure(), before);
    CountAppend(c.Commands(next), if c.Switches() then [] else c.Failure().Commands(before), StopRuntime);
  }

  /** Over a whole run the Runtime service is told to stop once when the run gets that far, and a second time,
      for the rollback, if and only if the switch fails and the Doctor can then be read and sees no higher
      migration than planned. */
  lemma RollbackIsIssuedExactlyWhen(r: Run)
    ensures var c := r.Onward();
      var seen := Migrated(r.fates, r.base, c.Next() + 1);
      Count(r.Commands(), StopRuntime) ==
        if !r.Begins() then 0
        else if !c.Switches() && FateOf(r.fates, c.Next()).ok && seen <= r.plan.preMigration then 2
        else 1
  {
    if r.Begins() { CourseStops(r.Onward(), r.before, r.next.value); }
  }

  /** A run ends as deployed exactly when it begins, its switch works and its last two calls do. */
  lemma DeployedExactlyWhen(r: Run)
    ensures (exists m :: r.Receipt() == Some(Deployed(m))) <==>
            r.Begins() && r.Onward().Switches() && AllWork(r.fates, r.Onward().start + 10, 2)
  {
    if r.Begins() && r.Onward().Switches() && AllWork(r.fates, r.Onward().start + 10, 2) {
      assert r.Receipt() == Some(Deployed(r.Onward().Seen(r.Onward().start + 10)));
    }
  }

  lemma DeployedMeansNext(r: Run)
    requires r.Receipt().Some? && r.Receipt().value.Deployed?
    ensures r.Begins() && r.Onward().Switches() && r.Final() == r.next.value
  {
    DeployedExactlyWhen(r);
  }

  /** When every call works and every report is healthy at a supported version, the run ends as deployed if and
      only if the fence was free, the drain ends in time and the environment file names both paths. */
  lemma HealthyRunIsDeployed(r: Run)
    requires forall k :: FateOf(r.fates, k).ok && FateOf(r.fates, k).healthy
    requires forall k :: Migrated(r.fates, r.base, k) <= r.plan.maxMigration
    ensures (exists m :: r.Receipt() == Some(Deployed(m))) <==>
      && Fence.MayLock(r.AtFence())
      && DrainEnds(r.fates, r.plan.owner, r.Behind(), r.call + 3, r.polls)
      && r.next.Some?
  {
    DeployedExactlyWhen(r);
    var c := r.Onward();
    assert AllWork(r.fates, r.call, 3) && AllWork(r.fates, r.Drained(), 9);
    assert AllWork(r.fates, c.start, 9) && AllWork(r.fates, c.start + 10, 2);
  }
}
