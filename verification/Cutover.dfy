/** The release cutover: drain behind the fence, switch, and roll back when a step fails. */
module Cutover {
  import opened Types
  import opened Rollout
  import EnvFile
  import Fence

  class Deployer {
    const plan: Plan
    /** What the environment file and the release directory make of the old environment text, if anything. */
    const derive: string -> Option<Setup>
    const fates: Fates
    ghost const base: nat
    /** The number of the next call. */
    var clock: nat
    /** This deployer holds the exclusive lock. */
    var fenced: bool
    var site: Site
    var world: World
    var receipts: Receipts
    /** The drain has ended and the lock has been held ever since. */
    ghost var drained: bool
    /** The commands issued so far. */
    ghost var tried: seq<Step>

    /** The migration has come to where the calls so far have let it drift, and since the drain nobody but
        the owner is active. */
    ghost predicate Valid()
      reads this
    {
      && world.migration == Migrated(fates, base, clock)
      && Fence.IsLockState(YardOf(world, fenced))
      && (drained ==> IsFenced(world, fenced, plan.owner))
    }

    constructor (
      plan: Plan, derive: string -> Option<Setup>, fates: Fates, site: Site, world: World, receipts: Receipts)
      ensures this.plan == plan && this.derive == derive && this.fates == fates && base == world.migration && clock == 0
      ensures this.site == site && this.world == world && this.receipts == receipts && !fenced && !drained
        && tried == [] && Valid()
    {
      this.plan, this.derive, this.fates, base, clock := plan, derive, fates, world.migration, 0;
      this.site, this.world, this.receipts, fenced, drained, tried := site, world, receipts, false, false, [];
    }

    /** A call that changes nothing here itself. */
    method Pass() returns (f: Fate)
      requires Valid()
      modifies this`clock, this`world, this`site
      ensures Valid() && f == FateOf(fates, old(clock)) && clock == old(clock) + 1
      ensures site == DriftedSite(old(site), f.drift)
      ensures YardOf(world, fenced) == Fence.HappenAll(YardOf(old(world), fenced), f.drift.events)
    {
      f := FateOf(fates, clock);
      DriftKeepsFence(world, f.drift, fenced, plan.owner);
      site, world := DriftedSite(site, f.drift), Drifted(world, f.drift, fenced);
      clock := clock + 1;
    }

    method Call() returns (f: Fate)
      requires Valid()
      modifies this`clock, this`world, this`site
      ensures Valid() && f == FateOf(fates, old(clock)) && clock == old(clock) + 1
      ensures site == DriftedSite(old(site), f.drift)
    {
      f := Pass();
    }

    method Do(step: Step) returns (ok: bool)
      requires Valid()
      modifies this`clock, this`world, this`site, this`tried
      ensures Valid() && ok == FateOf(fates, old(clock)).ok && clock == old(clock) + 1
      ensures site == Effect(DriftedSite(old(site), FateOf(fates, old(clock)).drift), step, FateOf(fates, old(clock)))
      ensures tried == old(tried) + [step]
    {
      var f := Call();
      site := Effect(site, step, f);
      tried := tried + [step];
      ok := f.ok;
    }

    /** Whether the Registry is healthy, and its migration version. */
    method Doctor() returns (report: Option<(bool, nat)>)
      requires Valid()
      modifies this`clock, this`world, this`site
      ensures Valid() && clock == old(clock) + 1 && site == DriftedSite(old(site), FateOf(fates, old(clock)).drift)
      ensures report == if FateOf(fates, old(clock)).ok
        then Some((FateOf(fates, old(clock)).healthy, Migrated(fates, base, clock))) else None
    {
      var f := Pass();
      report := if f.ok then Some((f.healthy, world.migration)) else None;
    }

    /** Returns the active Jobs once only the owner is left. The deadline is a number of polls. */
    method WaitForDrain(polls: nat) returns (active: Option<seq<string>>)
      requires Valid() && fenced && !drained
      modifies this`clock, this`world, this`site, this`drained
      ensures Valid()
      ensures Idled(old(site), site)
      ensures clock == old(clock) + DrainCalls(fates, plan.owner, YardOf(old(world), fenced), old(clock), polls)
      ensures active.Some? <==> DrainEnds(fates, plan.owner, YardOf(old(world), fenced), old(clock), polls)
      ensures drained == active.Some? && (drained ==> Fence.Blockers(active.value, plan.owner) == [])
    {
      var left := polls;
      while true
        invariant Valid() && !drained
        invariant Idled(old(site), site)
        invariant clock + DrainCalls(fates, plan.owner, YardOf(world, fenced), clock, left)
                  == old(clock) + DrainCalls(fates, plan.owner, YardOf(old(world), fenced), old(clock), polls)
        invariant DrainEnds(fates, plan.owner, YardOf(world, fenced), clock, left)
                  == DrainEnds(fates, plan.owner, YardOf(old(world), fenced), old(clock), polls)
        decreases left
      {
        var f := Pass();
        if !f.ok { return None; }
        if Fence.Blockers(world.active, plan.owner) == [] {
          Fence.QuietMeansOwnerOnly(YardOf(world, fenced), plan.owner);
          drained := true;
          return Some(world.active);
        }
        if left == 0 { return None; }
        left := left - 1;
      }
    }

    /** Everything between taking the fence and the first change: the old setup, which is also on
        record, and the new one. */
    method Prepare(polls: nat, ghost next: Option<Setup>) returns (setups: Option<(Setup, Setup)>)
      requires Valid() && fenced && !drained && next == NextOf(derive, SetupOf(site).env)
      modifies this`clock, this`world, this`site, this`receipts, this`drained
      ensures Valid() && Idled(old(site), site) && receipts.result == old(receipts.result)
      ensures setups.Some? <==>
        && DrainEnds(fates, plan.owner, YardOf(old(world), fenced), old(clock), polls)
        && IsReady(fates, plan, base,
             old(clock) + DrainCalls(fates, plan.owner, YardOf(old(world), fenced), old(clock), polls))
        && next.Some?
      ensures setups.Some? ==>
        && clock == old(clock) + DrainCalls(fates, plan.owner, YardOf(old(world), fenced), old(clock), polls) + 9
        && drained && setups == Some((SetupOf(site), next.value)) && IsOnRecord(receipts, SetupOf(site), plan)
    {
      var active := WaitForDrain(polls);
      if active.None? { return None; }
      setups := Proceed(active.value, next);
    }

    /** From the drain to the first change. */
    method Proceed(active: seq<string>, ghost next: Option<Setup>) returns (setups: Option<(Setup, Setup)>)
      requires Valid() && next == NextOf(derive, SetupOf(site).env)
      modifies this`clock, this`world, this`site, this`receipts
      ensures Valid() && Idled(old(site), site) && receipts.result == old(receipts.result)
      ensures setups.Some? <==> IsReady(fates, plan, base, old(clock)) && next.Some?
      ensures setups.Some? ==>
        && clock == old(clock) + 9 && setups == Some((SetupOf(site), next.value))
        && receipts.preimage == Some((SetupOf(site).runtime, SetupOf(site).broker))
        && receipts.envPreimage == Some(SetupOf(site).env)
        && receipts.plan == Some(active)
    {
      var ok := Recheck(active);
      if !ok { return None; }
      setups := Record(next);
    }

    /** The drained plan goes on record, the Doctor is asked again and the release directory is staged. */
    method Recheck(active: seq<string>) returns (ok: bool)
      requires Valid()
      modifies this`clock, this`world, this`site, this`receipts
      ensures Valid() && Idled(old(site), site)
      ensures ok <==>
        && AllWork(fates, old(clock), 3) && FateOf(fates, old(clock) + 1).healthy
        && Migrated(fates, base, old(clock) + 2) <= plan.maxMigration
      ensures ok ==> clock == old(clock) + 3 && receipts.plan == Some(active)
      ensures receipts.result == old(receipts.result)
    {
      var f := Call();
      if !f.ok { return false; }
      receipts := receipts.(plan := Some(active));
      var report := Doctor();
      if report.None? || !report.value.0 || report.value.1 > plan.maxMigration { return false; }
      f := Call();
      ok := f.ok;
    }

    /** Reads the old setup, works out the new one and puts the old one on record. */
    method Record(ghost next: Option<Setup>) returns (setups: Option<(Setup, Setup)>)
      requires Valid() && next == NextOf(derive, SetupOf(site).env)
      modifies this`clock, this`world, this`site, this`receipts
      ensures Valid() && Idled(old(site), site)
      ensures receipts.result == old(receipts.result) && receipts.plan == old(receipts.plan)
      ensures setups.Some? <==> AllWork(fates, old(clock), 6) && next.Some?
      ensures setups.Some? ==>
        && clock == old(clock) + 6 && setups == Some((SetupOf(site), next.value))
        && receipts.preimage == Some((SetupOf(site).runtime, SetupOf(site).broker))
        && receipts.envPreimage == Some(SetupOf(site).env)
    {
      var setup := Snapshot();
      if setup.None? { return None; }
      var f := Call();  // the pipe name, the account and the launcher digest
      if !f.ok { return None; }
      setups := Derive(setup.value, next);
    }

    method Derive(setup: Setup, ghost next: Option<Setup>) returns (setups: Option<(Setup, Setup)>)
      requires Valid() && next == NextOf(derive, setup.env)
      modifies this`clock, this`world, this`site, this`receipts
      ensures Valid() && Idled(old(site), site)
      ensures receipts.result == old(receipts.result) && receipts.plan == old(receipts.plan)
      ensures setups.Some? <==> AllWork(fates, old(clock), 2) && next.Some?
      ensures setups.Some? ==>
        && clock == old(clock) + 2 && setups == Some((setup, next.value))
        && receipts.preimage == Some((setup.runtime, setup.broker)) && receipts.envPreimage == Some(setup.env)
    {
      var derived := NextOf(derive, setup.env);
      if derived.None? { return None; }
      var ok := Keep(setup);
      if !ok { return None; }
      return Some((setup, derived.value));
    }

    method Snapshot() returns (setup: Option<Setup>)
      requires Valid()
      modifies this`clock, this`world, this`site
      ensures Valid() && Idled(old(site), site)
      ensures setup == if AllWork(fates, old(clock), 3) then Some(SetupOf(site)) else None
      ensures setup.Some? ==> clock == old(clock) + 3
    {
      var f := Call();
      if !f.ok { return None; }
      var env := site.env;
      f := Call();
      if !f.ok { return None; }
      var runtime := site.runtime.configured;
      f := Call();
      if !f.ok { return None; }
      return Some(Setup(env, runtime, site.broker.configured));
    }

    method Keep(setup: Setup) returns (ok: bool)
      requires Valid()
      modifies this`clock, this`world, this`site, this`receipts
      ensures Valid() && Idled(old(site), site)
      ensures ok <==> AllWork(fates, old(clock), 2)
      ensures ok ==> clock == old(clock) + 2
      ensures ok ==> receipts.preimage == Some((setup.runtime, setup.broker)) && receipts.envPreimage == Some(setup.env)
      ensures receipts.result == old(receipts.result) && receipts.plan == old(receipts.plan)
    {
      var f := Call();
      if !f.ok { return false; }
      receipts := receipts.(preimage := Some((setup.runtime, setup.broker)));
      f := Call();
      receipts := receipts.(envPreimage := Some(Written(setup.env, f)));
      ok := f.ok;
    }

    /** Writes the environment file and both command lines. */
    method Configure(setup: Setup) returns (ok: bool)
      requires Valid()
      modifies this`clock, this`world, this`site, this`tried
      ensures Valid() && clock == old(clock) + Calls(fates, old(clock), 3)
      ensures ok <==> AllWork(fates, old(clock), 3)
      ensures SetupOf(site) == Configured(fates, SetupOf(old(site)), setup, old(clock))
      ensures WentOn(old(site).runtime, site.runtime, RuntimeSurvives(fates, old(clock), clock - old(clock)))
      ensures WentOn(old(site).broker, site.broker, BrokerSurvives(fates, old(clock), clock - old(clock)))
      ensures tried == old(tried) + InstallSteps(setup)[..Calls(fates, old(clock), 3)]
    {
      ghost var start, before := clock, tried;
      ok := Do(WriteEnv(setup.env));
      if ok {
        ok := Repoint(setup);
      }
      InstallFront(before, setup, fates, start);
    }

    method Repoint(setup: Setup) returns (ok: bool)
      requires Valid()
      modifies this`clock, this`world, this`site, this`tried
      ensures Valid() && clock == old(clock) + Calls(fates, old(clock), 2)
      ensures ok <==> AllWork(fates, old(clock), 2)
      ensures SetupOf(site) == Repointed(fates, SetupOf(old(site)), setup, old(clock))
      ensures WentOn(old(site).runtime, site.runtime, RuntimeSurvives(fates, old(clock), clock - old(clock)))
      ensures WentOn(old(site).broker, site.broker, BrokerSurvives(fates, old(clock), clock - old(clock)))
      ensures tried == if FateOf(fates, old(clock)).ok
                       then old(tried) + [SetRuntime(setup.runtime)] + [SetBroker(setup.broker)]
                       else old(tried) + [SetRuntime(setup.runtime)]
    {
      ok := Do(SetRuntime(setup.runtime));
      if !ok { return; }
      ok := Do(SetBroker(setup.broker));
    }

    /** Starts the broker, then the Runtime. */
    method StartBoth() returns (ok: bool)
      requires Valid()
      modifies this`clock, this`world, this`site, this`tried
      ensures Valid() && clock == old(clock) + Calls(fates, old(clock), 2)
      ensures ok <==> AllWork(fates, old(clock), 2)
      ensures SetupOf(site) == SetupOf(old(site))
      ensures ok ==>
        && WasStarted(old(site).runtime, site.runtime, site.runtime.configured, RuntimeSurvives(fates, old(clock), 2))
        && WasStarted(old(site).broker, site.broker, site.broker.configured, BrokerSurvives(fates, old(clock), 2))
      ensures old(site).runtime.running.None? ==>
        (site.runtime.running ==
          if FateOf(fates, old(clock)).ok && GoesUp(FateOf(fates, old(clock) + 1)) then Some(site.runtime.configured)
            else None)
      ensures old(site).broker.running.None? ==>
        (site.broker.running ==
          if GoesUp(FateOf(fates, old(clock))) && BrokerSurvives(fates, old(clock) + 1, clock - (old(clock) + 1))
          then Some(site.broker.configured) else None)
      ensures tried == if FateOf(fates, old(clock)).ok then old(tried) + [StartBroker] + [StartRuntime]
        else old(tried) + [StartBroker]
    {
      ok := Do(StartBroker);
      if !ok { return; }
      ok := Do(StartRuntime);
    }

    /** Configures a setup and starts both services on it. */
    method Install(setup: Setup) returns (ok: bool)
      requires Valid()
      modifies this`clock, this`world, this`site, this`tried
      ensures Valid() && clock == old(clock) + Calls(fates, old(clock), 5)
      ensures ok <==> AllWork(fates, old(clock), 5)
      ensures SetupOf(site) == Configured(fates, SetupOf(old(site)), setup, old(clock))
      ensures ok ==>
        && WasStarted(old(site).runtime, site.runtime, setup.runtime, RuntimeSurvives(fates, old(clock), 5))
        && WasStarted(old(site).broker, site.broker, setup.broker, BrokerSurvives(fates, old(clock), 5))
      ensures old(site).runtime.running.None? ==> site.runtime.running == RuntimeInstalled(fates, old(clock), setup)
      ensures old(site).broker.running.None? ==> site.broker.running == BrokerInstalled(fates, old(clock), clock, setup)
      ensures tried == old(tried) + InstallSteps(setup)[..Calls(fates, old(clock), 5)]
    {
      ghost var start, before := clock, tried;
      CallsOfBoth(fates, clock, 3, 2);
      SurvivalSplits(fates, clock, 3, 2);
      ok := Configure(setup);
      if !ok { return; }
      ok := StartBoth();
      InstallBack(before, setup, fates, start);
    }

    /** The self-check of the live binary against the candidate's, and the Doctor's report. */
    method CheckRelease() returns (ok: bool)
      requires Valid()
      modifies this`clock, this`world, this`site
      ensures Valid() && Idled(old(site), site)
      ensures clock == old(clock) + if FateOf(fates, old(clock)).ok && FateOf(fates, old(clock)).healthy then 2 else 1
      ensures WentOn(old(site).runtime, site.runtime, RuntimeSurvives(fates, old(clock), clock - old(clock)))
      ensures WentOn(old(site).broker, site.broker, BrokerSurvives(fates, old(clock), clock - old(clock)))
      ensures ok <==>
        && AllWork(fates, old(clock), 2) && FateOf(fates, old(clock)).healthy && FateOf(fates, old(clock) + 1).healthy
        && Migrated(fates, base, old(clock) + 2) <= plan.maxMigration
    {
      var f := Call();
      if !f.ok || !f.healthy { return false; }
      var report := Doctor();
      ok := report.Some? && report.value.0 && report.value.1 <= plan.maxMigration;
    }

    /** The switch. It goes as far as the first of its nine calls that fails; meanwhile nothing touches the fence. */
    method Switch(ghost c: Course, next: Setup) returns (ok: bool)
      requires Valid() && c == Course(fates, plan, base, clock)
      modifies this`clock, this`world, this`site, this`tried
      ensures Valid() && clock == c.start + SwitchCalls(fates, c.start) && (ok <==> c.Switches())
      ensures site == c.SiteLeft(old(site), next, clock)
      ensures ok ==> SetupOf(site) == next && Runs(site, next)
      ensures tried == old(tried) + c.Commands(next)
    {
      ghost var a, before := site, tried;
      ok := StopFirst(c, next);
      if !ok { return; }
      SwitchBack(before, next, fates, c.start);
      ok := SwitchOn(c, a, next);
    }

    /** The switch from the moment at which both services are down. */
    method SwitchOn(ghost c: Course, ghost a: Site, next: Setup) returns (ok: bool)
      requires Valid() && c == Course(fates, plan, base, c.start) && clock == c.start + 2 && AllWork(fates, c.start, 2)
      requires SetupOf(site) == SetupOf(a) && site.runtime.running.None? && site.broker.running.None?
      modifies this`clock, this`world, this`site, this`tried
      ensures Valid() && clock == c.start + SwitchCalls(fates, c.start) && (ok <==> c.Switches())
      ensures site == c.SiteLeft(a, next, clock)
      ensures ok ==> SetupOf(site) == next && Runs(site, next)
      ensures tried == old(tried) + InstallSteps(next)[..Calls(fates, c.start + 2, 5)]
    {
      ok := Install(next);
      ghost var b := site;
      if !ok {
        LeftByInstall(c, a, site, next);
        return;
      }
      ok := CheckRelease();
      LeftByCheck(c, a, b, site, next);
    }

    /** The two stops of the switch, whose failure ends it. */
    method StopFirst(ghost c: Course, ghost next: Setup) returns (ok: bool)
      requires Valid() && c == Course(fates, plan, base, clock)
      modifies this`clock, this`world, this`site, this`tried
      ensures Valid() && SetupOf(site) == SetupOf(old(site)) && (ok <==> AllWork(fates, c.start, 2))
      ensures ok ==> clock == c.start + 2 && site.runtime.running.None? && site.broker.running.None?
      ensures !ok ==> clock == c.start + SwitchCalls(fates, c.start) && site == c.SiteLeft(old(site), next, clock)
      ensures tried == if FateOf(fates, c.start).ok then old(tried) + [StopRuntime] + [StopBroker]
        else old(tried) + [StopRuntime]
    {
      ghost var a := site;
      ok := StopBoth();
      if !ok { LeftByStops(c, a, site, next); }
    }

    method StopBoth() returns (ok: bool)
      requires Valid()
      modifies this`clock, this`world, this`site, this`tried
      ensures Valid() && SetupOf(site) == SetupOf(old(site))
      ensures clock == old(clock) + if FateOf(fates, old(clock)).ok then 2 else 1
      ensures ok <==> AllWork(fates, old(clock), 2)
      ensures WentOn(old(site).runtime, site.runtime,
        !FateOf(fates, old(clock)).ok && FateOf(fates, old(clock)).up && RuntimeSurvives(fates, old(clock), 1))
      ensures WentOn(old(site).broker, site.broker,
        && BrokerSurvives(fates, old(clock), clock - old(clock))
        && (FateOf(fates, old(clock)).ok ==> !FateOf(fates, old(clock) + 1).ok && FateOf(fates, old(clock) + 1).up))
      ensures tried == if FateOf(fates, old(clock)).ok then old(tried) + [StopRuntime] + [StopBroker]
        else old(tried) + [StopRuntime]
    {
      ok := Do(StopRuntime);
      if !ok { return; }
      ok := Do(StopBroker);
    }

    /** Two stops whose failures nobody looks at. */
    method TryToStop()
      requires Valid()
      modifies this`clock, this`world, this`site, this`tried
      ensures Valid() && clock == old(clock) + 2 && SetupOf(site) == SetupOf(old(site))
      ensures tried == old(tried) + [StopRuntime] + [StopBroker]
      ensures WentOn(old(site).runtime, site.runtime,
        !FateOf(fates, old(clock)).ok && FateOf(fates, old(clock)).up && RuntimeSurvives(fates, old(clock), 2))
      ensures WentOn(old(site).broker, site.broker,
        !FateOf(fates, old(clock) + 1).ok && FateOf(fates, old(clock) + 1).up && BrokerSurvives(fates, old(clock), 2))
    {
      var _ := Do(StopRuntime);
      var _ := Do(StopBroker);
    }

    /** Puts the old setup back. A failed stop is not looked at, and a service that is up is not started again:
        exactly then does the service go on running whatever it ran before. */
    method Rollback(before: Setup) returns (ok: bool)
      requires Valid()
      modifies this`clock, this`world, this`site, this`tried
      ensures Valid() && clock == old(clock) + if ok then 7 else 2 + Calls(fates, old(clock) + 2, 5)
      ensures ok <==> AllWork(fates, old(clock) + 2, 5)
      ensures SetupOf(site) == Configured(fates, SetupOf(old(site)), before, old(clock) + 2)
      ensures ok ==> StaysStaleBoth(fates, old(clock), 7, old(site), site, before)
      ensures tried == old(tried) + RollbackSteps(fates, old(clock), before)
    {
      ghost var a, start, issued := site, clock, tried;
      TryToStop();
      ghost var b := site;
      CallsOfWorking(fates, clock, 5);
      ok := Install(before);
      RollbackTrace(issued, before, fates, start);
      if ok { StaleFromStops(fates, start, a, b, site, before); }
    }

    /** After a failed switch: restore, unless the Doctor is unreadable or the Registry has moved on. What is
        published, configured and commanded is what the recovery's course says. Commands are issued exactly when
        the Doctor can be read and the migration that it then finds is no higher than planned. */
    method Recover(ghost r: Recovery, before: Setup) returns (result: Option<Result>)
      requires Valid() && r == Recovery(fates, plan, base, clock)
      modifies this`clock, this`world, this`site, this`receipts, this`tried
      ensures Valid() && clock == r.call + r.Length() && result == r.Receipt()
      ensures SetupOf(site) == r.Final(SetupOf(old(site)), before)
      ensures tried == old(tried) + r.Commands(before)
      ensures tried != old(tried) <==>
        && FateOf(fates, old(clock)).ok
        && old(world).migration + FateOf(fates, old(clock)).drift.migrations <= plan.preMigration
      ensures receipts == Published(old(receipts), result, r.Restores() && FateOf(fates, r.call + 8).ok)
      ensures r.Restores() ==> WasRestored(r, old(site), site, before)
    {
      ghost var a := site;
      var report := Doctor();
      if report.Some? && report.value.1 <= plan.preMigration {
        ghost var b := site;
        result := Restore(before);
        if r.Restores() { RestoredSinceCall(r, a, b, site, before); }
      } else {
        result := Publish(RecoveryFailed(true));
      }
    }

    /** A rollback and its receipts. */
    method Restore(before: Setup) returns (result: Option<Result>)
      requires Valid()
      modifies this`clock, this`world, this`site, this`receipts, this`tried
      ensures Valid() && clock == old(clock) + RestoreCalls(fates, old(clock))
        && result == RestoreReceipt(fates, old(clock))
      ensures SetupOf(site) == Configured(fates, SetupOf(old(site)), before, old(clock) + 2)
      ensures tried == old(tried) + RollbackSteps(fates, old(clock), before)
      ensures receipts ==
        Published(old(receipts), result, AllWork(fates, old(clock) + 2, 5) && FateOf(fates, old(clock) + 7).ok)
      ensures AllWork(fates, old(clock) + 2, 5) ==>
        StaysStaleBoth(fates, old(clock), clock - old(clock), old(site), site, before)
    {
      ghost var a, start := site, clock;
      var ok := Rollback(before);
      if !ok {
        result := Publish(RollbackFailed);
        return;
      }
      ghost var b := site;
      result := ReportRollback();
      StaleBothGoesOn(fates, start, clock - start, a, b, site, before);
    }

    method ReportRollback() returns (result: Option<Result>)
      requires Valid()
      modifies this`clock, this`world, this`site, this`receipts
      ensures Valid() && SetupOf(site) == SetupOf(old(site))
      ensures clock == old(clock) + if FateOf(fates, old(clock)).ok then 2 else 1
      ensures result == if AllWork(fates, old(clock), 2) then Some(RolledBack) else None
      ensures receipts == Published(old(receipts), result, FateOf(fates, old(clock)).ok)
      ensures WentOn(old(site).runtime, site.runtime, RuntimeSurvives(fates, old(clock), clock - old(clock)))
      ensures WentOn(old(site).broker, site.broker, BrokerSurvives(fates, old(clock), clock - old(clock)))
    {
      var f := Call();
      if !f.ok { return None; }
      receipts := receipts.(restored := true);
      result := Publish(RolledBack);
    }

    /** Writes result.json by rename: it holds the new result, or what it held before. */
    method Publish(value: Result) returns (result: Option<Result>)
      requires Valid()
      modifies this`clock, this`world, this`site, this`receipts
      ensures Valid() && clock == old(clock) + 1 && site == DriftedSite(old(site), FateOf(fates, old(clock)).drift)
      ensures result == if FateOf(fates, old(clock)).ok then Some(value) else None
      ensures receipts == Published(old(receipts), result, false)
    {
      var f := Call();
      if !f.ok { return None; }
      receipts := receipts.(result := Some(value));
      result := Some(value);
    }

    /** From the first service stop to the receipt. */
    method Release(ghost c: Course, before: Setup, next: Setup) returns (result: Option<Result>)
      requires Valid() && drained && before == SetupOf(site) && c == Course(fates, plan, base, clock)
      modifies this`clock, this`world, this`site, this`receipts, this`fenced, this`drained, this`tried
      ensures Valid() && result == c.Receipt() && SetupOf(site) == c.Final(before, next)
      ensures tried == old(tried) + c.AllCommands(before, next)
      ensures c.Switches() ==> Runs(site, next)
      ensures !c.Switches() && c.Failure().Restores() ==>
        WasRestored(c.Failure(), c.SiteLeft(old(site), next, c.Next()), site, before)
      ensures receipts ==
        Published(old(receipts), result, !c.Switches() && c.Failure().Restores() && FateOf(fates, c.Next() + 8).ok)
    {
      var ok := SwitchAndUnlock(c, next);
      result := Finish(c, ok, before);
    }

    /** From the end of the switch to the receipt. */
    method Finish(ghost c: Course, ok: bool, before: Setup) returns (result: Option<Result>)
      requires Valid() && c == Course(fates, plan, base, c.start) && clock == c.Next() && ok == c.Switches()
      modifies this`clock, this`world, this`site, this`receipts, this`tried
      ensures Valid() && result == c.Receipt()
      ensures ok ==> Idled(old(site), site)
      ensures !ok ==> SetupOf(site) == c.Failure().Final(SetupOf(old(site)), before)
      ensures !ok && c.Failure().Restores() ==> WasRestored(c.Failure(), old(site), site, before)
      ensures tried == old(tried) + if ok then [] else c.Failure().Commands(before)
      ensures receipts ==
        Published(old(receipts), result, !ok && c.Failure().Restores() && FateOf(fates, c.Next() + 8).ok)
    {
      if ok {
        result := Confirm();
      } else {
        result := Recover(c.Failure(), before);
      }
    }

    method SwitchAndUnlock(ghost c: Course, next: Setup) returns (ok: bool)
      requires Valid() && c == Course(fates, plan, base, clock)
      modifies this`clock, this`world, this`site, this`fenced, this`drained, this`tried
      ensures Valid() && clock == c.Next() && (ok <==> c.Switches())
      ensures site == c.SiteLeft(old(site), next, c.Next()) && SetupOf(site) == c.Left(SetupOf(old(site)), next)
      ensures ok ==> SetupOf(site) == next && Runs(site, next)
      ensures tried == old(tried) + c.Commands(next)
    {
      ghost var left := site;
      ok := Switch(c, next);
      OneCallLater(c, left, next, clock);
      var f := Call();
      drained := false;
      if f.ok { fenced := false; }
    }

    method Confirm() returns (result: Option<Result>)
      requires Valid()
      modifies this`clock, this`world, this`site, this`receipts
      ensures Valid() && Idled(old(site), site)
      ensures result ==
        if AllWork(fates, old(clock), 2) then Some(Deployed(Migrated(fates, base, old(clock) + 1))) else None
      ensures receipts == Published(old(receipts), result, false)
    {
      var report := Doctor();
      if report.None? { return None; }
      result := Publish(Deployed(report.value.1));
    }

    /** The run is this deployer's. */
    ghost predicate IsOf(r: Run)
      reads this
    {
      r.fates == fates && r.plan == plan && r.base == base
    }

    /** The whole release. What is published and what is configured in the end is what the run's course says,
        whatever fails and wherever; a run without a receipt leaves the previous one, and the fence is free
        afterwards. */
    method Apply(polls: nat) returns (result: Option<Result>)
      requires Valid() && !fenced && !drained
      modifies this
      ensures Valid() && !fenced && !drained
      ensures var before := SetupOf(old(site));
        var r := Run(fates, plan, base, before, NextOf(derive, before.env), old(world), old(clock), polls);
        && result == r.Receipt() && SetupOf(site) == r.Final() && tried == old(tried) + r.Commands()
        && receipts.result == (if result.Some? then result else old(receipts).result)
        && (result == Some(RolledBack) ==> receipts.restored)
        && (r.Begins() ==> IsOnRecord(receipts, before, plan))
        && (r.Begins() && r.Onward().Switches() ==> Runs(site, r.next.value))
        && (r.Begins() && r.EndsRestored() && Runs(old(site), before) ==>
              StaleExactlyWhen(r.Onward(), site, before, r.next.value))
    {
      ghost var before := SetupOf(site);
      ghost var r := Run(fates, plan, base, before, NextOf(derive, before.env), world, clock, polls);
      var setups := Begin(polls, r);
      if setups.Some? {
        result := Continue(r, setups.value.0, setups.value.1);
      } else {
        result := None;
      }
      // The handle is closed on every way out, which drops the lock.
      drained, fenced := false, false;
    }

    /** The release of a candidate. When it is reported as deployed, the Runtime and the broker are each configured
        to the candidate's image for it, whatever runs was started from that image, and the environment file
        is the old one with the candidate's two paths, which reads back as intended if both survive the file. */
    method Deploy(candidate: Candidate, polls: nat) returns (result: Option<Result>)
      requires Valid() && !fenced && !drained && forall env :: NextOf(derive, env) == NewSetup(env, candidate)
      modifies this
      ensures result.Some? && result.value.Deployed? ==>
        && site.runtime.configured == candidate.runtimeImage && site.broker.configured == candidate.brokerImage
        && (site.runtime.running == None || site.runtime.running == Some(candidate.runtimeImage))
        && (site.broker.running == None || site.broker.running == Some(candidate.brokerImage))
        && EnvFile.Rewrite(old(site).env, candidate.launcher, candidate.broker) == EnvFile.Ok(site.env)
        && (EnvFile.Parse(old(site).env).Ok? ==>
              var settings := EnvFile.Parse(old(site).env).value;
              EnvFile.IsClean(candidate.launcher) && EnvFile.IsClean(candidate.broker) ==>
                EnvFile.Parse(site.env) == EnvFile.Ok(
                  settings[EnvFile.LAUNCHER_KEY := candidate.launcher][EnvFile.BROKER_KEY := candidate.broker]))
    {
      ghost var before := SetupOf(site);
      ghost var r := Run(fates, plan, base, before, NextOf(derive, before.env), world, clock, polls);
      assert NextOf(derive, before.env) == NewSetup(before.env, candidate);
      result := Apply(polls);
      if result.Some? && result.value.Deployed? {
        DeployedMeansNext(r);
        DeployedReadsBack(before.env, candidate);
      }
    }

    /** From the first change to the receipt. */
    method Continue(ghost r: Run, before: Setup, next: Setup) returns (result: Option<Result>)
      requires Valid() && drained && IsOf(r) && r.Begins() && clock == r.Onward().start
      requires before == r.before == SetupOf(site) && r.next == Some(next)
      modifies this`clock, this`world, this`site, this`receipts, this`fenced, this`drained, this`tried
      ensures Valid() && result == r.Receipt() && SetupOf(site) == r.Final() && tried == old(tried) + r.Commands()
      ensures r.Onward().Switches() ==> Runs(site, next)
      ensures receipts == Published(old(receipts), result, r.EndsRestored() && FateOf(fates, r.Onward().Next() + 8).ok)
      ensures r.EndsRestored() && Runs(old(site), before) ==> StaleExactlyWhen(r.Onward(), site, before, next)
    {
      ghost var ready := site;
      result := Release(r.Onward(), before, next);
      if r.EndsRestored() && Runs(ready, before) { StaleAfterSwitch(r.Onward(), ready, site, before, next); }
    }

    /** From the first call to the first change. */
    method Begin(polls: nat, ghost r: Run) returns (setups: Option<(Setup, Setup)>)
      requires Valid() && !fenced && !drained && IsOf(r) && r.world == world && r.call == clock && r.polls == polls
      requires r.before == SetupOf(site) && r.next == NextOf(derive, SetupOf(site).env)
      modifies this`clock, this`world, this`site, this`receipts, this`fenced, this`drained
      ensures Valid() && Idled(old(site), site) && receipts.result == old(receipts).result
      ensures setups.Some? <==> r.Begins()
      ensures setups.Some? ==>
        && drained && clock == r.Onward().start && setups == Some((r.before, r.next.value))
        && IsOnRecord(receipts, r.before, plan)
    {
      var locked := Lock(r);
      if !locked { return None; }
      setups := Prepare(polls, r.next);
    }

    /** The request and the plan go on record, and the exclusive lock is tried once. */
    method Lock(ghost r: Run) returns (locked: bool)
      requires Valid() && !fenced && !drained && IsOf(r) && r.world == world && r.call == clock
      modifies this`clock, this`world, this`site, this`receipts, this`fenced
      ensures Valid() && fenced == locked && Idled(old(site), site) && receipts.result == old(receipts).result
      ensures locked <==> r.Locks()
      ensures locked ==> clock == r.call + 3 && YardOf(world, fenced) == r.Behind()
    {
      var f := Pass();
      if !f.ok { return false; }
      f := Pass();
      if !f.ok { return false; }
      receipts := receipts.(plan := Some(plan.activeAtPreflight));
      f := Pass();
      if !f.ok || !Fence.MayLock(YardOf(world, fenced)) { return false; }
      fenced := true;
      locked := true;
    }
  }

  // ----- Two runs with a receipt that says too much or too little -----

  const CALM := Drift(false, false, 0, [])
  const WORKS := Fate(true, true, "", true, CALM)

  /** Everything works except that the self-check of the live binary, call 20, comes out unhealthy, and that
      one later call fails. */
  function FailingAt(call: nat): Fates {
    Fates(
      seq(24, i =>
        if i == 20 then WORKS.(healthy := false) else if i == call then WORKS.(ok := false) else WORKS),
      WORKS)
  }

  function QuietRun(fates: Fates, before: Setup, next: Setup): Run {
    Run(fates, Plan("owner", 0, 0, []), 0, before, Some(next), World(0, [], {}), 0, 0)
  }

  lemma QuietRunBegins(call: nat, before: Setup, next: Setup)
    requires 22 <= call < 24
    ensures var r := QuietRun(FailingAt(call), before, next);
      && r.Begins() && r.Onward().start == 13 && !r.Onward().Switches()
      && r.Onward().Next() == 22 && r.Onward().StartsRuntime(22)
  {
    var r := QuietRun(FailingAt(call), before, next);
    assert r.Behind() == Fence.Yard([], {}, true);
    assert r.Drained() == 4;
    NothingMigrates(r.fates, 6);
  }

  lemma {:induction false} NothingMigrates(fates: Fates, call: nat)
    requires forall k | 0 <= k < call :: FateOf(fates, k).drift == CALM
    ensures Migrated(fates, 0, call) == 0
  {
    if call > 0 { NothingMigrates(fates, call - 1); }
  }

  /** For every environment file that names both paths there is a run that publishes `rolled_back` while the
      Runtime service still runs the new image: its stop, call 23, fails and leaves it up. */
  method StaleImageAfterRollback(
    env: string, image: string, candidate: Candidate) returns (d: Deployer, result: Option<Result>)
    requires NewSetup(env, candidate).Some? && candidate.runtimeImage != image
    ensures result == Some(RolledBack) && d.receipts.result == result
    ensures d.site.runtime == Service(image, Some(candidate.runtimeImage))
  {
    var up := Service(image, Some(image));
    d := new Deployer(Plan("owner", 0, 0, []), env_ => NewSetup(env_, candidate), FailingAt(23), Site(env, up, up),
      World(0, [], {}), Receipts(None, None, None, false, None));
    ghost var before := SetupOf(d.site);
    ghost var r := QuietRun(d.fates, before, NewSetup(env, candidate).value);
    QuietRunBegins(23, before, r.next.value);
    StaleCourse(r.Onward(), before, r.next.value);
    result := d.Apply(0);
  }

  lemma StaleCourse(c: Course, before: Setup, next: Setup)
    requires c.fates == FailingAt(23) && c.plan == Plan("owner", 0, 0, []) && c.base == 0 && c.start == 13
      && !c.Switches() && c.Next() == 22
    ensures c.Receipt() == Some(RolledBack) && c.Failure().Restores() && c.Failure().KeepsRuntime()
    ensures c.Final(before, next) == before
  {
    NothingMigrates(c.fates, 23);
  }

  /** And one that publishes a `recovery_failed` which blames the migration, although the Registry has not
      migrated: the Doctor, call 22, cannot be read. */
  method MigrationBlamedForAnUnreadableDoctor(
    env: string, image: string, candidate: Candidate) returns (d: Deployer, result: Option<Result>)
    requires NewSetup(env, candidate).Some?
    ensures result == Some(RecoveryFailed(true)) && d.receipts.result == result
    ensures d.world.migration <= d.plan.preMigration
  {
    var up := Service(image, Some(image));
    d := new Deployer(Plan("owner", 0, 0, []), env_ => NewSetup(env_, candidate), FailingAt(22), Site(env, up, up),
      World(0, [], {}), Receipts(None, None, None, false, None));
    ghost var before := SetupOf(d.site);
    ghost var r := QuietRun(d.fates, before, NewSetup(env, candidate).value);
    QuietRunBegins(22, before, r.next.value);
    BlamingCourse(r.Onward());
    result := d.Apply(0);
    FailingRunIsCalm(22, d.clock);
  }

  lemma FailingRunIsCalm(fail: nat, call: nat)
    ensures Migrated(FailingAt(fail), 0, call) == 0
  {
    NothingMigrates(FailingAt(fail), call);
  }

  lemma BlamingCourse(c: Course)
    requires c.fates == FailingAt(22) && c.plan == Plan("owner", 0, 0, []) && c.base == 0 && c.start == 13
      && !c.Switches() && c.Next() == 22
    ensures c.Receipt() == Some(RecoveryFailed(true))
  {
  }

  /** The Runtime that starts on the new setup reads its old settings with exactly the two paths
      replaced, if and only if both paths survive the file. */
  lemma NewSetupReadsBack(before: string, candidate: Candidate)
    requires EnvFile.Parse(before).Ok? && NewSetup(before, candidate).Some?
    ensures EnvFile.Parse(NewSetup(before, candidate).value.env)
              == EnvFile.Ok(EnvFile.Parse(before).value[
                   EnvFile.LAUNCHER_KEY := candidate.launcher][EnvFile.BROKER_KEY := candidate.broker])
            <==> EnvFile.IsClean(candidate.launcher) && EnvFile.IsClean(candidate.broker)
  {
    EnvFile.RewriteThenParse(before, candidate.launcher, candidate.broker);
  }

  lemma DeployedReadsBack(before: string, candidate: Candidate)
    requires NewSetup(before, candidate).Some?
    ensures var after := NewSetup(before, candidate).value;
      && after.runtime == candidate.runtimeImage && after.broker == candidate.brokerImage
      && EnvFile.Rewrite(before, candidate.launcher, candidate.broker) == EnvFile.Ok(after.env)
      && (EnvFile.Parse(before).Ok? && EnvFile.IsClean(candidate.launcher) && EnvFile.IsClean(candidate.broker) ==>
            EnvFile.Parse(after.env) == EnvFile.Ok(EnvFile.Parse(before).value[
              EnvFile.LAUNCHER_KEY := candidate.launcher][EnvFile.BROKER_KEY := candidate.broker]))
  {
    if EnvFile.Parse(before).Ok? { NewSetupReadsBack(before, candidate); }
  }
}
