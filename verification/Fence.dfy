/** The admission fence: new Jobs share it while they are admitted, a release holds it alone. */
module Fence {

  /** The unresolved Jobs, the admissions that hold the shared lock, and the release's exclusive lock. */
  datatype Yard = Yard(active: seq<string>, admitting: set<string>, exclusive: bool)

  /** What other processes do, in any order. An admission takes the shared lock, commits its Job
      and only then lets go of the lock; a Job that has ended leaves the list. */
  datatype Event = Enter(job: string) | Commit(job: string) | Leave(job: string) | Finish(job: string)

  function Without(jobs: seq<string>, job: string): seq<string> {
    if jobs == [] then []
    else (if jobs[0] == job then [] else [jobs[0]]) + Without(jobs[1..], job)
  }

  /** The active Jobs that a release must wait for. */
  function Blockers(active: seq<string>, owner: string): seq<string> {
    Without(active, owner)
  }

  /** An Enter while the exclusive lock is held is refused as a deployment in progress. */
  function Happen(y: Yard, e: Event): Yard {
    match e
    case Enter(job) => if y.exclusive then y else y.(admitting := y.admitting + {job})
    case Commit(job) => if job in y.admitting && job !in y.active then y.(active := y.active + [job]) else y
    case Leave(job) => y.(admitting := y.admitting - {job})
    case Finish(job) => y.(active := Without(y.active, job))
  }

  function HappenAll(y: Yard, events: seq<Event>): Yard
    decreases |events|
  {
    if events == [] then y else HappenAll(Happen(y, events[0]), events[1..])
  }

  /** The exclusive lock excludes every shared one. */
  predicate IsLockState(y: Yard) {
    y.exclusive ==> y.admitting == {}
  }

  predicate MayLock(y: Yard) {
    !y.exclusive && y.admitting == {}
  }

  predicate IsQuiet(y: Yard, owner: string) {
    Blockers(y.active, owner) == []
  }

  lemma {:induction false} WithoutMembers(jobs: seq<string>, job: string, x: string)
    ensures x in Without(jobs, job) <==> x in jobs && x != job
  {
    if jobs != [] { WithoutMembers(jobs[1..], job, x); }
  }

  /** Nothing blocks exactly when every active Job is the release's own. */
  lemma QuietMeansOwnerOnly(y: Yard, owner: string)
    ensures IsQuiet(y, owner) <==> forall x | x in y.active :: x == owner
  {
    forall x ensures x in Blockers(y.active, owner) <==> x in y.active && x != owner {
      WithoutMembers(y.active, owner, x);
    }
    if !IsQuiet(y, owner) { assert Blockers(y.active, owner)[0] in Blockers(y.active, owner); }
  }

  lemma FencedStep(y: Yard, e: Event)
    requires IsLockState(y)
    ensures IsLockState(Happen(y, e)) && Happen(y, e).exclusive == y.exclusive
    ensures y.exclusive ==> forall x | x in Happen(y, e).active :: x in y.active
  {
    if e.Finish? {
      forall x | x in Happen(y, e).active ensures x in y.active { WithoutMembers(y.active, e.job, x); }
    }
  }

  /** While the fence is held, no interleaving of admissions and completions adds a Job. */
  lemma {:induction false} FencedRun(y: Yard, events: seq<Event>)
    requires IsLockState(y)
    ensures IsLockState(HappenAll(y, events)) && HappenAll(y, events).exclusive == y.exclusive
    ensures y.exclusive ==> forall x | x in HappenAll(y, events).active :: x in y.active
    decreases |events|
  {
    if events != [] {
      FencedStep(y, events[0]);
      FencedRun(Happen(y, events[0]), events[1..]);
    }
  }

  lemma {:induction false} LockIsNotTouched(y: Yard, events: seq<Event>)
    ensures HappenAll(y, events).exclusive == y.exclusive
    decreases |events|
  {
    if events != [] { LockIsNotTouched(Happen(y, events[0]), events[1..]); }
  }

  lemma {:induction false} RunStaysQuiet(y: Yard, events: seq<Event>, owner: string)
    requires IsLockState(y) && y.exclusive && IsQuiet(y, owner)
    ensures IsQuiet(HappenAll(y, events), owner) && HappenAll(y, events).exclusive
  {
    FencedRun(y, events);
    QuietMeansOwnerOnly(y, owner);
    QuietMeansOwnerOnly(HappenAll(y, events), owner);
  }

  /** Only the release's own Job can ever be active, whatever happens next, exactly when the
      exclusive lock is held and the drain saw nothing else. */
  lemma QuietForEverExactlyWhenFenced(y: Yard, owner: string)
    requires IsLockState(y)
    ensures (forall events :: IsQuiet(HappenAll(y, events), owner)) <==> y.exclusive && IsQuiet(y, owner)
  {
    if y.exclusive && IsQuiet(y, owner) {
      forall events ensures IsQuiet(HappenAll(y, events), owner) { RunStaysQuiet(y, events, owner); }
    } else if y.exclusive {
      assert HappenAll(y, []) == y;
      assert !IsQuiet(HappenAll(y, []), owner);
    } else {
      var job := owner + "'";
      OpenFenceAdmits(y, job);
      var intrusion := [Enter(job), Commit(job)];
      QuietMeansOwnerOnly(HappenAll(y, intrusion), owner);
      assert !IsQuiet(HappenAll(y, intrusion), owner);
    }
  }

  lemma OpenFenceAdmits(y: Yard, job: string)
    requires !y.exclusive
    ensures job in HappenAll(y, [Enter(job), Commit(job)]).active
  {
    var entered := Happen(y, Enter(job));
    var events := [Enter(job), Commit(job)];
    assert events[1..] == [Commit(job)] && events[1..][1..] == [];
    assert HappenAll(y, events) == HappenAll(entered, [Commit(job)]);
    assert HappenAll(entered, [Commit(job)]) == Happen(entered, Commit(job)) by { assert [Commit(job)][1..] == []; }
  }
}
