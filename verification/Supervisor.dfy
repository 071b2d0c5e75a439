/** Recovery verdicts: what the Runtime concludes about an Attempt from the identity it
    recorded and what it can still observe.
 */
module Supervisor {

  import opened Types

  datatype Result<+T> = Ok(value: T) | Err(error: string)

  datatype Disposition = StillRunning | Terminal(state: AttemptState) | LostTrack | OrphanedBy(reason: string)

  predicate StartsWith(s: string, prefix: string) {
    |prefix| <= |s| && s[..|prefix|] == prefix
  }

  predicate EndsWith(s: string, suffix: string) {
    |suffix| <= |s| && s[|s| - |suffix|..] == suffix
  }

  // --------------------------------------------------------- Windows launcher

  datatype LauncherOwner = LauncherOwner(
    processId: nat, creationTime: nat, imageDigest: string, jobName: string, startEvidenceDigest: string)

  datatype LauncherObservation = LauncherObservation(alive: bool, creationTime: Option<nat>)

  predicate CompleteOwner(owner: LauncherOwner) {
    && owner.processId != 0 && owner.creationTime != 0
    && owner.jobName != "" && StartsWith(owner.jobName, "Ordivon.")
    && IsSha256Digest(owner.imageDigest) && IsSha256Digest(owner.startEvidenceDigest)
  }

  function ClassifyWindowsLauncher(
    owner: LauncherOwner, seen: LauncherObservation, intent: TerminationIntent): Result<Disposition>
  {
    if !CompleteOwner(owner) then Err("persisted Windows launcher owner identity is incomplete")
    else if seen.alive then
      if seen.creationTime != Some(owner.creationTime) then
        Ok(OrphanedBy("launcher process creation identity does not match persisted owner"))
      else Ok(StillRunning)
    else Ok(Terminal(match intent
                     case StopRequested => Cancelled
                     case DeadlineExceeded => TimedOut
                     case Natural => Failed))
  }

  // -------------------------------------------------------------- Linux units

  datatype UnitState = UnitRunning | UnitTerminal | UnitNotFound

  datatype Identity = Identity(
    bootId: string, unitName: string, invocationId: string, controlGroup: string,
    mainPid: nat, startIdentity: string)

  datatype Observation = Observation(
    bootId: string, unitState: UnitState, invocationId: Option<string>, controlGroup: Option<string>,
    mainPid: Option<nat>, mainStartIdentity: Option<string>,
    recordedPidAlive: bool, recordedPidStartIdentity: Option<string>,
    result: Option<string>, execMainCode: Option<int>, execMainStatus: Option<int>)

  predicate CompleteIdentity(id: Identity) {
    && id.bootId != "" && id.invocationId != "" && id.startIdentity != "" && id.mainPid != 0
    && EndsWith(id.unitName, ".service") && StartsWith(id.controlGroup, "/")
  }

  function RunningMismatch(id: Identity, seen: Observation): Option<string> {
    if seen.invocationId != Some(id.invocationId) then Some("invocationId")
    else if seen.controlGroup != Some(id.controlGroup) then Some("controlGroup")
    else if seen.mainStartIdentity != Some(id.startIdentity) then Some("mainProcessStartIdentity")
    else if seen.mainPid != Some(id.mainPid) then Some("mainPid")
    else None
  }

  function TerminalMismatch(id: Identity, seen: Observation): Option<string> {
    if seen.invocationId != Some(id.invocationId) then Some("invocationId")
    else if seen.controlGroup.Some? && seen.controlGroup.value != id.controlGroup then Some("controlGroup")
    else None
  }

  function TerminalState(intent: TerminationIntent, seen: Observation): AttemptState {
    match intent
    case StopRequested => Cancelled
    case DeadlineExceeded => TimedOut
    case Natural =>
      if seen.result == Some("success") || (seen.execMainCode == Some(1) && seen.execMainStatus == Some(0))
      then Succeeded else Failed
  }

  function ClassifySupervisor(id: Identity, seen: Observation, intent: TerminationIntent): Result<Disposition> {
    if !CompleteIdentity(id) then Err("persisted supervisor identity is incomplete")
    else if seen.bootId != id.bootId then Ok(LostTrack)
    else match seen.unitState
      case UnitRunning =>
        (match RunningMismatch(id, seen)
         case Some(field) => Ok(OrphanedBy(field + " does not match persisted supervisor identity"))
         case None => Ok(StillRunning))
      case UnitTerminal =>
        (match TerminalMismatch(id, seen)
         case Some(field) => Ok(OrphanedBy(field + " does not match persisted supervisor identity"))
         case None => Ok(Terminal(TerminalState(intent, seen))))
      case UnitNotFound =>
        if seen.recordedPidAlive && seen.recordedPidStartIdentity == Some(id.startIdentity) then
          Ok(OrphanedBy("recorded process identity is alive but supervisor unit is missing"))
        else match intent
          case StopRequested => Ok(Terminal(Cancelled))
          case DeadlineExceeded => Ok(Terminal(TimedOut))
          case Natural => Ok(LostTrack)
  }

  // ---------------------------------------------------------------- the world

  /** What systemd holds under the Attempt's unit name. */
  datatype Unit = NotLoaded
    | Loaded(invocation: string, controlGroup: string, mainPid: nat, active: bool, ending: Ending)

  /** How a unit ended: its result and the code and status of its main process, as far as systemd knows them. */
  datatype Ending = Ending(result: string, code: Option<int>, status: Option<int>)

  /** One machine over time. Process numbers are reused; boot ids, invocation ids and
      process start identities are not, which `used*` records. */
  datatype World = World(
    bootId: string, unit: Unit, processes: map<nat, string>,
    usedBoots: set<string>, usedInvocations: set<string>, usedStarts: set<string>)

  datatype Happening =
    | Spawns(pid: nat, start: string)
    | Exits(pid: nat)
    | UnitStarts(invocation: string, controlGroup: string, mainPid: nat)
    | UnitEnds(ending: Ending)
    | UnitUnloads
    | Reboots(boot: string)

  predicate Possible(w: World, h: Happening) {
    match h
    case Spawns(pid, start) => pid !in w.processes && start !in w.usedStarts
    case Exits(pid) => pid in w.processes
    case UnitStarts(invocation, _, mainPid) =>
      !(w.unit.Loaded? && w.unit.active) && invocation !in w.usedInvocations && mainPid in w.processes
    case UnitEnds(_) => w.unit.Loaded? && w.unit.active
    case UnitUnloads => w.unit.Loaded? && !w.unit.active
    case Reboots(boot) => boot !in w.usedBoots
  }

  function Next(w: World, h: Happening): World
    requires Possible(w, h)
  {
    match h
    case Spawns(pid, start) =>
      w.(processes := w.processes[pid := start], usedStarts := w.usedStarts + {start})
    case Exits(pid) => w.(processes := w.processes - {pid})
    case UnitStarts(invocation, controlGroup, mainPid) =>
      w.(unit := Loaded(invocation, controlGroup, mainPid, true, Ending("", None, None)),
         usedInvocations := w.usedInvocations + {invocation})
    case UnitEnds(ending) => w.(unit := w.unit.(active := false, ending := ending))
    case UnitUnloads => w.(unit := NotLoaded)
    case Reboots(boot) =>
      w.(bootId := boot, unit := NotLoaded, processes := map[], usedBoots := w.usedBoots + {boot})
  }

  /** `later` follows from `earlier` by some happenings. */
  ghost predicate Follows(earlier: World, later: World, course: seq<Happening>)
    decreases |course|
  {
    if course == [] then earlier == later
    else Possible(earlier, course[0]) && Follows(Next(earlier, course[0]), later, course[1..])
  }

  /** What the three reads of one observation give: the unit at one moment, the boot id
      at a later one, the process table at a still later one. */
  function Observe(id: Identity, atUnit: World, atBoot: World, atProcesses: World): Observation {
    var pid := if atUnit.unit.Loaded? && atUnit.unit.mainPid > 0 then Some(atUnit.unit.mainPid) else None;
    Observation(
      atBoot.bootId,
      if atUnit.unit.NotLoaded? then UnitNotFound else if atUnit.unit.active then UnitRunning else UnitTerminal,
      if atUnit.unit.Loaded? && atUnit.unit.invocation != "" then Some(atUnit.unit.invocation) else None,
      if atUnit.unit.Loaded? && atUnit.unit.controlGroup != "" then Some(atUnit.unit.controlGroup) else None,
      pid,
      if pid.Some? then StartOf(atProcesses, pid.value) else None,
      StartOf(atProcesses, id.mainPid) == Some(id.startIdentity),
      StartOf(atProcesses, id.mainPid),
      if atUnit.unit.Loaded? && atUnit.unit.ending.result != "" then Some(atUnit.unit.ending.result) else None,
      if atUnit.unit.Loaded? then atUnit.unit.ending.code else None,
      if atUnit.unit.Loaded? then atUnit.unit.ending.status else None)
  }

  function StartOf(w: World, pid: nat): Option<string> {
    if pid in w.processes then Some(w.processes[pid]) else None
  }

  // ----------------------------------------------------------- what is recorded

  /** The recorded process runs as the main process of the recorded invocation. */
  predicate RunsAsRecorded(w: World, id: Identity) {
    && w.unit.Loaded? && w.unit.active && w.unit.invocation == id.invocationId
    && w.unit.mainPid == id.mainPid && RecordedAlive(w, id)
  }

  predicate RecordedAlive(w: World, id: Identity) {
    id.mainPid in w.processes && w.processes[id.mainPid] == id.startIdentity
  }

  /** The recorded process is gone, under whatever number one looks for it. */
  ghost predicate RecordedDead(w: World, id: Identity) {
    forall pid :: pid in w.processes ==> w.processes[pid] != id.startIdentity
  }

  /** The recorded invocation is over. */
  predicate InvocationEnded(w: World, id: Identity) {
    !(w.unit.Loaded? && w.unit.active && w.unit.invocation == id.invocationId)
  }

  /** The moment the identity was bound. */
  ghost predicate Bound(w: World, id: Identity) {
    && CompleteIdentity(id) && w.bootId == id.bootId && RunsAsRecorded(w, id)
    && w.unit.controlGroup == id.controlGroup
  }

  /** What can be relied on from the binding on. */
  ghost predicate Since(w: World, id: Identity) {
    && id.bootId in w.usedBoots && id.invocationId in w.usedInvocations && id.startIdentity in w.usedStarts
    && (forall pid :: pid in w.processes && w.processes[pid] == id.startIdentity ==> pid == id.mainPid)
    && (w.unit.Loaded? && w.unit.invocation == id.invocationId ==> w.unit.mainPid == id.mainPid)
  }

  lemma {:induction false} SinceIsKept(earlier: World, later: World, course: seq<Happening>, id: Identity)
    requires Follows(earlier, later, course) && Since(earlier, id)
    ensures Since(later, id)
    ensures RecordedAlive(later, id) ==> RecordedAlive(earlier, id)
    ensures InvocationEnded(earlier, id) ==> InvocationEnded(later, id)
    ensures later.bootId == id.bootId ==> earlier.bootId == id.bootId
    ensures earlier.bootId == id.bootId && later.bootId != id.bootId ==>
      InvocationEnded(later, id) && RecordedDead(later, id)
    ensures RecordedDead(earlier, id) ==> RecordedDead(later, id)
    decreases |course|
  {
    if course != [] {
      SinceIsKept(Next(earlier, course[0]), later, course[1..], id);
    }
  }

  // -------------------------------------------------------------- main results

  /** Whatever happens between the binding and the three reads: a verdict of running
      means the recorded process was the unit's main process when the unit was read
      and still lives; a terminal one means the recorded invocation is over or, for a
      missing unit, that the recorded process is dead; and losing track means that the
      machine rebooted or the recorded process is dead. */
  lemma VerdictIsSound(
    bound: World, atUnit: World, atBoot: World, atProcesses: World,
    toUnit: seq<Happening>, toBoot: seq<Happening>, toProcesses: seq<Happening>,
    id: Identity, intent: TerminationIntent)
    requires Bound(bound, id) && Since(bound, id)
    requires Follows(bound, atUnit, toUnit) && Follows(atUnit, atBoot, toBoot)
      && Follows(atBoot, atProcesses, toProcesses)
    ensures var verdict := ClassifySupervisor(id, Observe(id, atUnit, atBoot, atProcesses), intent);
            && verdict.Ok?
            && (verdict.value == StillRunning ==>
                  RunsAsRecorded(atUnit, id) && RecordedAlive(atProcesses, id) && atUnit.bootId == id.bootId)
            && (verdict.value.Terminal? ==>
                  || (InvocationEnded(atUnit, id) && InvocationEnded(atProcesses, id))
                  || (atUnit.unit.NotLoaded? && RecordedDead(atProcesses, id)))
            && (verdict.value.Terminal? && atUnit.unit.NotLoaded? ==> RecordedDead(atProcesses, id))
            && (verdict.value == LostTrack ==> RecordedDead(atProcesses, id) && InvocationEnded(atProcesses, id))
  {
    SinceIsKept(bound, atUnit, toUnit, id);
    SinceIsKept(atUnit, atBoot, toBoot, id);
    SinceIsKept(atBoot, atProcesses, toProcesses, id);
    FollowsJoin(bound, atUnit, atBoot, toUnit, toBoot);
    SinceIsKept(bound, atBoot, toUnit + toBoot, id);
  }

  /** The recorded invocation's unit is there and has ended. */
  predicate HasEnded(w: World, id: Identity) {
    && w.unit.Loaded? && !w.unit.active && w.unit.invocation == id.invocationId
    && (w.unit.controlGroup == "" || w.unit.controlGroup == id.controlGroup)
  }

  /** Its result is success, or its main process exited (code 1, CLD_EXITED) with status 0. */
  predicate EndedWell(w: World)
    requires w.unit.Loaded?
  {
    w.unit.ending.result == "success" || (w.unit.ending.code == Some(1) && w.unit.ending.status == Some(0))
  }

  /** The unit is gone and so is the recorded process. */
  predicate IsGone(atUnit: World, atProcesses: World, id: Identity) {
    atUnit.unit.NotLoaded? && !RecordedAlive(atProcesses, id)
  }

  /** The whole verdict on a unit, for any three moments: succeeded exactly when nobody asked for an end and the
      recorded invocation's unit ended well; cancelled or timed out exactly when that was asked for and the
      invocation ended or is gone; lost exactly after a reboot or when it is gone and nobody asked. */
  lemma VerdictNamesTheOutcome(
    id: Identity, atUnit: World, atBoot: World, atProcesses: World, intent: TerminationIntent)
    requires CompleteIdentity(id)
    ensures var verdict := ClassifySupervisor(id, Observe(id, atUnit, atBoot, atProcesses), intent);
      var here := atBoot.bootId == id.bootId;
      var ended := here && HasEnded(atUnit, id);
      var over := ended || (here && IsGone(atUnit, atProcesses, id));
      && verdict.Ok?
      && (verdict.value == Terminal(Succeeded) <==> ended && intent == Natural && EndedWell(atUnit))
      && (verdict.value == Terminal(Failed) <==> ended && intent == Natural && !EndedWell(atUnit))
      && (verdict.value == Terminal(Cancelled) <==> over && intent == StopRequested)
      && (verdict.value == Terminal(TimedOut) <==> over && intent == DeadlineExceeded)
      && (verdict.value == LostTrack <==> !here || (IsGone(atUnit, atProcesses, id) && intent == Natural))
      && (verdict.value.Terminal? ==>
            verdict.value.state == Succeeded || verdict.value.state == Failed
            || verdict.value.state == Cancelled || verdict.value.state == TimedOut)
  {
  }

  /** An owner is refused, whatever is seen, exactly when a part of it is missing or malformed. */
  lemma OwnerIsRefusedExactlyWhen(owner: LauncherOwner, seen: LauncherObservation, intent: TerminationIntent)
    ensures ClassifyWindowsLauncher(owner, seen, intent).Err? <==>
      || owner.processId == 0 || owner.creationTime == 0
      || |owner.jobName| < 8 || owner.jobName[..8] != "Ordivon."
      || !IsSha256Digest(owner.imageDigest) || !IsSha256Digest(owner.startEvidenceDigest)
  {
  }

  /** Likewise the identity recorded for a unit. */
  lemma IdentityIsRefusedExactlyWhen(id: Identity, seen: Observation, intent: TerminationIntent)
    ensures ClassifySupervisor(id, seen, intent).Err? <==>
      || id.bootId == "" || id.invocationId == "" || id.startIdentity == "" || id.mainPid == 0
      || |id.unitName| < 8 || id.unitName[|id.unitName| - 8..] != ".service"
      || |id.controlGroup| < 1 || id.controlGroup[0] != '/'
  {
  }

  /** What the unit shows differs from what was recorded, in the field of that name. */
  predicate FieldDiffers(id: Identity, seen: Observation, field: string) {
    match field
    case "invocationId" => seen.invocationId != Some(id.invocationId)
    case "controlGroup" => seen.controlGroup != Some(id.controlGroup)
    case "mainProcessStartIdentity" => seen.mainStartIdentity != Some(id.startIdentity)
    case "mainPid" => seen.mainPid != Some(id.mainPid)
    case _ => false
  }

  /** Orphaned, on the recorded boot, exactly when a running unit differs in any of the four fields, an ended one
      in one that it still shows, or the unit is gone and the recorded process lives; for a unit that is there
      the reason names a field that does differ. */
  lemma OrphanNamesTheDifference(id: Identity, seen: Observation, intent: TerminationIntent)
    requires CompleteIdentity(id) && seen.bootId == id.bootId
    ensures var verdict := ClassifySupervisor(id, seen, intent);
      && verdict.Ok?
      && (verdict.value.OrphanedBy? <==>
            match seen.unitState
            case UnitRunning => exists field: string :: FieldDiffers(id, seen, field)
            case UnitTerminal => FieldDiffers(id, seen, "invocationId")
                                 || (seen.controlGroup.Some? && FieldDiffers(id, seen, "controlGroup"))
            case UnitNotFound => seen.recordedPidAlive && seen.recordedPidStartIdentity == Some(id.startIdentity))
      && (verdict.value.OrphanedBy? && seen.unitState != UnitNotFound ==>
            exists field: string :: FieldDiffers(id, seen, field)
              && verdict.value.reason == field + " does not match persisted supervisor identity")
  {
    var mismatch := if seen.unitState == UnitRunning then RunningMismatch(id, seen) else TerminalMismatch(id, seen);
    if mismatch.Some? {
      assert FieldDiffers(id, seen, mismatch.value);
    }
  }

  lemma {:induction false} FollowsJoin(a: World, b: World, c: World, first: seq<Happening>, second: seq<Happening>)
    requires Follows(a, b, first) && Follows(b, c, second)
    ensures Follows(a, c, first + second)
    decreases |first|
  {
    if first == [] {
      assert first + second == second;
    } else {
      FollowsJoin(Next(a, first[0]), b, c, first[1..], second);
      assert (first + second)[1..] == first[1..] + second;
    }
  }

  /** On one undisturbed look at the machine the verdict is running exactly when the
      recorded process runs as recorded. */
  lemma RunningVerdictIsComplete(w: World, id: Identity, intent: TerminationIntent)
    requires CompleteIdentity(id) && Since(w, id) && w.bootId == id.bootId
    ensures ClassifySupervisor(id, Observe(id, w, w, w), intent) == Ok(StillRunning)
       <==> RunsAsRecorded(w, id) && w.unit.controlGroup == id.controlGroup
  {
  }

  /** A reused process number never passes for the recorded process. */
  lemma ReusedNumberIsNotRunning(w: World, id: Identity, intent: TerminationIntent, other: string)
    requires id.mainPid in w.processes && w.processes[id.mainPid] == other && other != id.startIdentity
    ensures ClassifySupervisor(id, Observe(id, w, w, w), intent) != Ok(StillRunning)
  {
  }
}
