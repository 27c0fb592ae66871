/** The scheduler's threads, one critical section a step: announcer loops, stopTorrent and
    completeTorrent, the goroutines that send stopped announces, and Stop. Announcers and goroutines
    are numbered in order of creation. */
module Interleaving {
  import opened Bandwidth
  import opened Numerals

  const MAX_CONCURRENT_STOPPED := 8

  type Id = nat

  /** Where an announcer's loop is: before or in an announce, or past its check of the context with an
      answer in hand. `first` says that the announce carries the event started. */
  datatype Loop = Announcing(first: bool) | Answered(first: bool) | Over

  /** Who took an announcer out of the active map. */
  datatype Path = ByStopTorrent | ByCompletion

  /** What a remover does next. */
  datatype Stage = CheckStarted | Launch | Unregister | Finished

  /** `was` tells whether the announcer was marked started when it was removed, `saw` what the remover
      read later. */
  datatype Removal = Kept | Removed(path: Path, stage: Stage, was: bool, saw: bool)

  datatype Announcer = Announcer(hash: Hash, started: bool, cancelled: bool, loop: Loop, removal: Removal)

  datatype Phase = Queued | Holding | Released | Ended

  /** A goroutine sending one stopped announce; `byStop` tells that Stop launched it. */
  datatype Sender = Sender(ann: Id, byStop: bool, phase: Phase)

  datatype Shutdown = Running | Launching(todo: seq<Id>) | Waiting | Waited | GaveUp

  datatype State = State(
    active: map<Hash, Id>, anns: seq<Announcer>, bw: set<Hash>,
    senders: seq<Sender>, wg: int, sem: int, closing: bool, shutdown: Shutdown,
    rootDone: bool, stopDone: bool)

  const INIT := State(map[], [], {}, [], 0, 0, false, Running, false, false)

  /** `completes` in Confirm tells that the ratio is reached: the loop is over, and its completeTorrent is
      a step Complete of its own, as the ratio monitor's is. */
  datatype Step =
    | TryAdd(h: Hash, restored: bool)
    | AnnounceSucceeds(a: Id)
    | LoopEnds(a: Id)
    | Confirm(a: Id, completes: bool)
    | RemoveActive(h: Hash)
    | Complete(a: Id)
    | ReadStarted(a: Id)
    | LaunchStopped(a: Id)
    | UnregisterEntry(a: Id)
    | Acquire(g: Id)
    | Release(g: Id)
    | GiveUp(g: Id)
    | Leave(g: Id)
    | CancelRoot
    | CancelStop
    | StopBegins(order: seq<Id>)
    | StopLaunches
    | StopCloses
    | StopWaited
    | StopGivesUp

  // ----- Steps -----

  predicate IsActive(s: State, a: Id) {
    a < |s.anns| && s.anns[a].hash in s.active && s.active[s.anns[a].hash] == a
  }

  predicate AtStage(s: State, a: Id, stage: Stage) {
    a < |s.anns| && s.anns[a].removal.Removed? && s.anns[a].removal.stage == stage
  }

  predicate InPhase(s: State, g: Id, phase: Phase) {
    g < |s.senders| && s.senders[g].phase == phase
  }

  /** The announcers Stop collects: the active and started ones, each once. */
  predicate Collects(s: State, order: seq<Id>) {
    && (forall i, j :: 0 <= i < j < |order| ==> order[i] != order[j])
    && (forall i :: 0 <= i < |order| ==> IsActive(s, order[i]) && s.anns[order[i]].started)
    && (forall a :: 0 <= a < |s.anns| && IsActive(s, a) && s.anns[a].started ==> a in order)
  }

  predicate Can(s: State, step: Step) {
    match step
    case TryAdd(h, _) => h !in s.active
    case AnnounceSucceeds(a) =>
      a < |s.anns| && s.anns[a].loop.Announcing? && !s.anns[a].cancelled && !s.rootDone
    case LoopEnds(a) => a < |s.anns| && s.anns[a].loop.Announcing? && (s.anns[a].cancelled || s.rootDone)
    case Confirm(a, _) => a < |s.anns| && s.anns[a].loop.Answered?
    case RemoveActive(h) => h in s.active && s.active[h] < |s.anns|
    case Complete(a) => IsActive(s, a)
    case ReadStarted(a) => AtStage(s, a, CheckStarted)
    case LaunchStopped(a) => AtStage(s, a, Launch)
    case UnregisterEntry(a) => AtStage(s, a, Unregister)
    case Acquire(g) => InPhase(s, g, Queued) && s.sem < MAX_CONCURRENT_STOPPED
    case Release(g) => InPhase(s, g, Holding)
    case GiveUp(g) => InPhase(s, g, Queued) && (if s.senders[g].byStop then s.stopDone else s.rootDone)
    case Leave(g) => InPhase(s, g, Released)
    case CancelRoot => true
    case CancelStop => true
    case StopBegins(order) => s.shutdown.Running? && Collects(s, order)
    case StopLaunches => s.shutdown.Launching? && s.shutdown.todo != []
    case StopCloses => s.shutdown == Launching([])
    case StopWaited => s.shutdown.Waiting? && s.wg == 0
    case StopGivesUp => s.shutdown.Waiting? && s.stopDone
  }

  function FirstStage(path: Path): Stage {
    if path.ByStopTorrent? then CheckStarted else Unregister
  }

  function AfterRead(path: Path, started: bool): Stage {
    if started then Launch else AfterLaunch(path)
  }

  function AfterLaunch(path: Path): Stage {
    if path.ByStopTorrent? then Unregister else Finished
  }

  function AfterUnregister(path: Path): Stage {
    if path.ByStopTorrent? then Finished else CheckStarted
  }

  /** removeActive and the critical section of completeTorrent. */
  function Remove(s: State, h: Hash, path: Path): State
    requires h in s.active && s.active[h] < |s.anns|
  {
    var a := s.active[h];
    var ann := s.anns[a];
    s.(active := s.active - {h},
       anns := s.anns[a := ann.(cancelled := true, removal := Removed(path, FirstStage(path), ann.started, false))])
  }

  function Advance(s: State, a: Id, stage: Stage): State
    requires a < |s.anns| && s.anns[a].removal.Removed?
  {
    s.(anns := s.anns[a := s.anns[a].(removal := s.anns[a].removal.(stage := stage))])
  }

  /** sendStoppedAsync. */
  function Send(s: State, a: Id, byStop: bool): State {
    if s.closing then s else s.(senders := s.senders + [Sender(a, byStop, Queued)], wg := s.wg + 1)
  }

  function Move(s: State, g: Id, phase: Phase): State
    requires g < |s.senders|
  {
    s.(senders := s.senders[g := s.senders[g].(phase := phase)])
  }

  function SetLoop(s: State, a: Id, loop: Loop): State
    requires a < |s.anns|
  {
    s.(anns := s.anns[a := s.anns[a].(loop := loop)])
  }

  /** The section of the loop after a success: only the hash is looked up, not the announcer. */
  function Confirmed(s: State, a: Id, completes: bool): State
    requires a < |s.anns| && s.anns[a].loop.Answered?
  {
    var ann := s.anns[a];
    if ann.hash !in s.active then SetLoop(s, a, Over)
    else
      s.(bw := s.bw + {ann.hash},
         anns := s.anns[a := ann.(started := ann.started || ann.loop.first,
                                  loop := if completes then Over else Announcing(false))])
  }

  function CancelActive(s: State): (anns: seq<Announcer>)
    ensures |anns| == |s.anns|
  {
    seq(|s.anns|, a requires 0 <= a < |s.anns| =>
      if IsActive(s, a) then s.anns[a].(cancelled := true) else s.anns[a])
  }

  function Do(s: State, step: Step): State
    requires Can(s, step)
  {
    match step
    case TryAdd(h, restored) =>
      s.(active := s.active[h := |s.anns|], bw := if restored then s.bw + {h} else s.bw,
         anns := s.anns + [Announcer(h, false, false, Announcing(true), Kept)])
    case AnnounceSucceeds(a) => SetLoop(s, a, Answered(s.anns[a].loop.first))
    case LoopEnds(a) => SetLoop(s, a, Over)
    case Confirm(a, completes) => Confirmed(s, a, completes)
    case RemoveActive(h) => Remove(s, h, ByStopTorrent)
    case Complete(a) => Remove(s, s.anns[a].hash, ByCompletion)
    case ReadStarted(a) =>
      var ann := s.anns[a];
      s.(anns := s.anns[a := ann.(removal :=
           ann.removal.(saw := ann.started, stage := AfterRead(ann.removal.path, ann.started)))])
    case LaunchStopped(a) => Send(Advance(s, a, AfterLaunch(s.anns[a].removal.path)), a, false)
    case UnregisterEntry(a) =>
      Advance(s, a, AfterUnregister(s.anns[a].removal.path)).(bw := s.bw - {s.anns[a].hash})
    case Acquire(g) => Move(s, g, Holding).(sem := s.sem + 1)
    case Release(g) => Move(s, g, Released).(sem := s.sem - 1)
    case GiveUp(g) => Move(s, g, Released)
    case Leave(g) => Move(s, g, Ended).(wg := s.wg - 1)
    case CancelRoot => s.(rootDone := true)
    case CancelStop => s.(stopDone := true)
    case StopBegins(order) => s.(anns := CancelActive(s), shutdown := Launching(order))
    case StopLaunches => Send(s.(shutdown := Launching(s.shutdown.todo[1..])), s.shutdown.todo[0], true)
    case StopCloses => s.(closing := true, shutdown := Waiting)
    case StopWaited => s.(shutdown := Waited)
    case StopGivesUp => s.(shutdown := GaveUp)
  }

  /** The state after `steps`, None when one of them could not be taken. */
  function Exec(s: State, steps: seq<Step>): Option<State>
    decreases |steps|
  {
    if steps == [] then Some(s)
    else if Can(s, steps[0]) then Exec(Do(s, steps[0]), steps[1..])
    else None
  }

  // ----- Invariants -----

  /** The active map and the announcers that were not removed are the same thing. */
  predicate ActiveRight(s: State) {
    && (forall h :: h in s.active ==>
          s.active[h] < |s.anns| && s.anns[s.active[h]].hash == h && s.anns[s.active[h]].removal.Kept?)
    && (forall a :: 0 <= a < |s.anns| && s.anns[a].removal.Kept? ==> IsActive(s, a))
  }

  /** The remover has not reached its Unregister yet. */
  predicate Owes(r: Removal) {
    r.Removed? && (r.stage == Unregister || (r.path.ByStopTorrent? && r.stage != Finished))
  }

  predicate OwedEntry(s: State, h: Hash) {
    exists a :: 0 <= a < |s.anns| && s.anns[a].hash == h && Owes(s.anns[a].removal)
  }

  /** No bandwidth entry is an orphan. */
  predicate EntriesOwned(s: State) {
    forall h :: h in s.bw ==> h in s.active || OwedEntry(s, h)
  }

  /** The remover has not read isStarted yet. */
  predicate BeforeRead(r: Removal) {
    r.Removed? && (r.stage == CheckStarted || (r.path.ByCompletion? && r.stage == Unregister))
  }

  predicate PastLaunch(r: Removal) {
    r.Removed? && !BeforeRead(r) && r.stage != Launch
  }

  predicate RemovalRight(ann: Announcer) {
    var r := ann.removal;
    r.Removed? ==>
      && (r.was ==> ann.started)
      && (r.saw ==> ann.started)
      && (if BeforeRead(r) then !r.saw else r.was ==> r.saw)
      && (r.stage == Launch ==> r.saw)
  }

  predicate RemovalsRight(s: State) {
    forall a :: 0 <= a < |s.anns| ==> RemovalRight(s.anns[a])
  }

  predicate LaunchedBy(s: State, a: Id, byStop: bool) {
    exists g :: 0 <= g < |s.senders| && s.senders[g].ann == a && s.senders[g].byStop == byStop
  }

  /** Every stopped announce has its own reason: one removal, or one place in Stop's list. */
  predicate LaunchesRight(s: State) {
    && (forall g :: 0 <= g < |s.senders| ==> s.senders[g].ann < |s.anns|)
    && (forall g, k :: 0 <= g < k < |s.senders| ==>
          s.senders[g].ann != s.senders[k].ann || s.senders[g].byStop != s.senders[k].byStop)
    && (forall g :: 0 <= g < |s.senders| && !s.senders[g].byStop ==>
          PastLaunch(s.anns[s.senders[g].ann].removal) && s.anns[s.senders[g].ann].removal.saw)
  }

  /** As long as Stop has not closed the entrance, every remover that saw a started announcer launched. */
  predicate NoneSkipped(s: State) {
    !s.closing ==> forall a :: 0 <= a < |s.anns| && PastLaunch(s.anns[a].removal) && s.anns[a].removal.saw ==>
                     LaunchedBy(s, a, false)
  }

  predicate ShutdownRight(s: State) {
    && (s.shutdown.Running? ==> forall g :: 0 <= g < |s.senders| ==> !s.senders[g].byStop)
    && (s.shutdown.Launching? ==> TodoRight(s, s.shutdown.todo))
    && (s.closing <==> !s.shutdown.Running? && !s.shutdown.Launching?)
    && (s.shutdown.Waited? ==> forall g :: 0 <= g < |s.senders| ==> s.senders[g].phase.Ended?)
  }

  predicate TodoRight(s: State, todo: seq<Id>) {
    && (forall i, j :: 0 <= i < j < |todo| ==> todo[i] != todo[j])
    && (forall i :: 0 <= i < |todo| ==> todo[i] < |s.anns| && !LaunchedBy(s, todo[i], true))
  }

  function Live(senders: seq<Sender>): set<nat> {
    set g | 0 <= g < |senders| && !senders[g].phase.Ended?
  }

  function Holders(senders: seq<Sender>): set<nat> {
    set g | 0 <= g < |senders| && senders[g].phase.Holding?
  }

  predicate CountersRight(s: State) {
    s.wg == |Live(s.senders)| && s.sem == |Holders(s.senders)| && s.sem <= MAX_CONCURRENT_STOPPED
  }

  predicate Inv(s: State) {
    && ActiveRight(s) && EntriesOwned(s) && RemovalsRight(s) && LaunchesRight(s) && NoneSkipped(s)
    && ShutdownRight(s) && CountersRight(s)
  }

  // ----- What a step keeps -----

  predicate TakesOrAdds(step: Step) {
    step.TryAdd? || step.RemoveActive? || step.Complete?
  }

  predicate SendsOne(step: Step) {
    step.LaunchStopped? || step.StopLaunches?
  }

  /** No announcer changes its hash or leaves the active map. */
  predicate SameShape(s: State, t: State) {
    && s.active == t.active && |s.anns| == |t.anns|
    && forall a :: 0 <= a < |s.anns| ==>
         s.anns[a].hash == t.anns[a].hash && (s.anns[a].removal.Kept? <==> t.anns[a].removal.Kept?)
  }

  lemma ShapeStep(s: State, step: Step)
    requires Can(s, step) && !TakesOrAdds(step)
    ensures SameShape(s, Do(s, step))
  {
    hide Collects;
  }

  lemma ShapeKeepsActive(s: State, t: State)
    requires ActiveRight(s) && SameShape(s, t)
    ensures ActiveRight(t)
  {
    forall a | 0 <= a < |t.anns| && t.anns[a].removal.Kept? ensures IsActive(t, a) {
      assert s.anns[a].removal.Kept?;
    }
  }

  lemma ActiveStep(s: State, step: Step)
    requires ActiveRight(s) && Can(s, step)
    ensures ActiveRight(Do(s, step))
  {
    if !TakesOrAdds(step) {
      ShapeStep(s, step);
      ShapeKeepsActive(s, Do(s, step));
    }
  }

  /** The announcer keeps its hash and its mark, and its removal only moves on. */
  predicate MovesTo(x: Announcer, y: Announcer) {
    && x.hash == y.hash
    && (x.started ==> y.started)
    && (PastLaunch(x.removal) ==> PastLaunch(y.removal) && y.removal.saw == x.removal.saw)
  }

  predicate MovesOn(s: State, t: State) {
    |s.anns| <= |t.anns| && forall a :: 0 <= a < |s.anns| ==> MovesTo(s.anns[a], t.anns[a])
  }

  lemma StaysPut(x: Announcer)
    ensures MovesTo(x, x)
  {
  }

  lemma OneMoves(s: State, t: State, a: Id)
    requires a < |s.anns| == |t.anns| && t.anns == s.anns[a := t.anns[a]] && MovesTo(s.anns[a], t.anns[a])
    ensures MovesOn(s, t)
  {
    hide MovesTo;
    forall b | 0 <= b < |s.anns| ensures MovesTo(s.anns[b], t.anns[b]) {
      StaysPut(s.anns[b]);
    }
  }

  predicate MovesRemoval(step: Step) {
    step.ReadStarted? || step.LaunchStopped? || step.UnregisterEntry?
  }

  lemma RemovalMovesOn(s: State, step: Step)
    requires Can(s, step) && MovesRemoval(step)
    ensures MovesOn(s, Do(s, step))
  {
    OneMoves(s, Do(s, step), step.a);
  }

  lemma TakenMovesOn(s: State, h: Hash, path: Path)
    requires ActiveRight(s) && h in s.active
    ensures MovesOn(s, Remove(s, h, path))
  {
    OneMoves(s, Remove(s, h, path), s.active[h]);
  }

  lemma OthersMoveOn(s: State, step: Step)
    requires Can(s, step) && !MovesRemoval(step) && !step.RemoveActive? && !step.Complete?
    ensures MovesOn(s, Do(s, step))
  {
    hide Collects, PastLaunch;
  }

  lemma AnnouncersMoveOn(s: State, step: Step)
    requires ActiveRight(s) && Can(s, step)
    ensures MovesOn(s, Do(s, step))
  {
    hide MovesOn, Collects;
    if MovesRemoval(step) {
      RemovalMovesOn(s, step);
    } else if step.RemoveActive? {
      TakenMovesOn(s, step.h, ByStopTorrent);
    } else if step.Complete? {
      TakenMovesOn(s, s.anns[step.a].hash, ByCompletion);
    } else {
      OthersMoveOn(s, step);
    }
  }

  lemma EntriesStep(s: State, step: Step)
    requires ActiveRight(s) && EntriesOwned(s) && Can(s, step)
    ensures EntriesOwned(Do(s, step))
  {
    hide OwedEntry;
    var t := Do(s, step);
    forall h | h in t.bw && h !in t.active ensures OwedEntry(t, h) {
      OwedStep(s, step, h);
    }
  }

  lemma OwedStep(s: State, step: Step, h: Hash)
    requires ActiveRight(s) && Can(s, step) && h in Do(s, step).bw && h !in Do(s, step).active
    requires h in s.bw ==> h in s.active || OwedEntry(s, h)
    ensures OwedEntry(Do(s, step), h)
  {
    hide Collects, Owes, Do;
    if h in s.active {
      TakenOwes(s, step, h);
    } else {
      OnlyConfirmedOrAdded(s, step, h);
      var a :| 0 <= a < |s.anns| && s.anns[a].hash == h && Owes(s.anns[a].removal);
      OwesUntilUnregistered(s, step, a);
    }
  }

  lemma TakenOwes(s: State, step: Step, h: Hash)
    requires ActiveRight(s) && Can(s, step) && h in s.active && h !in Do(s, step).active
    ensures OwedEntry(Do(s, step), h)
  {
    hide Do, Can, ActiveRight;
    OnlyRemoversTake(s, step, h);
    RemovedOwes(s, step, h);
  }

  lemma OnlyRemoversTake(s: State, step: Step, h: Hash)
    requires Can(s, step) && h in s.active && h !in Do(s, step).active
    ensures step.RemoveActive? || step.Complete?
  {
    hide Collects;
  }

  lemma RemovedOwes(s: State, step: Step, h: Hash)
    requires ActiveRight(s) && Can(s, step) && (step.RemoveActive? || step.Complete?)
    requires h in s.active && h !in Do(s, step).active
    ensures OwedEntry(Do(s, step), h)
  {
    var a, t := s.active[h], Do(s, step);
    assert t.anns[a].hash == h && Owes(t.anns[a].removal);
  }

  lemma OnlyConfirmedOrAdded(s: State, step: Step, h: Hash)
    requires Can(s, step) && h !in s.active && h !in Do(s, step).active && h in Do(s, step).bw
    ensures h in s.bw && !(step.UnregisterEntry? && s.anns[step.a].hash == h)
  {
    hide Collects;
  }

  lemma OwesUntilUnregistered(s: State, step: Step, a: Id)
    requires ActiveRight(s) && Can(s, step) && a < |s.anns| && Owes(s.anns[a].removal)
    requires step != UnregisterEntry(a)
    ensures var t := Do(s, step);
            a < |t.anns| && t.anns[a].hash == s.anns[a].hash && Owes(t.anns[a].removal)
  {
    hide Collects;
    AnnouncersMoveOn(s, step);
    assert MovesTo(s.anns[a], Do(s, step).anns[a]);
    if !MovesRemoval(step) && !TakesOrAdds(step) {
      KeepsRemoval(s, step, a);
    }
  }

  lemma RemovalsStep(s: State, step: Step)
    requires RemovalsRight(s) && Can(s, step)
    ensures RemovalsRight(Do(s, step))
  {
    hide Collects;
  }

  /** No goroutine is launched and none changes its announcer. */
  predicate SameSenders(s: State, t: State) {
    && |s.senders| == |t.senders|
    && forall g :: 0 <= g < |s.senders| ==>
         s.senders[g].ann == t.senders[g].ann && s.senders[g].byStop == t.senders[g].byStop
  }

  lemma SendersStep(s: State, step: Step)
    requires Can(s, step) && !SendsOne(step)
    ensures SameSenders(s, Do(s, step))
  {
    hide Collects;
  }

  lemma SendersKeepLaunches(s: State, t: State)
    requires LaunchesRight(s) && SameSenders(s, t) && MovesOn(s, t)
    ensures LaunchesRight(t)
  {
    forall g | 0 <= g < |t.senders| && !t.senders[g].byStop
      ensures PastLaunch(t.anns[t.senders[g].ann].removal) && t.anns[t.senders[g].ann].removal.saw
    {
      assert !s.senders[g].byStop;
      assert MovesTo(s.anns[s.senders[g].ann], t.anns[s.senders[g].ann]);
    }
  }

  lemma SentKeepsLaunches(s: State, t: State, a: Id, byStop: bool)
    requires LaunchesRight(s) && MovesOn(s, t) && a < |t.anns| && !LaunchedBy(s, a, byStop)
    requires exists phase :: t.senders == s.senders + [Sender(a, byStop, phase)]
    requires !byStop ==> PastLaunch(t.anns[a].removal) && t.anns[a].removal.saw
    ensures LaunchesRight(t)
  {
    assert forall g :: 0 <= g < |s.senders| ==> t.senders[g] == s.senders[g];
    forall g | 0 <= g < |s.senders| && !t.senders[g].byStop
      ensures PastLaunch(t.anns[t.senders[g].ann].removal) && t.anns[t.senders[g].ann].removal.saw
    {
      assert !s.senders[g].byStop;
      assert MovesTo(s.anns[s.senders[g].ann], t.anns[s.senders[g].ann]);
    }
  }

  lemma LaunchesStep(s: State, step: Step)
    requires ActiveRight(s) && RemovalsRight(s) && LaunchesRight(s) && ShutdownRight(s) && Can(s, step)
    ensures LaunchesRight(Do(s, step))
  {
    hide MovesOn, ActiveRight, LaunchesRight;
    var t := Do(s, step);
    AnnouncersMoveOn(s, step);
    if !SendsOne(step) {
      SendersStep(s, step);
      SendersKeepLaunches(s, t);
    } else if s.closing {
      SendersKeepLaunches(s, t);
    } else if step.LaunchStopped? {
      NotLaunchedYet(s, step.a);
      assert t.senders == s.senders + [Sender(step.a, false, Queued)];
      SentKeepsLaunches(s, t, step.a, false);
    } else {
      assert t.senders == s.senders + [Sender(s.shutdown.todo[0], true, Queued)];
      SentKeepsLaunches(s, t, s.shutdown.todo[0], true);
    }
  }

  lemma NotLaunchedYet(s: State, a: Id)
    requires LaunchesRight(s) && AtStage(s, a, Launch)
    ensures !LaunchedBy(s, a, false)
  {
  }

  lemma LaunchedStays(s: State, t: State, a: Id, byStop: bool)
    requires LaunchedBy(s, a, byStop)
    requires |s.senders| <= |t.senders| && forall g :: 0 <= g < |s.senders| ==>
               t.senders[g].ann == s.senders[g].ann && t.senders[g].byStop == s.senders[g].byStop
    ensures LaunchedBy(t, a, byStop)
  {
    var g :| 0 <= g < |s.senders| && s.senders[g].ann == a && s.senders[g].byStop == byStop;
    assert t.senders[g].ann == a;
  }

  lemma SkippedStep(s: State, step: Step)
    requires ActiveRight(s) && NoneSkipped(s) && Can(s, step)
    ensures NoneSkipped(Do(s, step))
  {
    hide LaunchedBy, Collects;
    var t := Do(s, step);
    if !t.closing {
      forall a | 0 <= a < |t.anns| && PastLaunch(t.anns[a].removal) && t.anns[a].removal.saw
        ensures LaunchedBy(t, a, false)
      {
        LaunchedAfter(s, step, a);
      }
    }
  }

  /** A removal gets past its launch with saw set only by launching. */
  lemma LaunchedAfter(s: State, step: Step, a: Id)
    requires ActiveRight(s) && Can(s, step) && !Do(s, step).closing && a < |Do(s, step).anns|
    requires PastLaunch(Do(s, step).anns[a].removal) && Do(s, step).anns[a].removal.saw
    requires a < |s.anns| && PastLaunch(s.anns[a].removal) && s.anns[a].removal.saw ==> LaunchedBy(s, a, false)
    ensures LaunchedBy(Do(s, step), a, false)
  {
    hide Collects, LaunchedBy, ActiveRight;
    var t := Do(s, step);
    if step == LaunchStopped(a) {
      SentIsLaunched(s, t, Sender(a, false, Queued));
    } else {
      PastBefore(s, step, a);
      SendersOnlyGrow(s, step);
      LaunchedStays(s, t, a, false);
    }
  }

  lemma PastBefore(s: State, step: Step, a: Id)
    requires Can(s, step) && step != LaunchStopped(a) && a < |Do(s, step).anns|
    requires PastLaunch(Do(s, step).anns[a].removal) && Do(s, step).anns[a].removal.saw
    ensures a < |s.anns| && PastLaunch(s.anns[a].removal) && s.anns[a].removal.saw
  {
    hide Collects;
    if !MovesRemoval(step) && !TakesOrAdds(step) {
      KeepsRemoval(s, step, a);
    }
  }

  lemma KeepsRemoval(s: State, step: Step, a: Id)
    requires Can(s, step) && !MovesRemoval(step) && !TakesOrAdds(step) && a < |Do(s, step).anns|
    ensures a < |s.anns| && Do(s, step).anns[a].removal == s.anns[a].removal
  {
    hide Collects;
  }

  lemma SentIsLaunched(s: State, t: State, sender: Sender)
    requires t.senders == s.senders + [sender]
    ensures LaunchedBy(t, sender.ann, sender.byStop)
  {
    assert t.senders[|s.senders|] == sender;
  }

  predicate Grows(s: State, t: State) {
    |s.senders| <= |t.senders| && forall g :: 0 <= g < |s.senders| ==>
      t.senders[g].ann == s.senders[g].ann && t.senders[g].byStop == s.senders[g].byStop
  }

  lemma SendersOnlyGrow(s: State, step: Step)
    requires Can(s, step)
    ensures Grows(s, Do(s, step))
  {
    hide Collects;
  }

  lemma MovedSenders(senders: seq<Sender>, g: Id, phase: Phase)
    requires g < |senders| && !senders[g].phase.Ended? && senders[g].phase != phase
    ensures var moved := senders[g := senders[g].(phase := phase)];
            && |Live(moved)| == |Live(senders)| - (if phase.Ended? then 1 else 0)
            && |Holders(moved)| == |Holders(senders)| + (if phase.Holding? then 1 else 0)
                                   - (if senders[g].phase.Holding? then 1 else 0)
  {
    hide Live, Holders;
    LiveMoved(senders, g, phase);
    HoldersMoved(senders, g, phase);
  }

  lemma LiveMoved(senders: seq<Sender>, g: Id, phase: Phase)
    requires g < |senders| && !senders[g].phase.Ended?
    ensures g in Live(senders)
    ensures Live(senders[g := senders[g].(phase := phase)])
            == if phase.Ended? then Live(senders) - {g} else Live(senders)
  {
  }

  lemma HoldersMoved(senders: seq<Sender>, g: Id, phase: Phase)
    requires g < |senders|
    ensures g in Holders(senders) <==> senders[g].phase.Holding?
    ensures Holders(senders[g := senders[g].(phase := phase)])
            == if phase.Holding? then Holders(senders) + {g} else if g in Holders(senders) then Holders(senders) - {g}
               else Holders(senders)
  {
  }

  lemma SentSender(senders: seq<Sender>, a: Id, byStop: bool)
    ensures var more := senders + [Sender(a, byStop, Queued)];
            |Live(more)| == |Live(senders)| + 1 && |Holders(more)| == |Holders(senders)|
  {
    var more := senders + [Sender(a, byStop, Queued)];
    assert Live(more) == Live(senders) + {|senders|};
    assert Holders(more) == Holders(senders);
  }

  lemma CountersStep(s: State, step: Step)
    requires CountersRight(s) && Can(s, step)
    ensures CountersRight(Do(s, step))
  {
    hide Collects, Live, Holders;
    match step
    case Acquire(g) => MovedSenders(s.senders, g, Holding);
    case Release(g) => MovedSenders(s.senders, g, Released);
    case GiveUp(g) => MovedSenders(s.senders, g, Released);
    case Leave(g) => MovedSenders(s.senders, g, Ended);
    case LaunchStopped(a) => SentSender(s.senders, a, false);
    case StopLaunches => SentSender(s.senders, s.shutdown.todo[0], true);
    case _ =>
  }

  lemma NoneLive(senders: seq<Sender>, g: nat)
    requires |Live(senders)| == 0 && g < |senders|
    ensures senders[g].phase.Ended?
  {
    assert Live(senders) == {};
    assert g !in Live(senders);
  }

  lemma SameSendersLaunched(s: State, t: State, a: Id, byStop: bool)
    requires SameSenders(s, t)
    ensures LaunchedBy(t, a, byStop) <==> LaunchedBy(s, a, byStop)
  {
    if LaunchedBy(s, a, byStop) {
      LaunchedStays(s, t, a, byStop);
    }
    if LaunchedBy(t, a, byStop) {
      LaunchedStays(t, s, a, byStop);
    }
  }

  lemma TodoStep(s: State, t: State, todo: seq<Id>)
    requires TodoRight(s, todo) && |s.anns| <= |t.anns| && SameSenders(s, t)
    ensures TodoRight(t, todo)
  {
    forall i | 0 <= i < |todo| ensures !LaunchedBy(t, todo[i], true) {
      SameSendersLaunched(s, t, todo[i], true);
    }
  }

  lemma ShutdownStep(s: State, step: Step)
    requires ActiveRight(s) && ShutdownRight(s) && CountersRight(s) && Can(s, step)
    ensures ShutdownRight(Do(s, step))
  {
    hide ActiveRight, CountersRight, Collects, TodoRight;
    var t := Do(s, step);
    if step.StopBegins? {
      TodoBegins(s, step.order);
    } else if step.StopLaunches? {
      TodoShrinks(s);
    } else if step.LaunchStopped? {
      TodoWaits(s, step.a);
    } else if step.StopWaited? {
      forall g | 0 <= g < |t.senders| ensures t.senders[g].phase.Ended? {
        NobodyLeft(s, g);
      }
    } else {
      AnnsOnlyGrow(s, step);
      SendersStep(s, step);
      if t.shutdown.Launching? {
        TodoStep(s, t, t.shutdown.todo);
      }
    }
  }

  lemma AnnsOnlyGrow(s: State, step: Step)
    requires Can(s, step)
    ensures |s.anns| <= |Do(s, step).anns|
  {
  }

  lemma NobodyLeft(s: State, g: nat)
    requires CountersRight(s) && s.wg == 0 && g < |s.senders|
    ensures s.senders[g].phase.Ended?
  {
    NoneLive(s.senders, g);
  }

  lemma TodoBegins(s: State, order: seq<Id>)
    requires Collects(s, order) && ShutdownRight(s) && s.shutdown.Running?
    ensures TodoRight(Do(s, StopBegins(order)), order)
  {
  }

  lemma OnlyTheSent(s: State, t: State, sender: Sender, a: Id, byStop: bool)
    requires t.senders == s.senders + [sender]
    ensures LaunchedBy(t, a, byStop) <==> LaunchedBy(s, a, byStop) || (sender.ann == a && sender.byStop == byStop)
  {
    assert t.senders[|s.senders|] == sender;
    assert forall g :: 0 <= g < |s.senders| ==> t.senders[g] == s.senders[g];
  }

  lemma TodoShrinks(s: State)
    requires s.shutdown.Launching? && s.shutdown.todo != [] && TodoRight(s, s.shutdown.todo)
    ensures TodoRight(Do(s, StopLaunches), s.shutdown.todo[1..])
  {
    hide LaunchedBy;
    var t, todo := Do(s, StopLaunches), s.shutdown.todo;
    forall i | 0 <= i < |todo[1..]| ensures !LaunchedBy(t, todo[1..][i], true) {
      assert todo[1..][i] == todo[i + 1];
      if !s.closing {
        OnlyTheSent(s, t, Sender(todo[0], true, Queued), todo[i + 1], true);
      } else {
        SameSendersLaunched(s, t, todo[i + 1], true);
      }
    }
  }

  lemma TodoWaits(s: State, a: Id)
    requires AtStage(s, a, Launch)
    ensures s.shutdown.Launching? && TodoRight(s, s.shutdown.todo) ==>
              TodoRight(Do(s, LaunchStopped(a)), s.shutdown.todo)
  {
    hide LaunchedBy;
    var t := Do(s, LaunchStopped(a));
    if s.shutdown.Launching? && TodoRight(s, s.shutdown.todo) {
      var todo := s.shutdown.todo;
      forall i | 0 <= i < |todo| ensures !LaunchedBy(t, todo[i], true) {
        if !s.closing {
          OnlyTheSent(s, t, Sender(a, false, Queued), todo[i], true);
        } else {
          SameSendersLaunched(s, t, todo[i], true);
        }
      }
    }
  }

  /** Every critical section of every thread keeps the invariants. */
  lemma StepKeepsInv(s: State, step: Step)
    requires Inv(s) && Can(s, step)
    ensures Inv(Do(s, step))
  {
    hide ActiveRight, EntriesOwned, RemovalsRight, LaunchesRight, NoneSkipped, ShutdownRight, CountersRight, Can, Do;
    ActiveStep(s, step);
    EntriesStep(s, step);
    RemovalsStep(s, step);
    LaunchesStep(s, step);
    SkippedStep(s, step);
    ShutdownStep(s, step);
    CountersStep(s, step);
  }

  lemma InitIsFine()
    ensures Inv(INIT)
  {
  }

  lemma {:induction false} RunsKeepInv(s: State, steps: seq<Step>)
    requires Inv(s) && Exec(s, steps).Some?
    ensures Inv(Exec(s, steps).value)
    decreases |steps|
  {
    hide Inv, Can, Do;
    if steps == [] {
    } else {
      StepKeepsInv(s, steps[0]);
      RunsKeepInv(Do(s, steps[0]), steps[1..]);
    }
  }

  // ----- What every interleaving guarantees -----

  predicate RemoversDone(s: State) {
    forall a :: 0 <= a < |s.anns| ==> !Owes(s.anns[a].removal)
  }

  /** Every bandwidth entry belongs to an active hash or to one whose remover is still to unregister it,
      so none is an orphan once the removers are done. */
  lemma NoOrphanEntries(steps: seq<Step>)
    requires Exec(INIT, steps).Some?
    ensures var s := Exec(INIT, steps).value;
            && (forall h :: h in s.bw ==> h in s.active || OwedEntry(s, h))
            && (RemoversDone(s) ==> s.bw <= s.active.Keys)
  {
    hide Exec, ActiveRight, RemovalsRight, LaunchesRight, NoneSkipped, ShutdownRight, CountersRight, Owes;
    InitIsFine();
    RunsKeepInv(INIT, steps);
  }

  ghost predicate Sends(s: State, g: nat, a: Id) {
    g < |s.senders| && s.senders[g].ann == a
  }

  /** Before Stop begins no announcer has two stopped announces, and one whose remover is done has one
      exactly when the remover saw it started; being started at the removal is enough for that. */
  lemma StoppedOnceBeforeStop(steps: seq<Step>, a: Id)
    requires Exec(INIT, steps).Some? && Exec(INIT, steps).value.shutdown.Running?
    requires a < |Exec(INIT, steps).value.anns|
    ensures var s := Exec(INIT, steps).value;
            && (forall g, k :: Sends(s, g, a) && Sends(s, k, a) ==> g == k)
            && (s.anns[a].removal.Kept? ==> !exists g :: Sends(s, g, a))
            && (AtStage(s, a, Finished) ==> ((exists g :: Sends(s, g, a)) <==> s.anns[a].removal.saw))
            && (AtStage(s, a, Finished) && s.anns[a].removal.was ==> exists g :: Sends(s, g, a))
  {
    hide Exec;
    InitIsFine();
    RunsKeepInv(INIT, steps);
    var s := Exec(INIT, steps).value;
    if AtStage(s, a, Finished) && s.anns[a].removal.saw {
      assert LaunchedBy(s, a, false);
      var g :| 0 <= g < |s.senders| && s.senders[g].ann == a && !s.senders[g].byStop;
      assert Sends(s, g, a);
    }
  }

  /** Over a whole run an announcer has at most one stopped announce from its remover and one from Stop. */
  lemma StoppedTwiceAtMost(steps: seq<Step>, g: nat, k: nat, m: nat)
    requires Exec(INIT, steps).Some?
    requires g < k < m < |Exec(INIT, steps).value.senders|
    ensures var senders := Exec(INIT, steps).value.senders;
            !(senders[g].ann == senders[k].ann == senders[m].ann)
  {
    hide Exec, ActiveRight, EntriesOwned, RemovalsRight, NoneSkipped, ShutdownRight, CountersRight, PastLaunch;
    InitIsFine();
    RunsKeepInv(INIT, steps);
  }

  /** Eight stopped announces at most are under way, and the wait group counts the goroutines left. */
  lemma StoppedAnnouncesAreBounded(steps: seq<Step>)
    requires Exec(INIT, steps).Some?
    ensures var s := Exec(INIT, steps).value;
            && |set g | 0 <= g < |s.senders| && s.senders[g].phase.Holding?| <= 8
            && s.wg == |set g | 0 <= g < |s.senders| && !s.senders[g].phase.Ended?|
  {
    hide Exec, ActiveRight, EntriesOwned, RemovalsRight, LaunchesRight, NoneSkipped, ShutdownRight;
    InitIsFine();
    RunsKeepInv(INIT, steps);
    var s := Exec(INIT, steps).value;
    assert (set g | 0 <= g < |s.senders| && s.senders[g].phase.Holding?) == Holders(s.senders);
    assert (set g | 0 <= g < |s.senders| && !s.senders[g].phase.Ended?) == Live(s.senders);
  }

  lemma ClosedStep(s: State, step: Step)
    requires s.closing && ShutdownRight(s) && Can(s, step)
    ensures Do(s, step).closing && Do(s, step).wg <= s.wg && |Do(s, step).senders| == |s.senders|
  {
    hide Collects;
  }

  /** Once the entrance is closed nothing is launched any more and the wait group only falls. */
  lemma {:induction false} ClosedForGood(s: State, steps: seq<Step>)
    requires Inv(s) && s.closing && Exec(s, steps).Some?
    ensures var t := Exec(s, steps).value;
            t.closing && t.wg <= s.wg && |t.senders| == |s.senders|
    decreases |steps|
  {
    hide Can, Do, Inv;
    if steps == [] {
    } else {
      ClosingIsShutdown(s);
      ClosedStep(s, steps[0]);
      StepKeepsInv(s, steps[0]);
      ClosedForGood(Do(s, steps[0]), steps[1..]);
    }
  }

  lemma ClosingIsShutdown(s: State)
    requires Inv(s)
    ensures ShutdownRight(s)
  {
  }

  /** When Stop's wait completes, every stopped announce ever launched has ended, and none follows. */
  lemma CompletedWaitMissesNothing(steps: seq<Step>, more: seq<Step>)
    requires Exec(INIT, steps).Some? && Exec(INIT, steps).value.shutdown.Waited?
    requires Exec(Exec(INIT, steps).value, more).Some?
    ensures var s, t := Exec(INIT, steps).value, Exec(Exec(INIT, steps).value, more).value;
            && (forall g :: 0 <= g < |s.senders| ==> s.senders[g].phase.Ended?)
            && s.wg == 0 && t.wg == 0 && |t.senders| == |s.senders|
  {
    hide Exec;
    InitIsFine();
    RunsKeepInv(INIT, steps);
    var s := Exec(INIT, steps).value;
    assert Live(s.senders) == {};
    ClosedForGood(s, more);
    RunsKeepInv(s, more);
  }

  // ----- Loops and their cancellation -----

  /** The step cancels the announcer: it takes it out of the active map, or Stop begins while it is there. */
  predicate Cancels(s: State, step: Step, a: Id) {
    Taking(s, step) == Some(a) || (step.StopBegins? && IsActive(s, a))
  }

  /** Nothing else cancels an announcer, and nothing takes a cancellation back. */
  lemma CancelledExactly(s: State, step: Step, a: Id)
    requires ActiveRight(s) && Can(s, step) && a < |s.anns|
    ensures a < |Do(s, step).anns|
    ensures Do(s, step).anns[a].cancelled <==> s.anns[a].cancelled || Cancels(s, step, a)
  {
    hide Collects;
    if MovesRemoval(step) {
      RemoverCancelsNothing(s, step, a);
    } else if TakesOrAdds(step) {
      TakingCancels(s, step, a);
    }
  }

  lemma RemoverCancelsNothing(s: State, step: Step, a: Id)
    requires Can(s, step) && MovesRemoval(step) && a < |s.anns|
    ensures a < |Do(s, step).anns| && Do(s, step).anns[a].cancelled == s.anns[a].cancelled
  {
  }

  lemma TakingCancels(s: State, step: Step, a: Id)
    requires ActiveRight(s) && Can(s, step) && TakesOrAdds(step) && a < |s.anns|
    ensures a < |Do(s, step).anns|
    ensures Do(s, step).anns[a].cancelled <==> s.anns[a].cancelled || Cancels(s, step, a)
  {
  }

  /** Before Stop begins the cancelled announcers are the removed ones; a removed one is always cancelled. */
  predicate CancelsRight(s: State) {
    forall a :: 0 <= a < |s.anns| ==>
      && (s.anns[a].removal.Removed? ==> s.anns[a].cancelled)
      && (s.shutdown.Running? && s.anns[a].cancelled ==> s.anns[a].removal.Removed?)
  }

  /** A loop that goes on announces started until the announcer is marked started, and not after. */
  predicate EventsRight(s: State) {
    forall a :: 0 <= a < |s.anns| && !s.anns[a].loop.Over? ==> (s.anns[a].loop.first <==> !s.anns[a].started)
  }

  lemma RemovedExactly(s: State, step: Step, a: Id)
    requires ActiveRight(s) && Can(s, step) && a < |s.anns|
    ensures a < |Do(s, step).anns|
    ensures Do(s, step).anns[a].removal.Removed? <==> s.anns[a].removal.Removed? || Taking(s, step) == Some(a)
  {
    hide Collects;
    if MovesRemoval(step) {
      RemoverRemovesNothing(s, step, a);
    } else if TakesOrAdds(step) {
      TakingRemoves(s, step, a);
    } else {
      KeepsRemoval(s, step, a);
    }
  }

  lemma RemoverRemovesNothing(s: State, step: Step, a: Id)
    requires Can(s, step) && MovesRemoval(step) && a < |s.anns|
    ensures a < |Do(s, step).anns| && Do(s, step).anns[a].removal.Removed? == s.anns[a].removal.Removed?
  {
  }

  lemma TakingRemoves(s: State, step: Step, a: Id)
    requires ActiveRight(s) && Can(s, step) && TakesOrAdds(step) && a < |s.anns|
    ensures a < |Do(s, step).anns|
    ensures Do(s, step).anns[a].removal.Removed? <==> s.anns[a].removal.Removed? || Taking(s, step) == Some(a)
  {
  }

  lemma NewAnnouncer(s: State, step: Step, a: Id)
    requires Can(s, step) && |s.anns| <= a < |Do(s, step).anns|
    ensures step.TryAdd? && a == |s.anns| && Do(s, step).shutdown == s.shutdown
    ensures Do(s, step).anns[a] == Announcer(step.h, false, false, Announcing(true), Kept)
  {
    hide Collects;
  }

  lemma StaysRunning(s: State, step: Step)
    requires Can(s, step)
    ensures Do(s, step).shutdown.Running? <==> s.shutdown.Running? && !step.StopBegins?
  {
    hide Collects;
  }

  lemma CancelsStayRight(s: State, step: Step)
    requires ActiveRight(s) && CancelsRight(s) && Can(s, step)
    ensures CancelsRight(Do(s, step))
  {
    hide Do, Can, Taking, ActiveRight;
    var t := Do(s, step);
    StaysRunning(s, step);
    forall a | 0 <= a < |t.anns|
      ensures t.anns[a].removal.Removed? ==> t.anns[a].cancelled
      ensures t.shutdown.Running? && t.anns[a].cancelled ==> t.anns[a].removal.Removed?
    {
      if a < |s.anns| {
        CancelledExactly(s, step, a);
        RemovedExactly(s, step, a);
      } else {
        NewAnnouncer(s, step, a);
      }
    }
  }

  lemma EventsStayRight(s: State, step: Step)
    requires EventsRight(s) && Can(s, step)
    ensures EventsRight(Do(s, step))
  {
    hide Collects;
    if MovesRemoval(step) {
      RemoverKeepsLoops(s, step);
    } else if step.RemoveActive? || step.Complete? {
      TakingKeepsLoops(s, step);
    }
  }

  lemma RemoverKeepsLoops(s: State, step: Step)
    requires Can(s, step) && MovesRemoval(step)
    ensures |Do(s, step).anns| == |s.anns| && forall a :: 0 <= a < |s.anns| ==>
              Do(s, step).anns[a].loop == s.anns[a].loop && Do(s, step).anns[a].started == s.anns[a].started
  {
  }

  lemma TakingKeepsLoops(s: State, step: Step)
    requires Can(s, step) && (step.RemoveActive? || step.Complete?)
    ensures |Do(s, step).anns| == |s.anns| && forall a :: 0 <= a < |s.anns| ==>
              Do(s, step).anns[a].loop == s.anns[a].loop && Do(s, step).anns[a].started == s.anns[a].started
  {
  }

  lemma {:induction false} RunsKeepLoops(s: State, steps: seq<Step>)
    requires Inv(s) && CancelsRight(s) && EventsRight(s) && Exec(s, steps).Some?
    ensures Inv(Exec(s, steps).value) && CancelsRight(Exec(s, steps).value) && EventsRight(Exec(s, steps).value)
    decreases |steps|
  {
    hide Inv, Can, Do, CancelsRight, EventsRight;
    if steps == [] {
    } else {
      StepKeepsInv(s, steps[0]);
      KeptActive(s);
      CancelsStayRight(s, steps[0]);
      EventsStayRight(s, steps[0]);
      RunsKeepLoops(Do(s, steps[0]), steps[1..]);
    }
  }

  /** In every reachable state: a removed announcer can get no further answer, and its loop can end; an active
      one can get its answer as long as nothing shuts down; and a loop announces started exactly until the
      announcer is marked started. */
  lemma LoopsEndExactly(steps: seq<Step>, a: Id)
    requires Exec(INIT, steps).Some? && a < |Exec(INIT, steps).value.anns|
    ensures var s, ann := Exec(INIT, steps).value, Exec(INIT, steps).value.anns[a];
            && (ann.removal.Removed? || s.rootDone ==> !Can(s, AnnounceSucceeds(a)))
            && (ann.removal.Removed? && ann.loop.Announcing? ==> Can(s, LoopEnds(a)))
            && (IsActive(s, a) && ann.loop.Announcing? && s.shutdown.Running? && !s.rootDone ==>
                  Can(s, AnnounceSucceeds(a)) && !Can(s, LoopEnds(a)))
            && (!ann.loop.Over? ==> (ann.loop.first <==> !ann.started))
  {
    hide Exec, Inv;
    InitIsFine();
    RunsKeepLoops(INIT, steps);
    var s := Exec(INIT, steps).value;
    KeptActive(s);
  }

  /** Once removed, an announcer that has no answer in hand never gets one, whatever runs on. */
  lemma {:induction false} RemovedGetsNoAnswer(s: State, steps: seq<Step>, a: Id)
    requires Inv(s) && CancelsRight(s) && Exec(s, steps).Some?
    requires a < |s.anns| && s.anns[a].removal.Removed? && !s.anns[a].loop.Answered?
    ensures AnnounceSucceeds(a) !in steps
    ensures var t := Exec(s, steps).value;
            a < |t.anns| && t.anns[a].removal.Removed? && !t.anns[a].loop.Answered?
    decreases |steps|
  {
    hide Inv, Do, CancelsRight;
    if steps == [] {
    } else {
      KeptActive(s);
      StepKeepsInv(s, steps[0]);
      CancelsStayRight(s, steps[0]);
      RemovedExactly(s, steps[0], a);
      NoAnswerNow(s, steps[0], a);
      RemovedGetsNoAnswer(Do(s, steps[0]), steps[1..], a);
      assert steps == [steps[0]] + steps[1..];
    }
  }

  lemma NoAnswerNow(s: State, step: Step, a: Id)
    requires CancelsRight(s) && Can(s, step) && a < |s.anns|
    requires s.anns[a].removal.Removed? && !s.anns[a].loop.Answered?
    ensures step != AnnounceSucceeds(a) && a < |Do(s, step).anns| && !Do(s, step).anns[a].loop.Answered?
  {
    hide Collects;
    if MovesRemoval(step) {
      RemoverKeepsLoops(s, step);
    } else if step.RemoveActive? || step.Complete? {
      TakingKeepsLoops(s, step);
    }
  }

  /** When Stop begins, every active announcer is cancelled and no other. */
  lemma StopCancelsTheActive(steps: seq<Step>, order: seq<Id>, a: Id)
    requires Exec(INIT, steps).Some? && Can(Exec(INIT, steps).value, StopBegins(order))
    requires a < |Exec(INIT, steps).value.anns|
    ensures var s, t := Exec(INIT, steps).value, Do(Exec(INIT, steps).value, StopBegins(order));
            && t.anns[a].cancelled
            && (IsActive(s, a) ==> !s.anns[a].cancelled) && (!IsActive(s, a) ==> s.anns[a].removal.Removed?)
  {
    hide Exec, Inv;
    InitIsFine();
    RunsKeepLoops(INIT, steps);
    var s := Exec(INIT, steps).value;
    KeptActive(s);
  }

  /** A torrent that is added can report at once, is then marked started and has its bandwidth entry. */
  lemma AddedTorrentCanStart(s: State, h: Hash, restored: bool)
    requires h !in s.active && !s.rootDone
    ensures var a := |s.anns|;
            var run := Exec(s, [TryAdd(h, restored)] + ([AnnounceSucceeds(a)] + ([Confirm(a, false)] + [])));
            && run.Some? && a < |run.value.anns| && IsActive(run.value, a)
            && run.value.anns[a] == Announcer(h, true, false, Announcing(false), Kept)
            && run.value.bw == s.bw + {h} && run.value.active == s.active[h := a]
            && (h in Do(s, TryAdd(h, restored)).bw <==> restored || h in s.bw)
  {
    hide Exec;
    var a, last := |s.anns|, [Confirm(|s.anns|, false)] + [];
    var s1 := Do(s, TryAdd(h, restored));
    Unfold(s, TryAdd(h, restored), [AnnounceSucceeds(a)] + last);
    var s2 := Do(s1, AnnounceSucceeds(a));
    Unfold(s1, AnnounceSucceeds(a), last);
    Unfold(s2, Confirm(a, false), []);
    NothingLeft(Do(s2, Confirm(a, false)));
  }

  /** The context a stopped announce waits under: that of Stop for one of Stop's, the root for a remover's. */
  predicate ContextDone(s: State, g: Id)
    requires g < |s.senders|
  {
    if s.senders[g].byStop then s.stopDone else s.rootDone
  }

  /** No stopped announce is given up unless its own context is cancelled: otherwise one that is past waiting has
      had its turn. */
  lemma {:induction false} StoppedAnnouncesAreSent(s: State, steps: seq<Step>, g: Id)
    requires Exec(s, steps).Some? && g < |s.senders| && s.senders[g].phase.Queued? && !ContextDone(s, g)
    requires (if s.senders[g].byStop then CancelStop else CancelRoot) !in steps
    requires g < |Exec(s, steps).value.senders| ==> !Exec(s, steps).value.senders[g].phase.Queued?
    ensures Acquire(g) in steps
    decreases |steps|
  {
    hide Do, Can, ContextDone;
    if steps == [] {
    } else if steps[0] != Acquire(g) {
      StillQueued(s, steps[0], g);
      StoppedAnnouncesAreSent(Do(s, steps[0]), steps[1..], g);
    }
  }

  lemma StillQueued(s: State, step: Step, g: Id)
    requires Can(s, step) && g < |s.senders| && s.senders[g].phase.Queued? && !ContextDone(s, g)
    requires step != (if s.senders[g].byStop then CancelStop else CancelRoot) && step != Acquire(g)
    ensures var t := Do(s, step);
            && g < |t.senders| && t.senders[g].phase.Queued? && t.senders[g].byStop == s.senders[g].byStop
            && !ContextDone(t, g)
  {
    hide Do, IsActive, AtStage, Collects;
    SenderWaitsOn(s, step, g);
    ContextStays(s, step);
  }

  lemma SenderWaitsOn(s: State, step: Step, g: Id)
    requires Can(s, step) && g < |s.senders| && s.senders[g].phase.Queued?
    requires step != Acquire(g) && step != GiveUp(g)
    ensures g < |Do(s, step).senders| && Do(s, step).senders[g] == s.senders[g]
  {
    hide Collects, IsActive;
  }

  lemma ContextStays(s: State, step: Step)
    requires Can(s, step)
    ensures Do(s, step).rootDone <==> s.rootDone || step.CancelRoot?
    ensures Do(s, step).stopDone <==> s.stopDone || step.CancelStop?
  {
    hide Collects, IsActive;
  }

  /** A stopped announce is launched waiting, and whoever launched it says whose context it waits under. */
  lemma LaunchedWaiting(s: State, step: Step, g: Id)
    requires Can(s, step) && |s.senders| <= g < |Do(s, step).senders|
    ensures g == |s.senders| && Do(s, step).senders[g].phase.Queued?
    ensures Do(s, step).senders[g].byStop <==> step.StopLaunches?
    ensures step == LaunchStopped(Do(s, step).senders[g].ann)
            || (step.StopLaunches? && Do(s, step).senders[g].ann == s.shutdown.todo[0])
  {
    hide Collects;
  }

  /** A loop that has ended stays ended, and a cancelled one ends by its next step. */
  lemma {:induction false} EndedLoopsStayEnded(s: State, steps: seq<Step>, a: Id)
    requires Exec(s, steps).Some? && a < |s.anns|
    ensures a < |Exec(s, steps).value.anns|
    ensures s.anns[a].loop.Over? || LoopEnds(a) in steps ==> Exec(s, steps).value.anns[a].loop.Over?
    decreases |steps|
  {
    hide Do, Can;
    if steps == [] {
    } else {
      LoopStep(s, steps[0], a);
      EndedLoopsStayEnded(Do(s, steps[0]), steps[1..], a);
      assert LoopEnds(a) in steps ==> steps[0] == LoopEnds(a) || LoopEnds(a) in steps[1..];
    }
  }

  lemma LoopStep(s: State, step: Step, a: Id)
    requires Can(s, step) && a < |s.anns|
    ensures a < |Do(s, step).anns|
    ensures s.anns[a].loop.Over? || step == LoopEnds(a) ==> Do(s, step).anns[a].loop.Over?
  {
    hide Collects;
    if MovesRemoval(step) {
      RemoverKeepsLoops(s, step);
    } else if step.RemoveActive? || step.Complete? {
      TakingKeepsLoops(s, step);
    }
  }

  // ----- Whom Stop serves -----

  /** Stop has launched the announcer's stopped announce or is to do so. */
  predicate Served(s: State, a: Id) {
    LaunchedBy(s, a, true) || (s.shutdown.Launching? && a in s.shutdown.todo)
  }

  lemma ServedStays(s: State, step: Step, a: Id)
    requires Inv(s) && !s.shutdown.Running? && Can(s, step)
    ensures Served(Do(s, step), a) <==> Served(s, a)
    ensures !Do(s, step).shutdown.Running?
  {
    hide ActiveRight, EntriesOwned, RemovalsRight, LaunchesRight, NoneSkipped, CountersRight, Collects, LaunchedBy;
    var t := Do(s, step);
    if step.StopLaunches? {
      var todo := s.shutdown.todo;
      assert a in todo <==> a == todo[0] || a in todo[1..];
      OnlyTheSent(s, t, Sender(todo[0], true, Queued), a, true);
    } else if step.LaunchStopped? && !s.closing {
      OnlyTheSent(s, t, Sender(step.a, false, Queued), a, true);
    } else if step.LaunchStopped? {
      SameSendersLaunched(s, t, a, true);
    } else {
      SendersStep(s, step);
      SameSendersLaunched(s, t, a, true);
      ShutdownMoves(s, step);
    }
  }

  lemma ShutdownMoves(s: State, step: Step)
    requires Can(s, step) && !step.StopLaunches? && !s.shutdown.Running?
    ensures !Do(s, step).shutdown.Running?
    ensures s.shutdown.Launching? && !step.StopCloses? ==> Do(s, step).shutdown == s.shutdown
    ensures step.StopCloses? ==> s.shutdown == Launching([])
    ensures !s.shutdown.Launching? || step.StopCloses? ==> !Do(s, step).shutdown.Launching?
  {
    hide Collects;
  }

  lemma {:induction false} ServedAllAlong(s: State, steps: seq<Step>, a: Id)
    requires Inv(s) && !s.shutdown.Running? && Exec(s, steps).Some?
    ensures Served(Exec(s, steps).value, a) <==> Served(s, a)
    decreases |steps|
  {
    hide Inv, Can, Do, Served;
    if steps == [] {
    } else {
      ServedStays(s, steps[0], a);
      StepKeepsInv(s, steps[0]);
      ServedAllAlong(Do(s, steps[0]), steps[1..], a);
    }
  }

  /** Once Stop has closed the entrance it has launched a stopped announce for exactly the announcers that were
      active and started when it began. */
  lemma StopServesTheStarted(before: seq<Step>, order: seq<Id>, steps: seq<Step>, a: Id)
    requires Exec(INIT, before).Some? && Can(Exec(INIT, before).value, StopBegins(order))
    requires Exec(Do(Exec(INIT, before).value, StopBegins(order)), steps).Some?
    ensures var s, t := Exec(INIT, before).value, Exec(Do(Exec(INIT, before).value, StopBegins(order)), steps).value;
            t.closing ==> (LaunchedBy(t, a, true) <==> IsActive(s, a) && s.anns[a].started)
  {
    hide Exec, ActiveRight, EntriesOwned, RemovalsRight, LaunchesRight, NoneSkipped, CountersRight, LaunchedBy;
    InitIsFine();
    RunsKeepInv(INIT, before);
    var s := Exec(INIT, before).value;
    StepKeepsInv(s, StopBegins(order));
    var s1 := Do(s, StopBegins(order));
    ServedAllAlong(s1, steps, a);
    RunsKeepInv(s1, steps);
    NoneByStop(s, a);
    SameSendersLaunched(s, s1, a, true);
  }

  lemma NoneByStop(s: State, a: Id)
    requires ShutdownRight(s) && s.shutdown.Running?
    ensures !LaunchedBy(s, a, true)
  {
  }

  // ----- Stop can always complete -----

  function Left(phase: Phase): nat {
    match phase
    case Queued => 3
    case Holding => 2
    case Released => 1
    case Ended => 0
  }

  function Work(senders: seq<Sender>): nat {
    if senders == [] then 0 else Left(senders[0].phase) + Work(senders[1..])
  }

  lemma {:induction false} WorkMoved(senders: seq<Sender>, g: Id, phase: Phase)
    requires g < |senders|
    ensures Work(senders[g := senders[g].(phase := phase)])
            == Work(senders) - Left(senders[g].phase) + Left(phase)
    decreases |senders|
  {
    var moved := senders[g := senders[g].(phase := phase)];
    if g == 0 {
      assert moved[1..] == senders[1..];
    } else {
      assert moved[1..] == senders[1..][g - 1 := senders[1..][g - 1].(phase := phase)];
      WorkMoved(senders[1..], g - 1, phase);
    }
  }

  /** A step of goroutine `g` that no other goroutine can hold up for good. */
  function NextOf(s: State, g: Id): Step
    requires g < |s.senders|
  {
    match s.senders[g].phase
    case Queued => Acquire(g)
    case Holding => Release(g)
    case _ => Leave(g)
  }

  /** While the wait group is above zero some goroutine can go on, so the semaphore never blocks all. */
  lemma SomeoneCanGoOn(s: State) returns (g: Id)
    requires CountersRight(s) && s.wg > 0
    ensures g < |s.senders| && !s.senders[g].phase.Ended? && Can(s, NextOf(s, g))
  {
    if s.sem > 0 {
      g :| g in Holders(s.senders);
    } else {
      g :| g in Live(s.senders);
      assert Holders(s.senders) == {};
      assert g !in Holders(s.senders);
    }
  }

  lemma GoingOnWorks(s: State, g: Id)
    requires g < |s.senders| && !s.senders[g].phase.Ended? && Can(s, NextOf(s, g))
    ensures Work(Do(s, NextOf(s, g)).senders) < Work(s.senders)
    ensures Do(s, NextOf(s, g)).shutdown == s.shutdown
  {
    hide Collects;
    match s.senders[g].phase
    case Queued => WorkMoved(s.senders, g, Holding);
    case Holding => WorkMoved(s.senders, g, Released);
    case Released => WorkMoved(s.senders, g, Ended);
  }

  /** From every reachable state in which Stop waits, the goroutines can all end and the wait complete. */
  lemma {:induction false} WaitCanComplete(s: State) returns (steps: seq<Step>)
    requires Inv(s) && s.shutdown.Waiting?
    ensures Exec(s, steps).Some? && Exec(s, steps).value.shutdown.Waited?
    decreases Work(s.senders)
  {
    hide Inv, Do, Can, CountersRight, NextOf;
    CountsAreRight(s);
    if s.wg == 0 {
      steps := [StopWaited] + [];
      WaitedFrom(s);
      Unfold(s, StopWaited, []);
    } else {
      var g := SomeoneCanGoOn(s);
      var step := NextOf(s, g);
      GoingOnWorks(s, g);
      StepKeepsInv(s, step);
      var rest := WaitCanComplete(Do(s, step));
      steps := [step] + rest;
      Unfold(s, step, rest);
    }
  }

  lemma CountsAreRight(s: State)
    requires Inv(s)
    ensures CountersRight(s) && s.wg >= 0
  {
  }

  lemma WaitedFrom(s: State)
    requires s.shutdown.Waiting? && s.wg == 0
    ensures Can(s, StopWaited) && Do(s, StopWaited).shutdown.Waited?
  {
  }

  lemma Unfold(s: State, step: Step, rest: seq<Step>)
    requires Can(s, step)
    ensures Exec(s, [step] + rest) == Exec(Do(s, step), rest)
  {
    assert ([step] + rest)[1..] == rest;
  }

  // ----- What the interleavings do not guarantee -----

  /** Every active announcer that is marked started has its bandwidth entry. */
  predicate StartedHaveEntries(s: State) {
    forall a :: 0 <= a < |s.anns| && IsActive(s, a) && s.anns[a].started ==> s.anns[a].hash in s.bw
  }

  /** The only way to lose one: a remover unregisters a hash that was added again and has started. */
  lemma EntryIsLostExactly(s: State, step: Step)
    requires ActiveRight(s) && StartedHaveEntries(s) && Can(s, step)
    ensures !StartedHaveEntries(Do(s, step)) <==>
              step.UnregisterEntry?
              && s.anns[step.a].hash in s.active
              && s.anns[s.active[s.anns[step.a].hash]].started
  {
    hide Collects, Owes;
    var t := Do(s, step);
    if step.UnregisterEntry? && s.anns[step.a].hash in s.active && s.anns[s.active[s.anns[step.a].hash]].started {
      var b := s.active[s.anns[step.a].hash];
      assert IsActive(t, b) && t.anns[b].started;
    }
  }

  /** No hash is added while a remover of it has yet to unregister it. */
  predicate AddsWait(s: State, steps: seq<Step>)
    decreases |steps|
  {
    steps == [] ||
    (Can(s, steps[0]) && (steps[0].TryAdd? ==> !OwedEntry(s, steps[0].h)) && AddsWait(Do(s, steps[0]), steps[1..]))
  }

  /** A hash with an owed Unregister is not active. */
  predicate OwedAreInactive(s: State) {
    forall a :: 0 <= a < |s.anns| && Owes(s.anns[a].removal) ==> s.anns[a].hash !in s.active
  }

  lemma OwedStayInactive(s: State, step: Step)
    requires ActiveRight(s) && OwedAreInactive(s) && Can(s, step)
    requires step.TryAdd? ==> !OwedEntry(s, step.h)
    ensures OwedAreInactive(Do(s, step))
  {
    hide Collects, Do, Can, ActiveRight, Owes;
    var t := Do(s, step);
    forall a | 0 <= a < |t.anns| && Owes(t.anns[a].removal) ensures t.anns[a].hash !in t.active {
      if step.TryAdd? || step.RemoveActive? || step.Complete? {
        OwedAtAChange(s, step, a);
      } else {
        OwedBefore(s, step, a);
      }
    }
  }

  lemma OwedBefore(s: State, step: Step, a: Id)
    requires Can(s, step) && !step.TryAdd? && !step.RemoveActive? && !step.Complete?
    requires a < |Do(s, step).anns| && Owes(Do(s, step).anns[a].removal)
    ensures Do(s, step).active == s.active && a < |s.anns| && Owes(s.anns[a].removal)
    ensures Do(s, step).anns[a].hash == s.anns[a].hash
  {
    hide Do, Can, Owes;
    if step.ReadStarted? || step.LaunchStopped? || step.UnregisterEntry? {
      OwedBeforeRemover(s, step, a);
    } else if step.AnnounceSucceeds? || step.LoopEnds? || step.Confirm? || step.StopBegins? {
      OwedBeforeLoop(s, step, a);
    } else {
      OwedBeforeSender(s, step);
    }
  }

  lemma OwedBeforeRemover(s: State, step: Step, a: Id)
    requires Can(s, step) && (step.ReadStarted? || step.LaunchStopped? || step.UnregisterEntry?)
    requires a < |Do(s, step).anns| && Owes(Do(s, step).anns[a].removal)
    ensures Do(s, step).active == s.active && a < |s.anns| && Owes(s.anns[a].removal)
    ensures Do(s, step).anns[a].hash == s.anns[a].hash
  {
  }

  lemma OwedBeforeLoop(s: State, step: Step, a: Id)
    requires Can(s, step) && (step.AnnounceSucceeds? || step.LoopEnds? || step.Confirm? || step.StopBegins?)
    requires a < |Do(s, step).anns|
    ensures Do(s, step).active == s.active && a < |s.anns|
    ensures Do(s, step).anns[a].hash == s.anns[a].hash && Do(s, step).anns[a].removal == s.anns[a].removal
  {
    hide Collects;
  }

  lemma OwedBeforeSender(s: State, step: Step)
    requires Can(s, step) && !step.TryAdd? && !step.RemoveActive? && !step.Complete?
    requires !step.ReadStarted? && !step.LaunchStopped? && !step.UnregisterEntry?
    requires !step.AnnounceSucceeds? && !step.LoopEnds? && !step.Confirm? && !step.StopBegins?
    ensures Do(s, step).active == s.active && Do(s, step).anns == s.anns
  {
    hide Collects;
  }

  lemma OwedAtAChange(s: State, step: Step, a: Id)
    requires ActiveRight(s) && OwedAreInactive(s) && Can(s, step)
    requires step.TryAdd? || step.RemoveActive? || step.Complete?
    requires step.TryAdd? ==> !OwedEntry(s, step.h)
    requires a < |Do(s, step).anns| && Owes(Do(s, step).anns[a].removal)
    ensures Do(s, step).anns[a].hash !in Do(s, step).active
  {
    hide Collects;
    if a < |s.anns| && Owes(s.anns[a].removal) {
      assert step.TryAdd? ==> s.anns[a].hash != step.h;
    }
  }

  /** Adding a hash only after its Unregister is enough to keep every entry. */
  lemma {:induction false} WaitingAddsLoseNothing(s: State, steps: seq<Step>)
    requires ActiveRight(s) && OwedAreInactive(s) && StartedHaveEntries(s)
    requires Exec(s, steps).Some? && AddsWait(s, steps)
    ensures StartedHaveEntries(Exec(s, steps).value)
    decreases |steps|
  {
    hide Can, Do, ActiveRight, StartedHaveEntries, OwedAreInactive;
    if steps == [] {
    } else {
      ActiveStep(s, steps[0]);
      OwedStayInactive(s, steps[0]);
      EntryIsLostExactly(s, steps[0]);
      UnregistersInactive(s, steps[0]);
      WaitingAddsLoseNothing(Do(s, steps[0]), steps[1..]);
    }
  }

  lemma UnregistersInactive(s: State, step: Step)
    requires OwedAreInactive(s) && Can(s, step)
    ensures step.UnregisterEntry? ==> s.anns[step.a].hash !in s.active
  {
  }

  /** One active torrent whose loop has reported started. */
  function OneStarted(h: Hash): State {
    State(map[h := 0], [Announcer(h, true, false, Announcing(false), Kept)], {h}, [], 0, 0, false, Running,
          false, false)
  }

  lemma Starting(h: Hash, rest: seq<Step>)
    ensures Exec(INIT, [TryAdd(h, false)] + ([AnnounceSucceeds(0)] + ([Confirm(0, false)] + rest)))
            == Exec(OneStarted(h), rest)
  {
    hide Exec;
    var s1 := Do(INIT, TryAdd(h, false));
    var s2 := Do(s1, AnnounceSucceeds(0));
    Unfold(INIT, TryAdd(h, false), [AnnounceSucceeds(0)] + ([Confirm(0, false)] + rest));
    Unfold(s1, AnnounceSucceeds(0), [Confirm(0, false)] + rest);
    Unfold(s2, Confirm(0, false), rest);
    assert s1.anns == [Announcer(h, false, false, Announcing(true), Kept)];
    assert Do(s2, Confirm(0, false)) == OneStarted(h);
  }

  function Taken(h: Hash, stage: Stage, saw: bool): Announcer {
    Announcer(h, true, true, Announcing(false), Removed(ByStopTorrent, stage, true, saw))
  }

  lemma StoppingOne(h: Hash, rest: seq<Step>)
    ensures Exec(OneStarted(h), [RemoveActive(h)] + ([ReadStarted(0)] + ([LaunchStopped(0)] + rest)))
            == Exec(State(map[], [Taken(h, Unregister, true)], {h}, [Sender(0, false, Queued)], 1, 0, false, Running,
                          false, false), rest)
  {
    hide Exec;
    var s0 := OneStarted(h);
    var s1, s2 := Do(s0, RemoveActive(h)), Do(Do(s0, RemoveActive(h)), ReadStarted(0));
    Unfold(s0, RemoveActive(h), [ReadStarted(0)] + ([LaunchStopped(0)] + rest));
    Unfold(s1, ReadStarted(0), [LaunchStopped(0)] + rest);
    Unfold(s2, LaunchStopped(0), rest);
    assert s1.anns == [Taken(h, CheckStarted, false)];
    assert s2.anns == [Taken(h, Launch, true)];
    assert s2.active == map[];
    assert Do(s2, LaunchStopped(0)).senders == [Sender(0, false, Queued)];
    assert Do(s2, LaunchStopped(0)).anns == [Taken(h, Unregister, true)];
  }

  /** A torrent added again between removeActive and Unregister loses its live entry. */
  lemma ReaddedTorrentLosesItsEntry(h: Hash) returns (steps: seq<Step>)
    ensures Exec(INIT, steps).Some?
    ensures var s := Exec(INIT, steps).value;
            s.active == map[h := 1] && |s.anns| == 2 && s.anns[1].started && h !in s.bw && RemoversDone(s)
  {
    hide Exec;
    var end := [TryAdd(h, false)] + ([AnnounceSucceeds(1)] + ([Confirm(1, false)] + ([UnregisterEntry(0)] + [])));
    var stop := [RemoveActive(h)] + ([ReadStarted(0)] + ([LaunchStopped(0)] + end));
    steps := [TryAdd(h, false)] + ([AnnounceSucceeds(0)] + ([Confirm(0, false)] + stop));
    Starting(h, stop);
    StoppingOne(h, end);
    var s := State(map[], [Taken(h, Unregister, true)], {h}, [Sender(0, false, Queued)], 1, 0, false, Running,
                   false, false);
    var s1, s2 := Do(s, TryAdd(h, false)), Do(Do(s, TryAdd(h, false)), AnnounceSucceeds(1));
    Unfold(s, TryAdd(h, false), [AnnounceSucceeds(1)] + ([Confirm(1, false)] + ([UnregisterEntry(0)] + [])));
    Unfold(s1, AnnounceSucceeds(1), [Confirm(1, false)] + ([UnregisterEntry(0)] + []));
    var s3 := Do(s2, Confirm(1, false));
    Unfold(s2, Confirm(1, false), [UnregisterEntry(0)] + []);
    assert s3.anns == [Taken(h, Unregister, true), Announcer(h, true, false, Announcing(false), Kept)];
    Unfold(s3, UnregisterEntry(0), []);
    NothingLeft(Do(s3, UnregisterEntry(0)));
  }

  lemma NothingLeft(s: State)
    ensures Exec(s, []) == Some(s)
  {
  }

  /** Stop leaves its announcers active, so one of them can be stopped a second time. */
  lemma StopCanLaunchASecondOne(h: Hash) returns (steps: seq<Step>)
    ensures Exec(INIT, steps).Some?
    ensures Exec(INIT, steps).value.senders == [Sender(0, true, Queued), Sender(0, false, Queued)]
  {
    hide Exec;
    var end := [RemoveActive(h)] + ([ReadStarted(0)] + ([LaunchStopped(0)] + []));
    var all := [StopBegins([0])] + ([StopLaunches] + end);
    steps := [TryAdd(h, false)] + ([AnnounceSucceeds(0)] + ([Confirm(0, false)] + all));
    Starting(h, all);
    var s1, s2 := Do(OneStarted(h), StopBegins([0])), Stopping(h);
    Unfold(OneStarted(h), StopBegins([0]), [StopLaunches] + end);
    assert s1.anns == [Announcer(h, true, true, Announcing(false), Kept)];
    Unfold(s1, StopLaunches, end);
    assert s1.shutdown.todo[1..] == [];
    assert Do(s1, StopLaunches).senders == s2.senders;
    StoppingAgain(h);
  }

  /** Stop has launched its announce for the one torrent, which is still active. */
  function Stopping(h: Hash): State {
    State(map[h := 0], [Announcer(h, true, true, Announcing(false), Kept)], {h}, [Sender(0, true, Queued)], 1, 0, false,
          Launching([]), false, false)
  }

  lemma StoppingAgain(h: Hash)
    ensures var run := Exec(Stopping(h), [RemoveActive(h)] + ([ReadStarted(0)] + ([LaunchStopped(0)] + [])));
            run.Some? && run.value.senders == [Sender(0, true, Queued), Sender(0, false, Queued)]
  {
    hide Exec;
    var s2 := Stopping(h);
    var s3 := Do(s2, RemoveActive(h));
    Unfold(s2, RemoveActive(h), [ReadStarted(0)] + ([LaunchStopped(0)] + []));
    var s4 := Do(s3, ReadStarted(0));
    Unfold(s3, ReadStarted(0), [LaunchStopped(0)] + []);
    assert s4.anns == [Taken(h, Launch, true)];
    Unfold(s4, LaunchStopped(0), []);
    NothingLeft(Do(s4, LaunchStopped(0)));
  }

  /** No announcer has two stopped announces. */
  predicate OneEach(s: State) {
    forall g, k :: 0 <= g < k < |s.senders| ==> s.senders[g].ann != s.senders[k].ann
  }

  /** A second one is launched exactly by a remover of an announcer that Stop has already served, or by
      Stop for one whose remover was first, as long as the entrance is open. */
  lemma SecondStoppedExactly(s: State, step: Step)
    requires Inv(s) && OneEach(s) && Can(s, step)
    ensures !OneEach(Do(s, step)) <==>
              !s.closing && ((step.LaunchStopped? && LaunchedBy(s, step.a, true))
                             || (step.StopLaunches? && LaunchedBy(s, s.shutdown.todo[0], false)))
  {
    hide Inv, Collects, Do;
    if SendsOne(step) && !s.closing {
      var a := if step.LaunchStopped? then step.a else s.shutdown.todo[0];
      SendsFor(s, step, a);
      OneMoreSender(s, Do(s, step), Sender(a, step.StopLaunches?, Queued));
    } else {
      SendsNothing(s, step);
    }
  }

  lemma SendsFor(s: State, step: Step, a: Id)
    requires Inv(s) && Can(s, step) && SendsOne(step) && !s.closing
    requires a == if step.LaunchStopped? then step.a else s.shutdown.todo[0]
    ensures Do(s, step).senders == s.senders + [Sender(a, step.StopLaunches?, Queued)]
    ensures !LaunchedBy(s, a, step.StopLaunches?)
  {
    hide ActiveRight, EntriesOwned, NoneSkipped, CountersRight;
    if step.LaunchStopped? {
      NotLaunchedYet(s, a);
    }
  }

  lemma SendsNothing(s: State, step: Step)
    requires OneEach(s) && Can(s, step) && (SendsOne(step) ==> s.closing)
    ensures OneEach(Do(s, step))
  {
    hide Collects;
    if !SendsOne(step) {
      SendersStep(s, step);
    }
  }

  lemma OneMoreSender(s: State, t: State, sender: Sender)
    requires OneEach(s) && t.senders == s.senders + [sender] && !LaunchedBy(s, sender.ann, sender.byStop)
    ensures !OneEach(t) <==> LaunchedBy(s, sender.ann, !sender.byStop)
  {
    assert forall g :: 0 <= g < |s.senders| ==> t.senders[g] == s.senders[g];
    assert t.senders[|s.senders|] == sender;
    if LaunchedBy(s, sender.ann, !sender.byStop) {
      var g :| 0 <= g < |s.senders| && s.senders[g].ann == sender.ann && s.senders[g].byStop == !sender.byStop;
      assert t.senders[g].ann == t.senders[|s.senders|].ann;
    }
  }

  /** The announcer the step takes out of the active map. */
  function Taking(s: State, step: Step): Option<Id> {
    if step.RemoveActive? && step.h in s.active then Some(s.active[step.h])
    else if step.Complete? then Some(step.a)
    else None
  }

  /** Stop has the announcer on its list, or has launched its announce. */
  predicate Collected(s: State, a: Id) {
    s.shutdown.Launching? && (a in s.shutdown.todo || LaunchedBy(s, a, true))
  }

  /** No announcer Stop has collected is removed while the entrance is open. */
  predicate LeavesCollected(s: State, steps: seq<Step>)
    decreases |steps|
  {
    steps == [] ||
    (Can(s, steps[0]) && (Taking(s, steps[0]).Some? ==> !Collected(s, Taking(s, steps[0]).value))
     && LeavesCollected(Do(s, steps[0]), steps[1..]))
  }

  predicate CollectedAreKept(s: State) {
    forall a :: 0 <= a < |s.anns| && Collected(s, a) ==> s.anns[a].removal.Kept?
  }

  lemma CollectedBefore(s: State, step: Step, a: Id)
    requires Inv(s) && Can(s, step) && a < |Do(s, step).anns| && Collected(Do(s, step), a) && !step.StopBegins?
    ensures a < |s.anns| && Collected(s, a)
  {
    hide ActiveRight, EntriesOwned, RemovalsRight, NoneSkipped, CountersRight, Collects, PastLaunch;
    if !SendsOne(step) {
      SendersStep(s, step);
      SameSendersLaunched(s, Do(s, step), a, true);
    } else if !s.closing {
      var b, byStop := if step.LaunchStopped? then step.a else s.shutdown.todo[0], step.StopLaunches?;
      OnlyTheSent(s, Do(s, step), Sender(b, byStop, Queued), a, true);
    }
    if LaunchedBy(s, a, true) {
      var g :| 0 <= g < |s.senders| && s.senders[g].ann == a && s.senders[g].byStop;
    }
  }

  lemma KeptUnlessTaken(s: State, step: Step, a: Id)
    requires ActiveRight(s) && Can(s, step) && a < |s.anns| && s.anns[a].removal.Kept? && Taking(s, step) != Some(a)
    ensures a < |Do(s, step).anns| && Do(s, step).anns[a].removal.Kept?
  {
    hide Collects;
    if !TakesOrAdds(step) {
      ShapeStep(s, step);
    }
  }

  lemma CollectedStayKept(s: State, step: Step)
    requires Inv(s) && CollectedAreKept(s) && Can(s, step)
    requires Taking(s, step).Some? ==> !Collected(s, Taking(s, step).value)
    ensures CollectedAreKept(Do(s, step))
  {
    hide Inv, Do, Collected, Collects, Can;
    forall a | 0 <= a < |Do(s, step).anns| && Collected(Do(s, step), a) ensures Do(s, step).anns[a].removal.Kept? {
      if step.StopBegins? {
        CollectedAtFirst(s, step, a);
      } else {
        CollectedBefore(s, step, a);
        KeptActive(s);
        KeptUnlessTaken(s, step, a);
      }
    }
  }

  lemma KeptActive(s: State)
    requires Inv(s)
    ensures ActiveRight(s)
  {
  }

  lemma CollectedAtFirst(s: State, step: Step, a: Id)
    requires Inv(s) && Can(s, step) && step.StopBegins? && a < |Do(s, step).anns| && Collected(Do(s, step), a)
    ensures Do(s, step).anns[a].removal.Kept?
  {
    hide EntriesOwned, RemovalsRight, LaunchesRight, NoneSkipped, CountersRight;
  }

  lemma KeptAreStoppedOnce(s: State, step: Step)
    requires Inv(s) && OneEach(s) && CollectedAreKept(s) && Can(s, step)
    ensures OneEach(Do(s, step))
  {
    hide OneEach, EntriesOwned, RemovalsRight, NoneSkipped, CountersRight, Collects, Do;
    SecondStoppedExactly(s, step);
  }

  /** If no collected announcer is removed while the entrance is open, no announcer is stopped twice. */
  lemma {:induction false} LeftAloneStopsOnce(s: State, steps: seq<Step>)
    requires Inv(s) && OneEach(s) && CollectedAreKept(s) && Exec(s, steps).Some? && LeavesCollected(s, steps)
    ensures OneEach(Exec(s, steps).value)
    decreases |steps|
  {
    hide Inv, OneEach, CollectedAreKept, Collected, Can, Do, Taking;
    if steps == [] {
    } else {
      KeptAreStoppedOnce(s, steps[0]);
      CollectedStayKept(s, steps[0]);
      StepKeepsInv(s, steps[0]);
      LeftAloneStopsOnce(Do(s, steps[0]), steps[1..]);
    }
  }

  /** A removed announcer is marked started exactly when its first success comes after its hash was
      added again. */
  lemma MarkedAfterRemovalExactly(s: State, step: Step, a: Id)
    requires ActiveRight(s) && Can(s, step) && a < |s.anns| && s.anns[a].removal.Removed? && !s.anns[a].started
    ensures a < |Do(s, step).anns|
    ensures Do(s, step).anns[a].started <==>
              step.Confirm? && step.a == a && s.anns[a].loop.first
              && s.anns[a].hash in s.active && s.active[s.anns[a].hash] != a
  {
    hide Collects;
    if step.Confirm? {
    } else {
      MarkStays(s, step, a);
    }
  }

  lemma MarkStays(s: State, step: Step, a: Id)
    requires ActiveRight(s) && Can(s, step) && !step.Confirm? && a < |s.anns|
    ensures a < |Do(s, step).anns| && Do(s, step).anns[a].started == s.anns[a].started
  {
    hide Collects;
    if MovesRemoval(step) {
      RemovalKeepsMark(s, step, a);
    } else if step.RemoveActive? || step.Complete? {
      TakingKeepsMark(s, step, a);
    }
  }

  lemma RemovalKeepsMark(s: State, step: Step, a: Id)
    requires Can(s, step) && MovesRemoval(step) && a < |s.anns|
    ensures a < |Do(s, step).anns| && Do(s, step).anns[a].started == s.anns[a].started
  {
  }

  lemma TakingKeepsMark(s: State, step: Step, a: Id)
    requires ActiveRight(s) && Can(s, step) && (step.RemoveActive? || step.Complete?) && a < |s.anns|
    ensures a < |Do(s, step).anns| && Do(s, step).anns[a].started == s.anns[a].started
  {
  }

  /** The loop looks up only the hash: an announcer that was removed unstarted can still be marked
      started through its successor, and then a stopped announce is launched for it. */
  lemma RemovedAnnouncerCanStillStart(h: Hash) returns (steps: seq<Step>)
    ensures Exec(INIT, steps).Some?
    ensures var s := Exec(INIT, steps).value;
            && |s.anns| == 2 && s.anns[0].removal == Removed(ByStopTorrent, Unregister, false, true)
            && s.senders == [Sender(0, false, Queued)]
  {
    hide Exec;
    var end := [ReadStarted(0)] + ([LaunchStopped(0)] + []);
    var mid := [RemoveActive(h)] + ([TryAdd(h, false)] + ([Confirm(0, false)] + end));
    steps := [TryAdd(h, false)] + ([AnnounceSucceeds(0)] + mid);
    var s1, s2 := Do(INIT, TryAdd(h, false)), Do(Do(INIT, TryAdd(h, false)), AnnounceSucceeds(0));
    Unfold(INIT, TryAdd(h, false), [AnnounceSucceeds(0)] + mid);
    Unfold(s1, AnnounceSucceeds(0), mid);
    assert s2.anns == [Announcer(h, false, false, Answered(true), Kept)];
    var s3 := Do(s2, RemoveActive(h));
    Unfold(s2, RemoveActive(h), [TryAdd(h, false)] + ([Confirm(0, false)] + end));
    var s4 := Do(s3, TryAdd(h, false));
    Unfold(s3, TryAdd(h, false), [Confirm(0, false)] + end);
    assert s4.anns[0] == Announcer(h, false, true, Answered(true), Removed(ByStopTorrent, CheckStarted, false, false));
    var s5 := Do(s4, Confirm(0, false));
    Unfold(s4, Confirm(0, false), end);
    assert s5.anns[0].started && s5.anns[0].removal == s4.anns[0].removal;
    var s6 := Do(s5, ReadStarted(0));
    Unfold(s5, ReadStarted(0), [LaunchStopped(0)] + []);
    Unfold(s6, LaunchStopped(0), []);
    NothingLeft(Do(s6, LaunchStopped(0)));
  }
}
