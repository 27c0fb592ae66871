/** The upload count of a torrent on its way between the bandwidth ledger, the goroutine that stops the
    torrent and the records of the scheduler, one critical section at a time. */
module Uploads {
  import opened Numerals
  import opened Bandwidth

  type Id = nat

  /** Where a goroutine stands. In stopTorrent it has taken the torrent out, then it has read the count, then
      it has unregistered the entry and is to record the count. In completeTorrent it has read the count, then
      it has recorded it and is to unregister the entry. */
  datatype Task =
    | Taken(h: Hash, removed: bool)
    | Measured(h: Hash, removed: bool, count: nat)
    | Dropped(h: Hash, removed: bool, count: nat)
    | Weighed(h: Hash, a: Id, count: nat)
    | Recorded(h: Hash)

  /** The announcer of each active hash, the live counts, the recorded ones, and what is under way. */
  datatype State = State(
    active: map<Hash, Id>, live: map<Hash, nat>, record: map<Hash, nat>, tasks: map<nat, Task>, nextId: Id)

  datatype Step =
    | Add(h: Hash)
    | Answer(h: Hash)
    | Tick(gains: map<Hash, nat>)
    | Take(w: nat, h: Hash, removed: bool)
    | Measure(w: nat)
    | Unregister(w: nat)
    | Remember(w: nat)
    | Weigh(w: nat, h: Hash)
    | Complete(w: nat)

  function CountIn(m: map<Hash, nat>, h: Hash): nat {
    if h in m then m[h] else 0
  }

  predicate Can(s: State, step: Step) {
    match step
    case Add(h) => h !in s.active
    case Answer(h) => h in s.active
    case Tick(_) => true
    case Take(w, _, _) => w !in s.tasks
    case Measure(w) => w in s.tasks && s.tasks[w].Taken?
    case Unregister(w) => w in s.tasks && (s.tasks[w].Measured? || s.tasks[w].Recorded?)
    case Remember(w) => w in s.tasks && s.tasks[w].Dropped?
    case Weigh(w, h) => w !in s.tasks && h in s.active
    case Complete(w) => w in s.tasks && s.tasks[w].Weighed?
  }

  function Do(s: State, step: Step): State
    requires Can(s, step)
  {
    match step
    case Add(h) =>
      s.(active := s.active[h := s.nextId], nextId := s.nextId + 1,
         live := if CountIn(s.record, h) > 0 then s.live[h := s.record[h]] else s.live)
    case Answer(h) => s.(live := s.live[h := CountIn(s.live, h)])
    case Tick(gains) => s.(live := map h | h in s.live :: s.live[h] + CountIn(gains, h))
    case Take(w, h, removed) =>
      s.(active := s.active - {h},
         tasks := s.tasks[w := if h in s.active then Taken(h, removed) else Dropped(h, removed, 0)])
    case Measure(w) =>
      var task := s.tasks[w];
      s.(tasks := s.tasks[w := Measured(task.h, task.removed, CountIn(s.live, task.h))])
    case Unregister(w) =>
      var task := s.tasks[w];
      s.(live := s.live - {task.h},
         tasks := if task.Measured? then s.tasks[w := Dropped(task.h, task.removed, task.count)] else s.tasks - {w})
    case Remember(w) =>
      var task := s.tasks[w];
      s.(tasks := s.tasks - {w},
         record := if task.removed then s.record - {task.h} else Raised(s.record, task.h, task.count))
    case Weigh(w, h) => s.(tasks := s.tasks[w := Weighed(h, s.active[h], CountIn(s.live, h))])
    case Complete(w) =>
      var task := s.tasks[w];
      if task.h in s.active && s.active[task.h] == task.a then
        s.(active := s.active - {task.h}, record := Raised(s.record, task.h, task.count),
           tasks := s.tasks[w := Recorded(task.h)])
      else s.(tasks := s.tasks - {w})
  }

  function Raised(record: map<Hash, nat>, h: Hash, count: nat): map<Hash, nat> {
    record[h := if CountIn(record, h) < count then count else CountIn(record, h)]
  }

  // ----- Where a count is -----

  /** The goroutine has read a count that it is to record. */
  predicate Holds(task: Task, h: Hash, n: nat) {
    (task.Measured? || task.Dropped?) && task.h == h && task.count >= n
  }

  predicate Held(s: State, h: Hash, n: nat) {
    exists w :: w in s.tasks && Holds(s.tasks[w], h, n)
  }

  /** A count of at least `n` is in the ledger, on record, or held by a goroutine. */
  predicate Reaches(s: State, h: Hash, n: nat) {
    CountIn(s.live, h) >= n || CountIn(s.record, h) >= n || Held(s, h, n)
  }

  /** The largest of the counts has not fallen. */
  ghost predicate Keeps(s: State, t: State, h: Hash) {
    forall n: nat :: Reaches(s, h, n) ==> Reaches(t, h, n)
  }

  /** Another goroutine holds at least `n`. */
  predicate HeldByOther(s: State, w: nat, h: Hash, n: nat) {
    exists v :: v in s.tasks && v != w && Holds(s.tasks[v], h, n)
  }

  /** The step takes away the largest count: it restores a smaller record over the live count, or it
      unregisters a live count that has grown since it was read, or the torrent's file was removed. */
  predicate Loses(s: State, step: Step, h: Hash)
    requires Can(s, step)
  {
    match step
    case Add(k) =>
      k == h && 0 < CountIn(s.record, h) < CountIn(s.live, h) && !Held(s, h, CountIn(s.live, h))
    case Unregister(w) =>
      s.tasks[w].h == h && CountIn(s.record, h) < CountIn(s.live, h) && !Held(s, h, CountIn(s.live, h))
    case Remember(w) =>
      var task := s.tasks[w];
      var most := Max(CountIn(s.record, h), task.count);
      task.removed && task.h == h && CountIn(s.live, h) < most && !HeldByOther(s, w, h, most)
    case _ => false
  }

  lemma SameTasksHold(s: State, t: State, h: Hash, n: nat)
    requires t.tasks == s.tasks
    ensures Held(t, h, n) <==> Held(s, h, n)
  {
  }

  lemma HeldAfter(s: State, t: State, w: nat, h: Hash, n: nat)
    requires t.tasks - {w} == s.tasks - {w}
    ensures HeldByOther(s, w, h, n) <==> HeldByOther(t, w, h, n)
    ensures Held(s, h, n) <==> HeldByOther(s, w, h, n) || (w in s.tasks && Holds(s.tasks[w], h, n))
    ensures Held(t, h, n) <==> HeldByOther(t, w, h, n) || (w in t.tasks && Holds(t.tasks[w], h, n))
  {
    forall v | v != w ensures (v in s.tasks <==> v in t.tasks) && (v in s.tasks ==> s.tasks[v] == t.tasks[v]) {
      assert v in s.tasks - {w} <==> v in t.tasks - {w};
      assert v in s.tasks ==> (s.tasks - {w})[v] == (t.tasks - {w})[v];
    }
  }

  lemma TaskStepKeeps(s: State, step: Step, h: Hash)
    requires Can(s, step) && (step.Take? || step.Measure? || step.Weigh? || step.Complete?)
    ensures Keeps(s, Do(s, step), h)
  {
    hide Held, HeldByOther;
    forall n: nat | Reaches(s, h, n) ensures Reaches(Do(s, step), h, n) {
      HeldAfter(s, Do(s, step), step.w, h, n);
    }
  }

  lemma LedgerStepKeeps(s: State, step: Step, h: Hash)
    requires Can(s, step) && (step.Answer? || step.Tick?)
    ensures Keeps(s, Do(s, step), h)
  {
    forall n: nat | Reaches(s, h, n) ensures Reaches(Do(s, step), h, n) {
      SameTasksHold(s, Do(s, step), h, n);
    }
  }

  lemma AddKeepsExactly(s: State, k: Hash, h: Hash)
    requires Can(s, Add(k))
    ensures Keeps(s, Do(s, Add(k)), h) <==> !Loses(s, Add(k), h)
  {
    hide Held;
    var t, top := Do(s, Add(k)), CountIn(s.live, h);
    forall n: nat ensures Held(t, h, n) <==> Held(s, h, n) {
      SameTasksHold(s, t, h, n);
    }
    HeldBelow(s, h);
    assert Loses(s, Add(k), h) ==> Reaches(s, h, top) && !Reaches(t, h, top);
  }

  /** Who holds a count holds every smaller one. */
  lemma HeldBelow(s: State, h: Hash)
    ensures forall m: nat, n: nat :: m <= n && Held(s, h, n) ==> Held(s, h, m)
    ensures forall w: nat, m: nat, n: nat :: m <= n && HeldByOther(s, w, h, n) ==> HeldByOther(s, w, h, m)
  {
  }

  lemma UnregisterKeepsExactly(s: State, w: nat, h: Hash)
    requires Can(s, Unregister(w))
    ensures Keeps(s, Do(s, Unregister(w)), h) <==> !Loses(s, Unregister(w), h)
  {
    hide Held, HeldByOther;
    var t, top := Do(s, Unregister(w)), CountIn(s.live, h);
    forall n: nat ensures Held(t, h, n) <==> Held(s, h, n) {
      HeldAfter(s, t, w, h, n);
    }
    HeldBelow(s, h);
    assert Loses(s, Unregister(w), h) ==> Reaches(s, h, top) && !Reaches(t, h, top);
  }

  lemma RememberKeepsExactly(s: State, w: nat, h: Hash)
    requires Can(s, Remember(w))
    ensures Keeps(s, Do(s, Remember(w)), h) <==> !Loses(s, Remember(w), h)
  {
    hide Held, HeldByOther;
    var t, most := Do(s, Remember(w)), Max(CountIn(s.record, h), s.tasks[w].count);
    forall n: nat
      ensures Held(t, h, n) <==> HeldByOther(s, w, h, n)
      ensures Held(s, h, n) <==> HeldByOther(s, w, h, n) || Holds(s.tasks[w], h, n)
    {
      HeldAfter(s, t, w, h, n);
    }
    HeldBelow(s, h);
    assert Loses(s, Remember(w), h) ==> Reaches(s, h, most) && !Reaches(t, h, most);
  }

  /** The largest count of a hash falls in a step exactly when the step loses it. */
  lemma CountFallsExactly(s: State, step: Step, h: Hash)
    requires Can(s, step)
    ensures !Keeps(s, Do(s, step), h) <==> Loses(s, step, h)
  {
    hide Do, Keeps, Loses;
    match step
    case Add(k) => AddKeepsExactly(s, k, h);
    case Unregister(w) => UnregisterKeepsExactly(s, w, h);
    case Remember(w) => RememberKeepsExactly(s, w, h);
    case _ => OtherStepsKeep(s, step, h);
  }

  lemma OtherStepsKeep(s: State, step: Step, h: Hash)
    requires Can(s, step) && !step.Add? && !step.Unregister? && !step.Remember?
    ensures Keeps(s, Do(s, step), h) && !Loses(s, step, h)
  {
    hide Do, Keeps;
    if step.Answer? || step.Tick? {
      LedgerStepKeeps(s, step, h);
    } else {
      TaskStepKeeps(s, step, h);
    }
  }

  // ----- Undisturbed runs -----

  /** The goroutine is to unregister the entry of the hash. */
  predicate Owes(task: Task, h: Hash) {
    task.h == h && (task.Taken? || task.Measured? || task.Recorded?)
  }

  predicate Owed(s: State, h: Hash) {
    exists w :: w in s.tasks && Owes(s.tasks[w], h)
  }

  /** The count has been read and is still to be unregistered. */
  predicate Frozen(s: State, task: Task) {
    task.Measured? || task.Recorded? || (task.Weighed? && task.h in s.active && s.active[task.h] == task.a)
  }

  /** No hash is added while its entry is still to be unregistered, no upload is credited to a hash between the
      reading of its count and the end of its entry, and no file is removed. */
  predicate Undisturbed(s: State, step: Step) {
    match step
    case Add(h) => !Owed(s, h)
    case Tick(gains) => forall w :: w in s.tasks && Frozen(s, s.tasks[w]) ==> CountIn(gains, s.tasks[w].h) == 0
    case Take(_, _, removed) => !removed
    case _ => true
  }

  predicate EntriesOwned(s: State) {
    forall h :: h in s.live ==> h in s.active || Owed(s, h)
  }

  predicate OwedAreInactive(s: State) {
    forall w :: w in s.tasks && Owes(s.tasks[w], s.tasks[w].h) ==> s.tasks[w].h !in s.active
  }

  predicate OneOwes(s: State) {
    forall v, w :: v in s.tasks && w in s.tasks && v != w && Owes(s.tasks[v], s.tasks[v].h) ==>
      !Owes(s.tasks[w], s.tasks[v].h)
  }

  predicate TasksFit(s: State) {
    && (forall w :: w in s.tasks ==> Fits(s, s.tasks[w]))
    && (forall h :: h in s.active ==> s.active[h] < s.nextId)
  }

  /** What undisturbed runs keep: no entry without an announcer or someone who is to unregister it, and what
      is to be unregistered has been read or recorded in full. */
  predicate Inv(s: State) {
    EntriesOwned(s) && OwedAreInactive(s) && OneOwes(s) && TasksFit(s)
  }

  predicate Fits(s: State, task: Task) {
    match task
    case Taken(_, removed) => !removed
    case Measured(h, removed, count) => !removed && CountIn(s.live, h) == count
    case Dropped(_, removed, _) => !removed
    case Weighed(h, a, count) => a < s.nextId && (h in s.active && s.active[h] == a ==> CountIn(s.live, h) <= count)
    case Recorded(h) => CountIn(s.live, h) <= CountIn(s.record, h)
  }

  lemma UndisturbedLosesNothing(s: State, step: Step, h: Hash)
    requires Inv(s) && Can(s, step) && Undisturbed(s, step)
    ensures !Loses(s, step, h)
  {
    hide Owed;
    if step.Unregister? {
      var task := s.tasks[step.w];
      assert Fits(s, task);
      assert task.Measured? ==> Holds(task, task.h, CountIn(s.live, task.h));
    } else if step.Remember? {
      assert Fits(s, s.tasks[step.w]);
    }
  }

  lemma OwesAfter(s: State, t: State, w: nat, h: Hash)
    requires t.tasks - {w} == s.tasks - {w}
    ensures forall v :: v != w ==> (v in s.tasks <==> v in t.tasks) && (v in s.tasks ==> s.tasks[v] == t.tasks[v])
    ensures Owed(s, h) ==> Owed(t, h) || (w in s.tasks && Owes(s.tasks[w], h))
    ensures w in t.tasks && Owes(t.tasks[w], h) ==> Owed(t, h)
  {
    forall v | v != w ensures (v in s.tasks <==> v in t.tasks) && (v in s.tasks ==> s.tasks[v] == t.tasks[v]) {
      assert v in s.tasks - {w} <==> v in t.tasks - {w};
      assert v in s.tasks ==> (s.tasks - {w})[v] == (t.tasks - {w})[v];
    }
  }

  lemma EntriesStayOwned(s: State, step: Step)
    requires Inv(s) && Can(s, step)
    ensures EntriesOwned(Do(s, step))
  {
    hide Owed, TasksFit, OneOwes;
    var t := Do(s, step);
    forall h | h in t.live ensures h in t.active || Owed(t, h) {
      if step.Add? || step.Answer? || step.Tick? {
        SameTasksOwe(s, t, h);
      } else {
        OwesAfter(s, t, step.w, h);
      }
    }
  }

  lemma SameTasksOwe(s: State, t: State, h: Hash)
    requires t.tasks == s.tasks
    ensures Owed(s, h) <==> Owed(t, h)
  {
  }

  lemma OwedStayInactive(s: State, step: Step)
    requires Inv(s) && Can(s, step) && Undisturbed(s, step)
    ensures OwedAreInactive(Do(s, step))
  {
    hide EntriesOwned, TasksFit, OneOwes;
  }

  lemma OneStillOwes(s: State, step: Step)
    requires Inv(s) && Can(s, step)
    ensures OneOwes(Do(s, step))
  {
    hide EntriesOwned, TasksFit;
  }

  lemma TasksStayFit(s: State, step: Step)
    requires Inv(s) && Can(s, step) && Undisturbed(s, step)
    ensures TasksFit(Do(s, step))
  {
    hide EntriesOwned, Do;
    var t := Do(s, step);
    forall w | w in t.tasks ensures Fits(t, t.tasks[w]) {
      if step.Add? || step.Answer? || step.Tick? || step.w != w {
        OthersStayFit(s, step, w);
      } else {
        OwnTaskFits(s, step);
      }
    }
    IdsStayFresh(s, step);
  }

  lemma IdsStayFresh(s: State, step: Step)
    requires Inv(s) && Can(s, step)
    ensures forall h :: h in Do(s, step).active ==> Do(s, step).active[h] < Do(s, step).nextId
  {
  }

  lemma OwnTaskFits(s: State, step: Step)
    requires Inv(s) && Can(s, step) && Undisturbed(s, step) && !step.Add? && !step.Answer? && !step.Tick?
    requires step.w in Do(s, step).tasks
    ensures Fits(Do(s, step), Do(s, step).tasks[step.w])
  {
    hide EntriesOwned, OwedAreInactive, OneOwes;
    assert step.w in s.tasks ==> Fits(s, s.tasks[step.w]);
  }

  lemma OthersStayFit(s: State, step: Step, w: nat)
    requires Inv(s) && Can(s, step) && Undisturbed(s, step)
    requires w in Do(s, step).tasks && (step.Add? || step.Answer? || step.Tick? || step.w != w)
    ensures Fits(Do(s, step), Do(s, step).tasks[w])
  {
    hide EntriesOwned;
    assert w in s.tasks && Do(s, step).tasks[w] == s.tasks[w] && Fits(s, s.tasks[w]);
    var task := s.tasks[w];
    if step.Add? && step.h == task.h {
      assert !Owes(task, task.h);
    } else if step.Unregister? {
      assert task.Measured? ==> task.h != s.tasks[step.w].h;
    }
  }

  lemma UndisturbedKeepsInv(s: State, step: Step)
    requires Inv(s) && Can(s, step) && Undisturbed(s, step)
    ensures Inv(Do(s, step))
  {
    hide EntriesOwned, OwedAreInactive, OneOwes, TasksFit, Do;
    EntriesStayOwned(s, step);
    OwedStayInactive(s, step);
    OneStillOwes(s, step);
    TasksStayFit(s, step);
  }

  ghost predicate UndisturbedRun(s: State, steps: seq<Step>, t: State)
    decreases |steps|
  {
    if steps == [] then s == t
    else Can(s, steps[0]) && Undisturbed(s, steps[0]) && UndisturbedRun(Do(s, steps[0]), steps[1..], t)
  }

  /** Over such a run the largest count of no hash ever falls. */
  lemma {:induction false} CountsNeverFall(s: State, steps: seq<Step>, t: State, h: Hash)
    requires Inv(s) && UndisturbedRun(s, steps, t)
    ensures Inv(t) && Keeps(s, t, h)
    decreases |steps|
  {
    hide Inv, Can, Do, Undisturbed, Reaches;
    if steps == [] {
    } else {
      UndisturbedLosesNothing(s, steps[0], h);
      CountFallsExactly(s, steps[0], h);
      UndisturbedKeepsInv(s, steps[0]);
      CountsNeverFall(Do(s, steps[0]), steps[1..], t, h);
    }
  }

  // ----- Nothing is counted twice -----

  /** Somebody has read a count of at least `n`, for whatever purpose. */
  predicate Read(s: State, h: Hash, n: nat) {
    exists w :: w in s.tasks && HasRead(s.tasks[w], h, n)
  }

  predicate HasRead(task: Task, h: Hash, n: nat) {
    !task.Taken? && !task.Recorded? && task.h == h && task.count >= n
  }

  predicate Known(s: State, h: Hash, n: nat) {
    CountIn(s.live, h) >= n || CountIn(s.record, h) >= n || Read(s, h, n)
  }

  function Gain(step: Step, h: Hash): nat {
    if step.Tick? then CountIn(step.gains, h) else 0
  }

  /** No step makes a count larger than any there was, but for what a tick credits. */
  lemma CountRisesByTicksOnly(s: State, step: Step, h: Hash, n: nat)
    requires Can(s, step) && Known(Do(s, step), h, n) && n > Gain(step, h)
    ensures Known(s, h, n - Gain(step, h))
  {
    hide Read;
    var t := Do(s, step);
    if step.Add? || step.Answer? || step.Tick? {
      SameTasksRead(s, t, h, n, n - Gain(step, h));
    } else {
      ReadBefore(s, t, step.w, h, n);
    }
  }

  lemma SameTasksRead(s: State, t: State, h: Hash, n: nat, m: nat)
    requires t.tasks == s.tasks && m <= n
    ensures Read(t, h, n) ==> Read(s, h, m)
  {
  }

  lemma ReadBefore(s: State, t: State, w: nat, h: Hash, n: nat)
    requires t.tasks - {w} == s.tasks - {w}
    ensures Read(t, h, n) ==> Read(s, h, n) || (w in t.tasks && HasRead(t.tasks[w], h, n))
    ensures w in s.tasks && HasRead(s.tasks[w], h, n) ==> Read(s, h, n)
  {
    forall v | v != w ensures (v in s.tasks <==> v in t.tasks) && (v in s.tasks ==> s.tasks[v] == t.tasks[v]) {
      assert v in s.tasks - {w} <==> v in t.tasks - {w};
      assert v in s.tasks ==> (s.tasks - {w})[v] == (t.tasks - {w})[v];
    }
  }

  function Gains(steps: seq<Step>, h: Hash): nat {
    if steps == [] then 0 else Gain(steps[0], h) + Gains(steps[1..], h)
  }

  /** Over any run at all, disturbed or not, the largest count of a hash rises by no more than its credits. */
  lemma {:induction false} CountsRiseByTicksOnly(s: State, steps: seq<Step>, t: State, h: Hash, n: nat)
    requires Goes(s, steps, t) && Known(t, h, n) && n > Gains(steps, h)
    ensures Known(s, h, n - Gains(steps, h))
    decreases |steps|
  {
    hide Can, Do, Known, Gain;
    if steps == [] {
    } else {
      CountsRiseByTicksOnly(Do(s, steps[0]), steps[1..], t, h, n);
      CountRisesByTicksOnly(s, steps[0], h, n - Gains(steps[1..], h));
    }
  }

  /** A tick credits every live entry with its gain, and no other. */
  lemma TickAddsGains(s: State, gains: map<Hash, nat>, h: Hash)
    ensures var t := Do(s, Tick(gains));
            && (h in t.live <==> h in s.live)
            && (h in s.live ==> t.live[h] == s.live[h] + (if h in gains then gains[h] else 0))
            && t.record == s.record && t.tasks == s.tasks && t.active == s.active
  {
  }

  // ----- What persistState writes meanwhile -----

  /** The count in the file when the records are those of one state and the live counts those of a later one. */
  function Written(records: map<Hash, nat>, live: map<Hash, nat>, h: Hash): nat {
    Max(CountIn(records, h), CountIn(live, h))
  }

  /** Written at one moment of an undisturbed run, a count is less than the largest exactly when a goroutine
      holds more that has unregistered the entry and not yet recorded what it held. */
  lemma PersistWritesLessExactly(s: State, h: Hash)
    requires Inv(s)
    ensures (exists n: nat :: Reaches(s, h, n) && Written(s.record, s.live, h) < n) <==>
              exists w :: w in s.tasks && s.tasks[w].Dropped? && s.tasks[w].h == h
                          && Written(s.record, s.live, h) < s.tasks[w].count
  {
    hide EntriesOwned, OwedAreInactive, OneOwes;
    var most := Written(s.record, s.live, h);
    if n: nat :| Reaches(s, h, n) && most < n {
      var w :| w in s.tasks && Holds(s.tasks[w], h, n);
      assert Fits(s, s.tasks[w]);
    }
    if w :| w in s.tasks && s.tasks[w].Dropped? && s.tasks[w].h == h && most < s.tasks[w].count {
      assert Holds(s.tasks[w], h, s.tasks[w].count);
      assert Reaches(s, h, s.tasks[w].count);
    }
  }

  // ----- Runs that lose an upload -----

  ghost predicate Goes(s: State, steps: seq<Step>, t: State)
    decreases |steps|
  {
    if steps == [] then s == t else Can(s, steps[0]) && Goes(Do(s, steps[0]), steps[1..], t)
  }

  /** A torrent that has uploaded 100 since its record said 50. */
  function Seeding(h: Hash): State {
    State(map[h := 0], map[h := 100], map[h := 50], map[], 1)
  }

  lemma GoesOn(s: State, steps: seq<Step>, i: nat, t: State)
    requires i < |steps| && Can(s, steps[i]) && Goes(Do(s, steps[i]), steps[i + 1..], t)
    ensures Goes(s, steps[i..], t) && (i == 0 ==> Goes(s, steps, t))
  {
    assert steps[i..][1..] == steps[i + 1..];
    assert steps[0..] == steps;
  }

  function Readding(h: Hash): seq<Step> {
    [Take(0, h, false), Add(h), Measure(0), Unregister(0), Remember(0)]
  }

  function Removing(h: Hash): seq<Step> {
    [Take(0, h, false), Measure(0), Unregister(0), Remember(0)]
  }

  /** It is added again before its count is read: the old record is restored over the count. */
  lemma RestoreLosesUpload(h: Hash)
    ensures var t := State(map[h := 1], map[], map[h := 50], map[], 2);
            && Inv(Seeding(h)) && Reaches(Seeding(h), h, 100) && !Reaches(t, h, 51)
            && Goes(Seeding(h), Readding(h), t)
  {
    hide Goes, Reaches;
    var s := Seeding(h);
    var s1 := Do(s, Take(0, h, false));
    assert s1 == State(map[], map[h := 100], map[h := 50], map[0 := Taken(h, false)], 1);
    var s2 := Do(s1, Add(h));
    assert s2 == State(map[h := 1], map[h := 50], map[h := 50], map[0 := Taken(h, false)], 2);
    var s3 := Do(s2, Measure(0));
    assert s3 == State(map[h := 1], map[h := 50], map[h := 50], map[0 := Measured(h, false, 50)], 2);
    var s4 := Do(s3, Unregister(0));
    assert s4 == State(map[h := 1], map[], map[h := 50], map[0 := Dropped(h, false, 50)], 2);
    var t := Do(s4, Remember(0));
    assert t == State(map[h := 1], map[], map[h := 50], map[], 2);
    GoesNowhere(t);
    GoesOn(s4, Readding(h), 4, t);
    GoesOn(s3, Readding(h), 3, t);
    GoesOn(s2, Readding(h), 2, t);
    GoesOn(s1, Readding(h), 1, t);
    GoesOn(s, Readding(h), 0, t);
    SeedingIsSound(h);
    NothingHeld(t, h);
  }

  lemma GoesNowhere(s: State)
    ensures Goes(s, [], s)
  {
  }

  lemma SeedingIsSound(h: Hash)
    ensures Inv(Seeding(h)) && Reaches(Seeding(h), h, 100)
  {
  }

  lemma NothingHeld(s: State, h: Hash)
    requires s.tasks == map[]
    ensures forall n: nat :: Reaches(s, h, n) <==> CountIn(s.live, h) >= n || CountIn(s.record, h) >= n
  {
  }

  /** A persistState that copies the records before a removal and looks at the live counts after it writes 50,
      although 100 is on record by then. */
  lemma PersistMissesARemoval(h: Hash)
    ensures var t := State(map[], map[], map[h := 100], map[], 1);
            && Goes(Seeding(h), Removing(h), t)
            && Written(Seeding(h).record, t.live, h) == 50
  {
    hide Goes;
    var s := Seeding(h);
    var s1 := Do(s, Take(0, h, false));
    assert s1 == State(map[], map[h := 100], map[h := 50], map[0 := Taken(h, false)], 1);
    var s2 := Do(s1, Measure(0));
    assert s2 == State(map[], map[h := 100], map[h := 50], map[0 := Measured(h, false, 100)], 1);
    var s3 := Do(s2, Unregister(0));
    assert s3 == State(map[], map[], map[h := 50], map[0 := Dropped(h, false, 100)], 1);
    var t := Do(s3, Remember(0));
    assert t == State(map[], map[], map[h := 100], map[], 1);
    GoesNowhere(t);
    GoesOn(s3, Removing(h), 3, t);
    GoesOn(s2, Removing(h), 2, t);
    GoesOn(s1, Removing(h), 1, t);
    GoesOn(s, Removing(h), 0, t);
  }
}
