/** The scheduler with each operation atomic: which torrents seed, what upload count each hash has
    reached, and what survives a restart. A hash stands for its 20 bytes read as one number, so the
    order of numbers is the order of hex texts. */
module Scheduler {
  import opened Numerals
  import opened Bandwidth
  import D = Dispatcher
  import Entries

  datatype Torrent = Torrent(hash: Hash, size: int)

  datatype Announcer = Announcer(id: nat, torrent: Torrent)

  datatype Saved = Saved(uploaded: int, completed: bool)

  datatype Reason = Removed | Manual | RatioTarget | Replaced

  datatype State = State(
    active: map<Hash, Announcer>, completed: set<Hash>, persisted: map<Hash, Saved>, ledger: D.Ledger)

  datatype Step =
    | Add(a: Announcer)
    | Answer(h: Hash, first: bool, seeders: int, leechers: int)
    | Stop(h: Hash, reason: Reason)
    | Complete(h: Hash)
    | Uncomplete(unmet: set<Hash>)
    | Rate(rate: int)
    | Tick(elapsed: int, refresh: Option<int>)

  // ----- Uploads -----

  function Uploads(l: D.Ledger): map<Hash, int> {
    map h | h in l.stats :: l.stats[h].uploaded
  }

  function UploadOf(l: D.Ledger, h: Hash): int {
    if h in l.stats then l.stats[h].uploaded else 0
  }

  function SavedOf(persisted: map<Hash, Saved>, h: Hash): Saved {
    if h in persisted then persisted[h] else Saved(0, false)
  }

  function GivenUpload(n: int): Stats {
    ZERO_STATS.(uploaded := n)
  }

  /** What the operations on entries do to the upload counts. */
  lemma EntriesChange(l: D.Ledger, h: Hash, n: nat, seeders: int, leechers: int)
    ensures Uploads(D.Apply(l, D.Op.Register(h))) == Uploads(l)[h := UploadOf(l, h)]
    ensures Uploads(D.Apply(l, D.Op.Restore(h, GivenUpload(n)))) == Uploads(l)[h := n]
    ensures Uploads(D.Apply(l, D.Op.Unregister(h))) == Uploads(l) - {h}
    ensures Uploads(D.Apply(l, D.Op.UpdatePeers(h, seeders, leechers))) == Uploads(l)[h := UploadOf(l, h)]
  {
    hide SpeedOf;
  }

  /** Rates and ticks keep the entries, and no upload count falls. */
  lemma TicksOnlyAdd(l: D.Ledger, op: D.Op)
    requires D.SaneLedger(l) && D.SaneOp(op) && (op.SetRate? || op.Tick?)
    ensures Uploads(D.Apply(l, op)).Keys == Uploads(l).Keys
    ensures forall h :: h in Uploads(l) ==> Uploads(D.Apply(l, op))[h] >= Uploads(l)[h]
  {
    hide SpeedOf, D.Credited, SpeedsRight;
    forall h | h in Uploads(l) ensures Uploads(D.Apply(l, op))[h] >= Uploads(l)[h] {
      D.OneOperationEarns(l, op, h);
    }
  }

  // ----- Steps -----

  function Restorable(s: State, h: Hash): int {
    SavedOf(s.persisted, h).uploaded
  }

  ghost function Added(s: State, a: Announcer): State {
    var h := a.torrent.hash;
    s.(active := s.active[h := a],
       ledger := if Restorable(s, h) > 0 then D.Apply(s.ledger, D.Op.Restore(h, GivenUpload(Restorable(s, h))))
                 else s.ledger)
  }

  ghost function Answered(s: State, h: Hash, first: bool, seeders: int, leechers: int): State {
    var l := if first then D.Apply(s.ledger, D.Op.Register(h)) else s.ledger;
    s.(ledger := D.Apply(l, D.Op.UpdatePeers(h, seeders, leechers)))
  }

  /** rememberStopped. */
  function Remembered(persisted: map<Hash, Saved>, h: Hash, uploaded: int, reason: Reason): map<Hash, Saved> {
    var st := SavedOf(persisted, h);
    var up := Max(st.uploaded, AtLeastZero(uploaded));
    match reason
    case Removed => persisted - {h}
    case Replaced => persisted[h := st.(uploaded := up)]
    case _ => persisted[h := Saved(up, false)]
  }

  /** stopTorrent up to its call of fillSlots. */
  ghost function Stopped(s: State, h: Hash, reason: Reason): State {
    var uploaded := if h in s.active then UploadOf(s.ledger, h) else 0;
    State(s.active - {h},
          if reason.RatioTarget? || reason.Replaced? then s.completed else s.completed - {h},
          Remembered(s.persisted, h, uploaded, reason),
          if h in s.active then D.Apply(s.ledger, D.Op.Unregister(h)) else s.ledger)
  }

  /** completeTorrent up to its call of fillSlots, for a hash that is active. */
  ghost function Completed(s: State, h: Hash): State {
    State(s.active - {h}, s.completed + {h},
          s.persisted[h := Saved(Max(SavedOf(s.persisted, h).uploaded, UploadOf(s.ledger, h)), true)],
          D.Apply(s.ledger, D.Op.Unregister(h)))
  }

  /** reconcileCompleted: the hashes in `unmet` may seed again. */
  function Uncompleted(s: State, unmet: set<Hash>): State {
    s.(completed := s.completed - unmet,
       persisted := map h | h in s.persisted.Keys + unmet ::
                      if h in unmet then SavedOf(s.persisted, h).(completed := false) else s.persisted[h])
  }

  /** What the code itself checks before the step. */
  ghost predicate Enabled(s: State, step: Step) {
    match step
    case Add(a) => a.torrent.hash !in s.active
    case Answer(h, _, _, _) => h in s.active
    case Stop(_, _) => true
    case Complete(h) => h in s.active
    case Uncomplete(unmet) => unmet <= s.completed
    case Rate(rate) => D.SaneOp(D.SetRate(rate))
    case Tick(elapsed, refresh) => D.SaneOp(D.Op.Tick(elapsed, refresh))
  }

  /** What its callers see to: fillSlots picks no completed torrent, and nobody stops one for its ratio. */
  predicate Orderly(s: State, step: Step) {
    && (step.Add? ==> step.a.torrent.hash !in s.completed)
    && (step.Stop? && step.reason.RatioTarget? ==> step.h !in s.completed)
  }

  ghost predicate Can(s: State, step: Step) {
    Enabled(s, step) && Orderly(s, step)
  }

  ghost function Do(s: State, step: Step): State {
    match step
    case Add(a) => Added(s, a)
    case Answer(h, first, seeders, leechers) => Answered(s, h, first, seeders, leechers)
    case Stop(h, reason) => Stopped(s, h, reason)
    case Complete(h) => Completed(s, h)
    case Uncomplete(unmet) => Uncompleted(s, unmet)
    case Rate(rate) => s.(ledger := D.Apply(s.ledger, D.SetRate(rate)))
    case Tick(elapsed, refresh) => s.(ledger := D.Apply(s.ledger, D.Op.Tick(elapsed, refresh)))
  }

  /** `t` follows from `s` by the steps in order. */
  ghost predicate Leads(s: State, steps: seq<Step>, t: State)
    decreases |steps|
  {
    if steps == [] then s == t else Can(s, steps[0]) && Leads(Do(s, steps[0]), steps[1..], t)
  }

  // ----- Invariants -----

  function Flagged(persisted: map<Hash, Saved>): set<Hash> {
    set h | h in persisted && persisted[h].completed
  }

  /** Live counts exist only for active hashes and are never behind the persisted ones. */
  predicate CountsRight(s: State) {
    && Uploads(s.ledger).Keys <= s.active.Keys
    && (forall h :: h in s.persisted ==> s.persisted[h].uploaded >= 0)
    && (forall h :: h in s.active ==> Restorable(s, h) <= UploadOf(s.ledger, h))
  }

  predicate CompletedRight(s: State) {
    s.completed == Flagged(s.persisted) && s.completed !! s.active.Keys
  }

  ghost predicate Inv(s: State) {
    D.SaneLedger(s.ledger) && CountsRight(s) && CompletedRight(s)
  }

  lemma UploadsAre(l: D.Ledger)
    ensures Uploads(l).Keys == l.stats.Keys
    ensures forall h :: UploadOf(l, h) == if h in Uploads(l) then Uploads(l)[h] else 0
  {
  }

  lemma LedgerStaysSane(s: State, step: Step)
    requires D.SaneLedger(s.ledger) && Enabled(s, step)
    ensures D.SaneLedger(Do(s, step).ledger)
  {
    hide D.SaneLedger, D.Apply;
    match step
    case Add(a) =>
      D.OperationsKeepTheLedgerSane(s.ledger, D.Op.Restore(a.torrent.hash, GivenUpload(Restorable(s, a.torrent.hash))));
    case Answer(h, first, seeders, leechers) =>
      D.OperationsKeepTheLedgerSane(s.ledger, D.Op.Register(h));
      var l := if first then D.Apply(s.ledger, D.Op.Register(h)) else s.ledger;
      D.OperationsKeepTheLedgerSane(l, D.Op.UpdatePeers(h, seeders, leechers));
    case Stop(h, _) => D.OperationsKeepTheLedgerSane(s.ledger, D.Op.Unregister(h));
    case Complete(h) => D.OperationsKeepTheLedgerSane(s.ledger, D.Op.Unregister(h));
    case Uncomplete(_) =>
    case Rate(rate) => D.OperationsKeepTheLedgerSane(s.ledger, D.SetRate(rate));
    case Tick(elapsed, refresh) => D.OperationsKeepTheLedgerSane(s.ledger, D.Op.Tick(elapsed, refresh));
  }

  lemma SaneUploads(l: D.Ledger, h: Hash)
    requires D.SaneLedger(l)
    ensures UploadOf(l, h) >= 0
  {
    hide SpeedsRight;
  }

  /** The upload counts after a step. */
  lemma UploadsAfter(s: State, step: Step)
    requires D.SaneLedger(s.ledger) && CountsRight(s) && Enabled(s, step)
    ensures var u, v := Uploads(s.ledger), Uploads(Do(s, step).ledger);
            match step
            case Add(a) =>
              v == if Restorable(s, a.torrent.hash) > 0 then u[a.torrent.hash := Restorable(s, a.torrent.hash)] else u
            case Answer(h, _, _, _) => v == u[h := UploadOf(s.ledger, h)]
            case Stop(h, _) => v == u - {h}
            case Complete(h) => v == u - {h}
            case Uncomplete(_) => v == u
            case _ => v.Keys == u.Keys && forall h :: h in u ==> v[h] >= u[h]
  {
    hide D.Apply, D.SaneLedger;
    UploadsAre(s.ledger);
    match step
    case Add(a) =>
      if Restorable(s, a.torrent.hash) > 0 {
        EntriesChange(s.ledger, a.torrent.hash, Restorable(s, a.torrent.hash), 0, 0);
      }
    case Answer(h, first, seeders, leechers) =>
      EntriesChange(s.ledger, h, 0, seeders, leechers);
      var l := if first then D.Apply(s.ledger, D.Op.Register(h)) else s.ledger;
      EntriesChange(l, h, 0, seeders, leechers);
      UploadsAre(l);
    case Stop(h, _) => EntriesChange(s.ledger, h, 0, 0, 0);
    case Complete(h) => EntriesChange(s.ledger, h, 0, 0, 0);
    case Uncomplete(_) =>
    case Rate(rate) => TicksOnlyAdd(s.ledger, D.SetRate(rate));
    case Tick(elapsed, refresh) => TicksOnlyAdd(s.ledger, D.Op.Tick(elapsed, refresh));
  }

  lemma CountsStep(s: State, step: Step)
    requires D.SaneLedger(s.ledger) && CountsRight(s) && Enabled(s, step)
    ensures CountsRight(Do(s, step))
  {
    hide D.Apply, D.SaneLedger, Uploads, UploadOf;
    var t := Do(s, step);
    UploadsAfter(s, step);
    UploadsAre(s.ledger);
    UploadsAre(t.ledger);
  }

  lemma CompletedStep(s: State, step: Step)
    requires CompletedRight(s) && Can(s, step)
    ensures CompletedRight(Do(s, step))
  {
    hide D.Apply, Uploads, UploadOf;
  }

  lemma StepKeepsInv(s: State, step: Step)
    requires Inv(s) && Can(s, step)
    ensures Inv(Do(s, step))
  {
    hide D.SaneLedger, CountsRight, CompletedRight, Enabled, Orderly, Do;
    LedgerStaysSane(s, step);
    CountsStep(s, step);
    CompletedStep(s, step);
  }

  /** In every reachable state `completed` is the set of flagged records, disjoint from `active`, and no
      live count is behind its record. */
  lemma {:induction false} RunsKeepInv(s: State, steps: seq<Step>, t: State)
    requires Inv(s) && Leads(s, steps, t)
    ensures Inv(t)
    decreases |steps|
  {
    hide Inv, Can, Do;
    if steps == [] {
    } else {
      StepKeepsInv(s, steps[0]);
      RunsKeepInv(Do(s, steps[0]), steps[1..], t);
    }
  }

  /** Stopping keeps `completed` and the flags in step unless a hash that is already completed is
      stopped for its ratio. */
  lemma StopKeepsCompletedExactly(s: State, h: Hash, reason: Reason)
    requires CompletedRight(s)
    ensures CompletedRight(Stopped(s, h, reason)) <==> !(reason.RatioTarget? && h in s.completed)
  {
    hide D.Apply, UploadOf;
    var t := Stopped(s, h, reason);
    if reason.RatioTarget? && h in s.completed {
      assert h in t.completed && h !in Flagged(t.persisted);
    } else {
      assert t.completed == Flagged(t.persisted);
    }
  }

  /** Adding a torrent keeps them so unless it is completed. */
  lemma AddKeepsCompletedExactly(s: State, a: Announcer)
    requires CompletedRight(s)
    ensures CompletedRight(Added(s, a)) <==> a.torrent.hash !in s.completed
  {
    hide D.Apply;
    assert a.torrent.hash in Added(s, a).active;
  }

  // ----- The upload a hash reports -----

  /** The live count if there is one, else the persisted one. */
  function Report(s: State, h: Hash): int {
    if h in Uploads(s.ledger) then Uploads(s.ledger)[h] else SavedOf(s.persisted, h).uploaded
  }

  lemma StepNeverReportsLess(s: State, step: Step, h: Hash)
    requires D.SaneLedger(s.ledger) && CountsRight(s) && Enabled(s, step) && step != Stop(h, Removed)
    ensures Report(Do(s, step), h) >= Report(s, h)
  {
    hide D.Apply, D.SaneLedger, Uploads, UploadOf, CompletedRight;
    UploadsAfter(s, step);
    UploadsAre(s.ledger);
    UploadsAre(Do(s, step).ledger);
    SaneUploads(s.ledger, h);
  }

  /** Over any run that does not remove its file, no hash ever reports less than before. */
  lemma {:induction false} UploadNeverFalls(s: State, steps: seq<Step>, t: State, h: Hash)
    requires Inv(s) && Leads(s, steps, t)
    requires Stop(h, Removed) !in steps
    ensures Report(t, h) >= Report(s, h)
    decreases |steps|
  {
    hide D.SaneLedger, CountsRight, CompletedRight, Enabled, Orderly, Do, Report;
    if steps == [] {
    } else {
      StepNeverReportsLess(s, steps[0], h);
      StepKeepsInv(s, steps[0]);
      UploadNeverFalls(Do(s, steps[0]), steps[1..], t, h);
    }
  }

  /** A step credits a hash only as a tick; what else it does moves a count, whole, between entry and record. */
  lemma OnlyTicksCredit(s: State, step: Step, h: Hash)
    requires D.SaneLedger(s.ledger) && CountsRight(s) && Enabled(s, step)
    requires !step.Tick? && step != Stop(h, Removed)
    ensures Report(Do(s, step), h) == Report(s, h)
  {
    hide D.Apply, D.SaneLedger, Uploads, UploadOf, CompletedRight;
    UploadsAfter(s, step);
    UploadsAre(s.ledger);
    UploadsAre(Do(s, step).ledger);
    SaneUploads(s.ledger, h);
    if step.Rate? {
      RateCreditsNothing(s.ledger, step.rate, h);
    }
  }

  lemma RateCreditsNothing(l: D.Ledger, rate: int, h: Hash)
    ensures h in Uploads(l) <==> h in Uploads(D.Apply(l, D.SetRate(rate)))
    ensures h in Uploads(l) ==> Uploads(D.Apply(l, D.SetRate(rate)))[h] == Uploads(l)[h]
  {
    hide D.Apply;
    D.OthersKeepTheirCounts(l, D.SetRate(rate), h);
  }

  /** What a tick adds to the count of a hash; `D.TickCredits` says how much that is. */
  ghost function TickGain(s: State, step: Step, h: Hash): int {
    if step.Tick? then Report(Do(s, step), h) - Report(s, h) else 0
  }

  ghost function Gained(s: State, steps: seq<Step>, h: Hash): int
    decreases |steps|
  {
    if steps == [] then 0 else TickGain(s, steps[0], h) + Gained(Do(s, steps[0]), steps[1..], h)
  }

  /** Over any run that does not remove its file a hash reports exactly what it did plus what the ticks credit. */
  lemma {:induction false} ReportIsWhatTicksCredit(s: State, steps: seq<Step>, t: State, h: Hash)
    requires Inv(s) && Leads(s, steps, t)
    requires Stop(h, Removed) !in steps
    ensures Report(t, h) == Report(s, h) + Gained(s, steps, h)
    decreases |steps|
  {
    hide D.SaneLedger, CountsRight, CompletedRight, Enabled, Orderly, Do, Report;
    if steps == [] {
    } else {
      if !steps[0].Tick? {
        OnlyTicksCredit(s, steps[0], h);
      }
      StepKeepsInv(s, steps[0]);
      ReportIsWhatTicksCredit(Do(s, steps[0]), steps[1..], t, h);
    }
  }

  predicate NoTicks(steps: seq<Step>) {
    forall i :: 0 <= i < |steps| ==> !steps[i].Tick?
  }

  lemma {:induction false} NothingCredited(s: State, steps: seq<Step>, t: State, h: Hash)
    requires Inv(s) && Leads(s, steps, t) && NoTicks(steps)
    requires Stop(h, Removed) !in steps
    ensures Report(t, h) == Report(s, h)
    decreases |steps|
  {
    hide D.SaneLedger, CountsRight, CompletedRight, Enabled, Orderly, Do, Report;
    if steps == [] {
    } else {
      OnlyTicksCredit(s, steps[0], h);
      StepKeepsInv(s, steps[0]);
      NothingCredited(Do(s, steps[0]), steps[1..], t, h);
    }
  }

  lemma AnswerKeepsUpload(s: State, h: Hash, first: bool, seeders: int, leechers: int)
    requires D.SaneLedger(s.ledger) && CountsRight(s) && h in s.active
    ensures UploadOf(Answered(s, h, first, seeders, leechers).ledger, h) == UploadOf(s.ledger, h)
  {
    hide D.Apply, D.SaneLedger, Uploads, UploadOf;
    UploadsAfter(s, Answer(h, first, seeders, leechers));
    UploadsAre(s.ledger);
    UploadsAre(Answered(s, h, first, seeders, leechers).ledger);
  }

  lemma StoppedParts(s: State, h: Hash, reason: Reason)
    ensures reason.Removed? ==> h !in Stopped(s, h, reason).persisted
    ensures reason.Removed? ==> Stopped(s, h, reason).completed == s.completed - {h}
    ensures reason.Replaced? ==> Stopped(s, h, reason).completed == s.completed
  {
    hide D.Apply;
  }

  lemma AddsCreditNothing(steps: seq<Step>)
    requires OnlyAdds(steps)
    ensures NoTicks(steps) && forall h :: Stop(h, Removed) !in steps
  {
  }

  lemma StopCreditsNothing(steps: seq<Step>, h: Hash, reason: Reason)
    requires |steps| > 0 && steps[0] == Stop(h, reason) && OnlyAdds(steps[1..])
    ensures NoTicks(steps) && forall k :: Stop(k, Removed) in steps ==> k == h && reason.Removed?
  {
    assert forall i :: 1 <= i < |steps| ==> steps[i] == steps[1..][i - 1];
  }

  /** Nothing stays of a hash whose file is removed. */
  lemma RemovalForgets(s: State, h: Hash)
    ensures var t := Do(s, Stop(h, Removed));
            && h !in t.active && h !in t.completed && h !in t.persisted
            && (CountsRight(s) ==> Report(t, h) == 0)
  {
    hide D.Apply, Uploads, UploadOf;
    EntriesChange(s.ledger, h, 0, 0, 0);
    UploadsAre(s.ledger);
    UploadsAre(Do(s, Stop(h, Removed)).ledger);
  }

  /** A torrent becomes completed when it is, and stays so, its replacement included, until it is removed,
      stopped by hand, or given back by a new target. */
  lemma CompletedUntilGivenBack(s: State, step: Step, h: Hash)
    ensures h in Do(s, step).completed <==>
              || step == Complete(h)
              || (h in s.completed && step != Stop(h, Removed) && step != Stop(h, Manual)
                  && !(step.Uncomplete? && h in step.unmet))
  {
    hide D.Apply;
  }

  /** And it seeds exactly from its addition to its completion or any stop of it. */
  lemma ActiveUntilStopped(s: State, step: Step, h: Hash)
    ensures h in Do(s, step).active <==>
              || (step.Add? && step.a.torrent.hash == h)
              || (h in s.active && step != Complete(h) && !(step.Stop? && step.h == h))
    ensures h in s.active && h in Do(s, step).active && !(step.Add? && step.a.torrent.hash == h) ==>
              Do(s, step).active[h] == s.active[h]
  {
    hide D.Apply;
  }

  /** A tracker's answer is what the ledger then says of the peers, negative numbers as zero. */
  lemma AnswerSetsPeers(s: State, h: Hash, first: bool, seeders: int, leechers: int)
    ensures var l := Do(s, Answer(h, first, seeders, leechers)).ledger;
            && h in l.stats && l.rate == s.ledger.rate
            && l.stats[h].seeders == (if seeders < 0 then 0 else seeders)
            && l.stats[h].leechers == (if leechers < 0 then 0 else leechers)
  {
    hide D.Apply;
    var l := if first then D.Apply(s.ledger, D.Op.Register(h)) else s.ledger;
    D.EntryBecomes(l, D.Op.UpdatePeers(h, seeders, leechers));
    D.OthersKeepTheirCounts(s.ledger, D.Op.Register(h), h + 1);
    D.OthersKeepTheirCounts(l, D.Op.UpdatePeers(h, seeders, leechers), h + 1);
  }

  // ----- Persistence -----

  predicate Trivial(st: Saved) {
    st.uploaded <= 0 && !st.completed
  }

  /** One record of the state file, before trivial ones are dropped. */
  function Merged(s: State, h: Hash): Saved {
    var st := SavedOf(s.persisted, h);
    Saved(if h in s.ledger.stats then Max(st.uploaded, s.ledger.stats[h].uploaded) else st.uploaded,
          st.completed || h in s.completed)
  }

  function Known(s: State): set<Hash> {
    s.persisted.Keys + s.completed + s.ledger.stats.Keys
  }

  /** The records persistState writes. */
  function Persisted(s: State): map<Hash, Saved> {
    map h | h in Known(s) && !Trivial(Merged(s, h)) :: Merged(s, h)
  }

  /** The records loadPersistedState keeps; a file may say anything. */
  function Loaded(file: map<Hash, Saved>): map<Hash, Saved> {
    map h | h in file :: file[h].(uploaded := AtLeastZero(file[h].uploaded))
  }

  /** The scheduler right after New has read `file`. */
  function Restarted(file: map<Hash, Saved>, rate: int): State {
    State(map[], Flagged(file), Loaded(file), D.Ledger(map[], rate))
  }

  /** Any state file at all is a sound start. */
  lemma EveryFileIsASoundStart(file: map<Hash, Saved>, rate: int)
    requires 0 <= rate <= MAX_SANE_RATE
    ensures Inv(Restarted(file, rate))
  {
    var s := Restarted(file, rate);
    assert Flagged(file) == Flagged(Loaded(file));
    assert SpeedsRight(s.ledger.stats, rate);
  }

  /** A hash starts with the upload its file gives it, a negative one counting as zero, and with its flag. */
  lemma FileIsTaken(file: map<Hash, Saved>, rate: int, h: Hash)
    ensures var s := Restarted(file, rate);
            && (h in s.completed <==> h in file && file[h].completed)
            && Report(s, h) == (if h in file && file[h].uploaded > 0 then file[h].uploaded else 0)
            && s.active == map[]
  {
  }

  /** A restart resumes every hash at exactly the upload and completion persistState saw, and keeps no
      record that says nothing. */
  lemma RestartResumes(s: State, rate: int)
    requires Inv(s)
    ensures var t := Restarted(Persisted(s), rate);
            && t.completed == s.completed
            && (forall h :: Report(t, h) == Report(s, h))
            && (forall h :: h in t.persisted <==> Report(s, h) > 0 || h in s.completed)
            && (forall h :: h in t.persisted ==> t.persisted[h] == Saved(Report(s, h), h in s.completed))
  {
    hide D.SaneLedger;
    var t := Restarted(Persisted(s), rate);
    forall h
      ensures Report(t, h) == Report(s, h) && (h in t.completed <==> h in s.completed)
      ensures h in t.persisted <==> Report(s, h) > 0 || h in s.completed
      ensures h in t.persisted ==> t.persisted[h] == Saved(Report(s, h), h in s.completed)
    {
      MergedIsReport(s, h);
    }
  }

  lemma MergedIsReport(s: State, h: Hash)
    requires Inv(s)
    ensures h in Known(s) ==> Merged(s, h) == Saved(Report(s, h), h in s.completed) && Report(s, h) >= 0
    ensures h !in Known(s) ==> Report(s, h) == 0 && h !in s.completed
  {
    hide D.SaneLedger;
    SaneUploads(s.ledger, h);
    UploadsAre(s.ledger);
    if h in s.ledger.stats {
      assert h in Uploads(s.ledger);
    }
  }

  // ----- Ratio targets and slots -----

  function UploadRatio(uploaded: int, size: int): real
    requires size > 0
  {
    uploaded as real / size as real
  }

  predicate RatioReached(target: real, size: int, uploaded: int) {
    target > 0.0 && size > 0 && uploaded >= 0 && UploadRatio(uploaded, size) >= target
  }

  /** The target is reached when the upload is at least the target times the size, and there is a target. */
  lemma RatioReachedExactly(target: real, size: int, uploaded: int)
    ensures RatioReached(target, size, uploaded) <==>
              target > 0.0 && size > 0 && uploaded >= 0 && uploaded as real >= target * size as real
  {
    if size > 0 {
      var q := UploadRatio(uploaded, size);
      assert q * size as real == uploaded as real;
      if q >= target {
        assert (q - target) * size as real >= 0.0;
      } else {
        assert (target - q) * size as real > 0.0;
      }
    }
  }

  predicate HasSize(store: map<string, Torrent>, h: Hash, size: int) {
    exists p :: p in store && store[p] == Torrent(h, size)
  }

  function StoreHashes(store: map<string, Torrent>): set<Hash> {
    set p | p in store :: store[p].hash
  }

  /** Some file of the hash meets the target with this upload. */
  predicate Meets(store: map<string, Torrent>, h: Hash, target: real, uploaded: int) {
    exists p :: p in store && store[p].hash == h && RatioReached(target, store[p].size, uploaded)
  }

  predicate Misses(store: map<string, Torrent>, h: Hash, target: real, uploaded: int) {
    exists p :: p in store && store[p].hash == h && !RatioReached(target, store[p].size, uploaded)
  }

  /** Every completed torrent of the store meets the target with what is on record. */
  predicate AllMeet(store: map<string, Torrent>, target: real, persisted: map<Hash, Saved>, hashes: set<Hash>) {
    forall h :: h in hashes && h in StoreHashes(store) ==> Meets(store, h, target, SavedOf(persisted, h).uploaded)
  }

  predicate AllMiss(store: map<string, Torrent>, target: real, persisted: map<Hash, Saved>, hashes: set<Hash>) {
    forall h :: h in hashes ==> Misses(store, h, target, SavedOf(persisted, h).uploaded)
  }

  lemma StillMeet(store: map<string, Torrent>, target: real, was: map<Hash, Saved>, now: map<Hash, Saved>,
                  hashes: set<Hash>)
    requires AllMeet(store, target, was, hashes) && forall h :: h in hashes ==> SavedOf(now, h) == SavedOf(was, h)
    ensures AllMeet(store, target, now, hashes)
  {
    hide Meets, StoreHashes;
  }

  lemma StepLeads(s: State, step: Step)
    requires Can(s, step)
    ensures Leads(s, [step], Do(s, step))
  {
    hide Can, Do;
    assert [step][1..] == [];
  }

  lemma {:induction false} LeadsOn(s: State, first: seq<Step>, t: State, next: seq<Step>, u: State)
    requires Leads(s, first, t) && Leads(t, next, u)
    ensures Leads(s, first + next, u)
    decreases |first|
  {
    hide Can, Do;
    if first == [] {
      assert first + next == next;
    } else {
      assert (first + next)[1..] == first[1..] + next;
      LeadsOn(Do(s, first[0]), first[1..], t, next, u);
    }
  }

  predicate OnlyAdds(steps: seq<Step>) {
    forall i :: 0 <= i < |steps| ==> steps[i].Add?
  }

  /** No torrent is stopped because its file was removed. */
  predicate NoRemovals(steps: seq<Step>) {
    forall i :: 0 <= i < |steps| ==> !(steps[i].Stop? && steps[i].reason.Removed?)
  }

  lemma NothingFalls(s: State, steps: seq<Step>, t: State)
    requires Inv(s) && Leads(s, steps, t) && NoRemovals(steps)
    ensures forall h :: Report(t, h) >= Report(s, h)
  {
    hide Inv, Leads, Report;
    forall h ensures Report(t, h) >= Report(s, h) {
      UploadNeverFalls(s, steps, t, h);
    }
  }

  /** Every announcer that was active still is. */
  predicate Kept(was: map<Hash, Announcer>, now: map<Hash, Announcer>) {
    forall h :: h in was ==> h in now && now[h] == was[h]
  }

  /** Every other one is new and not completed. */
  predicate NewFrom(was: map<Hash, Announcer>, now: map<Hash, Announcer>, id: nat, completed: set<Hash>) {
    forall h :: h in now && h !in was ==> h !in completed && now[h].id >= id
  }

  class Scheduler {
    const bw: D.Dispatcher
    var active: map<Hash, Announcer>
    var completed: set<Hash>
    var persisted: map<Hash, Saved>
    var nextId: nat
    /** The store's torrents by path. */
    var store: map<string, Torrent>
    var limit: int
    var target: real

    ghost function Abs(): State
      reads this, bw
    {
      State(active, completed, persisted, bw.Abs())
    }

    /** The state is sound but for the completed torrents. */
    ghost predicate Sound()
      reads this, bw
    {
      && bw.Valid() && CountsRight(Abs())
      && forall h :: h in active ==> active[h].torrent.hash == h && active[h].id < nextId
    }

    ghost predicate Valid()
      reads this, bw
    {
      Sound() && CompletedRight(Abs())
    }

    /** Nothing in the store is left to add. */
    predicate AllTaken()
      reads this`active, this`completed, this`store
    {
      forall p :: p in store ==> store[p].hash in active || store[p].hash in completed
    }

    constructor (bw: D.Dispatcher, file: map<Hash, Saved>, limit: int, target: real)
      requires bw.Valid() && bw.stats == map[]
      ensures Valid() && this.bw == bw && Abs() == Restarted(file, bw.currentRate)
      ensures this.limit == limit && this.target == target && store == map[]
    {
      this.bw, this.limit, this.target := bw, limit, target;
      active, nextId, store := map[], 0, map[];
      var records, flagged := LoadPersistedState(file);
      persisted, completed := records, flagged;
      new;
      EveryFileIsASoundStart(file, bw.currentRate);
    }

    /** store.PickNotIn; the files are looked at in any order. */
    method PickNotIn(excluded: set<Hash>) returns (t: Option<Torrent>)
      ensures t.Some? ==> t.value.hash !in excluded && HasSize(store, t.value.hash, t.value.size)
      ensures t.None? ==> forall p :: p in store ==> store[p].hash in excluded
    {
      var todo := store.Keys;
      while todo != {}
        invariant todo <= store.Keys
        invariant forall p :: p in store && p !in todo ==> store[p].hash in excluded
        decreases todo
      {
        var p :| p in todo;
        if store[p].hash !in excluded {
          return Some(store[p]);
        }
        todo := todo - {p};
      }
      t := None;
    }

    /** It takes a completed torrent too, which then is completed and active; fillSlots picks none. */
    method TryAdd(t: Torrent) returns (ok: bool)
      requires Sound()
      modifies this`active, this`nextId, bw`stats
      ensures Sound() && (old(Valid()) ==> (Valid() <==> !(ok && t.hash in completed)))
      ensures ok <==> t.hash !in old(active) && (limit <= 0 || |old(active)| < limit)
      ensures !ok ==> Abs() == old(Abs()) && nextId == old(nextId)
      ensures ok ==> nextId == old(nextId) + 1
      ensures ok ==> Enabled(old(Abs()), Add(Announcer(old(nextId), t)))
                     && Abs() == Do(old(Abs()), Add(Announcer(old(nextId), t)))
    {
      hide D.SaneLedger, CountsRight, CompletedRight, D.Apply;
      if t.hash in active || (limit > 0 && |active| >= limit) {
        return false;
      }
      var a := Announcer(nextId, t);
      CountsStep(Abs(), Add(a));
      if CompletedRight(Abs()) {
        AddKeepsCompletedExactly(Abs(), a);
      }
      if t.hash in persisted && persisted[t.hash].uploaded > 0 {
        bw.Restore(t.hash, GivenUpload(persisted[t.hash].uploaded));
      }
      active := active[t.hash := a];
      nextId := nextId + 1;
      ok := true;
    }

    ghost function Waiting(): set<Hash>
      reads this
    {
      StoreHashes(store) - active.Keys - completed
    }

    /** Adds some torrent that is neither active nor completed, if there is one. */
    method AddNext() returns (added: bool, ghost a: Announcer)
      requires Sound() && (limit <= 0 || |active| < limit)
      modifies this`active, this`nextId, bw`stats
      ensures Sound()
      ensures !added ==> AllTaken() && Abs() == old(Abs()) && nextId == old(nextId)
      ensures added ==> Leads(old(Abs()), [Add(a)], Abs())
                        && a.torrent.hash !in completed && a.torrent.hash !in old(active)
                        && active == old(active)[a.torrent.hash := a] && |active| == |old(active)| + 1
                        && (CompletedRight(Abs()) <==> old(CompletedRight(Abs())))
                        && a.id == old(nextId) && nextId == old(nextId) + 1
                        && a.torrent.hash in old(Waiting()) && Waiting() == old(Waiting()) - {a.torrent.hash}
    {
      hide Sound, Enabled, Do, CompletedRight, Leads;
      a := Announcer(nextId, Torrent(0, 0));
      var t := PickNotIn(active.Keys + completed);
      if t.None? {
        return false, a;
      }
      a := Announcer(nextId, t.value);
      ghost var before := Abs();
      assert t.value.hash in Waiting();
      added := TryAdd(t.value);
      AddedOne(before, a);
      AddedKeepsCompleted(before, a);
      StepLeads(before, Add(a));
    }

    /** Adds torrents until no slot is free or none is left. */
    method FillSlots() returns (ghost steps: seq<Step>)
      requires Sound()
      modifies this`active, this`nextId, bw`stats
      ensures Sound() && Leads(old(Abs()), steps, Abs()) && OnlyAdds(steps)
      ensures CompletedRight(Abs()) <==> old(CompletedRight(Abs()))
      ensures NewFrom(old(active), active, old(nextId), completed)
      ensures (limit > 0 && |active| >= limit) || AllTaken()
      ensures limit > 0 ==> |active| <= Max(limit, |old(active)|)
      ensures Kept(old(active), active)
      ensures limit > 0 && |old(active)| >= limit ==> Abs() == old(Abs())
    {
      hide Sound, Enabled, Do, CompletedRight, Leads, Waiting, AllTaken, OnlyAdds;
      steps := [];
      LeadsNowhere(Abs());
      OnlyAddsOne([], None);
      while true
        invariant Sound() && Leads(old(Abs()), steps, Abs()) && OnlyAdds(steps)
        invariant CompletedRight(Abs()) <==> old(CompletedRight(Abs()))
        invariant NewFrom(old(active), active, old(nextId), completed)
        invariant nextId >= old(nextId)
        invariant limit > 0 ==> |active| <= Max(limit, |old(active)|)
        invariant Kept(old(active), active)
        invariant limit > 0 && |old(active)| >= limit ==> Abs() == old(Abs())
        decreases Waiting()
      {
        if limit > 0 && |active| >= limit {
          return;
        }
        ghost var before := Abs();
        var added, a := AddNext();
        if !added {
          return;
        }
        LeadsOn(old(Abs()), steps, before, [Add(a)], Abs());
        OnlyAddsOne(steps, Some(a));
        steps := steps + [Add(a)];
      }
    }

    method RememberStopped(h: Hash, uploaded: int, reason: Reason)
      modifies this`persisted, this`completed
      ensures persisted == Remembered(old(persisted), h, uploaded, reason)
      ensures completed == if reason.Removed? then old(completed) - {h} else old(completed)
    {
      if reason.Removed? {
        persisted := persisted - {h};
        completed := completed - {h};
        return;
      }
      var up := if uploaded < 0 then 0 else uploaded;
      var st := SavedOf(persisted, h);
      if up > st.uploaded {
        st := st.(uploaded := up);
      }
      if !reason.Replaced? {
        st := st.(completed := false);
      }
      persisted := persisted[h := st];
    }

    /** stopTorrent up to its call of fillSlots. */
    method Release(h: Hash, reason: Reason)
      requires Sound()
      modifies this`active, this`persisted, this`completed, bw`stats
      ensures Sound() && Abs() == Do(old(Abs()), Stop(h, reason))
      ensures old(Valid()) ==> (Valid() <==> !(reason.RatioTarget? && h in old(completed)))
    {
      hide D.SaneLedger, CountsRight, CompletedRight, D.Apply;
      CountsStep(Abs(), Stop(h, reason));
      if CompletedRight(Abs()) {
        StopKeepsCompletedExactly(Abs(), h, reason);
      }
      var uploaded := 0;
      if h in active {
        active := active - {h};
        uploaded := bw.Get(h).uploaded;
        bw.Unregister(h);
      }
      assert h !in old(active) ==> active == old(active) - {h};
      if !reason.RatioTarget? && !reason.Replaced? {
        completed := completed - {h};
      }
      RememberStopped(h, uploaded, reason);
      assert Abs() == Stopped(old(Abs()), h, reason);
    }

    lemma InvHolds()
      requires Valid()
      ensures Inv(Abs())
    {
    }

    lemma AbsParts()
      ensures Abs().active == active && Abs().completed == completed && Abs().persisted == persisted
      ensures Valid() <==> Sound() && CompletedRight(Abs())
    {
      hide Sound, CompletedRight;
    }

    method StopTorrent(h: Hash, reason: Reason) returns (ghost steps: seq<Step>)
      requires Sound()
      modifies this`active, this`persisted, this`completed, this`nextId, bw`stats
      ensures Sound() && (old(Valid()) ==> (Valid() <==> !(reason.RatioTarget? && h in old(completed))))
      ensures !(reason.RatioTarget? && h in old(completed)) ==> Leads(old(Abs()), steps, Abs())
      ensures |steps| > 0 && steps[0] == Stop(h, reason) && OnlyAdds(steps[1..])
      ensures completed == Stopped(old(Abs()), h, reason).completed
      ensures persisted == Stopped(old(Abs()), h, reason).persisted
      ensures (limit > 0 && |active| >= limit) || AllTaken()
      ensures h in active ==> active[h].id >= old(nextId)
      ensures Kept(old(active) - {h}, active)
      ensures limit > 0 && |old(active) - {h}| >= limit ==> Abs() == Stopped(old(Abs()), h, reason)
    {
      hide *;
      AbsParts();
      StopIs(Abs(), h, reason);
      Release(h, reason);
      AbsParts();
      ghost var mid := Abs();
      var adds := FillSlots();
      AbsParts();
      NewAgain(mid.active, active, old(nextId), completed, h);
      assert ([Stop(h, reason)] + adds)[1..] == adds;
      if !(reason.RatioTarget? && h in old(completed)) {
        CanStop(old(Abs()), h, reason);
        StepLeads(old(Abs()), Stop(h, reason));
        LeadsOn(old(Abs()), [Stop(h, reason)], mid, adds, Abs());
      }
      steps := [Stop(h, reason)] + adds;
    }

    /** The active hashes in order of their hex texts. */
    method SortedActive() returns (hashes: seq<Hash>)
      ensures Lists(hashes, active.Keys)
    {
      var todo := active.Keys;
      hashes := [];
      while todo != {}
        invariant todo <= active.Keys && Lists(hashes, active.Keys - todo)
        invariant forall i, h :: 0 <= i < |hashes| && h in todo ==> hashes[i] < h
        decreases todo
      {
        var h := Least(todo);
        ListsOneMore(hashes, active.Keys - todo, h);
        assert active.Keys - (todo - {h}) == active.Keys - todo + {h};
        hashes := hashes + [h];
        todo := todo - {h};
      }
      assert active.Keys - todo == active.Keys;
    }

    /** `now` is what `was` becomes when only `gone` leaves the active map. */
    static predicate OnlyLost(was: State, now: State, gone: set<Hash>) {
      && now.active == was.active - gone && now.completed == was.completed
      && forall h :: h in was.completed ==> SavedOf(now.persisted, h) == SavedOf(was.persisted, h)
    }

    /** A stop above the limit: no other torrent takes the slot. */
    method StopOne(h: Hash) returns (ghost steps: seq<Step>)
      requires Valid() && 0 < limit < |active| && h in active
      modifies this`active, this`persisted, this`completed, this`nextId, bw`stats
      ensures Valid() && Leads(old(Abs()), steps, Abs()) && NoRemovals(steps)
      ensures OnlyLost(old(Abs()), Abs(), {h})
    {
      hide Sound, CompletedRight, Leads, Enabled, D.Apply, Stopped, OnlyLost;
      InvHolds();
      ActiveNotCompleted(Abs(), h);
      OneLess(active, h);
      StoppedIs(Abs(), h);
      steps := StopTorrent(h, Manual);
      assert forall k :: 1 <= k < |steps| ==> steps[k] == steps[1..][k - 1];
    }

    lemma AbsActive()
      ensures Abs().active == active
    {
    }

    method StopSmallest(hashes: seq<Hash>, overflow: nat) returns (ghost steps: seq<Step>)
      requires Valid() && limit > 0 && overflow == |active| - limit && Lists(hashes, active.Keys)
      modifies this`active, this`persisted, this`completed, this`nextId, bw`stats
      ensures Valid() && Leads(old(Abs()), steps, Abs()) && NoRemovals(steps)
      ensures overflow <= |hashes| && OnlyLost(old(Abs()), Abs(), Members(hashes[..overflow]))
    {
      hide *;
      AbsActive();
      steps := [];
      LeadsNowhere(Abs());
      NoRemovalsYet();
      LostNothing(Abs(), hashes);
      ListsAll(hashes, active);
      var i := 0;
      while i < overflow && i < |hashes|
        invariant 0 <= i <= overflow
        invariant Valid() && Leads(old(Abs()), steps, Abs()) && NoRemovals(steps)
        invariant OnlyLost(old(Abs()), Abs(), Members(hashes[..i]))
      {
        ghost var before := Abs();
        AbsActive();
        NextIsActive(old(Abs()), before, hashes, i);
        LostSize(old(Abs()), before, hashes, i);
        ghost var more := StopOne(hashes[i]);
        LeadsOn(old(Abs()), steps, before, more, Abs());
        LostOneMore(old(Abs()), before, Abs(), hashes, i);
        NoRemovalsTogether(steps, more);
        steps := steps + more;
        i := i + 1;
      }
    }

    /** Stops torrents above the limit, those with the smallest hashes; each stop fills slots again. */
    method StopOverflow() returns (ghost steps: seq<Step>)
      requires Valid()
      modifies this`active, this`persisted, this`completed, this`nextId, bw`stats
      ensures Valid() && Leads(old(Abs()), steps, Abs()) && NoRemovals(steps)
      ensures completed == old(completed)
      ensures forall h :: h in old(completed) ==> SavedOf(persisted, h) == SavedOf(old(persisted), h)
      ensures limit <= 0 || |old(active)| <= limit ==> Abs() == old(Abs())
      ensures 0 < limit < |old(active)| ==>
                && |active| == limit
                && (forall h :: h in active ==> h in old(active) && active[h] == old(active)[h])
                && (forall h, k :: h in active && k in old(active) && k !in active ==> k < h)
    {
      hide Sound, CompletedRight, Leads, Enabled, D.Apply, Stopped, Members, Lists;
      steps := [];
      LeadsNowhere(Abs());
      if limit <= 0 {
        return;
      }
      while true
        invariant Valid() && Leads(old(Abs()), steps, Abs()) && NoRemovals(steps)
        invariant completed == old(completed)
        invariant forall h :: h in old(completed) ==> SavedOf(persisted, h) == SavedOf(old(persisted), h)
        invariant Abs() == old(Abs()) || (limit < |old(active)| && |active| == limit)
        invariant forall h :: h in active ==> h in old(active) && active[h] == old(active)[h]
        invariant forall h, k :: h in active && k in old(active) && k !in active ==> k < h
        decreases |active|
      {
        var overflow := |active| - limit;
        if overflow <= 0 {
          return;
        }
        var hashes := SortedActive();
        ghost var before := Abs();
        ghost var more := StopSmallest(hashes, overflow);
        LeadsOn(old(Abs()), steps, before, more, Abs());
        steps := steps + more;
        SmallestGone(before, Abs(), hashes, overflow);
      }
    }

    /** The size of each hash in the store; with several files of a hash, that of any of them. */
    method Sizes() returns (sizes: map<Hash, int>)
      ensures sizes.Keys == StoreHashes(store)
      ensures forall h :: h in sizes ==> HasSize(store, h, sizes[h])
    {
      var todo := store.Keys;
      sizes := map[];
      while todo != {}
        invariant todo <= store.Keys && sizes.Keys == HashesOf(store, store.Keys - todo)
        invariant forall h :: h in sizes ==> HasSize(store, h, sizes[h])
        decreases todo
      {
        var p :| p in todo;
        assert store[p] == Torrent(store[p].hash, store[p].size);
        assert HasSize(store, store[p].hash, store[p].size);
        OneMorePath(store, store.Keys - todo, p);
        assert store.Keys - (todo - {p}) == store.Keys - todo + {p};
        sizes := sizes[store[p].hash := store[p].size];
        todo := todo - {p};
      }
      assert HashesOf(store, store.Keys - todo) == StoreHashes(store);
    }

    /** Lets completed torrents that miss the target seed again. */
    method ReconcileCompleted() returns (ghost unmet: set<Hash>)
      requires Valid()
      modifies this`completed, this`persisted
      ensures Valid() && unmet <= old(completed) && Abs() == Do(old(Abs()), Uncomplete(unmet))
      ensures completed == old(completed) - unmet
      ensures AllMeet(store, target, persisted, completed) && AllMiss(store, target, old(persisted), unmet)
    {
      hide D.SaneLedger, CountsRight, CompletedRight, RatioReached, D.Apply;
      var sizes := Sizes();
      var todo := completed;
      unmet := {};
      UncompletedNothing(Abs());
      ghost var was := Abs();
      while todo != {}
        invariant todo <= was.completed && unmet <= was.completed && unmet !! todo
        invariant completed == was.completed - unmet && Abs() == Uncompleted(was, unmet)
        invariant forall h :: h in completed && h !in todo && h in sizes ==>
                    RatioReached(target, sizes[h], SavedOf(was.persisted, h).uploaded)
        invariant forall h :: h in unmet ==>
                    h in sizes && !RatioReached(target, sizes[h], SavedOf(was.persisted, h).uploaded)
        decreases todo
      {
        var h :| h in todo;
        todo := todo - {h};
        if h in sizes {
          var st := SavedOf(persisted, h);
          if !RatioReached(target, sizes[h], st.uploaded) {
            UncompletedOneMore(was, unmet, h);
            completed := completed - {h};
            persisted := persisted[h := st.(completed := false)];
            unmet := unmet + {h};
          }
        }
      }
      StepKeepsInv(was, Uncomplete(unmet));
      forall h | h in completed && h in StoreHashes(store)
        ensures Meets(store, h, target, SavedOf(persisted, h).uploaded)
      {
        SizeMeets(store, h, sizes[h], target, SavedOf(persisted, h).uploaded);
      }
      forall h | h in unmet ensures Misses(store, h, target, SavedOf(old(persisted), h).uploaded) {
        SizeMeets(store, h, sizes[h], target, SavedOf(old(persisted), h).uploaded);
      }
    }

    /** What a config reload does: afterwards every completed torrent of the store meets the target, no
        more torrents seed than the limit allows, and no slot is left empty without need. */
    method Reconcile() returns (ghost steps: seq<Step>)
      requires Valid()
      modifies this`active, this`persisted, this`completed, this`nextId, bw`stats
      ensures Valid() && Leads(old(Abs()), steps, Abs())
      ensures AllMeet(store, target, persisted, completed)
      ensures completed <= old(completed) && AllMiss(store, target, old(persisted), old(completed) - completed)
      ensures limit > 0 ==> |active| <= limit
      ensures (limit > 0 && |active| >= limit) || AllTaken()
      ensures forall h :: Report(Abs(), h) >= Report(old(Abs()), h)
    {
      hide Inv, D.Apply, Leads, AllMeet, AllMiss, Sound, CompletedRight, Report, Kept, NewFrom, NoRemovals, OnlyAdds;
      InvHolds();
      ghost var unmet := ReconcileCompleted();
      assert old(completed) - completed == unmet;
      StepLeads(old(Abs()), Uncomplete(unmet));
      ghost var mid := Abs();
      ghost var stops := StopOverflow();
      LeadsOn(old(Abs()), [Uncomplete(unmet)], mid, stops, Abs());
      StillMeet(store, target, mid.persisted, persisted, completed);
      ghost var last := Abs();
      ghost var adds := FillSlots();
      LeadsOn(old(Abs()), [Uncomplete(unmet)] + stops, last, adds, Abs());
      steps := [Uncomplete(unmet)] + stops + adds;
      RemovesNothing(unmet, stops, adds);
      NothingFalls(old(Abs()), steps, Abs());
    }

    /** completeTorrent; nothing happens when another announcer, or none, holds the hash. */
    method CompleteTorrent(a: Announcer) returns (ghost steps: seq<Step>)
      requires Valid()
      modifies this`active, this`persisted, this`completed, this`nextId, bw`stats
      ensures Valid() && Leads(old(Abs()), steps, Abs())
      ensures NoTicks(steps) && NoRemovals(steps)
      ensures !(a.torrent.hash in old(active) && old(active)[a.torrent.hash] == a) ==> Abs() == old(Abs())
      ensures a.torrent.hash in old(active) && old(active)[a.torrent.hash] == a ==>
                && |steps| > 0 && steps[0] == Complete(a.torrent.hash) && OnlyAdds(steps[1..])
                && completed == old(completed) + {a.torrent.hash}
                && ((limit > 0 && |active| >= limit) || AllTaken())
      ensures forall h :: h in old(active) && h != a.torrent.hash ==> h in active && active[h] == old(active)[h]
      ensures !(a.torrent.hash in active && active[a.torrent.hash] == a)
    {
      hide D.SaneLedger, CountsRight, CompletedRight, D.Apply, Leads;
      var h := a.torrent.hash;
      steps := [];
      LeadsNowhere(Abs());
      if h !in active || active[h] != a {
        return;
      }
      var uploaded := bw.Get(h).uploaded;
      StepKeepsInv(Abs(), Complete(h));
      StepLeads(Abs(), Complete(h));
      active := active - {h};
      completed := completed + {h};
      var st := SavedOf(persisted, h);
      if uploaded > st.uploaded {
        st := st.(uploaded := uploaded);
      }
      persisted := persisted[h := st.(completed := true)];
      bw.Unregister(h);
      ghost var mid := Abs();
      assert mid == Completed(old(Abs()), h);
      ghost var adds := FillSlots();
      LeadsOn(old(Abs()), [Complete(h)], mid, adds, Abs());
      steps := [Complete(h)] + adds;
      InvHolds();
      CompletedNotActive(Abs(), h);
    }

    /** The section of an announcer's loop after a success, and the completion that may follow. */
    method AnswerSucceeded(a: Announcer, first: bool, seeders: int, leechers: int) returns (ghost steps: seq<Step>)
      requires Valid()
      modifies this`active, this`persisted, this`completed, this`nextId, bw`stats
      ensures Valid() && Leads(old(Abs()), steps, Abs())
      ensures a.torrent.hash !in old(active) ==> Abs() == old(Abs())
      ensures a.torrent.hash in old(active) ==>
                |steps| > 0 && steps[0] == Answer(a.torrent.hash, first, seeders, leechers)
      ensures a.torrent.hash in active && active[a.torrent.hash] == a ==>
                !RatioReached(target, a.torrent.size, UploadOf(bw.Abs(), a.torrent.hash))
      ensures a.torrent.hash in old(active)
              && !RatioReached(target, a.torrent.size, UploadOf(old(bw.Abs()), a.torrent.hash)) ==>
                steps == [Answer(a.torrent.hash, first, seeders, leechers)] && active == old(active)
      ensures a.torrent.hash in old(active) && old(active)[a.torrent.hash] == a
              && RatioReached(target, a.torrent.size, UploadOf(old(bw.Abs()), a.torrent.hash)) ==>
                a.torrent.hash in completed && Report(Abs(), a.torrent.hash) == Report(old(Abs()), a.torrent.hash)
    {
      hide D.SaneLedger, CountsRight, CompletedRight, D.Apply, Leads, RatioReached;
      var h := a.torrent.hash;
      steps := [];
      LeadsNowhere(Abs());
      if h !in active {
        return;
      }
      StepKeepsInv(Abs(), Answer(h, first, seeders, leechers));
      AnswerKeepsUpload(Abs(), h, first, seeders, leechers);
      InvHolds();
      StepLeads(Abs(), Answer(h, first, seeders, leechers));
      if first {
        bw.Register(h);
      }
      bw.UpdatePeers(h, seeders, leechers);
      ghost var mid := Abs();
      assert mid == Answered(old(Abs()), h, first, seeders, leechers);
      steps := [Answer(h, first, seeders, leechers)];
      if RatioReached(target, a.torrent.size, bw.Get(h).uploaded) {
        var more := CompleteTorrent(a);
        LeadsOn(old(Abs()), steps, mid, more, Abs());
        assert Stop(h, Reason.Removed) !in more;
        steps := steps + more;
        NothingCredited(old(Abs()), steps, Abs(), h);
      }
    }

    /** What the event loop does with an event of the store. Only Removed lets an upload count fall, and
        only that of its own hash. */
    method HandleEvent(ev: Entries.Event) returns (ghost steps: seq<Step>)
      requires Valid()
      modifies this`active, this`persisted, this`completed, this`nextId, bw`stats
      ensures Valid() && Leads(old(Abs()), steps, Abs())
      ensures (limit > 0 && |active| >= limit) || AllTaken()
      ensures forall h :: ev != Entries.Removed(h) ==> Report(Abs(), h) == Report(old(Abs()), h)
      ensures match ev
              case Added(_) => OnlyAdds(steps) && completed == old(completed)
              case Removed(h) =>
                && h !in completed && h !in persisted && completed == old(completed) - {h}
                && (h in active ==> active[h].id >= old(nextId))
              case Replaced(h) => completed == old(completed) && (h in active ==> active[h].id >= old(nextId))
      ensures Kept(if ev.Added? then old(active) else old(active) - {ev.hash}, active)
    {
      hide *;
      AbsParts();
      InvHolds();
      match ev {
        case Added(_) =>
          steps := FillSlots();
          AbsParts();
          AddsCreditNothing(steps);
        case Removed(h) =>
          StoppedParts(Abs(), h, Reason.Removed);
          steps := StopTorrent(h, Reason.Removed);
          StopCreditsNothing(steps, h, Reason.Removed);
        case Replaced(h) =>
          StoppedParts(Abs(), h, Reason.Replaced);
          steps := StopTorrent(h, Reason.Replaced);
          StopCreditsNothing(steps, h, Reason.Replaced);
      }
      forall h | ev != Entries.Removed(h) ensures Report(Abs(), h) == Report(old(Abs()), h) {
        NothingCredited(old(Abs()), steps, Abs(), h);
      }
    }

    /** persistState up to the encoding: what the state file then says. */
    method PersistState() returns (file: map<Hash, Saved>)
      ensures file == Persisted(Abs())
    {
      hide Trivial;
      file := MarkCompleted();
      file := MergeLive(file);
      file := DropTrivial(file);
    }

    method MergeLive(given: map<Hash, Saved>) returns (file: map<Hash, Saved>)
      requires given.Keys == persisted.Keys + completed && forall h :: h in given ==> given[h] == Marked(h)
      ensures file.Keys == Known(Abs()) && forall h :: h in file ==> file[h] == Merged(Abs(), h)
    {
      file := given;
      var left := bw.stats.Keys;
      while left != {}
        invariant left <= bw.stats.Keys
        invariant file.Keys == persisted.Keys + completed + (bw.stats.Keys - left)
        invariant forall h :: h in file && h !in left ==> file[h] == Merged(Abs(), h)
        invariant forall h :: h in file && h in left ==> file[h] == Marked(h)
        decreases left
      {
        var h :| h in left;
        var st := SavedOf(file, h);
        if bw.stats[h].uploaded > st.uploaded {
          st := st.(uploaded := bw.stats[h].uploaded);
        }
        file := file[h := st];
        left := left - {h};
      }
    }

    /** The record of a hash with its completion, before the live count is looked at. */
    ghost function Marked(h: Hash): Saved
      reads this`persisted, this`completed
    {
      SavedOf(persisted, h).(completed := SavedOf(persisted, h).completed || h in completed)
    }

    method MarkCompleted() returns (file: map<Hash, Saved>)
      ensures file.Keys == persisted.Keys + completed
      ensures forall h :: h in file ==> file[h] == Marked(h)
    {
      file := persisted;
      var todo := completed;
      while todo != {}
        invariant todo <= completed
        invariant file.Keys == persisted.Keys + (completed - todo)
        invariant forall h :: h in file ==> file[h] == SavedOf(persisted, h).(completed :=
                    SavedOf(persisted, h).completed || h in completed - todo)
        decreases todo
      {
        var h :| h in todo;
        file := file[h := SavedOf(file, h).(completed := true)];
        todo := todo - {h};
      }
    }

    static method DropTrivial(given: map<Hash, Saved>) returns (file: map<Hash, Saved>)
      ensures file == map h | h in given && !Trivial(given[h]) :: given[h]
    {
      file := given;
      var todo := given.Keys;
      while todo != {}
        invariant todo <= given.Keys
        invariant file == map h | h in given && (h in todo || !Trivial(given[h])) :: given[h]
        decreases todo
      {
        var h :| h in todo;
        if file[h].uploaded <= 0 && !file[h].completed {
          file := file - {h};
        }
        todo := todo - {h};
      }
    }
  }

  lemma LeadsNowhere(s: State)
    ensures Leads(s, [], s)
  {
  }

  lemma AddedOne(s: State, a: Announcer)
    requires a.torrent.hash !in s.active
    ensures Do(s, Add(a)).active == s.active[a.torrent.hash := a]
    ensures |Do(s, Add(a)).active| == |s.active| + 1
  {
    assert s.active[a.torrent.hash := a].Keys == s.active.Keys + {a.torrent.hash};
  }

  lemma AddedKeepsCompleted(s: State, a: Announcer)
    requires a.torrent.hash !in s.completed
    ensures CompletedRight(Do(s, Add(a))) <==> CompletedRight(s)
  {
    hide D.Apply, Flagged;
    assert Do(s, Add(a)).active.Keys == s.active.Keys + {a.torrent.hash};
  }

  lemma NewAgain(was: map<Hash, Announcer>, now: map<Hash, Announcer>, id: nat, completed: set<Hash>, h: Hash)
    requires NewFrom(was, now, id, completed) && h !in was
    ensures h in now ==> now[h].id >= id
  {
  }

  lemma StopIs(s: State, h: Hash, reason: Reason)
    ensures Do(s, Stop(h, reason)) == Stopped(s, h, reason) && Stopped(s, h, reason).active == s.active - {h}
  {
    hide D.Apply;
  }

  lemma CanStop(s: State, h: Hash, reason: Reason)
    requires reason.RatioTarget? ==> h !in s.completed
    ensures Can(s, Stop(h, reason))
  {
  }

  method Least(s: set<Hash>) returns (h: Hash)
    requires s != {}
    ensures h in s && forall k :: k in s ==> h <= k
  {
    h :| h in s;
    var todo := s - {h};
    while todo != {}
      invariant h in s && todo <= s && forall k :: k in s && k !in todo ==> h <= k
      decreases todo
    {
      var k :| k in todo;
      if k < h {
        h := k;
      }
      todo := todo - {k};
    }
  }

  function Members(q: seq<Hash>): set<Hash> {
    set i | 0 <= i < |q| :: q[i]
  }

  /** `q` lists the set in increasing order. */
  ghost predicate Lists(q: seq<Hash>, s: set<Hash>) {
    Members(q) == s && forall i, j :: 0 <= i < j < |q| ==> q[i] < q[j]
  }

  lemma ListsOneMore(q: seq<Hash>, s: set<Hash>, h: Hash)
    requires Lists(q, s) && forall i :: 0 <= i < |q| ==> q[i] < h
    ensures Lists(q + [h], s + {h})
  {
    MembersOfMore(q, h);
  }

  lemma MembersOfMore(q: seq<Hash>, h: Hash)
    ensures Members(q + [h]) == Members(q) + {h}
  {
    var more := q + [h];
    assert more[|q|] == h;
    forall k | k in Members(q) ensures k in Members(more) {
      var i :| 0 <= i < |q| && q[i] == k;
      assert more[i] == k;
    }
  }

  lemma CompletedNotActive(s: State, h: Hash)
    requires Inv(s) && h in s.completed
    ensures h !in s.active
  {
  }

  /** loadPersistedState, given the records the file holds. */
  method LoadPersistedState(file: map<Hash, Saved>) returns (persisted: map<Hash, Saved>, completed: set<Hash>)
    ensures persisted == Loaded(file) && completed == Flagged(file)
  {
    persisted, completed := map[], {};
    var todo := file.Keys;
    while todo != {}
      invariant todo <= file.Keys
      invariant persisted == map h | h in file && h !in todo :: Loaded(file)[h]
      invariant completed == Flagged(file) - todo
      decreases todo
    {
      var h :| h in todo;
      var st := file[h];
      if st.uploaded < 0 {
        st := st.(uploaded := 0);
      }
      persisted := persisted[h := st];
      if st.completed {
        completed := completed + {h};
      }
      todo := todo - {h};
    }
  }

  lemma {:induction false} MembersCount(q: seq<Hash>)
    requires forall i, j :: 0 <= i < j < |q| ==> q[i] < q[j]
    ensures |Members(q)| == |q|
    decreases |q|
  {
    if q == [] {
    } else {
      var rest, last := q[..|q| - 1], q[|q| - 1];
      MembersCount(rest);
      MembersOfMore(rest, last);
      assert rest + [last] == q;
      assert last !in Members(rest);
    }
  }

  lemma ListsAll(hashes: seq<Hash>, active: map<Hash, Announcer>)
    requires Lists(hashes, active.Keys)
    ensures |hashes| == |active|
  {
    MembersCount(hashes);
  }

  lemma LostNothing(s: State, hashes: seq<Hash>)
    ensures Scheduler.OnlyLost(s, s, Members(hashes[..0]))
  {
    assert s.active - {} == s.active;
  }

  lemma NextIsActive(was: State, now: State, hashes: seq<Hash>, i: nat)
    requires i < |hashes| && Lists(hashes, was.active.Keys) && Scheduler.OnlyLost(was, now, Members(hashes[..i]))
    ensures hashes[i] in now.active
  {
    assert hashes[i] in Members(hashes);
    assert hashes[i] !in Members(hashes[..i]);
  }

  lemma LostSize(was: State, now: State, hashes: seq<Hash>, i: nat)
    requires i <= |hashes| && Lists(hashes, was.active.Keys) && Scheduler.OnlyLost(was, now, Members(hashes[..i]))
    ensures |now.active| == |was.active| - i
  {
    hide Members;
    MembersCount(hashes[..i]);
    PrefixMembers(hashes, i);
    SizeWithout(was.active.Keys, Members(hashes[..i]));
    assert now.active.Keys == was.active.Keys - Members(hashes[..i]);
  }

  lemma SizeWithout(s: set<Hash>, gone: set<Hash>)
    requires gone <= s
    ensures |s - gone| == |s| - |gone|
  {
    assert s == (s - gone) + gone;
  }

  lemma PrefixMembers(q: seq<Hash>, n: nat)
    requires n <= |q|
    ensures Members(q[..n]) <= Members(q)
  {
    forall h | h in Members(q[..n]) ensures h in Members(q) {
      var i :| 0 <= i < n && q[..n][i] == h;
      assert q[i] == h;
    }
  }

  lemma NoRemovalsTogether(steps: seq<Step>, more: seq<Step>)
    requires NoRemovals(steps) && NoRemovals(more)
    ensures NoRemovals(steps + more)
  {
  }

  lemma OnlyAddsOne(steps: seq<Step>, a: Option<Announcer>)
    requires OnlyAdds(steps) || steps == []
    ensures OnlyAdds(steps) && (a.Some? ==> OnlyAdds(steps + [Add(a.value)]))
  {
  }

  lemma RemovesNothing(unmet: set<Hash>, stops: seq<Step>, adds: seq<Step>)
    requires NoRemovals(stops) && OnlyAdds(adds)
    ensures NoRemovals([Uncomplete(unmet)] + stops + adds)
  {
  }

  lemma NoRemovalsYet()
    ensures NoRemovals([])
  {
  }

  lemma LostOneMore(was: State, mid: State, now: State, hashes: seq<Hash>, i: nat)
    requires i < |hashes| && Scheduler.OnlyLost(was, mid, Members(hashes[..i]))
    requires Scheduler.OnlyLost(mid, now, {hashes[i]})
    ensures Scheduler.OnlyLost(was, now, Members(hashes[..i + 1]))
  {
    MembersOfMore(hashes[..i], hashes[i]);
    assert hashes[..i] + [hashes[i]] == hashes[..i + 1];
    assert now.active == was.active - Members(hashes[..i + 1]);
  }

  /** Taking the first of the listed hashes away leaves the largest ones. */
  lemma SmallestGone(was: State, now: State, hashes: seq<Hash>, n: nat)
    requires n <= |hashes| && Lists(hashes, was.active.Keys) && Scheduler.OnlyLost(was, now, Members(hashes[..n]))
    ensures |now.active| == |was.active| - n
    ensures forall h :: h in now.active ==> h in was.active && now.active[h] == was.active[h]
    ensures forall h, k :: h in now.active && k in was.active && k !in now.active ==> k < h
  {
    LostSize(was, now, hashes, n);
    forall h, k | h in now.active && k in was.active && k !in now.active ensures k < h {
      assert h in Members(hashes) && k in Members(hashes[..n]);
      var i :| 0 <= i < |hashes| && hashes[i] == h;
      var j :| 0 <= j < n && hashes[..n][j] == k;
      InPrefix(hashes, i, n);
    }
  }

  lemma InPrefix(q: seq<Hash>, i: nat, n: nat)
    requires i < |q| && n <= |q|
    ensures i < n ==> q[i] in Members(q[..n])
  {
    assert i < n ==> q[..n][i] == q[i];
  }

  lemma OneLess(m: map<Hash, Announcer>, h: Hash)
    requires h in m
    ensures |m - {h}| == |m| - 1
  {
    assert (m - {h}).Keys == m.Keys - {h};
  }

  lemma ActiveNotCompleted(s: State, h: Hash)
    requires Inv(s) && h in s.active
    ensures h !in s.completed
  {
  }

  lemma StoppedIs(s: State, h: Hash)
    requires h in s.active && h !in s.completed
    ensures Scheduler.OnlyLost(s, Stopped(s, h, Manual), {h})
  {
  }

  function HashesOf(store: map<string, Torrent>, paths: set<string>): set<Hash>
    requires paths <= store.Keys
  {
    set p | p in paths :: store[p].hash
  }

  lemma OneMorePath(store: map<string, Torrent>, paths: set<string>, p: string)
    requires paths <= store.Keys && p in store
    ensures HashesOf(store, paths + {p}) == HashesOf(store, paths) + {store[p].hash}
  {
  }

  lemma SizeMeets(store: map<string, Torrent>, h: Hash, size: int, target: real, uploaded: int)
    requires HasSize(store, h, size)
    ensures RatioReached(target, size, uploaded) ==> Meets(store, h, target, uploaded)
    ensures !RatioReached(target, size, uploaded) ==> Misses(store, h, target, uploaded)
  {
    var p :| p in store && store[p] == Torrent(h, size);
    assert store[p].hash == h && store[p].size == size;
  }

  lemma UncompletedNothing(s: State)
    ensures Uncompleted(s, {}) == s
  {
    assert s.completed - {} == s.completed;
    assert Uncompleted(s, {}).persisted == s.persisted;
  }

  lemma UncompletedOneMore(s: State, unmet: set<Hash>, h: Hash)
    requires h !in unmet
    ensures var t := Uncompleted(s, unmet);
            Uncompleted(s, unmet + {h})
            == t.(completed := t.completed - {h},
                  persisted := t.persisted[h := SavedOf(t.persisted, h).(completed := false)])
  {
    assert s.completed - (unmet + {h}) == s.completed - unmet - {h};
    var t := Uncompleted(s, unmet);
    assert SavedOf(t.persisted, h) == SavedOf(s.persisted, h);
    assert Uncompleted(s, unmet + {h}).persisted == t.persisted[h := SavedOf(t.persisted, h).(completed := false)];
  }
}
