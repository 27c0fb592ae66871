/** The store's events with their decisions taken apart from them: a load or a removal changes the entries
    under the lock, a load that replaces a hash looks for other copies under a second lock, and the events
    are sent after that, each goroutine in its own time. */
module Delivery {
  import opened Numerals
  import opened Bandwidth
  import opened Entries

  /** What a goroutine has yet to do: look whether the replaced hash has another copy, or send events. */
  datatype Task = Compare(path: string, was: Hash, now: Hash) | Tell(events: seq<Event>)

  /** `known` is what the listener of the events holds loaded. */
  datatype State = State(entries: map<string, Info>, tasks: map<nat, Task>, known: set<Hash>)

  datatype Step =
    | Enter(w: nat, path: string, info: Info)
    | Drop(w: nat, path: string)
    | Look(w: nat)
    | Emit(w: nat)

  predicate Can(s: State, step: Step) {
    match step
    case Enter(w, _, _) => w !in s.tasks
    case Drop(w, _) => w !in s.tasks
    case Look(w) => w in s.tasks && s.tasks[w].Compare?
    case Emit(w) => w in s.tasks && s.tasks[w].Tell? && s.tasks[w].events != []
  }

  function With(s: State, w: nat, task: Task): State {
    s.(tasks := if task == Tell([]) then s.tasks - {w} else s.tasks[w := task])
  }

  /** The events of a load whose goroutine has seen the hash `was` replaced by `now`. */
  function Compared(m: map<string, Info>, path: string, was: Hash, now: Hash): seq<Event> {
    if Elsewhere(m, path, was) then [Added(now)] else [Removed(was), Added(now)]
  }

  /** What loadFile goes on to do once it has left the locked section. */
  function Entered(m: map<string, Info>, path: string, info: Info): Task {
    if path !in m then Tell([Added(info.hash)])
    else if m[path] == info then Tell([])
    else if m[path].hash == info.hash then Tell([Replaced(info.hash)])
    else Compare(path, m[path].hash, info.hash)
  }

  function Do(s: State, step: Step): State
    requires Can(s, step)
  {
    match step
    case Enter(w, path, info) =>
      With(s.(entries := s.entries[path := info]), w, Entered(s.entries, path, info))
    case Drop(w, path) =>
      With(s.(entries := s.entries - {path}), w, Tell(RemoveEvents(s.entries, path)))
    case Look(w) =>
      var task := s.tasks[w];
      With(s, w, Tell(Compared(s.entries, task.path, task.was, task.now)))
    case Emit(w) =>
      var events := s.tasks[w].events;
      With(s.(known := Heard(s.known, events[0])), w, Tell(events[1..]))
  }

  /** Nobody who has nothing left to send holds a task. */
  predicate WellFormed(s: State) {
    forall w :: w in s.tasks ==> s.tasks[w] != Tell([])
  }

  // ----- What is still to be said -----

  /** The events a goroutine sends if nothing is entered or dropped before it is done. */
  function DueOf(m: map<string, Info>, task: Task): seq<Event> {
    match task
    case Compare(path, was, now) => Compared(m, path, was, now)
    case Tell(events) => events
  }

  function Due(s: State, w: nat): seq<Event>
    requires w in s.tasks
  {
    DueOf(s.entries, s.tasks[w])
  }

  /** Whether the event says that the hash is loaded. */
  function Word(e: Event, h: Hash): Option<bool> {
    match e
    case Added(k) => if k == h then Some(true) else None
    case Removed(k) => if k == h then Some(false) else None
    case Replaced(_) => None
  }

  function LastWord(events: seq<Event>, h: Hash): Option<bool>
    decreases |events|
  {
    if events == [] then None
    else if LastWord(events[1..], h).Some? then LastWord(events[1..], h)
    else Word(events[0], h)
  }

  predicate Held(s: State, h: Hash) {
    h in Hashes(s.entries)
  }

  /** The goroutine will end with the opposite of what is true. */
  predicate Misleads(s: State, w: nat, h: Hash)
    requires w in s.tasks
  {
    LastWord(Due(s, w), h).Some? && LastWord(Due(s, w), h).value != Held(s, h)
  }

  /** Whoever still has something to say about the hash ends with the truth; if nobody has, the listener
      knows it already. */
  predicate SettledFor(s: State, h: Hash) {
    && (forall w :: w in s.tasks ==> !Misleads(s, w, h))
    && ((forall w :: w in s.tasks ==> LastWord(Due(s, w), h).None?) ==> (h in s.known <==> Held(s, h)))
  }

  ghost predicate Settled(s: State) {
    forall h :: SettledFor(s, h)
  }

  // ----- Deliveries -----

  /** Steps that only look and send lead from `s` to `t`. */
  ghost predicate Delivers(s: State, steps: seq<Step>, t: State)
    decreases |steps|
  {
    if steps == [] then s == t
    else (steps[0].Look? || steps[0].Emit?) && Can(s, steps[0]) && Delivers(Do(s, steps[0]), steps[1..], t)
  }

  /** Everything is said and the listener knows the hashes of the store. */
  predicate Right(s: State) {
    s.known == Hashes(s.entries)
  }

  lemma DueAfterLook(s: State, w: nat)
    requires WellFormed(s) && Can(s, Look(w))
    ensures var t := Do(s, Look(w));
            && WellFormed(t) && t.entries == s.entries && t.known == s.known && t.tasks.Keys == s.tasks.Keys
            && t.tasks[w].Tell? && (forall v :: v in s.tasks ==> Due(t, v) == Due(s, v))
  {
  }

  lemma DueAfterEmit(s: State, w: nat)
    requires WellFormed(s) && Can(s, Emit(w))
    ensures var t, rest := Do(s, Emit(w)), Due(s, w)[1..];
            && WellFormed(t) && t.entries == s.entries && t.known == Heard(s.known, Due(s, w)[0])
            && t.tasks == (if rest == [] then s.tasks - {w} else s.tasks[w := Tell(rest)])
            && (forall v :: v in s.tasks && v != w ==> v in t.tasks && Due(t, v) == Due(s, v))
  {
  }

  lemma HeardIsItsWord(known: set<Hash>, e: Event, h: Hash)
    ensures h in Heard(known, e) <==> if Word(e, h).Some? then Word(e, h).value else h in known
  {
  }

  lemma LookKeepsSettled(s: State, w: nat, h: Hash)
    requires WellFormed(s) && Can(s, Look(w)) && SettledFor(s, h)
    ensures SettledFor(Do(s, Look(w)), h)
  {
    hide Do, Due, Hashes, LastWord;
    DueAfterLook(s, w);
  }

  lemma EmitKeepsSettled(s: State, w: nat, h: Hash)
    requires WellFormed(s) && Can(s, Emit(w)) && SettledFor(s, h)
    ensures SettledFor(Do(s, Emit(w)), h)
  {
    hide Do, Hashes, Word, Heard, LastWord;
    var t, due := Do(s, Emit(w)), Due(s, w);
    DueAfterEmit(s, w);
    HeardIsItsWord(s.known, due[0], h);
    LastWordOfMore(due, h);
    if forall v :: v in t.tasks ==> LastWord(Due(t, v), h).None? {
      assert forall v :: v in s.tasks && v != w ==> LastWord(Due(s, v), h).None?;
      assert due[1..] != [] ==> Due(t, w) == due[1..];
    }
  }

  lemma {:induction false} DeliveriesKeepSettled(s: State, steps: seq<Step>, t: State)
    requires WellFormed(s) && Settled(s) && Delivers(s, steps, t)
    ensures WellFormed(t) && Settled(t) && t.entries == s.entries
    decreases |steps|
  {
    hide Do, Can, SettledFor;
    if steps == [] {
    } else {
      forall h ensures SettledFor(Do(s, steps[0]), h) {
        if steps[0].Look? {
          LookKeepsSettled(s, steps[0].w, h);
        } else {
          EmitKeepsSettled(s, steps[0].w, h);
        }
      }
      if steps[0].Look? {
        DueAfterLook(s, steps[0].w);
      } else {
        DueAfterEmit(s, steps[0].w);
      }
      DeliveriesKeepSettled(Do(s, steps[0]), steps[1..], t);
    }
  }

  lemma NothingDueIsRight(s: State)
    requires Settled(s) && s.tasks == map[]
    ensures Right(s)
  {
    forall h ensures h in s.known <==> h in Hashes(s.entries) {
      assert SettledFor(s, h);
    }
  }

  // ----- Who speaks last is believed -----

  lemma {:induction false} DeliversTogether(s: State, first: seq<Step>, mid: State, second: seq<Step>, t: State)
    requires Delivers(s, first, mid) && Delivers(mid, second, t)
    ensures Delivers(s, first + second, t)
    decreases |first|
  {
    hide Do, Can;
    if first == [] {
      assert first + second == second;
    } else {
      DeliversTogether(Do(s, first[0]), first[1..], mid, second, t);
      assert (first + second)[1..] == first[1..] + second;
    }
  }

  /** `t` is `s` after goroutine `w` has said all it had to say. */
  ghost predicate Said(s: State, w: nat, t: State)
    requires w in s.tasks
  {
    && WellFormed(t) && t.entries == s.entries && t.tasks == s.tasks - {w}
    && forall h :: h in t.known <==>
                     if LastWord(Due(s, w), h).Some? then LastWord(Due(s, w), h).value else h in s.known
  }

  lemma LastWordOfMore(events: seq<Event>, h: Hash)
    requires events != []
    ensures LastWord(events, h) ==
            if LastWord(events[1..], h).Some? then LastWord(events[1..], h) else Word(events[0], h)
    ensures LastWord([], h) == None
  {
  }

  /** Saying one thing and then the rest is saying it all. */
  lemma SaidFirst(s: State, w: nat, next: State, t: State)
    requires WellFormed(s) && Can(s, Emit(w)) && next == Do(s, Emit(w))
    requires if w in next.tasks then Said(next, w, t) else t == next
    ensures Said(s, w, t)
  {
    hide Do, LastWord, Word, Heard;
    var due := Due(s, w);
    DueAfterEmit(s, w);
    assert t.tasks == s.tasks - {w};
    forall h ensures h in t.known <==> if LastWord(due, h).Some? then LastWord(due, h).value else h in s.known {
      HeardIsItsWord(s.known, due[0], h);
      LastWordOfMore(due, h);
    }
  }

  lemma {:induction false} TellAll(s: State, w: nat) returns (steps: seq<Step>, t: State)
    requires WellFormed(s) && w in s.tasks && s.tasks[w].Tell?
    ensures Delivers(s, steps, t) && Said(s, w, t)
    decreases |s.tasks[w].events|
  {
    hide Do, Said, LastWord;
    var next := Do(s, Emit(w));
    DueAfterEmit(s, w);
    var rest := [];
    t := next;
    if s.tasks[w].events[1..] != [] {
      rest, t := TellAll(next, w);
    }
    SaidFirst(s, w, next, t);
    steps := [Emit(w)] + rest;
    assert steps[1..] == rest;
  }

  lemma SayAll(s: State, w: nat) returns (steps: seq<Step>, t: State)
    requires WellFormed(s) && w in s.tasks
    ensures Delivers(s, steps, t) && Said(s, w, t)
  {
    if s.tasks[w].Tell? {
      steps, t := TellAll(s, w);
    } else {
      var next := Do(s, Look(w));
      DueAfterLook(s, w);
      var rest;
      rest, t := TellAll(next, w);
      steps := [Look(w)] + rest;
      assert steps[1..] == rest && next.tasks - {w} == s.tasks - {w};
    }
  }

  lemma {:induction false} SayAllOf(s: State, ws: set<nat>) returns (steps: seq<Step>, t: State)
    requires WellFormed(s) && ws <= s.tasks.Keys
    ensures Delivers(s, steps, t) && WellFormed(t) && t.entries == s.entries && t.tasks == s.tasks - ws
    ensures forall h :: (forall w :: w in ws ==> LastWord(Due(s, w), h).None?) ==> (h in t.known <==> h in s.known)
    decreases ws
  {
    hide LastWord, Do, Can;
    if ws == {} {
      steps, t := [], s;
      assert s.tasks - ws == s.tasks;
    } else {
      var w :| w in ws;
      var first, mid := SayAll(s, w);
      assert forall v :: v in ws - {w} ==> v in mid.tasks && Due(mid, v) == Due(s, v);
      var others;
      others, t := SayAllOf(mid, ws - {w});
      DeliversTogether(s, first, mid, others, t);
      steps := first + others;
      assert mid.tasks - (ws - {w}) == s.tasks - ws;
    }
  }

  lemma NoTasksLeft(s: State, t: State)
    requires t.tasks == s.tasks - s.tasks.Keys
    ensures t.tasks == map[]
  {
  }

  /** An unsettled state has a delivery that leaves the listener wrong. */
  lemma UnsettledMisleads(s: State, h: Hash) returns (steps: seq<Step>, t: State)
    requires WellFormed(s) && !SettledFor(s, h)
    ensures Delivers(s, steps, t) && t.tasks == map[] && !Right(t)
  {
    hide LastWord, Do, Can, Hashes;
    if w :| w in s.tasks && Misleads(s, w, h) {
      var first, mid := SayAllOf(s, s.tasks.Keys - {w});
      assert w in mid.tasks && Due(mid, w) == Due(s, w);
      var second;
      second, t := SayAll(mid, w);
      DeliversTogether(s, first, mid, second, t);
      steps := first + second;
      assert t.tasks == s.tasks - s.tasks.Keys;
      NoTasksLeft(s, t);
      assert h in t.known <==> !Held(s, h);
    } else {
      steps, t := SayAllOf(s, s.tasks.Keys);
      NoTasksLeft(s, t);
      assert forall w :: w in s.tasks ==> LastWord(Due(s, w), h).None?;
      assert h in t.known <==> h in s.known;
    }
  }

  /** Whatever order the events are sent in, the listener ends with the hashes of the store, exactly when
      every goroutine that still has something to say about a hash ends with the truth about it. */
  lemma EveryDeliveryIsRightExactly(s: State)
    requires WellFormed(s)
    ensures (forall steps, t :: Delivers(s, steps, t) && t.tasks == map[] ==> Right(t)) <==> Settled(s)
  {
    hide SettledFor, Right;
    if Settled(s) {
      forall steps, t | Delivers(s, steps, t) && t.tasks == map[] ensures Right(t) {
        DeliveriesKeepSettled(s, steps, t);
        NothingDueIsRight(t);
      }
    } else {
      var h :| !SettledFor(s, h);
      var steps, t := UnsettledMisleads(s, h);
    }
  }

  // ----- Decisions -----

  predicate Decides(step: Step) {
    step.Enter? || step.Drop?
  }

  /** The hashes whose copies the step adds or takes away. */
  function Touched(s: State, step: Step): set<Hash>
    requires Decides(step)
  {
    var was := if step.path in s.entries then {s.entries[step.path].hash} else {};
    if step.Drop? then was else if was == {step.info.hash} then {} else was + {step.info.hash}
  }

  /** Another goroutine will then end with the opposite of what is true of a hash the step touches. */
  ghost predicate Contradicted(s: State, step: Step)
    requires Can(s, step) && Decides(step)
  {
    exists w, h :: w in s.tasks && h in Touched(s, step) && Misleads(Do(s, step), w, h)
  }

  /** What the decision changes, and what its goroutine is then to say. */
  lemma Decided(s: State, step: Step)
    requires WellFormed(s) && Can(s, step) && Decides(step)
    ensures var t := Do(s, step);
            && WellFormed(t) && t.known == s.known && t.tasks.Keys - {step.w} == s.tasks.Keys
            && (forall v :: v in s.tasks ==> v in t.tasks && t.tasks[v] == s.tasks[v])
            && t.entries == Changed(s, step)
            && (if step.w in t.tasks then Due(t, step.w) else []) == Own(s, step)
  {
    var t := Do(s, step);
    if step.Enter? && step.path in s.entries {
      ElsewhereAfter(s.entries, step.path, step.info, s.entries[step.path].hash);
    }
  }

  /** What the goroutine of the step is to say. */
  function Own(s: State, step: Step): seq<Event>
    requires Decides(step)
  {
    if step.Drop? then RemoveEvents(s.entries, step.path) else LoadEvents(s.entries, step.path, step.info)
  }

  function Changed(s: State, step: Step): map<string, Info>
    requires Decides(step)
  {
    if step.Drop? then s.entries - {step.path} else s.entries[step.path := step.info]
  }

  lemma ShortWords(h: Hash)
    ensures LastWord([], h) == None
    ensures forall e :: LastWord([e], h) == Word(e, h)
    ensures forall e, f :: LastWord([e, f], h) == if Word(f, h).Some? then Word(f, h) else Word(e, h)
  {
    forall e ensures LastWord([e], h) == Word(e, h) {
      assert [e][1..] == [];
    }
    forall e, f ensures LastWord([e, f], h) == if Word(f, h).Some? then Word(f, h) else Word(e, h) {
      assert [e, f][1..] == [f];
    }
  }

  /** Of its own hashes the goroutine ends with the truth, and what it says nothing of it leaves as it was. */
  lemma OwnWordIsRight(s: State, step: Step, h: Hash)
    requires Decides(step)
    ensures var word, held := LastWord(Own(s, step), h), h in Hashes(Changed(s, step));
            && (word.Some? ==> word.value == held && h in Touched(s, step))
            && (word.None? ==> held == (h in Hashes(s.entries)))
  {
    hide Hashes, Elsewhere, LastWord;
    ShortWords(h);
    var m := s.entries;
    if step.path in m {
      HashesWithout(m, step.path);
    } else {
      assert m - {step.path} == m;
    }
    if step.Enter? {
      HashesWith(m, step.path, step.info);
    }
  }

  /** Another copy of a hash is there afterwards and was not before only if the goroutine says Added. */
  lemma CopiesChange(s: State, step: Step, path: string, k: Hash)
    requires Decides(step)
    ensures Elsewhere(Changed(s, step), path, k) && !Elsewhere(s.entries, path, k) ==>
              LastWord(Own(s, step), k) == Some(true)
    ensures k !in Touched(s, step) ==> (Elsewhere(Changed(s, step), path, k) <==> Elsewhere(s.entries, path, k))
  {
    hide LastWord;
    ShortWords(k);
    var m, n := s.entries, Changed(s, step);
    if Elsewhere(n, path, k) {
      var p :| p in n && p != path && n[p].hash == k;
      assert p != step.path ==> p in m && m[p] == n[p];
    }
    if Elsewhere(m, path, k) {
      var p :| p in m && p != path && m[p].hash == k;
      assert p != step.path ==> p in n && m[p] == n[p];
      assert p == step.path && k !in Touched(s, step) ==> p in n && n[p].hash == k;
    }
  }

  /** What the others are to say of a hash changes only if the step touches it. */
  lemma OthersSay(s: State, step: Step, task: Task, h: Hash)
    requires Decides(step)
    ensures var before, after := LastWord(DueOf(s.entries, task), h), LastWord(DueOf(Changed(s, step), task), h);
            && (h !in Touched(s, step) ==> before == after)
            && (after.None? ==> before.None? || LastWord(Own(s, step), h).Some?)
  {
    hide Elsewhere, Own, Changed, Touched, LastWord;
    ShortWords(h);
    if task.Compare? {
      CopiesChange(s, step, task.path, task.was);
    }
  }

  /** The step keeps a hash settled exactly when it leaves nobody misleading about it; and always a hash
      it does not touch. */
  lemma DecisionKeepsSettled(s: State, step: Step, h: Hash)
    requires WellFormed(s) && Can(s, step) && Decides(step) && SettledFor(s, h)
    ensures var t := Do(s, step);
            && s.tasks.Keys <= t.tasks.Keys
            && (SettledFor(t, h) <==> forall w :: w in s.tasks ==> !Misleads(t, w, h))
            && (h !in Touched(s, step) ==> SettledFor(t, h))
  {
    hide Do, Hashes, LastWord, DueOf, Own, Touched, Changed;
    var t := Do(s, step);
    Decided(s, step);
    ShortWords(h);
    OwnWordIsRight(s, step, h);
    forall w | w in s.tasks
      ensures Due(t, w) == DueOf(Changed(s, step), s.tasks[w])
      ensures h !in Touched(s, step) ==> LastWord(Due(t, w), h) == LastWord(Due(s, w), h)
      ensures LastWord(Due(t, w), h).None? ==>
                LastWord(Due(s, w), h).None? || LastWord(Own(s, step), h).Some?
    {
      OthersSay(s, step, s.tasks[w], h);
    }
  }

  /** A decision keeps every delivery right exactly when it leaves no other goroutine about to end with the
      opposite of what is then true of a hash the step touches. */
  lemma DecisionStaysSettledExactly(s: State, step: Step)
    requires WellFormed(s) && Settled(s) && Can(s, step) && Decides(step)
    ensures Settled(Do(s, step)) <==> !Contradicted(s, step)
  {
    hide Do, Touched, Misleads, SettledFor;
    Decided(s, step);
    forall h ensures SettledFor(Do(s, step), h) <==> !(exists w :: w in s.tasks && Misleads(Do(s, step), w, h))
             ensures h !in Touched(s, step) ==> SettledFor(Do(s, step), h) {
      DecisionKeepsSettled(s, step, h);
    }
  }

  /** The goroutine may still speak of the hash. */
  predicate Concerns(task: Task, h: Hash) {
    match task
    case Compare(_, was, now) => h == was || h == now
    case Tell(events) => Added(h) in events || Removed(h) in events
  }

  /** Nobody else is still to speak of a hash the step touches. */
  predicate Alone(s: State, step: Step)
    requires Decides(step)
  {
    forall w, h :: w in s.tasks && h in Touched(s, step) ==> !Concerns(s.tasks[w], h)
  }

  lemma {:induction false} SilentWord(events: seq<Event>, h: Hash)
    requires Added(h) !in events && Removed(h) !in events
    ensures LastWord(events, h).None?
    decreases |events|
  {
    if events == [] {
    } else {
      assert events[0] in events && forall e :: e in events[1..] ==> e in events;
      SilentWord(events[1..], h);
    }
  }

  lemma AloneIsNotContradicted(s: State, step: Step)
    requires WellFormed(s) && Can(s, step) && Decides(step) && Alone(s, step)
    ensures !Contradicted(s, step)
  {
    hide Do, Touched, LastWord;
    Decided(s, step);
    forall w, h | w in s.tasks && h in Touched(s, step) ensures !Misleads(Do(s, step), w, h) {
      assert !Concerns(s.tasks[w], h);
      SilentWord(Due(Do(s, step), w), h);
    }
  }

  /** A run in which nothing touches a hash that another goroutine is still to speak of. */
  ghost predicate Undisturbed(s: State, steps: seq<Step>, t: State)
    decreases |steps|
  {
    if steps == [] then s == t
    else Can(s, steps[0]) && (Decides(steps[0]) ==> Alone(s, steps[0])) && Undisturbed(Do(s, steps[0]), steps[1..], t)
  }

  /** Such a run, however its goroutines interleave, ends with the listener right once all is said. */
  lemma {:induction false} UndisturbedRunsAreRight(s: State, steps: seq<Step>, t: State)
    requires WellFormed(s) && Settled(s) && Undisturbed(s, steps, t)
    ensures WellFormed(t) && Settled(t) && (t.tasks == map[] ==> Right(t))
    decreases |steps|
  {
    hide Do, Can, SettledFor, Contradicted, Alone, Right;
    if steps == [] {
      if s.tasks == map[] {
        NothingDueIsRight(s);
      }
    } else {
      if Decides(steps[0]) {
        AloneIsNotContradicted(s, steps[0]);
        DecisionStaysSettledExactly(s, steps[0]);
        Decided(s, steps[0]);
      } else {
        assert Delivers(Do(s, steps[0]), [steps[0]][1..], Do(s, steps[0]));
        DeliveriesKeepSettled(s, [steps[0]], Do(s, steps[0]));
      }
      UndisturbedRunsAreRight(Do(s, steps[0]), steps[1..], t);
    }
  }

  /** The last copy of a torrent is removed while another path loads it: its Removed comes after the Added,
      and the listener loses a torrent that the store holds. */
  lemma RemovalSpeaksTooLate(p: string, q: string, info: Info)
    requires p != q
    ensures var s := State(map[p := info], map[], {info.hash});
            && Settled(s) && Can(s, Drop(0, p))
            && var s1 := Do(s, Drop(0, p));
            && Can(s1, Enter(1, q, info)) && !Alone(s1, Enter(1, q, info)) && Contradicted(s1, Enter(1, q, info))
            && var s2 := Do(s1, Enter(1, q, info));
            && Delivers(s2, [Emit(1), Emit(0)], State(map[q := info], map[], {}))
  {
    var s := State(map[p := info], map[], {info.hash});
    assert Hashes(s.entries) == {info.hash} by {
      assert s.entries[p].hash in Hashes(s.entries);
    }
    var s1 := Do(s, Drop(0, p));
    assert s1 == State(map[], map[0 := Tell([Removed(info.hash)])], {info.hash});
    var s2 := Do(s1, Enter(1, q, info));
    var both := map[0 := Tell([Removed(info.hash)]), 1 := Tell([Added(info.hash)])];
    assert s2 == State(map[q := info], both, {info.hash});
    ShortWords(info.hash);
    assert info.hash in Touched(s1, Enter(1, q, info));
    assert s2.entries[q].hash in Hashes(s2.entries);
    assert Misleads(s2, 0, info.hash);
    assert Concerns(s1.tasks[0], info.hash);
    var s3 := Do(s2, Emit(1));
    assert s3 == State(map[q := info], map[0 := Tell([Removed(info.hash)])], {info.hash});
    var s4 := Do(s3, Emit(0));
    assert s4 == State(map[q := info], map[], {});
    assert [Emit(1), Emit(0)][1..] == [Emit(0)] && [Emit(0)][1..] == [];
    assert Delivers(s4, [], s4);
    assert Delivers(s3, [Emit(0)], s4);
  }
}
