/**
 The registry of key log file handles: any number of callers, each running the double-checked
 lookup under a read/write lock, as a state machine over their atomic steps.
 Opening the file is a step that succeeds with a new handle or fails.
 */
module KeyLogRegistry {
  import opened Paths
  import opened Text

  type CallerId = nat
  type Handle = nat

  /** Where a caller stands: before and inside the read lock, before and inside the write lock, or finished. */
  datatype Pc = Start | Reading | Missed | Writing | Creating | Created(made: Handle) | Done(handle: Handle) | Failed

  datatype Caller = Caller(path: Path, pc: Pc)

  datatype State = State(
    mapping: map<Path, Handle>,
    readers: set<CallerId>,
    writer: Option<CallerId>,
    callers: map<CallerId, Caller>,
    creations: seq<(Path, Handle)>)

  const INIT := State(map[], {}, None, map[], [])

  datatype Step =
    | Arrive(id: CallerId, raw: Path)
    | LockRead(id: CallerId)
    | Lookup(id: CallerId)
    | LockWrite(id: CallerId)
    | CheckEntry(id: CallerId)
    | Open(id: CallerId, succeeds: bool)
    | Insert(id: CallerId)

  predicate At(s: State, id: CallerId, pc: Pc) {
    id in s.callers && s.callers[id].pc == pc
  }

  predicate Enabled(s: State, step: Step) {
    match step
    case Arrive(id, raw) => id !in s.callers && WellFormed(raw)
    case LockRead(id) => At(s, id, Start) && s.writer.None?
    case Lookup(id) => At(s, id, Reading)
    case LockWrite(id) => At(s, id, Missed) && s.writer.None? && s.readers == {}
    case CheckEntry(id) => At(s, id, Writing)
    case Open(id, _) => At(s, id, Creating)
    case Insert(id) => id in s.callers && s.callers[id].pc.Created?
  }

  function Move(s: State, id: CallerId, pc: Pc): State
    requires id in s.callers
  {
    s.(callers := s.callers[id := s.callers[id].(pc := pc)])
  }

  function Apply(s: State, step: Step): State
    requires Enabled(s, step)
  {
    match step
    case Arrive(id, raw) => s.(callers := s.callers[id := Caller(Normalize(raw), Start)])
    case LockRead(id) => Move(s, id, Reading).(readers := s.readers + {id})
    case Lookup(id) =>
      var path := s.callers[id].path;
      Move(s, id, if path in s.mapping then Done(s.mapping[path]) else Missed).(readers := s.readers - {id})
    case LockWrite(id) => Move(s, id, Writing).(writer := Some(id))
    case CheckEntry(id) =>
      var path := s.callers[id].path;
      if path in s.mapping then Move(s, id, Done(s.mapping[path])).(writer := None) else Move(s, id, Creating)
    case Open(id, succeeds) =>
      var h := |s.creations|;
      if succeeds then Move(s, id, Created(h)).(creations := s.creations + [(s.callers[id].path, h)])
      else Move(s, id, Failed).(writer := None)
    case Insert(id) =>
      var c := s.callers[id];
      Move(s, id, Done(c.pc.made)).(mapping := s.mapping[c.path := c.pc.made], writer := None)
  }

  /** The steps form a run from `s`. */
  predicate IsRun(s: State, steps: seq<Step>)
    decreases |steps|
  {
    steps == [] || (Enabled(s, steps[0]) && IsRun(Apply(s, steps[0]), steps[1..]))
  }

  function Final(s: State, steps: seq<Step>): State
    requires IsRun(s, steps)
    decreases |steps|
  {
    if steps == [] then s else Final(Apply(s, steps[0]), steps[1..])
  }

  predicate HoldsWriteLock(pc: Pc) {
    pc.Writing? || pc.Creating? || pc.Created?
  }

  /** The locks say who holds them, and never both kinds at once. */
  ghost predicate LockInv(s: State) {
    && (forall id :: s.writer == Some(id) <==> id in s.callers && HoldsWriteLock(s.callers[id].pc))
    && (forall id :: id in s.readers <==> At(s, id, Reading))
    && (s.writer.Some? ==> s.readers == {})
  }

  /** A handle that is open but not yet registered. */
  predicate Pending(s: State, path: Path, h: Handle) {
    s.writer.Some? && s.writer.value in s.callers && s.callers[s.writer.value] == Caller(path, Created(h))
  }

  ghost predicate MapInv(s: State) {
    && (forall id :: id in s.callers && (s.callers[id].pc.Creating? || s.callers[id].pc.Created?)
                     ==> s.callers[id].path !in s.mapping)
    && (forall id :: id in s.callers && s.callers[id].pc.Done?
                     ==> s.callers[id].path in s.mapping && s.mapping[s.callers[id].path] == s.callers[id].pc.handle)
    && (forall p :: p in s.mapping ==> s.mapping[p] < |s.creations| && s.creations[s.mapping[p]].0 == p)
    && (forall id :: id in s.callers && s.callers[id].pc.Created?
                     ==> && s.callers[id].pc.made < |s.creations|
                         && s.creations[s.callers[id].pc.made].0 == s.callers[id].path)
    && (forall h :: 0 <= h < |s.creations| ==>
          var (path, handle) := s.creations[h];
          handle == h && ((path in s.mapping && s.mapping[path] == h) || Pending(s, path, h)))
  }

  ghost predicate Inv(s: State) {
    LockInv(s) && MapInv(s)
  }

  lemma LockInvStep(s: State, step: Step)
    requires LockInv(s) && Enabled(s, step)
    ensures LockInv(Apply(s, step))
  {
  }

  lemma MapInvStep(s: State, step: Step)
    requires Inv(s) && Enabled(s, step)
    ensures MapInv(Apply(s, step))
  {
    match step
    case Open(id, _) => OpenKeepsMap(s, step);
    case Insert(id) => InsertKeepsMap(s, step);
    case CheckEntry(id) => CheckKeepsMap(s, step);
    case _ => OtherKeepsMap(s, step);
  }

  lemma OpenKeepsMap(s: State, step: Step)
    requires Inv(s) && Enabled(s, step) && step.Open?
    ensures MapInv(Apply(s, step))
  {
  }

  lemma InsertKeepsMap(s: State, step: Step)
    requires Inv(s) && Enabled(s, step) && step.Insert?
    ensures MapInv(Apply(s, step))
  {
  }

  lemma CheckKeepsMap(s: State, step: Step)
    requires Inv(s) && Enabled(s, step) && step.CheckEntry?
    ensures MapInv(Apply(s, step))
  {
  }

  lemma OtherKeepsMap(s: State, step: Step)
    requires Inv(s) && Enabled(s, step) && !step.Open? && !step.Insert? && !step.CheckEntry?
    ensures MapInv(Apply(s, step))
  {
  }

  lemma {:induction false} RunInv(s: State, steps: seq<Step>)
    requires Inv(s) && IsRun(s, steps)
    ensures Inv(Final(s, steps))
    decreases |steps|
  {
    if steps != [] {
      LockInvStep(s, steps[0]);
      MapInvStep(s, steps[0]);
      RunInv(Apply(s, steps[0]), steps[1..]);
    }
  }

  /** A caller keeps the path it arrived with. */
  lemma {:induction false} PathStays(s: State, steps: seq<Step>, id: CallerId)
    requires IsRun(s, steps) && id in s.callers
    ensures id in Final(s, steps).callers && Final(s, steps).callers[id].path == s.callers[id].path
    decreases |steps|
  {
    if steps != [] {
      PathStays(Apply(s, steps[0]), steps[1..], id);
    }
  }

  lemma {:induction false} ArrivedPath(s: State, steps: seq<Step>, id: CallerId, raw: Path)
    requires IsRun(s, steps) && Arrive(id, raw) in steps
    ensures id in Final(s, steps).callers && Final(s, steps).callers[id].path == Normalize(raw)
    decreases |steps|
  {
    var t := Apply(s, steps[0]);
    if steps[0] == Arrive(id, raw) {
      PathStays(t, steps[1..], id);
    } else {
      ArrivedPath(t, steps[1..], id, raw);
    }
  }

  /**
   In every interleaving of any number of callers: no path is opened twice with success, and two callers
   that succeed hold the same handle exactly when the paths they came with normalise to the same path.
   */
  lemma OneHandlePerPath(steps: seq<Step>, a: CallerId, ra: Path, b: CallerId, rb: Path)
    requires IsRun(INIT, steps) && Arrive(a, ra) in steps && Arrive(b, rb) in steps
    ensures var s := Final(INIT, steps);
            && (forall i, j :: 0 <= i < j < |s.creations| ==> s.creations[i].0 != s.creations[j].0)
            && a in s.callers && b in s.callers
            && (s.callers[a].pc.Done? && s.callers[b].pc.Done? ==>
                  (s.callers[a].pc.handle == s.callers[b].pc.handle <==> Normalize(ra) == Normalize(rb)))
            && (s.callers[a].pc.Done? ==> (Normalize(ra), s.callers[a].pc.handle) in s.creations)
  {
    RunInv(INIT, steps);
    ArrivedPath(INIT, steps, a, ra);
    ArrivedPath(INIT, steps, b, rb);
    var s := Final(INIT, steps);
    var c := s.callers[a];
    if c.pc.Done? {
      assert s.creations[s.mapping[c.path]] == (c.path, c.pc.handle);
    }
  }

  /** The map changes only when a new path is registered with the handle opened for it. */
  lemma MapChange(s: State, step: Step)
    requires Inv(s) && Enabled(s, step)
    ensures var t := Apply(s, step);
            || t.mapping == s.mapping
            || (step.Insert? && (var c := s.callers[step.id];
                                 && c.path !in s.mapping && t.mapping == s.mapping[c.path := c.pc.made]
                                 && s.creations[c.pc.made].0 == c.path))
    ensures step.Open? && !step.succeeds ==>
              Apply(s, step).mapping == s.mapping && Apply(s, step).creations == s.creations
  {
  }

  /** Registered entries stay as they are for the rest of the run. */
  lemma {:induction false} EntriesStay(s: State, steps: seq<Step>)
    requires Inv(s) && IsRun(s, steps)
    ensures forall p :: p in s.mapping ==> p in Final(s, steps).mapping && Final(s, steps).mapping[p] == s.mapping[p]
    decreases |steps|
  {
    if steps != [] {
      var t := Apply(s, steps[0]);
      LockInvStep(s, steps[0]);
      MapInvStep(s, steps[0]);
      MapChange(s, steps[0]);
      EntriesStay(t, steps[1..]);
      assert forall p :: p in s.mapping ==> p in t.mapping && t.mapping[p] == s.mapping[p];
    }
  }

  predicate Finished(pc: Pc) {
    pc.Done? || pc.Failed?
  }

  /** As long as a caller has not finished, some caller can take a step: the lock never deadlocks. */
  lemma NoDeadlock(steps: seq<Step>, id: CallerId)
    requires IsRun(INIT, steps)
    requires id in Final(INIT, steps).callers && !Finished(Final(INIT, steps).callers[id].pc)
    ensures exists step: Step :: !step.Arrive? && Enabled(Final(INIT, steps), step)
  {
    var s := Final(INIT, steps);
    RunInv(INIT, steps);
    if s.writer.Some? {
      var w := s.writer.value;
      var pc := s.callers[w].pc;
      assert HoldsWriteLock(pc);
      assert Enabled(s, if pc.Writing? then CheckEntry(w) else if pc.Creating? then Open(w, true) else Insert(w));
    } else if s.readers != {} {
      var r :| r in s.readers;
      assert Enabled(s, Lookup(r));
    } else {
      assert !At(s, id, Reading) && !HoldsWriteLock(s.callers[id].pc);
      assert Enabled(s, if s.callers[id].pc.Start? then LockRead(id) else LockWrite(id));
    }
  }

  /** How many steps a caller has left at most. */
  function Rank(s: State, id: CallerId): nat {
    if id !in s.callers then 6
    else
      match s.callers[id].pc
      case Start => 6
      case Reading => 5
      case Missed => 4
      case Writing => 3
      case Creating => 2
      case Created(_) => 1
      case Done(_) => 0
      case Failed => 0
  }

  function CountSteps(steps: seq<Step>, id: CallerId): nat {
    if steps == [] then 0
    else (if !steps[0].Arrive? && steps[0].id == id then 1 else 0) + CountSteps(steps[1..], id)
  }

  /** No caller takes more than six steps, however the others interleave. */
  lemma {:induction false} StepsBounded(s: State, steps: seq<Step>, id: CallerId)
    requires IsRun(s, steps)
    ensures CountSteps(steps, id) + Rank(Final(s, steps), id) <= Rank(s, id) <= 6
    decreases |steps|
  {
    if steps != [] {
      StepsBounded(Apply(s, steps[0]), steps[1..], id);
    }
  }

  // ---------- one call on its own ----------

  lemma {:induction false} RunSnoc(s: State, steps: seq<Step>, step: Step)
    requires IsRun(s, steps) && Enabled(Final(s, steps), step)
    ensures IsRun(s, steps + [step]) && Final(s, steps + [step]) == Apply(Final(s, steps), step)
    decreases |steps|
  {
    if steps == [] {
      assert [] + [step] == [step] && [step][1..] == [];
    } else {
      RunSnoc(Apply(s, steps[0]), steps[1..], step);
      assert (steps + [step])[1..] == steps[1..] + [step];
    }
  }

  /** The state in which caller `id`, and nobody else, has moved to `pc`. */
  function With(s: State, id: CallerId, path: Path, pc: Pc): State {
    s.(callers := s.callers[id := Caller(path, pc)])
  }

  /**
   Every call looks first, under the read lock it shares with whoever else is reading: a registered path
   ends it there, and nothing else changes.
   */
  lemma LooksFirst(s: State, id: CallerId, raw: Path) returns (steps: seq<Step>)
    requires LockInv(s) && s.writer.None? && id !in s.callers && WellFormed(raw)
    ensures steps == [Arrive(id, raw), LockRead(id), Lookup(id)] && IsRun(s, steps)
    ensures var path := Normalize(raw);
            Final(s, steps) == With(s, id, path, if path in s.mapping then Done(s.mapping[path]) else Missed)
  {
    steps := [];
    RunSnoc(s, steps, Arrive(id, raw));
    steps := steps + [Arrive(id, raw)];
    RunSnoc(s, steps, LockRead(id));
    steps := steps + [LockRead(id)];
    RunSnoc(s, steps, Lookup(id));
    steps := steps + [Lookup(id)];
    var path := Normalize(raw);
    var t := With(s, id, path, if path in s.mapping then Done(s.mapping[path]) else Missed);
    assert Final(s, steps).readers == s.readers && Final(s, steps).callers == t.callers;
  }

  lemma MissLocks(s: State, id: CallerId, raw: Path) returns (steps: seq<Step>)
    requires LockInv(s) && s.writer.None? && s.readers == {}
    requires id !in s.callers && WellFormed(raw) && Normalize(raw) !in s.mapping
    ensures steps == [Arrive(id, raw), LockRead(id), Lookup(id), LockWrite(id), CheckEntry(id)] && IsRun(s, steps)
    ensures Final(s, steps) == With(s, id, Normalize(raw), Creating).(writer := Some(id))
  {
    steps := LooksFirst(s, id, raw);
    RunSnoc(s, steps, LockWrite(id));
    steps := steps + [LockWrite(id)];
    RunSnoc(s, steps, CheckEntry(id));
    steps := steps + [CheckEntry(id)];
    assert Final(s, steps).callers == With(s, id, Normalize(raw), Creating).callers;
  }

  /** An absent path: the caller registers what it opens, or fails and leaves map and locks as they were. */
  lemma MissOpens(s: State, id: CallerId, raw: Path) returns (good: seq<Step>, bad: seq<Step>)
    requires LockInv(s) && s.writer.None? && s.readers == {}
    requires id !in s.callers && WellFormed(raw) && Normalize(raw) !in s.mapping
    ensures IsRun(s, good) && IsRun(s, bad)
    ensures var path, h := Normalize(raw), |s.creations|;
            && Final(s, good) == With(s, id, path, Done(h)).(mapping := s.mapping[path := h],
                                                             creations := s.creations + [(path, h)])
            && Final(s, bad) == With(s, id, path, Failed)
  {
    var path, h := Normalize(raw), |s.creations|;
    var steps := MissLocks(s, id, raw);
    RunSnoc(s, steps, Open(id, false));
    bad := steps + [Open(id, false)];
    assert Final(s, bad).callers == With(s, id, path, Failed).callers;
    RunSnoc(s, steps, Open(id, true));
    good := steps + [Open(id, true)];
    RunSnoc(s, good, Insert(id));
    good := good + [Insert(id)];
    assert Final(s, good).callers == With(s, id, path, Done(h)).callers;
  }

  predicate HasFailed(s: State, id: CallerId) {
    id in s.callers && s.callers[id].pc.Failed?
  }

  /** A caller fails only by its own attempt to open the file. */
  lemma {:induction false} FailsByOpening(s: State, steps: seq<Step>, id: CallerId)
    requires IsRun(s, steps)
    ensures HasFailed(Final(s, steps), id) <==> HasFailed(s, id) || Open(id, false) in steps
    decreases |steps|
  {
    if steps != [] {
      var t := Apply(s, steps[0]);
      FailsByOpening(t, steps[1..], id);
      assert HasFailed(t, id) <==> HasFailed(s, id) || steps[0] == Open(id, false);
      assert steps == [steps[0]] + steps[1..];
    }
  }
}
