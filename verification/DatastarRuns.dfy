/** What every run of the Datastar controller guarantees to its subscribers and readers. */
module DatastarRuns {
  import opened Text
  import opened Datastar

  // ---------- what a log shows ----------

  function LastDelay(log: seq<Message>, before: nat): nat {
    if log == [] then before
    else if log[|log| - 1].DelaySignal? then log[|log| - 1].delay
    else LastDelay(log[..|log| - 1], before)
  }

  function LastFrame(log: seq<Message>, before: nat): nat {
    if log == [] then before
    else if log[|log| - 1].Frame? then log[|log| - 1].n
    else LastFrame(log[..|log| - 1], before)
  }

  lemma LastSnoc(log: seq<Message>, m: Message, before: nat)
    ensures LastDelay(log + [m], before) == if m.DelaySignal? then m.delay else LastDelay(log, before)
    ensures LastFrame(log + [m], before) == if m.Frame? then m.n else LastFrame(log, before)
  {
  }

  /** A reader that starts anywhere with the current value ends with the current value. */
  lemma {:induction false} LastOfSuffix(log: seq<Message>, start: nat, before: nat)
    requires start <= |log|
    ensures LastDelay(log[start..], LastDelay(log, before)) == LastDelay(log, before)
    ensures LastFrame(log[start..], LastFrame(log, before)) == LastFrame(log, before)
  {
    if start < |log| {
      var n := |log| - 1;
      LastOfSuffix(log[..n], start, before);
      assert log[start..][..n - start] == log[..n][start..];
    }
  }

  /** A delay was stored and its signal is still to be sent. */
  predicate DelayPending(s: State) {
    s.pc.SendDelay?
  }

  /** An index was stored and no frame for it has been sent: between store and send, or reset to zero. */
  predicate FramePending(s: State) {
    s.pc.SendFrame? || s.animIndex == 0
  }

  predicate ViewInv(s: State) {
    && (if s.pc.SendDelay? then s.delay == s.pc.delay else s.delay == LastDelay(s.log, INITIAL_DELAY))
    && (!FramePending(s) ==> s.animIndex == LastFrame(s.log, LEN))
  }

  lemma ViewInvStep(s: State, step: Step)
    requires IndexInv(s) && ViewInv(s) && Enabled(s, step)
    ensures ViewInv(Apply(s, step))
  {
  }

  // ---------- subscribers ----------

  predicate InRange(log: seq<Message>, sub: Subscriber) {
    sub.start <= sub.next <= |log| && (sub.stage.Subscribed? || sub.stage.HasDelay? ==> sub.next == sub.start)
  }

  /** Snapshot and backlog together lead to the current values, unless one of them is still to be announced. */
  predicate LeadsTo(s: State, sub: Subscriber)
    requires InRange(s.log, sub)
  {
    var backlog := s.log[sub.start..];
    && ((sub.stage.HasDelay? || sub.stage.Live?) && !DelayPending(s) ==> LastDelay(backlog, sub.snapDelay) == s.delay)
    && (sub.stage.Live? && !FramePending(s) ==> LastFrame(backlog, sub.snapFrame) == s.animIndex)
  }

  /** What a subscriber shows is its snapshot overlaid with what it has received. */
  predicate Shows(log: seq<Message>, sub: Subscriber)
    requires InRange(log, sub)
  {
    var received := log[sub.start..sub.next];
    && (sub.stage.HasDelay? || sub.stage.Live? ==> sub.seenDelay == LastDelay(received, sub.snapDelay))
    && (sub.stage.Live? ==> sub.seenFrame == LastFrame(received, sub.snapFrame))
  }

  predicate SubInv(s: State, sub: Subscriber) {
    InRange(s.log, sub) && LeadsTo(s, sub) && Shows(s.log, sub)
  }

  ghost predicate SubscribersInv(s: State) {
    forall id :: id in s.subscribers ==> SubInv(s, s.subscribers[id])
  }

  /** A message sent by the runtime reaches the backlog of every subscriber. */
  lemma SentMessage(s: State, t: State, m: Message, sub: Subscriber)
    requires SubInv(s, sub) && t.log == s.log + [m]
    requires if m.DelaySignal? then t.delay == m.delay else t.delay == s.delay && DelayPending(s) == DelayPending(t)
    requires if m.Frame? then t.animIndex == m.n else t.animIndex == s.animIndex && FramePending(s) == FramePending(t)
    ensures SubInv(t, sub)
  {
    assert t.log[sub.start..] == s.log[sub.start..] + [m];
    assert t.log[sub.start..sub.next] == s.log[sub.start..sub.next];
    LastSnoc(s.log[sub.start..], m, sub.snapDelay);
    LastSnoc(s.log[sub.start..], m, sub.snapFrame);
  }

  lemma RuntimeKeepsSub(s: State, sub: Subscriber)
    requires IndexInv(s) && ViewInv(s) && SubInv(s, sub) && Enabled(s, Work)
    ensures SubInv(RuntimeStep(s), sub)
  {
    var t := RuntimeStep(s);
    match s.pc {
      case SendDelay(d, _) => SentMessage(s, t, DelaySignal(d), sub);
      case SendFrame(n) => SentMessage(s, t, Frame(n), sub);
      case Leaving(sent) =>
        if sent < FAREWELL_COUNT {
          SentMessage(s, t, Farewell(sent), sub);
        }
      case _ =>
    }
  }

  lemma LoadKeepsSub(s: State, id: nat)
    requires ViewInv(s) && id in s.subscribers && SubInv(s, s.subscribers[id])
    ensures Enabled(s, LoadDelay(id)) ==> SubInv(Apply(s, LoadDelay(id)), Apply(s, LoadDelay(id)).subscribers[id])
    ensures Enabled(s, LoadFrame(id)) ==> SubInv(Apply(s, LoadFrame(id)), Apply(s, LoadFrame(id)).subscribers[id])
  {
    var sub := s.subscribers[id];
    LastOfSuffix(s.log, sub.start, INITIAL_DELAY);
    LastOfSuffix(s.log, sub.start, LEN);
    assert sub.next == sub.start ==> s.log[sub.start..sub.next] == [];
  }

  lemma ReceiveKeepsSub(s: State, sub: Subscriber)
    requires SubInv(s, sub) && sub.stage.Live? && sub.next < |s.log|
    ensures SubInv(s, ReceiveNext(s, sub))
  {
    var m, received := s.log[sub.next], s.log[sub.start..sub.next];
    assert s.log[sub.start..sub.next + 1] == received + [m];
    LastSnoc(received, m, sub.snapDelay);
    LastSnoc(received, m, sub.snapFrame);
  }

  lemma SubscribersInvStep(s: State, step: Step)
    requires IndexInv(s) && ViewInv(s) && SubscribersInv(s) && Enabled(s, step)
    ensures SubscribersInv(Apply(s, step))
  {
    var t := Apply(s, step);
    forall id | id in t.subscribers ensures SubInv(t, t.subscribers[id]) {
      if step.Work? {
        RuntimeKeepsSub(s, s.subscribers[id]);
      } else if step.Subscribe? && id == step.id {
        assert s.log[|s.log|..] == [];
      } else if (step.LoadDelay? || step.LoadFrame?) && id == step.id {
        LoadKeepsSub(s, id);
      } else if step.Receive? && id == step.id {
        ReceiveKeepsSub(s, s.subscribers[id]);
      } else {
        assert SubInv(s, s.subscribers[id]);
      }
    }
  }

  // ---------- every run ----------

  ghost predicate Inv(s: State) {
    IndexInv(s) && TrackInv(s) && FarewellInv(s) && CommandInv(s) && ViewInv(s) && SubscribersInv(s)
  }

  lemma InvInit()
    ensures Inv(INIT)
  {
  }

  lemma InvStep(s: State, step: Step)
    requires Inv(s) && Enabled(s, step)
    ensures Inv(Apply(s, step))
  {
    IndexInvStep(s, step);
    TrackInvStep(s, step);
    FarewellInvStep(s, step);
    CommandInvStep(s, step);
    ViewInvStep(s, step);
    SubscribersInvStep(s, step);
  }

  lemma {:induction false} RunInv(s: State, steps: seq<Step>)
    requires Inv(s) && IsRun(s, steps)
    ensures Inv(Final(s, steps))
    decreases |steps|
  {
    if steps != [] {
      InvStep(s, steps[0]);
      RunInv(Apply(s, steps[0]), steps[1..]);
    }
  }

  predicate Drained(s: State, id: nat) {
    InStage(s, id, Live) && s.subscribers[id].next == |s.log|
  }

  predicate NoFrames(log: seq<Message>) {
    forall i :: 0 <= i < |log| ==> !log[i].Frame?
  }

  lemma {:induction false} LastFrameZero(log: seq<Message>, before: nat)
    requires forall i :: 0 <= i < |log| && log[i].Frame? ==> log[i].n > 0
    ensures LastFrame(log, before) == 0 <==> before == 0 && NoFrames(log)
  {
    if log != [] {
      var n := |log| - 1;
      LastFrameZero(log[..n], before);
      assert log == log[..n] + [log[n]];
    }
  }

  /**
   A subscriber that has received all there is shows the current delay unless its signal is still to be
   sent, and the current index unless its frame is still to be sent. An index of zero is never announced:
   it is shown exactly by those who loaded it and have received no frame since.
   */
  lemma DrainedShows(s: State, id: nat)
    requires Inv(s) && Drained(s, id)
    ensures var sub := s.subscribers[id];
            && sub.start <= |s.log|
            && (!DelayPending(s) ==> sub.seenDelay == s.delay)
            && (!s.pc.SendFrame? ==>
                  (sub.seenFrame == s.animIndex
                   <==> s.animIndex != 0 || (sub.snapFrame == 0 && NoFrames(s.log[sub.start..]))))
  {
    var sub := s.subscribers[id];
    assert SubInv(s, sub);
    assert s.log[sub.start..] == s.log[sub.start..sub.next];
    forall i | 0 <= i < |s.log| && s.log[i].Frame? ensures s.log[i].n > 0 {
      FramesInSequence(s.log, i);
    }
    LastFrameZero(s.log[sub.start..], sub.snapFrame);
  }

  // ---------- frames ----------

  predicate IsMark(m: Message) {
    m.DelaySignal? || m.Frame?
  }

  /** The last reset or frame in a log. */
  function LastMark(log: seq<Message>): (r: Option<Message>)
    ensures r.Some? ==> IsMark(r.value)
  {
    if log == [] then None
    else if IsMark(log[|log| - 1]) then Some(log[|log| - 1])
    else LastMark(log[..|log| - 1])
  }

  lemma {:induction false} TrackIsLastMark(log: seq<Message>)
    requires Track(log).Some?
    ensures LastMark(log).None? ==> Track(log) == Some(LEN)
    ensures LastMark(log).Some? && LastMark(log).value.DelaySignal? ==> Track(log) == Some(0)
    ensures LastMark(log).Some? && LastMark(log).value.Frame? ==>
              Track(log) == Some(LastMark(log).value.n) && LastMark(log).value.n > 0
  {
    if log != [] {
      TrackIsLastMark(log[..|log| - 1]);
    }
  }

  lemma {:induction false} TrackPrefix(log: seq<Message>, k: nat)
    requires k <= |log| && Track(log).Some?
    ensures Track(log[..k]).Some?
  {
    if k == |log| {
      assert log[..k] == log;
    } else {
      TrackPrefix(log[..|log| - 1], k);
      assert log[..|log| - 1][..k] == log[..k];
    }
  }

  /** The first frame follows a reset, and every later frame its predecessor; no frame is beyond the message. */
  lemma FramesInSequence(log: seq<Message>, i: nat)
    requires i < |log| && log[i].Frame? && Track(log).Some?
    ensures 1 <= log[i].n <= LEN
    ensures LastMark(log[..i]).Some?
    ensures if log[i].n == 1 then LastMark(log[..i]).value.DelaySignal?
            else LastMark(log[..i]) == Some(Frame(log[i].n - 1))
  {
    TrackPrefix(log, i + 1);
    TrackPrefix(log, i);
    assert log[..i + 1] == log[..i] + [log[i]];
    TrackSnoc(log[..i], log[i]);
    TrackIsLastMark(log[..i]);
  }

  /** At every step of every run, slices are in range and all frames broadcast so far are in sequence. */
  lemma AnimationSafe(steps: seq<Step>, i: nat)
    requires IsRun(INIT, steps)
    ensures var s := Final(INIT, steps);
            && s.animIndex <= |MESSAGE|
            && (s.pc.SendFrame? ==> 1 <= s.pc.n <= |MESSAGE|)
            && (i < |s.log| && s.log[i].Frame? ==>
                  && 1 <= s.log[i].n <= |MESSAGE|
                  && LastMark(s.log[..i]).Some?
                  && (if s.log[i].n == 1 then LastMark(s.log[..i]).value.DelaySignal?
                      else LastMark(s.log[..i]).value == Frame(s.log[i].n - 1)))
  {
    InvInit();
    RunInv(INIT, steps);
    var s := Final(INIT, steps);
    if i < |s.log| && s.log[i].Frame? {
      FramesInSequence(s.log, i);
    }
  }

  /** Exit notices are sent while closed, the exit message is the last of all, and closing is for good. */
  lemma ExitIsLast(steps: seq<Step>, more: seq<Step>, i: nat)
    requires IsRun(INIT, steps) && IsRun(Final(INIT, steps), more)
    requires i < |Final(INIT, steps).log| && IsFarewell(Final(INIT, steps).log[i])
    ensures Final(INIT, steps).isClosed && Final(Final(INIT, steps), more).isClosed
    ensures var log := Final(INIT, steps).log;
            log[i].Goodbye? ==> i == |log| - 1 && Final(Final(INIT, steps), more).log == log
  {
    InvInit();
    RunInv(INIT, steps);
    var s := Final(INIT, steps);
    EndingMeans(s.log);
    var k := Ending(s.log).value;
    assert s.log[|s.log| - k + (i - (|s.log| - k))] == Farewell(i - (|s.log| - k));
    ClosedForGood(s, more);
  }

  lemma {:induction false} ClosedForGood(s: State, more: seq<Step>)
    requires Inv(s) && IsRun(s, more) && s.isClosed
    ensures Final(s, more).isClosed
    ensures Sent(s.pc) == FAREWELL_COUNT ==> Final(s, more).log == s.log && Sent(Final(s, more).pc) == FAREWELL_COUNT
    decreases |more|
  {
    if more != [] {
      InvStep(s, more[0]);
      ClosedForGood(Apply(s, more[0]), more[1..]);
    }
  }

  // ---------- commands ----------

  /** The delay signals of a run are the resets it accepted, in order, up to those still waiting. */
  lemma CommandsInOrder(steps: seq<Step>)
    requires IsRun(INIT, steps)
    ensures var s := Final(INIT, steps);
            && s.taken <= s.accepted
            && SignalDelays(s.log) <= ResetDelays(s.taken)
            && |ResetDelays(s.taken)| <= |SignalDelays(s.log)| + 1
            && (s.pc.Stopped? && s.queue == [] ==> SignalDelays(s.log) == ResetDelays(s.accepted))
  {
    InvInit();
    RunInv(INIT, steps);
    var s := Final(INIT, steps);
    assert s.queue == [] ==> s.taken + s.queue == s.taken;
  }

  // ---------- playing stops ----------

  const COMMAND_COST := 68

  /** How many steps the runtime still has before it waits for a new command. */
  function Local(s: State): int {
    match s.pc
    case Stopped => 0
    case Playing => 4 * (LEN - s.animIndex)
    case Advance => 4 * (LEN - s.animIndex) - 1
    case SendFrame(n) => 4 * (LEN - n) + 2
    case Pause(n) => 4 * (LEN - n) + 1
    case StoreZero(_) => 65
    case SendDelay(_, _) => 66
    case StoreDelay(_, _) => 67
    case Closing => 6
    case Leaving(sent) => 5 - sent
    case Returned => 0
  }

  function Rank(s: State): int {
    COMMAND_COST * |s.queue| + Local(s)
  }

  function RuntimeSteps(steps: seq<Step>): nat {
    if steps == [] then 0
    else (if steps[0].Take? || steps[0].Work? then 1 else 0) + RuntimeSteps(steps[1..])
  }

  function Sends(steps: seq<Step>): nat {
    if steps == [] then 0 else (if steps[0].Send? then 1 else 0) + Sends(steps[1..])
  }

  lemma RankNonNegative(s: State)
    requires Inv(s)
    ensures Rank(s) >= 0
  {
  }

  lemma WorkLowersRank(s: State)
    requires IndexInv(s) && Enabled(s, Work) && Sent(s.pc) <= FAREWELL_COUNT
    ensures Local(RuntimeStep(s)) + 1 <= Local(s)
  {
  }

  lemma TakeLowersRank(s: State)
    requires IndexInv(s) && Enabled(s, Take)
    ensures Rank(Apply(s, Take)) + 1 <= Rank(s)
  {
  }

  lemma RankStep(s: State, step: Step)
    requires Inv(s) && Enabled(s, step)
    ensures Rank(Apply(s, step)) + (if step.Take? || step.Work? then 1 else 0)
         <= Rank(s) + (if step.Send? then COMMAND_COST else 0)
  {
    RankNonNegative(s);
    match step
    case Work => WorkLowersRank(s);
    case Take => TakeLowersRank(s);
    case _ =>
  }

  lemma {:induction false} RuntimeBounded(s: State, steps: seq<Step>)
    requires Inv(s) && IsRun(s, steps)
    ensures RuntimeSteps(steps) <= Rank(s) + COMMAND_COST * Sends(steps)
    decreases |steps|
  {
    if steps != [] {
      RankStep(s, steps[0]);
      InvStep(s, steps[0]);
      RuntimeBounded(Apply(s, steps[0]), steps[1..]);
    } else {
      RankNonNegative(s);
    }
  }

  /**
   With finitely many commands the runtime comes to rest: it takes at most 68 steps per command. At
   rest and not shut down, everyone who kept up shows the whole message and the last delay asked for.
   */
  lemma ComesToRest(steps: seq<Step>, id: nat)
    requires IsRun(INIT, steps)
    ensures RuntimeSteps(steps) <= COMMAND_COST * Sends(steps)
    ensures var s := Final(INIT, steps);
            !Enabled(s, Take) && !Enabled(s, Work) ==>
              s.pc.Returned? || (s.pc.Stopped? && s.animIndex == LEN && s.queue == [])
    ensures var s := Final(INIT, steps);
            !Enabled(s, Take) && !Enabled(s, Work) && !s.pc.Returned? && Drained(s, id) ==>
              s.subscribers[id].seenFrame == LEN
              && Some(s.subscribers[id].seenDelay) == LastOr(Some(INITIAL_DELAY), ResetDelays(s.accepted))
  {
    InvInit();
    RuntimeBounded(INIT, steps);
    RunInv(INIT, steps);
    var s := Final(INIT, steps);
    if !Enabled(s, Take) && !Enabled(s, Work) && !s.pc.Returned? && Drained(s, id) {
      DrainedShows(s, id);
      CommandsInOrder(steps);
      LastSignal(s.log, INITIAL_DELAY);
    }
  }

  lemma {:induction false} LastSignal(log: seq<Message>, before: nat)
    ensures Some(LastDelay(log, before)) == LastOr(Some(before), SignalDelays(log))
  {
    if log != [] {
      LastSignal(log[..|log| - 1], before);
    }
  }

  // ---------- an index of zero that nobody hears of ----------

  lemma {:induction false} RunSnoc(s: State, steps: seq<Step>, step: Step)
    requires IsRun(s, steps) && Enabled(Final(s, steps), step)
    ensures IsRun(s, steps + [step]) && Final(s, steps + [step]) == Apply(Final(s, steps), step)
    decreases |steps|
  {
    if steps == [] {
      assert [] + [step] == [step] && [step][1..] == [];
    } else {
      RunSnoc(Apply(s, steps[0]), steps[1..], step);
      assert (steps + [step])[1..] == steps[1..] + [step];
    }
  }

  /** One more step of a run, with the state it leads to. */
  lemma Then(steps: seq<Step>, s: State, step: Step) returns (more: seq<Step>, t: State)
    requires IsRun(INIT, steps) && Final(INIT, steps) == s && Enabled(s, step)
    ensures IsRun(INIT, more) && Final(INIT, more) == t && t == Apply(s, step)
  {
    RunSnoc(INIT, steps, step);
    more, t := steps + [step], Apply(s, step);
  }

  const READER := Subscriber(Live, 0, 0, INITIAL_DELAY, LEN, INITIAL_DELAY, LEN)
  const GOODBYES := [DelaySignal(5), Notice, Notice, Notice, Goodbye]

  lemma ResetRun() returns (steps: seq<Step>, s: State)
    ensures IsRun(INIT, steps) && Final(INIT, steps) == s
    ensures s == State(Playing, 5, 0, false, [], [DelaySignal(5)], map[0 := READER], [Reset(5)], [Reset(5)])
  {
    steps, s := [], INIT;
    steps, s := Then(steps, s, Subscribe(0));
    steps, s := Then(steps, s, LoadDelay(0));
    steps, s := Then(steps, s, LoadFrame(0));
    steps, s := Then(steps, s, Send(Reset(5)));
    steps, s := Then(steps, s, Take);
    steps, s := Then(steps, s, Work);
    steps, s := Then(steps, s, Work);
    steps, s := Then(steps, s, Work);
  }

  lemma CloseRun() returns (steps: seq<Step>, s: State)
    ensures IsRun(INIT, steps) && Final(INIT, steps) == s
    ensures s.pc == Leaving(0) && s.animIndex == 0 && s.log == GOODBYES[..1] && s.subscribers == map[0 := READER]
  {
    steps, s := ResetRun();
    steps, s := Then(steps, s, Send(Exit));
    steps, s := Then(steps, s, Take);
    steps, s := Then(steps, s, Work);
  }

  lemma NoticesRun() returns (steps: seq<Step>, s: State)
    ensures IsRun(INIT, steps) && Final(INIT, steps) == s
    ensures s.pc == Leaving(3) && s.animIndex == 0 && s.log == GOODBYES[..4] && s.subscribers == map[0 := READER]
  {
    steps, s := CloseRun();
    steps, s := Then(steps, s, Work);
    steps, s := Then(steps, s, Work);
    steps, s := Then(steps, s, Work);
  }

  lemma ExitRun() returns (steps: seq<Step>, s: State)
    ensures IsRun(INIT, steps) && Final(INIT, steps) == s
    ensures s.pc == Returned && s.animIndex == 0 && s.log == GOODBYES && s.subscribers == map[0 := READER]
  {
    steps, s := NoticesRun();
    steps, s := Then(steps, s, Work);
    steps, s := Then(steps, s, Work);
  }

  /** A shutdown right after a reset: all is received, yet the full message is shown and the index is zero. */
  lemma ZeroNeverAnnounced() returns (steps: seq<Step>)
    ensures IsRun(INIT, steps)
    ensures var s := Final(INIT, steps);
            s.pc.Returned? && Drained(s, 0) && s.subscribers[0].seenFrame == LEN && s.animIndex == 0
  {
    var s;
    steps, s := ExitRun();
    steps, s := Then(steps, s, Receive(0));
    steps, s := Then(steps, s, Receive(0));
    steps, s := Then(steps, s, Receive(0));
    steps, s := Then(steps, s, Receive(0));
    steps, s := Then(steps, s, Receive(0));
  }
}
