/** What one subscriber of the Datastar controller receives, and what the runtime does left to itself. */
module DatastarStreams {
  import opened Text
  import opened Datastar
  import opened DatastarRuns

  // ---------- how far a subscriber has read ----------

  /** How many messages, or the notice of a lag, a subscriber has asked for. */
  function Receives(steps: seq<Step>, id: nat): nat {
    if steps == [] then 0
    else Receives(steps[..|steps| - 1], id) + if steps[|steps| - 1] == Receive(id) then 1 else 0
  }

  /** At step `k` a subscriber who joined when `first` messages were out receives with more than eight unread. */
  predicate LagsAt(s: State, steps: seq<Step>, k: nat, id: nat, first: nat) {
    && k < |steps| && steps[k] == Receive(id) && IsRun(s, steps[..k])
    && |Final(s, steps[..k]).log| - (first + Receives(steps[..k], id)) > 8
  }

  ghost predicate Lagged(s: State, steps: seq<Step>, id: nat, first: nat) {
    exists k :: LagsAt(s, steps, k, id, first)
  }

  lemma LaggedSnoc(s: State, steps: seq<Step>, id: nat, first: nat)
    requires steps != []
    ensures var n := |steps| - 1;
            Lagged(s, steps, id, first) <==> Lagged(s, steps[..n], id, first) || LagsAt(s, steps, n, id, first)
  {
    var n := |steps| - 1;
    assert forall k :: 0 <= k < n ==> steps[..n][..k] == steps[..k];
    if k: nat :| LagsAt(s, steps[..n], k, id, first) {
      assert LagsAt(s, steps, k, id, first);
    }
    if k: nat :| LagsAt(s, steps, k, id, first) && k < n {
      assert LagsAt(s, steps[..n], k, id, first);
    }
  }

  lemma {:induction false} RunInit(s: State, steps: seq<Step>)
    requires IsRun(s, steps) && steps != []
    ensures var n := |steps| - 1;
            && IsRun(s, steps[..n]) && Enabled(Final(s, steps[..n]), steps[n])
            && Final(s, steps) == Apply(Final(s, steps[..n]), steps[n])
    decreases |steps|
  {
    var n := |steps| - 1;
    if n > 0 {
      RunInit(Apply(s, steps[0]), steps[1..]);
      assert steps[..n][1..] == steps[1..][..n - 1];
    }
  }

  lemma {:induction false} Reading(s: State, steps: seq<Step>, id: nat)
    requires IsRun(s, steps) && id in s.subscribers && !s.subscribers[id].stage.Gone?
    ensures id in Final(s, steps).subscribers
    ensures var before, after := s.subscribers[id], Final(s, steps).subscribers[id];
            && after.start == before.start
            && (!after.stage.Gone? ==> after.next == before.next + Receives(steps, id))
            && (after.stage.Gone? <==> Lagged(s, steps, id, before.next))
    decreases |steps|
  {
    if steps != [] {
      var n := |steps| - 1;
      RunInit(s, steps);
      Reading(s, steps[..n], id);
      LaggedSnoc(s, steps, id, s.subscribers[id].next);
    }
  }

  /**
   Whoever subscribes starts with the next message: until it lags it has read as many messages from there
   as it received, and its stream ends exactly when it receives with more than eight of them unread.
   */
  lemma StreamFromJoin(s: State, id: nat, more: seq<Step>)
    requires Enabled(s, Subscribe(id)) && IsRun(Apply(s, Subscribe(id)), more)
    ensures var joined := Apply(s, Subscribe(id));
            var t := Final(joined, more);
            && id in t.subscribers
            && (!t.subscribers[id].stage.Gone? ==> t.subscribers[id].next == |s.log| + Receives(more, id))
            && (t.subscribers[id].stage.Gone? <==> Lagged(joined, more, id, |s.log|))
  {
    Reading(Apply(s, Subscribe(id)), more, id);
  }

  // ---------- what it shows ----------

  predicate Leads(s: State, steps: seq<Step>, t: State) {
    IsRun(s, steps) && Final(s, steps) == t
  }

  /** A whole visit: subscribing in `s0`, loading the delay in `s1` and the index in `s2`, then on to `s3`. */
  predicate Visit(id: nat, steps: seq<Step>, s0: State, a: seq<Step>, s1: State, b: seq<Step>, s2: State,
                  c: seq<Step>, s3: State) {
    && Leads(INIT, steps, s0) && Enabled(s0, Subscribe(id))
    && Leads(Apply(s0, Subscribe(id)), a, s1) && Enabled(s1, LoadDelay(id))
    && Leads(Apply(s1, LoadDelay(id)), b, s2) && Enabled(s2, LoadFrame(id))
    && Leads(Apply(s2, LoadFrame(id)), c, s3)
  }

  lemma {:induction false} SnapshotsStay(s: State, steps: seq<Step>, id: nat)
    requires IsRun(s, steps) && id in s.subscribers && !s.subscribers[id].stage.Subscribed?
    ensures id in Final(s, steps).subscribers
    ensures var before, after := s.subscribers[id], Final(s, steps).subscribers[id];
            && !after.stage.Subscribed? && after.snapDelay == before.snapDelay
            && (before.stage.Live? || before.stage.Gone? ==>
                  (after.stage.Live? || after.stage.Gone?) && after.snapFrame == before.snapFrame)
    decreases |steps|
  {
    if steps != [] {
      SnapshotsStay(Apply(s, steps[0]), steps[1..], id);
    }
  }

  lemma VisitInv(id: nat, steps: seq<Step>, s0: State, a: seq<Step>, s1: State, b: seq<Step>, s2: State,
                 c: seq<Step>, s3: State)
    requires Visit(id, steps, s0, a, s1, b, s2, c, s3)
    ensures Inv(s2) && Inv(s3)
  {
    InvInit();
    RunInv(INIT, steps);
    InvStep(s0, Subscribe(id));
    RunInv(Apply(s0, Subscribe(id)), a);
    InvStep(s1, LoadDelay(id));
    RunInv(Apply(s1, LoadDelay(id)), b);
    InvStep(s2, LoadFrame(id));
    RunInv(Apply(s2, LoadFrame(id)), c);
  }

  lemma VisitFields(id: nat, steps: seq<Step>, s0: State, a: seq<Step>, s1: State, b: seq<Step>, s2: State,
                    c: seq<Step>, s3: State)
    requires Visit(id, steps, s0, a, s1, b, s2, c, s3)
    ensures Inv(s3) && id in s3.subscribers
    ensures var sub := s3.subscribers[id];
            && (sub.stage.Live? || sub.stage.Gone?)
            && sub.start == |s0.log| && sub.snapDelay == s1.delay && sub.snapFrame == s2.animIndex
            && (sub.stage.Live? ==> sub.next == |s0.log| + Receives(c, id))
  {
    VisitInv(id, steps, s0, a, s1, b, s2, c, s3);
    Reading(Apply(s0, Subscribe(id)), a, id);
    Reading(Apply(s1, LoadDelay(id)), b, id);
    SnapshotsStay(Apply(s1, LoadDelay(id)), b, id);
    assert SubInv(s2, s2.subscribers[id]);
    Reading(Apply(s2, LoadFrame(id)), c, id);
    SnapshotsStay(Apply(s2, LoadFrame(id)), c, id);
  }

  /**
   In every interleaving, a subscriber that has not lagged shows what it loaded, overlaid with exactly the
   messages it received, which are the first ones sent after it subscribed.
   */
  lemma ShowsWhatItRead(id: nat, steps: seq<Step>, s0: State, a: seq<Step>, s1: State, b: seq<Step>, s2: State,
                        c: seq<Step>, s3: State)
    requires Visit(id, steps, s0, a, s1, b, s2, c, s3)
    ensures id in s3.subscribers
    ensures var sub, first := s3.subscribers[id], |s0.log|;
            !sub.stage.Gone? ==>
              && first + Receives(c, id) <= |s3.log|
              && (var read := s3.log[first..first + Receives(c, id)];
                  sub.seenDelay == LastDelay(read, s1.delay) && sub.seenFrame == LastFrame(read, s2.animIndex))
  {
    VisitFields(id, steps, s0, a, s1, b, s2, c, s3);
    assert SubInv(s3, s3.subscribers[id]);
  }

  /**
   In every interleaving, a subscriber that has received all that was sent since it subscribed shows the
   current delay unless its signal is still to be sent, and the current index unless its frame is still
   to be sent. An index of zero is never announced: it is shown exactly by those who loaded it and have
   received no frame since.
   */
  lemma NoLostUpdate(id: nat, steps: seq<Step>, s0: State, a: seq<Step>, s1: State, b: seq<Step>, s2: State,
                     c: seq<Step>, s3: State)
    requires Visit(id, steps, s0, a, s1, b, s2, c, s3)
    requires !InStage(s3, id, Gone) && |s0.log| + Receives(c, id) == |s3.log|
    ensures id in s3.subscribers
    ensures var sub := s3.subscribers[id];
            && (!DelayPending(s3) ==> sub.seenDelay == s3.delay)
            && (!s3.pc.SendFrame? ==>
                  (sub.seenFrame == s3.animIndex
                   <==> s3.animIndex != 0 || (s2.animIndex == 0 && NoFrames(s3.log[|s0.log|..]))))
  {
    VisitFields(id, steps, s0, a, s1, b, s2, c, s3);
    DrainedShows(s3, id);
  }

  // ---------- resets do not starve the animation ----------

  /** How many delay signals a log ends with. */
  function Tail(log: seq<Message>): nat {
    if log == [] || !log[|log| - 1].DelaySignal? then 0 else 1 + Tail(log[..|log| - 1])
  }

  /** At no point did a log end with three delay signals. */
  predicate NoThree(log: seq<Message>) {
    log == [] || (Tail(log) <= 2 && NoThree(log[..|log| - 1]))
  }

  /** How many signals without a frame the runtime may have sent where it stands. */
  function TailLimit(pc: Pc): nat {
    match pc
    case Stopped => 0
    case Playing => 1
    case StoreDelay(_, playing) => if playing then 1 else 0
    case SendDelay(_, playing) => if playing then 1 else 0
    case StoreZero(playing) => if playing then 2 else 1
    case Pause(_) => 0
    case _ => 2
  }

  predicate TailInv(s: State) {
    Tail(s.log) <= TailLimit(s.pc) && NoThree(s.log)
  }

  lemma TailSnoc(log: seq<Message>, m: Message)
    requires NoThree(log) && (m.DelaySignal? ==> Tail(log) <= 1)
    ensures Tail(log + [m]) == if m.DelaySignal? then 1 + Tail(log) else 0
    ensures NoThree(log + [m])
  {
    assert (log + [m])[..|log|] == log;
  }

  lemma TailWork(s: State)
    requires TailInv(s) && Enabled(s, Work)
    ensures TailInv(RuntimeStep(s))
  {
    match s.pc {
      case SendDelay(d, _) => TailSnoc(s.log, DelaySignal(d));
      case SendFrame(n) => TailSnoc(s.log, Frame(n));
      case Leaving(sent) =>
        if sent < FAREWELL_COUNT {
          TailSnoc(s.log, Farewell(sent));
        }
      case _ =>
    }
  }

  lemma TailInvStep(s: State, step: Step)
    requires TailInv(s) && Enabled(s, step)
    ensures TailInv(Apply(s, step))
  {
    if step.Work? {
      TailWork(s);
    }
  }

  lemma {:induction false} TailRun(s: State, steps: seq<Step>)
    requires TailInv(s) && IsRun(s, steps)
    ensures TailInv(Final(s, steps))
    decreases |steps|
  {
    if steps != [] {
      TailInvStep(s, steps[0]);
      TailRun(Apply(s, steps[0]), steps[1..]);
    }
  }

  lemma {:induction false} NoThreeAt(log: seq<Message>, i: nat)
    requires NoThree(log) && i + 2 < |log|
    ensures !(log[i].DelaySignal? && log[i + 1].DelaySignal? && log[i + 2].DelaySignal?)
  {
    var init := log[..|log| - 1];
    if i + 3 < |log| {
      NoThreeAt(init, i);
    } else {
      assert Tail(init) <= 1 || !log[i + 2].DelaySignal?;
      assert init[..i + 1][i] == log[i] && init[i + 1] == log[i + 1];
    }
  }

  /** However fast the resets come, no three of them are announced without a frame in between. */
  lemma ResetsDoNotStarve(steps: seq<Step>, i: nat)
    requires IsRun(INIT, steps) && i + 2 < |Final(INIT, steps).log|
    ensures var log := Final(INIT, steps).log;
            !(log[i].DelaySignal? && log[i + 1].DelaySignal? && log[i + 2].DelaySignal?)
  {
    TailRun(INIT, steps);
    NoThreeAt(Final(INIT, steps).log, i);
  }

  // ---------- what can always be done ----------

  lemma Cons(s: State, step: Step, rest: seq<Step>)
    requires Enabled(s, step) && IsRun(Apply(s, step), rest)
    ensures IsRun(s, [step] + rest) && Final(s, [step] + rest) == Final(Apply(s, step), rest)
  {
    assert ([step] + rest)[1..] == rest;
  }

  /** Joining is possible in every state, closed or not, and shows the values of the moment. */
  lemma JoinAnytime(s: State, id: nat) returns (steps: seq<Step>)
    requires id !in s.subscribers
    ensures steps == [Subscribe(id), LoadDelay(id), LoadFrame(id)]
    ensures IsRun(s, steps)
    ensures var t := Final(s, steps);
            && Drained(t, id)
            && t.subscribers[id].seenDelay == s.delay && t.subscribers[id].seenFrame == s.animIndex
            && t.subscribers - {id} == s.subscribers && t.(subscribers := s.subscribers) == s
  {
    var s1 := Apply(s, Subscribe(id));
    var s2 := Apply(s1, LoadDelay(id));
    Cons(s2, LoadFrame(id), []);
    steps := [LoadFrame(id)] + [];
    Cons(s1, LoadDelay(id), steps);
    steps := [LoadDelay(id)] + steps;
    Cons(s, Subscribe(id), steps);
    steps := [Subscribe(id)] + steps;
  }

  predicate OnlyReceives(steps: seq<Step>, id: nat) {
    forall step :: step in steps ==> step == Receive(id)
  }

  /** With at most eight messages unread, as many receives catch up. */
  lemma {:induction false} CatchUp(s: State, id: nat) returns (steps: seq<Step>)
    requires InStage(s, id, Live) && s.subscribers[id].next <= |s.log| <= s.subscribers[id].next + 8
    ensures |steps| == |s.log| - s.subscribers[id].next && OnlyReceives(steps, id)
    ensures IsRun(s, steps) && Drained(Final(s, steps), id)
    ensures Final(s, steps).(subscribers := s.subscribers) == s
    decreases |s.log| - s.subscribers[id].next
  {
    steps := [];
    if s.subscribers[id].next < |s.log| {
      var rest := CatchUp(Apply(s, Receive(id)), id);
      Cons(s, Receive(id), rest);
      steps := [Receive(id)] + rest;
    }
  }

  function AsSends(commands: seq<Command>): (steps: seq<Step>)
    ensures |steps| == |commands|
  {
    seq(|commands|, i requires 0 <= i < |commands| => Send(commands[i]))
  }

  /** Until the runtime returns, the queue takes commands exactly up to eight waiting ones. */
  lemma {:induction false} QueueHoldsEight(s: State, commands: seq<Command>)
    requires commands != [] && !s.pc.Returned?
    ensures IsRun(s, AsSends(commands)) <==> |s.queue| + |commands| <= 8
    ensures IsRun(s, AsSends(commands)) ==>
              Final(s, AsSends(commands))
              == s.(queue := s.queue + commands, accepted := s.accepted + commands)
    decreases |commands|
  {
    var c, rest := commands[0], commands[1..];
    assert AsSends(commands)[1..] == AsSends(rest);
    if |s.queue| < 8 {
      var t := Apply(s, Send(c));
      assert commands == [c] + rest;
      if rest == [] {
        assert AsSends(rest) == [];
      } else {
        QueueHoldsEight(t, rest);
        Associative(s.queue, [c], rest);
        Associative(s.accepted, [c], rest);
      }
    }
  }

  predicate OnlyRuntime(steps: seq<Step>) {
    forall step :: step in steps ==> step == Take || step == Work
  }

  lemma Works(s: State, rest: seq<Step>) returns (steps: seq<Step>)
    requires Enabled(s, Work) && IsRun(RuntimeStep(s), rest) && OnlyRuntime(rest)
    ensures OnlyRuntime(steps) && IsRun(s, steps) && Final(s, steps) == Final(RuntimeStep(s), rest)
  {
    Cons(s, Work, rest);
    steps := [Work] + rest;
  }

  /** The frames after the first `k` letters. */
  function FramesFrom(k: nat): seq<Message>
    requires k <= LEN
    decreases LEN - k
  {
    if k == LEN then [] else [Frame(k + 1)] + FramesFrom(k + 1)
  }

  /** Undisturbed, the runtime plays every letter once, in order, and stops. */
  lemma {:induction false} PlaysToTheEnd(s: State) returns (steps: seq<Step>)
    requires s.pc.Advance? && s.animIndex < LEN
    ensures OnlyRuntime(steps) && IsRun(s, steps)
    ensures Final(s, steps) == s.(pc := Stopped, animIndex := LEN, log := s.log + FramesFrom(s.animIndex))
    decreases LEN - s.animIndex
  {
    var s1 := RuntimeStep(s);
    var s2 := RuntimeStep(s1);
    var s3 := RuntimeStep(s2);
    var m := Frame(s.animIndex + 1);
    if s.animIndex + 1 == LEN {
      steps := [];
      assert FramesFrom(s.animIndex + 1) == [] && [m] + [] == [m];
    } else {
      steps := PlaysToTheEnd(RuntimeStep(s3));
      steps := Works(s3, steps);
      Associative(s.log, [m], FramesFrom(s.animIndex + 1));
    }
    steps := Works(s2, steps);
    steps := Works(s1, steps);
    steps := Works(s, steps);
  }

  /**
   A reset at the head of the queue, taken while stopped or playing: undisturbed, the new delay is stored
   and announced, and the whole message is played from its first letter.
   */
  lemma ResetReplays(s: State) returns (steps: seq<Step>)
    requires (s.pc.Stopped? || s.pc.Playing?) && s.queue != [] && s.queue[0].Reset?
    ensures OnlyRuntime(steps) && IsRun(s, steps)
    ensures var d := s.queue[0].delay;
            Final(s, steps) == s.(pc := Stopped, delay := d, animIndex := LEN,
                                  queue := s.queue[1..], taken := s.taken + [Reset(d)],
                                  log := s.log + [DelaySignal(d)] + FramesFrom(0))
  {
    var s1 := Apply(s, Take);
    var s2 := RuntimeStep(s1);
    var s3 := RuntimeStep(s2);
    var s4 := RuntimeStep(s3);
    if s4.pc.Playing? {
      steps := PlaysToTheEnd(RuntimeStep(s4));
      steps := Works(s4, steps);
    } else {
      steps := PlaysToTheEnd(s4);
    }
    steps := Works(s3, steps);
    steps := Works(s2, steps);
    steps := Works(s1, steps);
    Cons(s, Take, steps);
    steps := [Take] + steps;
  }

  /** Two resets waiting while stopped: the second may be taken before a frame of the first, and two is the most. */
  lemma TwoResetsInARow(s: State) returns (steps: seq<Step>)
    requires s.pc.Stopped? && |s.queue| >= 2 && s.queue[0].Reset? && s.queue[1].Reset?
    ensures OnlyRuntime(steps) && IsRun(s, steps)
    ensures Final(s, steps).log == s.log + [DelaySignal(s.queue[0].delay)] + [DelaySignal(s.queue[1].delay)]
    ensures Final(s, steps).pc == StoreZero(true)
  {
    var s1 := Apply(s, Take);
    var s2 := RuntimeStep(s1);
    var s3 := RuntimeStep(s2);
    var s4 := RuntimeStep(s3);
    var s5 := Apply(s4, Take);
    steps := Works(RuntimeStep(s5), []);
    steps := Works(s5, steps);
    Cons(s4, Take, steps);
    steps := Works(s3, [Take] + steps);
    steps := Works(s2, steps);
    steps := Works(s1, steps);
    Cons(s, Take, steps);
    steps := [Take] + steps;
  }

  lemma {:induction false} SaysGoodbye(s: State) returns (steps: seq<Step>)
    requires s.pc.Leaving? && s.pc.sent <= FAREWELL_COUNT
    ensures OnlyRuntime(steps) && IsRun(s, steps)
    ensures Final(s, steps) == s.(pc := Returned, log := s.log + [Notice, Notice, Notice, Goodbye][s.pc.sent..])
    decreases FAREWELL_COUNT - s.pc.sent
  {
    var t, all := RuntimeStep(s), [Notice, Notice, Notice, Goodbye];
    if s.pc.sent == FAREWELL_COUNT {
      steps := [];
      assert s.log + all[4..] == s.log;
    } else {
      steps := SaysGoodbye(t);
      assert all[s.pc.sent..] == [Farewell(s.pc.sent)] + all[s.pc.sent + 1..];
      Associative(s.log, [Farewell(s.pc.sent)], all[s.pc.sent + 1..]);
    }
    steps := Works(s, steps);
  }

  /** An exit at the head of the queue: the controller closes, sends three notices and the exit message, and returns. */
  lemma ExitCloses(s: State) returns (steps: seq<Step>)
    requires (s.pc.Stopped? || s.pc.Playing?) && s.queue != [] && s.queue[0].Exit?
    ensures OnlyRuntime(steps) && IsRun(s, steps)
    ensures Final(s, steps) == s.(pc := Returned, isClosed := true,
                                  queue := s.queue[1..], taken := s.taken + [Exit],
                                  log := s.log + [Notice, Notice, Notice, Goodbye])
  {
    var s1 := Apply(s, Take);
    steps := SaysGoodbye(RuntimeStep(s1));
    steps := Works(s1, steps);
    Cons(s, Take, steps);
    steps := [Take] + steps;
  }
}
