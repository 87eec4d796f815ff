/**
 The Datastar animation controller: one runtime task, clients that send commands, and subscribers,
 as a state machine over atomic steps. Each load, store, fetch-add, channel send and channel receive
 is one step; memory ordering is sequential and timers may fire at any moment.
 While playing, the select prefers a waiting command; here the runtime may also play on past one,
 which only adds runs.
 */
module Datastar {
  import opened Text

  const MESSAGE := "Hello, Datastar!"
  const LEN: nat := |MESSAGE|
  const INITIAL_DELAY: nat := 400

  /** The capacities of the command queue and of the broadcast channel. */
  const QUEUE_CAP := 8
  const BROADCAST_CAP := 8

  datatype Command = Reset(delay: nat) | Exit

  /** A delay signal, the frame that shows the first `n` letters, an exit notice, or the exit message. */
  datatype Message = DelaySignal(delay: nat) | Frame(n: nat) | Notice | Goodbye

  const FAREWELL_COUNT: nat := 4

  /** The exit events: three notices, then the exit message. */
  function Farewell(i: nat): Message {
    if i < 3 then Notice else Goodbye
  }

  /** Where the runtime stands. `playing` tells which of the two command receives was taken. */
  datatype Pc =
    | Stopped
    | Playing
    | StoreDelay(delay: nat, playing: bool)
    | SendDelay(delay: nat, playing: bool)
    | StoreZero(playing: bool)
    | Advance
    | SendFrame(n: nat)
    | Pause(n: nat)
    | Closing
    | Leaving(sent: nat)
    | Returned

  /** A subscriber has subscribed, then loaded the delay, then loaded the index; `Gone` after lagging. */
  datatype Stage = Subscribed | HasDelay | Live | Gone

  datatype Subscriber = Subscriber(
    stage: Stage,
    start: nat,
    next: nat,
    snapDelay: nat,
    snapFrame: nat,
    seenDelay: nat,
    seenFrame: nat)

  datatype State = State(
    pc: Pc,
    delay: nat,
    animIndex: nat,
    isClosed: bool,
    queue: seq<Command>,
    log: seq<Message>,
    subscribers: map<nat, Subscriber>,
    accepted: seq<Command>,
    taken: seq<Command>)

  const INIT := State(Stopped, INITIAL_DELAY, LEN, false, [], [], map[], [], [])

  datatype Step =
    | Send(command: Command)
    | Take
    | Work
    | Subscribe(id: nat)
    | LoadDelay(id: nat)
    | LoadFrame(id: nat)
    | Receive(id: nat)

  predicate InStage(s: State, id: nat, stage: Stage) {
    id in s.subscribers && s.subscribers[id].stage == stage
  }

  predicate Enabled(s: State, step: Step) {
    match step
    case Send(_) => |s.queue| < QUEUE_CAP && !s.pc.Returned?
    case Take => s.queue != [] && (s.pc.Stopped? || s.pc.Playing?)
    case Work => !s.pc.Stopped? && !s.pc.Returned?
    case Subscribe(id) => id !in s.subscribers
    case LoadDelay(id) => InStage(s, id, Subscribed)
    case LoadFrame(id) => InStage(s, id, HasDelay)
    case Receive(id) => InStage(s, id, Live) && s.subscribers[id].next < |s.log|
  }

  /** The next step of the runtime once it has a command, or plays on without one. */
  function RuntimeStep(s: State): State
    requires Enabled(s, Work)
  {
    match s.pc
    case Playing => s.(pc := Advance)
    case StoreDelay(d, playing) => s.(delay := d, pc := SendDelay(d, playing))
    case SendDelay(d, playing) => s.(log := s.log + [DelaySignal(d)], pc := StoreZero(playing))
    case StoreZero(playing) => s.(animIndex := 0, pc := if playing then Advance else Playing)
    case Advance => s.(animIndex := s.animIndex + 1, pc := SendFrame(s.animIndex + 1))
    case SendFrame(n) => s.(log := s.log + [Frame(n)], pc := Pause(n))
    case Pause(n) => s.(pc := if n >= LEN then Stopped else Playing)
    case Closing => s.(isClosed := true, pc := Leaving(0))
    case Leaving(sent) =>
      if sent < FAREWELL_COUNT then s.(log := s.log + [Farewell(sent)], pc := Leaving(sent + 1)) else s.(pc := Returned)
  }

  /** Receiving: too far behind ends the stream, else the next message is applied to what is shown. */
  function ReceiveNext(s: State, sub: Subscriber): Subscriber
    requires sub.next < |s.log|
  {
    if |s.log| - sub.next > BROADCAST_CAP then sub.(stage := Gone)
    else
      match s.log[sub.next]
      case DelaySignal(d) => sub.(next := sub.next + 1, seenDelay := d)
      case Frame(n) => sub.(next := sub.next + 1, seenFrame := n)
      case _ => sub.(next := sub.next + 1)
  }

  function Apply(s: State, step: Step): State
    requires Enabled(s, step)
  {
    match step
    case Send(c) => s.(queue := s.queue + [c], accepted := s.accepted + [c])
    case Take =>
      var c := s.queue[0];
      s.(queue := s.queue[1..], taken := s.taken + [c],
         pc := if c.Exit? then Closing else StoreDelay(c.delay, s.pc.Playing?))
    case Work => RuntimeStep(s)
    case Subscribe(id) =>
      s.(subscribers := s.subscribers[id := Subscriber(Subscribed, |s.log|, |s.log|, 0, 0, 0, 0)])
    case LoadDelay(id) =>
      var sub := s.subscribers[id];
      s.(subscribers := s.subscribers[id := sub.(stage := HasDelay, snapDelay := s.delay, seenDelay := s.delay)])
    case LoadFrame(id) =>
      var sub := s.subscribers[id];
      s.(subscribers := s.subscribers[id := sub.(stage := Live, snapFrame := s.animIndex, seenFrame := s.animIndex)])
    case Receive(id) =>
      s.(subscribers := s.subscribers[id := ReceiveNext(s, s.subscribers[id])])
  }

  predicate IsRun(s: State, steps: seq<Step>)
    decreases |steps|
  {
    steps == [] || (Enabled(s, steps[0]) && IsRun(Apply(s, steps[0]), steps[1..]))
  }

  function Final(s: State, steps: seq<Step>): State
    requires IsRun(s, steps)
    decreases |steps|
  {
    if steps == [] then s else Final(Apply(s, steps[0]), steps[1..])
  }

  // ---------- the runtime ----------

  /** The index is a valid slice bound at every step, and the control state agrees with it. */
  predicate IndexInv(s: State) {
    && s.animIndex <= LEN
    && (match s.pc
        case Stopped => s.animIndex == LEN
        case Playing => s.animIndex < LEN
        case Advance => s.animIndex < LEN
        case SendFrame(n) => n == s.animIndex && n > 0
        case Pause(n) => n == s.animIndex && n > 0
        case _ => true)
    && (s.isClosed <==> s.pc.Leaving? || s.pc.Returned?)
  }

  lemma IndexInvStep(s: State, step: Step)
    requires IndexInv(s) && Enabled(s, step)
    ensures IndexInv(Apply(s, step))
    ensures s.isClosed ==> Apply(s, step).isClosed
  {
  }

  /** The number of the last frame since the last reset; None when a frame is out of sequence. */
  function Track(log: seq<Message>): Option<nat> {
    if log == [] then Some(LEN)
    else
      var before, last := Track(log[..|log| - 1]), log[|log| - 1];
      match last
      case DelaySignal(_) => if before.Some? then Some(0) else None
      case Frame(n) => if n <= LEN && before.Some? && before.value + 1 == n then Some(n) else None
      case _ => before
  }

  lemma TrackSnoc(log: seq<Message>, m: Message)
    ensures Track(log + [m])
         == match m
            case DelaySignal(_) => if Track(log).Some? then Some(0) else None
            case Frame(n) => if n <= LEN && Track(log).Some? && Track(log).value + 1 == n then Some(n) else None
            case _ => Track(log)
  {
  }

  predicate TrackInv(s: State) {
    Track(s.log)
    == Some(if s.pc.SendFrame? then s.animIndex - 1 else if s.pc.StoreZero? then 0 else s.animIndex)
  }

  lemma TrackInvStep(s: State, step: Step)
    requires IndexInv(s) && TrackInv(s) && Enabled(s, step)
    ensures TrackInv(Apply(s, step))
  {
  }

  predicate IsFarewell(m: Message) {
    m.Notice? || m.Goodbye?
  }

  /** How much of the farewell a log ends with; None when a part of it stands elsewhere. */
  function Ending(log: seq<Message>): (r: Option<nat>)
    ensures r.Some? ==> r.value <= FAREWELL_COUNT
  {
    if log == [] then Some(0)
    else
      var before, last := Ending(log[..|log| - 1]), log[|log| - 1];
      if before.None? then None
      else if !IsFarewell(last) then (if before == Some(0) then before else None)
      else if before.value < FAREWELL_COUNT && last == Farewell(before.value) then Some(before.value + 1)
      else None
  }

  function Sent(pc: Pc): nat {
    if pc.Leaving? then pc.sent else if pc.Returned? then FAREWELL_COUNT else 0
  }

  predicate FarewellInv(s: State) {
    Ending(s.log) == Some(Sent(s.pc))
  }

  lemma EndingSnoc(log: seq<Message>, m: Message)
    ensures Ending(log) == Some(0) && !IsFarewell(m) ==> Ending(log + [m]) == Some(0)
    ensures forall k :: k < FAREWELL_COUNT && Ending(log) == Some(k) && m == Farewell(k)
              ==> Ending(log + [m]) == Some(k + 1)
  {
  }

  lemma FarewellInvStep(s: State, step: Step)
    requires FarewellInv(s) && Enabled(s, step)
    ensures FarewellInv(Apply(s, step))
  {
    if step.Work? {
      FarewellWork(s);
    }
  }

  lemma FarewellWork(s: State)
    requires FarewellInv(s) && Enabled(s, Work)
    ensures FarewellInv(RuntimeStep(s))
  {
    match s.pc {
      case SendDelay(d, _) => EndingSnoc(s.log, DelaySignal(d));
      case SendFrame(n) => EndingSnoc(s.log, Frame(n));
      case Leaving(sent) =>
        if sent < FAREWELL_COUNT {
          EndingSnoc(s.log, Farewell(sent));
        }
      case _ =>
    }
  }

  /** The farewell stands at the very end, complete up to the part still to be sent. */
  lemma {:induction false} EndingMeans(log: seq<Message>)
    requires Ending(log).Some?
    ensures EndsWith(log, Ending(log).value)
  {
    if log != [] {
      var n := |log| - 1;
      EndingMeans(log[..n]);
      EndsWithSnoc(log[..n], Ending(log[..n]).value, log[n]);
      assert log == log[..n] + [log[n]];
    }
  }

  /** Only the last `k` messages belong to the farewell, and they are its first `k`. */
  predicate EndsWith(log: seq<Message>, k: nat) {
    && k <= FAREWELL_COUNT && k <= |log|
    && (forall i :: 0 <= i < k ==> log[|log| - k + i] == Farewell(i))
    && forall i :: 0 <= i < |log| - k ==> !IsFarewell(log[i])
  }

  lemma EndsWithSnoc(log: seq<Message>, k: nat, m: Message)
    requires EndsWith(log, k)
    ensures !IsFarewell(m) && k == 0 ==> EndsWith(log + [m], 0)
    ensures k < FAREWELL_COUNT && m == Farewell(k) ==> EndsWith(log + [m], k + 1)
  {
  }

  /** The delays of the reset commands among `commands`, and of the signals in a log. */
  function ResetDelays(commands: seq<Command>): seq<nat> {
    if commands == [] then []
    else
      var init, last := ResetDelays(commands[..|commands| - 1]), commands[|commands| - 1];
      if last.Reset? then init + [last.delay] else init
  }

  function SignalDelays(log: seq<Message>): seq<nat> {
    if log == [] then []
    else
      var init, last := SignalDelays(log[..|log| - 1]), log[|log| - 1];
      if last.DelaySignal? then init + [last.delay] else init
  }

  /** Commands are neither lost nor reordered, and each reset taken is announced once. */
  predicate CommandInv(s: State) {
    && s.accepted == s.taken + s.queue
    && ResetDelays(s.taken)
       == if s.pc.StoreDelay? || s.pc.SendDelay? then SignalDelays(s.log) + [s.pc.delay] else SignalDelays(s.log)
  }

  lemma SignalSnoc(log: seq<Message>, m: Message)
    ensures SignalDelays(log + [m]) == if m.DelaySignal? then SignalDelays(log) + [m.delay] else SignalDelays(log)
  {
  }

  lemma ResetSnoc(commands: seq<Command>, c: Command)
    ensures ResetDelays(commands + [c]) == if c.Reset? then ResetDelays(commands) + [c.delay] else ResetDelays(commands)
  {
  }

  lemma CommandInvStep(s: State, step: Step)
    requires CommandInv(s) && Enabled(s, step)
    ensures CommandInv(Apply(s, step))
  {
    match step
    case Send(c) => Associative(s.taken, s.queue, [c]);
    case Take => TakeKeepsCommands(s);
    case Work => WorkKeepsCommands(s);
    case _ =>
  }

  lemma TakeKeepsCommands(s: State)
    requires CommandInv(s) && Enabled(s, Take)
    ensures CommandInv(Apply(s, Take))
  {
    ResetSnoc(s.taken, s.queue[0]);
    assert s.queue == [s.queue[0]] + s.queue[1..];
    Associative(s.taken, [s.queue[0]], s.queue[1..]);
  }

  lemma WorkKeepsCommands(s: State)
    requires CommandInv(s) && Enabled(s, Work)
    ensures CommandInv(RuntimeStep(s))
  {
    match s.pc {
      case SendDelay(d, _) => SignalSnoc(s.log, DelaySignal(d));
      case SendFrame(n) => SignalSnoc(s.log, Frame(n));
      case Leaving(sent) =>
        if sent < FAREWELL_COUNT {
          SignalSnoc(s.log, Farewell(sent));
        }
      case _ =>
    }
  }
}
