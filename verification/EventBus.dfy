/** An in-process event bus as a transition system: publishers, subscription
    runners, unsubscribers and closers interleave in any order (pkg/events/bus/bus.go). */
module EventBus {
  import opened Common

  /** The goroutine of an async subscription. */
  datatype Runner =
    | Listening
    | Delivering(event: nat)
    | Draining
    | DrainDelivering(event: nat)
    | Gone

  /** An event is known by the number of the Publish call that carries it. `enqueued`,
      `taken` and `delivered` record channel sends, receives and handler returns;
      `handled` the calls of a sync handler; `stopMark` how many events were enqueued
      when the stop channel was closed. The done channel is closed when the runner is gone. */
  datatype Sub = Sub(
    topic: nat,
    async: bool,
    queue: seq<nat>,
    stop: bool,
    runner: Runner,
    enqueued: seq<nat>,
    taken: seq<nat>,
    delivered: seq<nat>,
    handled: seq<nat>,
    stopMark: nat,
    removed: bool)

  function NewSub(topic: nat, async: bool): Sub {
    Sub(topic, async, [], false, Listening, [], [], [], [], 0, false)
  }

  datatype PubPhase = NotPublished | Publishing | Published | Rejected

  /** What happened at one subscriber of the snapshot. */
  datatype Outcome = Handled | Queued | SkippedStopped | SkippedCtx

  /** `parked` while it waits in the select for room in the queue of its current subscriber. */
  datatype Pub = Pub(topic: nat, phase: PubPhase, snapshot: seq<nat>, outcomes: seq<Outcome>, parked: bool)

  datatype CloserPhase = NotClosing | Signalling(next: nat) | Waiting(next: nat) | ReturnedNil | TimedOut

  /** `first` marks the call that found the bus open. */
  datatype Closer = Closer(phase: CloserPhase, first: bool, captured: seq<nat>)

  datatype Bus = Bus(
    cap: nat,
    closed: bool,
    registry: map<nat, seq<nat>>,
    subs: seq<Sub>,
    pubs: seq<Pub>,
    closers: seq<Closer>)

  const DEFAULT_BUFFER_SIZE: nat := 1024

  /** NewBus, before any of the given Publish and Close calls has begun. */
  function New(bufferSize: int, topics: seq<nat>, closers: nat): (b: Bus)
    ensures b.cap == if bufferSize > 0 then bufferSize else 1024
  {
    Bus(if bufferSize <= 0 then DEFAULT_BUFFER_SIZE else bufferSize, false, map[], [],
        seq(|topics|, i requires 0 <= i < |topics| => Pub(topics[i], NotPublished, [], [], false)),
        seq(closers, _ => Closer(NotClosing, false, [])))
  }

  function Registered(b: Bus, topic: nat): seq<nat> {
    if topic in b.registry then b.registry[topic] else []
  }

  function Without(ids: seq<nat>, id: nat): seq<nat> {
    if ids == [] then []
    else (if ids[0] == id then [] else [ids[0]]) + Without(ids[1..], id)
  }

  datatype Action =
    | Subscribe(topic: nat, async: bool)
    | Unregister(s: nat)
    | UnsubscribeStop(s: nat)
    | PublishBegin(p: nat)
    | PublishHandle(p: nat)
    | PublishSend(p: nat)
    | PublishPark(p: nat)
    | PublishSkipStopped(p: nat)
    | PublishSkipCtx(p: nat)
    | PublishEnd(p: nat)
    | RunnerTake(s: nat)
    | RunnerTakeAdmit(s: nat, p: nat)   // receive from a full queue; a parked event moves in
    | RunnerDeliver(s: nat)
    | RunnerNoticeStop(s: nat)
    | RunnerExit(s: nat)
    | CloseBegin(c: nat, captured: seq<nat>)
    | CloseSignal(c: nat)
    | CloseWait(c: nat)
    | CloseTimeout(c: nat)

  /** The subscriber a publisher is at. */
  predicate AtSub(b: Bus, p: nat) {
    && p < |b.pubs| && b.pubs[p].phase == Publishing
    && |b.pubs[p].outcomes| < |b.pubs[p].snapshot|
    && b.pubs[p].snapshot[|b.pubs[p].outcomes|] < |b.subs|
  }

  function CurrentSub(b: Bus, p: nat): nat
    requires AtSub(b, p)
  {
    b.pubs[p].snapshot[|b.pubs[p].outcomes|]
  }

  predicate ParkedAt(b: Bus, p: nat, s: nat) {
    AtSub(b, p) && b.pubs[p].parked && CurrentSub(b, p) == s
  }

  predicate Runs(b: Bus, s: nat) {
    s < |b.subs| && b.subs[s].async
  }

  /** `captured` lists every registered subscription, topics in any order. */
  ghost predicate CapturesAll(b: Bus, captured: seq<nat>) {
    && Distinct(captured)
    && forall id: nat :: id in captured <==> exists topic :: topic in b.registry && id in b.registry[topic]
  }

  /** A publisher parks only at a full queue that is not stopped; the stop signal wakes it,
      and then all it can do is skip. */
  ghost predicate Enabled(b: Bus, a: Action) {
    match a
    case Subscribe(_, _) => true
    case Unregister(s) => s < |b.subs|
    case UnsubscribeStop(s) => Runs(b, s) && b.subs[s].removed
    case PublishBegin(p) => p < |b.pubs| && b.pubs[p].phase == NotPublished
    case PublishHandle(p) => AtSub(b, p) && !b.subs[CurrentSub(b, p)].async
    case PublishSend(p) =>
      && AtSub(b, p) && b.subs[CurrentSub(b, p)].async && |b.subs[CurrentSub(b, p)].queue| < b.cap
      && !b.pubs[p].parked
    case PublishPark(p) =>
      && AtSub(b, p) && b.subs[CurrentSub(b, p)].async && |b.subs[CurrentSub(b, p)].queue| == b.cap
      && !b.pubs[p].parked && !b.subs[CurrentSub(b, p)].stop
    case PublishSkipStopped(p) =>
      AtSub(b, p) && b.subs[CurrentSub(b, p)].async && b.subs[CurrentSub(b, p)].stop
    case PublishSkipCtx(p) =>
      && AtSub(b, p) && b.subs[CurrentSub(b, p)].async
      && !(b.pubs[p].parked && b.subs[CurrentSub(b, p)].stop)
    case PublishEnd(p) =>
      p < |b.pubs| && b.pubs[p].phase == Publishing && |b.pubs[p].outcomes| == |b.pubs[p].snapshot|
    case RunnerTake(s) =>
      && Runs(b, s) && b.subs[s].runner in {Listening, Draining} && b.subs[s].queue != []
      && (b.subs[s].stop || forall p: nat :: !ParkedAt(b, p, s))
    case RunnerTakeAdmit(s, p) =>
      && Runs(b, s) && b.subs[s].runner == Listening && b.subs[s].queue != []
      && !b.subs[s].stop && ParkedAt(b, p, s)
    case RunnerDeliver(s) => Runs(b, s) && (b.subs[s].runner.Delivering? || b.subs[s].runner.DrainDelivering?)
    case RunnerNoticeStop(s) => Runs(b, s) && b.subs[s].runner == Listening && b.subs[s].stop
    case RunnerExit(s) => Runs(b, s) && b.subs[s].runner == Draining && b.subs[s].queue == []
    case CloseBegin(c, captured) =>
      c < |b.closers| && b.closers[c].phase == NotClosing && (b.closed || CapturesAll(b, captured))
    case CloseSignal(c) =>
      c < |b.closers| && b.closers[c].phase.Signalling? && b.closers[c].phase.next < |b.closers[c].captured|
      && b.closers[c].captured[b.closers[c].phase.next] < |b.subs|
    case CloseWait(c) =>
      && c < |b.closers|
      && (match b.closers[c].phase
          case Signalling(next) => next == |b.closers[c].captured|
          case Waiting(next) =>
            next >= |b.closers[c].captured|
            || (var id := b.closers[c].captured[next];
                id < |b.subs| && (!b.subs[id].async || b.subs[id].runner == Gone))
          case _ => false)
    case CloseTimeout(c) => c < |b.closers| && b.closers[c].phase.Waiting?
  }

  function Receive(s: Sub): Sub
    requires s.queue != []
  {
    var e := s.queue[0];
    s.(queue := s.queue[1..], taken := s.taken + [e],
       runner := if s.runner == Listening then Delivering(e) else DrainDelivering(e))
  }

  function Send(s: Sub, p: nat): Sub {
    s.(queue := s.queue + [p], enqueued := s.enqueued + [p])
  }

  function Deliver(s: Sub): Sub
    requires s.runner.Delivering? || s.runner.DrainDelivering?
  {
    s.(delivered := s.delivered + [s.runner.event],
       runner := if s.runner.Delivering? then Listening else Draining)
  }

  function SignalStop(s: Sub): Sub {
    if s.stop || !s.async then s else s.(stop := true, stopMark := |s.enqueued|)
  }

  /** The subscription an action works on, and what becomes of it. */
  function Touched(b: Bus, a: Action): Option<nat> {
    match a
    case Unregister(s) => Some(s)
    case UnsubscribeStop(s) => Some(s)
    case PublishHandle(p) => if AtSub(b, p) then Some(CurrentSub(b, p)) else None
    case PublishSend(p) => if AtSub(b, p) then Some(CurrentSub(b, p)) else None
    case RunnerTake(s) => Some(s)
    case RunnerTakeAdmit(s, _) => Some(s)
    case RunnerDeliver(s) => Some(s)
    case RunnerNoticeStop(s) => Some(s)
    case RunnerExit(s) => Some(s)
    case CloseSignal(c) =>
      if c < |b.closers| && b.closers[c].phase.Signalling? && b.closers[c].phase.next < |b.closers[c].captured|
      then Some(b.closers[c].captured[b.closers[c].phase.next]) else None
    case _ => None
  }

  ghost function Rewrite(b: Bus, a: Action, s: Sub): Sub
    requires Enabled(b, a) && Touched(b, a).Some? && Touched(b, a).value < |b.subs|
    requires s == b.subs[Touched(b, a).value]
  {
    match a
    case Unregister(_) => s.(removed := true)
    case UnsubscribeStop(_) => SignalStop(s)
    case PublishHandle(p) => s.(handled := s.handled + [p])
    case PublishSend(p) => Send(s, p)
    case RunnerTake(_) => Receive(s)
    case RunnerTakeAdmit(_, p) => Send(Receive(s), p)
    case RunnerDeliver(_) => Deliver(s)
    case RunnerNoticeStop(_) => s.(runner := Draining)
    case RunnerExit(_) => s.(runner := Gone)
    case CloseSignal(_) => SignalStop(s)
  }

  ghost function NextSubs(b: Bus, a: Action): seq<Sub>
    requires Enabled(b, a)
  {
    if a.Subscribe? then b.subs + [NewSub(a.topic, a.async)]
    else if Touched(b, a).None? then b.subs
    else b.subs[Touched(b, a).value := Rewrite(b, a, b.subs[Touched(b, a).value])]
  }

  function NextRegistry(b: Bus, a: Action): map<nat, seq<nat>> {
    match a
    case Subscribe(topic, _) => b.registry[topic := Registered(b, topic) + [|b.subs|]]
    case Unregister(s) =>
      if s < |b.subs| then b.registry[b.subs[s].topic := Without(Registered(b, b.subs[s].topic), s)] else b.registry
    case CloseBegin(_, _) => if b.closed then b.registry else map[]
    case _ => b.registry
  }

  function NextPub(b: Bus, a: Action, q: Pub): Pub {
    match a
    case PublishBegin(_) =>
      if b.closed then q.(phase := Rejected) else q.(phase := Publishing, snapshot := Registered(b, q.topic))
    case PublishHandle(_) => q.(outcomes := q.outcomes + [Handled], parked := false)
    case PublishSend(_) => q.(outcomes := q.outcomes + [Queued], parked := false)
    case RunnerTakeAdmit(_, _) => q.(outcomes := q.outcomes + [Queued], parked := false)
    case PublishSkipStopped(_) => q.(outcomes := q.outcomes + [SkippedStopped], parked := false)
    case PublishSkipCtx(_) => q.(outcomes := q.outcomes + [SkippedCtx], parked := false)
    case PublishPark(_) => q.(parked := true)
    case PublishEnd(_) => q.(phase := Published)
    case _ => q
  }

  predicate IsPublish(a: Action) {
    a.PublishBegin? || a.PublishPark? || IsWalk(a) || a.PublishEnd?
  }

  /** An action that enqueues the event of its publisher. */
  predicate IsSend(a: Action) {
    a.PublishSend? || a.RunnerTakeAdmit?
  }

  /** An action that takes a publisher past one subscriber. */
  predicate IsWalk(a: Action) {
    a.PublishHandle? || IsSend(a) || a.PublishSkipStopped? || a.PublishSkipCtx?
  }

  function NextPubs(b: Bus, a: Action): seq<Pub> {
    if IsPublish(a) && a.p < |b.pubs| then b.pubs[a.p := NextPub(b, a, b.pubs[a.p])] else b.pubs
  }

  function NextCloser(b: Bus, a: Action, k: Closer): Closer {
    match a
    case CloseBegin(_, captured) =>
      if b.closed then Closer(ReturnedNil, false, []) else Closer(Signalling(0), true, captured)
    case CloseSignal(_) => if k.phase.Signalling? then k.(phase := Signalling(k.phase.next + 1)) else k
    case CloseWait(_) =>
      if k.phase.Signalling? then k.(phase := Waiting(0))
      else if k.phase.Waiting? then
        k.(phase := if k.phase.next >= |k.captured| then ReturnedNil else Waiting(k.phase.next + 1))
      else k
    case CloseTimeout(_) => k.(phase := TimedOut)
    case _ => k
  }

  function NextClosers(b: Bus, a: Action): seq<Closer> {
    if IsClose(a) && a.c < |b.closers| then b.closers[a.c := NextCloser(b, a, b.closers[a.c])]
    else b.closers
  }

  ghost function Apply(b: Bus, a: Action): Bus
    requires Enabled(b, a)
  {
    b.(closed := b.closed || a.CloseBegin?,
       subs := NextSubs(b, a),
       registry := NextRegistry(b, a),
       pubs := NextPubs(b, a),
       closers := NextClosers(b, a))
  }

  ghost function Execute(b: Bus, acts: seq<Action>): Option<Bus>
    decreases |acts|
  {
    if acts == [] then Some(b)
    else if !Enabled(b, acts[0]) then None
    else Execute(Apply(b, acts[0]), acts[1..])
  }

  ghost predicate Leads(b: Bus, acts: seq<Action>, t: Bus) {
    Execute(b, acts) == Some(t)
  }

  ghost predicate Reachable(b: Bus) {
    exists bufferSize, topics, closers, acts :: Leads(New(bufferSize, topics, closers), acts, b)
  }

  // ----- the invariant -----

  /** One subscription: a FIFO queue, delivered in order, drained once stopped. */
  ghost predicate SubOk(s: Sub, cap: nat) {
    && s.taken + s.queue == s.enqueued && |s.queue| <= cap
    && Distinct(s.enqueued) && Distinct(s.handled)
    && (if s.runner.Delivering? || s.runner.DrainDelivering?
        then s.taken == s.delivered + [s.runner.event] else s.taken == s.delivered)
    && (s.runner.Draining? || s.runner.DrainDelivering? || s.runner.Gone? ==> s.stop)
    && (s.stop ==> s.async && s.stopMark <= |s.enqueued|)
    && (s.runner == Gone ==> s.stopMark <= |s.taken|)
    && (s.async ==> s.handled == []) && (!s.async ==> s.enqueued == [])
  }

  ghost predicate SubsOk(b: Bus) {
    b.cap > 0 && forall s :: 0 <= s < |b.subs| ==> SubOk(b.subs[s], b.cap)
  }

  ghost predicate RegistryOk(b: Bus) {
    forall topic :: topic in b.registry ==> ListOk(b.subs, topic, b.registry[topic])
  }

  ghost predicate Reached(s: Sub, p: nat) {
    p in s.enqueued || p in s.handled
  }

  /** One publisher: it walks its snapshot in order, and has reached exactly the
      subscribers whose outcome says so. */
  ghost predicate PubOk(b: Bus, p: nat)
    requires p < |b.pubs|
  {
    var q := b.pubs[p];
    && Distinct(q.snapshot) && AllBelow(q.snapshot, |b.subs|) && |q.outcomes| <= |q.snapshot|
    && (forall k :: 0 <= k < |q.outcomes| ==>
          && b.subs[q.snapshot[k]].topic == q.topic
          && (q.outcomes[k] == Queued <==> p in b.subs[q.snapshot[k]].enqueued)
          && (q.outcomes[k] == Handled <==> p in b.subs[q.snapshot[k]].handled))
    && (forall k :: 0 <= k < |q.snapshot| ==> b.subs[q.snapshot[k]].topic == q.topic)
    && (forall s :: 0 <= s < |b.subs| && Reached(b.subs[s], p) ==> s in q.snapshot[..|q.outcomes|])
    && (q.phase == Published ==> |q.outcomes| == |q.snapshot|)
    && (q.phase in {NotPublished, Rejected} ==> q.snapshot == [])
  }

  ghost predicate PubsOk(b: Bus) {
    && (forall p :: 0 <= p < |b.pubs| ==> PubOk(b, p))
    && (forall s, p: nat :: 0 <= s < |b.subs| && Reached(b.subs[s], p) ==> p < |b.pubs|)
  }

  ghost predicate Stopped(b: Bus, id: nat) {
    id < |b.subs| && (b.subs[id].async ==> b.subs[id].stop)
  }

  ghost predicate Drained(b: Bus, id: nat) {
    id < |b.subs| && (b.subs[id].async ==> b.subs[id].runner == Gone)
  }

  ghost predicate CloserOk(b: Bus, k: Closer) {
    && AllBelow(k.captured, |b.subs|)
    && (k.phase != NotClosing ==> b.closed)
    && match k.phase
       case NotClosing => !k.first
       case Signalling(next) => k.first && next <= |k.captured| && forall i :: 0 <= i < next ==> Stopped(b, k.captured[i])
       case Waiting(next) =>
         && k.first && next <= |k.captured|
         && (forall i :: 0 <= i < |k.captured| ==> Stopped(b, k.captured[i]))
         && forall i :: 0 <= i < next ==> Drained(b, k.captured[i])
       case ReturnedNil => k.first ==> forall i :: 0 <= i < |k.captured| ==> Drained(b, k.captured[i])
       case TimedOut => k.first
  }

  ghost predicate ClosersOk(b: Bus) {
    && (forall c :: 0 <= c < |b.closers| ==> CloserOk(b, b.closers[c]))
    && (forall c, d :: 0 <= c < d < |b.closers| ==> !(b.closers[c].first && b.closers[d].first))
    && (forall c :: 0 <= c < |b.closers| && b.closers[c].first ==> b.closed)
  }

  ghost predicate Inv(b: Bus) {
    SubsOk(b) && RegistryOk(b) && PubsOk(b) && ClosersOk(b)
  }

  lemma {:induction false} WithoutKeeps(ids: seq<nat>, id: nat)
    requires Distinct(ids)
    ensures Distinct(Without(ids, id))
    ensures forall x :: x in Without(ids, id) <==> x in ids && x != id
  {
    if ids != [] {
      WithoutKeeps(ids[1..], id);
      assert forall k :: 0 <= k < |ids| - 1 ==> ids[1..][k] == ids[k + 1];
      assert ids[0] !in ids[1..];
    }
  }

  lemma InitInv(bufferSize: int, topics: seq<nat>, closers: nat)
    ensures Inv(New(bufferSize, topics, closers))
  {
  }

  /** Which subscription an action works on. */
  lemma TouchedIsThere(b: Bus, a: Action)
    requires Enabled(b, a)
    ensures Touched(b, a).Some? ==> Touched(b, a).value < |b.subs|
    ensures IsWalk(a) ==> AtSub(b, a.p)
    ensures IsWalk(a) ==>
      Touched(b, a) == (if a.PublishHandle? || IsSend(a) then Some(CurrentSub(b, a.p)) else None)
  {
  }

  /** Every other subscription stays as it is. */
  lemma SubAfter(b: Bus, a: Action, s: nat)
    requires Enabled(b, a) && s < |b.subs|
    ensures |NextSubs(b, a)| == |b.subs| + if a.Subscribe? then 1 else 0
    ensures Touched(b, a) == Some(s) ==> NextSubs(b, a)[s] == Rewrite(b, a, b.subs[s])
    ensures Touched(b, a) != Some(s) ==> NextSubs(b, a)[s] == b.subs[s]
  {
    TouchedIsThere(b, a);
    hide Enabled, Touched, Rewrite;
  }

  /** Topics and kinds never change, and numbers stay valid. */
  lemma RewriteKeepsTopic(b: Bus, a: Action)
    requires Enabled(b, a)
    ensures |b.subs| <= |NextSubs(b, a)|
    ensures forall s :: 0 <= s < |b.subs| ==>
      NextSubs(b, a)[s].topic == b.subs[s].topic && NextSubs(b, a)[s].async == b.subs[s].async
    ensures a.Subscribe? ==> NextSubs(b, a) == b.subs + [NewSub(a.topic, a.async)]
    ensures !a.Subscribe? ==> |NextSubs(b, a)| == |b.subs|
  {
    TouchedIsThere(b, a);
    forall s | 0 <= s < |b.subs|
      ensures NextSubs(b, a)[s].topic == b.subs[s].topic && NextSubs(b, a)[s].async == b.subs[s].async
    {
      SubAfter(b, a, s);
      hide NextSubs, Enabled;
    }
    hide Enabled, Touched, Rewrite;
  }

  /** A publisher never reaches the same subscriber twice. */
  lemma CurrentIsFresh(b: Bus, p: nat)
    requires PubsOk(b) && AtSub(b, p)
    ensures !Reached(b.subs[CurrentSub(b, p)], p)
  {
    assert PubOk(b, p);
  }

  // --- subscriptions ---

  lemma NewSubOk(topic: nat, async: bool, cap: nat)
    ensures SubOk(NewSub(topic, async), cap)
  {
  }

  lemma ReceiveOk(s: Sub, cap: nat)
    requires SubOk(s, cap) && s.queue != [] && s.runner in {Listening, Draining}
    ensures SubOk(Receive(s), cap)
  {
  }

  lemma DeliverOk(s: Sub, cap: nat)
    requires SubOk(s, cap) && (s.runner.Delivering? || s.runner.DrainDelivering?)
    ensures SubOk(Deliver(s), cap)
  {
  }

  lemma SendOk(s: Sub, cap: nat, p: nat)
    requires SubOk(s, cap) && s.async && |s.queue| < cap && !Reached(s, p)
    ensures SubOk(Send(s, p), cap)
  {
    assert s.taken + (s.queue + [p]) == s.enqueued + [p];
  }

  lemma HandleOk(s: Sub, cap: nat, p: nat)
    requires SubOk(s, cap) && !s.async && !Reached(s, p)
    ensures SubOk(s.(handled := s.handled + [p]), cap)
  {
  }

  lemma StopOk(s: Sub, cap: nat)
    requires SubOk(s, cap)
    ensures SubOk(SignalStop(s), cap)
  {
  }

  /** What a publisher does to the subscriber it is at. */
  lemma WalkKeepsSub(b: Bus, a: Action, s: Sub)
    requires PubsOk(b) && Enabled(b, a) && (a.PublishHandle? || IsSend(a))
    requires s == b.subs[CurrentSub(b, a.p)] && SubOk(s, b.cap)
    ensures Touched(b, a) == Some(CurrentSub(b, a.p)) && SubOk(Rewrite(b, a, s), b.cap)
  {
    CurrentIsFresh(b, a.p);
    if a.PublishHandle? {
      assert !s.async;
      hide PubsOk, SubOk, Reached;
      HandleOk(s, b.cap, a.p);
    } else if a.PublishSend? {
      assert s.async && |s.queue| < b.cap;
      hide PubsOk, SubOk, Reached;
      SendOk(s, b.cap, a.p);
    } else {
      ReceiveOk(s, b.cap);
      var r := Receive(s);
      assert !Reached(r, a.p) && |r.queue| < b.cap && r.async;
      hide PubsOk, SubOk, Reached;
      SendOk(r, b.cap, a.p);
    }
  }

  /** What everybody else does to a subscription. */
  lemma OtherKeepsSub(b: Bus, a: Action, s: Sub)
    requires Enabled(b, a) && Touched(b, a).Some? && Touched(b, a).value < |b.subs| && !IsWalk(a)
    requires s == b.subs[Touched(b, a).value] && SubOk(s, b.cap)
    ensures SubOk(Rewrite(b, a, s), b.cap)
  {
    if a.RunnerTake? {
      ReceiveOk(s, b.cap);
    } else if a.RunnerDeliver? {
      DeliverOk(s, b.cap);
    } else if a.UnsubscribeStop? || a.CloseSignal? {
      StopOk(s, b.cap);
    }
  }

  lemma SubKept(b: Bus, a: Action, s: nat)
    requires SubsOk(b) && PubsOk(b) && Enabled(b, a) && s < |b.subs|
    ensures s < |NextSubs(b, a)| && SubOk(NextSubs(b, a)[s], b.cap)
  {
    assert SubOk(b.subs[s], b.cap);
    TouchedIsThere(b, a);
    SubAfter(b, a, s);
    hide SubsOk, PubsOk, SubOk, NextSubs, Rewrite, Touched, Enabled;
    if Touched(b, a) == Some(s) {
      if IsWalk(a) {
        WalkKeepsSub(b, a, b.subs[s]);
      } else {
        OtherKeepsSub(b, a, b.subs[s]);
      }
    }
  }

  lemma SubsStep(b: Bus, a: Action)
    requires SubsOk(b) && PubsOk(b) && Enabled(b, a)
    ensures SubsOk(Apply(b, a))
  {
    RewriteKeepsTopic(b, a);
    var t := Apply(b, a);
    assert t.subs == NextSubs(b, a) && t.cap == b.cap;
    hide SubOk, PubsOk, NextSubs, Enabled, Apply;
    forall s | 0 <= s < |t.subs| ensures SubOk(t.subs[s], t.cap) {
      if s < |b.subs| {
        SubKept(b, a, s);
      } else {
        NewSubOk(a.topic, a.async, b.cap);
      }
    }
  }

  /** A list of subscriptions registered under one topic. */
  ghost predicate ListOk(subs: seq<Sub>, topic: nat, ids: seq<nat>) {
    Distinct(ids) && AllBelow(ids, |subs|) && forall k :: 0 <= k < |ids| ==> subs[ids[k]].topic == topic
  }

  lemma ListStays(subs: seq<Sub>, more: seq<Sub>, topic: nat, ids: seq<nat>)
    requires ListOk(subs, topic, ids) && |subs| <= |more|
    requires forall s :: 0 <= s < |subs| ==> more[s].topic == subs[s].topic
    ensures ListOk(more, topic, ids)
  {
  }

  lemma ListShrinks(subs: seq<Sub>, topic: nat, ids: seq<nat>, id: nat)
    requires ListOk(subs, topic, ids)
    ensures ListOk(subs, topic, Without(ids, id))
  {
    WithoutKeeps(ids, id);
    forall k | 0 <= k < |Without(ids, id)|
      ensures Without(ids, id)[k] < |subs| && subs[Without(ids, id)[k]].topic == topic
    {
      assert Without(ids, id)[k] in ids;
    }
  }

  lemma RegistryStep(b: Bus, a: Action)
    requires RegistryOk(b) && Enabled(b, a)
    ensures RegistryOk(Apply(b, a))
  {
    RewriteKeepsTopic(b, a);
    var t := Apply(b, a);
    hide NextSubs, CapturesAll;
    forall topic | topic in t.registry ensures ListOk(t.subs, topic, t.registry[topic]) {
      var ids := Registered(b, topic);
      assert ListOk(b.subs, topic, ids);
      ListStays(b.subs, t.subs, topic, ids);
      if a.Unregister? {
        ListShrinks(t.subs, topic, ids, a.s);
      }
      hide ListOk, Enabled;
      if a.Subscribe? && a.topic == topic {
        ListGrows(b, t, topic, ids, a.async);
      }
    }
  }

  lemma ListGrows(b: Bus, t: Bus, topic: nat, ids: seq<nat>, async: bool)
    requires ListOk(b.subs, topic, ids) && t.subs == b.subs + [NewSub(topic, async)]
    ensures ListOk(t.subs, topic, ids + [|b.subs|])
  {
  }

  // --- the registry against the history of subscriptions ---

  /** The subscriptions of a topic that were not removed, in the order they were made. */
  function Subscribed(subs: seq<Sub>, topic: nat): seq<nat> {
    if subs == [] then []
    else
      var n := |subs| - 1;
      Subscribed(subs[..n], topic) + if subs[n].topic == topic && !subs[n].removed then [n] else []
  }

  /** As long as the bus is open its registry is exactly that, for every topic. */
  ghost predicate RegistryExact(b: Bus) {
    !b.closed ==> forall topic :: Registered(b, topic) == Subscribed(b.subs, topic)
  }

  lemma {:induction false} SubscribedSame(subs: seq<Sub>, more: seq<Sub>, topic: nat)
    requires |subs| == |more|
    requires forall s :: 0 <= s < |subs| ==> more[s].topic == subs[s].topic && more[s].removed == subs[s].removed
    ensures Subscribed(more, topic) == Subscribed(subs, topic)
  {
    if subs != [] {
      SubscribedSame(subs[..|subs| - 1], more[..|subs| - 1], topic);
    }
  }

  lemma {:induction false} WithoutAppend(a: seq<nat>, b: seq<nat>, id: nat)
    ensures Without(a + b, id) == Without(a, id) + Without(b, id)
  {
    if a == [] {
      assert a + b == b;
    } else {
      assert (a + b)[1..] == a[1..] + b;
      WithoutAppend(a[1..], b, id);
    }
  }

  lemma {:induction false} NotSubscribedYet(subs: seq<Sub>, topic: nat, id: nat)
    requires |subs| <= id
    ensures Without(Subscribed(subs, topic), id) == Subscribed(subs, topic)
  {
    if subs != [] {
      var n := |subs| - 1;
      NotSubscribedYet(subs[..n], topic, id);
      WithoutAppend(Subscribed(subs[..n], topic), if subs[n].topic == topic && !subs[n].removed then [n] else [], id);
    }
  }

  /** Removing a subscription takes it out of the list of its topic and of no other. */
  lemma {:induction false} SubscribedRemove(subs: seq<Sub>, topic: nat, id: nat)
    requires id < |subs|
    ensures Subscribed(subs[id := subs[id].(removed := true)], topic) ==
      if subs[id].topic == topic then Without(Subscribed(subs, topic), id) else Subscribed(subs, topic)
  {
    var n := |subs| - 1;
    var less := subs[id := subs[id].(removed := true)];
    var before := Subscribed(subs[..n], topic);
    var last := if subs[n].topic == topic && !subs[n].removed then [n] else [];
    WithoutAppend(before, last, id);
    if id == n {
      assert less[..n] == subs[..n];
      NotSubscribedYet(subs[..n], topic, n);
      assert Subscribed(less, topic) == before + if less[n].topic == topic && !less[n].removed then [n] else [];
    } else {
      assert less[..n] == subs[..n][id := subs[..n][id].(removed := true)];
      SubscribedRemove(subs[..n], topic, id);
      assert less[n] == subs[n] && Subscribed(less, topic) == Subscribed(less[..n], topic) + last;
      assert Without(last, id) == last;
    }
  }

  lemma RegistryMoves(b: Bus, a: Action, topic: nat)
    requires Enabled(b, a) && !a.CloseBegin?
    ensures Registered(Apply(b, a), topic) ==
      if a.Subscribe? && a.topic == topic then Registered(b, topic) + [|b.subs|]
      else if a.Unregister? && b.subs[a.s].topic == topic then Without(Registered(b, topic), a.s)
      else Registered(b, topic)
  {
    hide NextSubs, NextPubs, NextClosers, Without;
  }

  lemma SubscribedMoves(b: Bus, a: Action, topic: nat)
    requires Enabled(b, a)
    ensures Subscribed(Apply(b, a).subs, topic) ==
      if a.Subscribe? && a.topic == topic then Subscribed(b.subs, topic) + [|b.subs|]
      else if a.Unregister? && b.subs[a.s].topic == topic then Without(Subscribed(b.subs, topic), a.s)
      else Subscribed(b.subs, topic)
  {
    var subs := NextSubs(b, a);
    assert Apply(b, a).subs == subs;
    if a.Subscribe? {
      assert subs == b.subs + [NewSub(a.topic, a.async)] && subs[..|b.subs|] == b.subs;
      hide Enabled, NextSubs, Apply;
    } else if a.Unregister? {
      assert subs == b.subs[a.s := b.subs[a.s].(removed := true)];
      hide Enabled, NextSubs, Apply, Subscribed, Without;
      SubscribedRemove(b.subs, topic, a.s);
    } else {
      MarksStay(b, a);
      hide Enabled, NextSubs, Apply, Subscribed, Without;
      SubscribedSame(b.subs, subs, topic);
    }
  }

  lemma RegistryExactStep(b: Bus, a: Action)
    requires RegistryExact(b) && Enabled(b, a)
    ensures RegistryExact(Apply(b, a))
  {
    var t := Apply(b, a);
    assert t.closed == (b.closed || a.CloseBegin?);
    hide Apply, Subscribed, Without, Registered;
    if !t.closed {
      forall topic ensures Registered(t, topic) == Subscribed(t.subs, topic) {
        assert Registered(b, topic) == Subscribed(b.subs, topic);
        RegistryMoves(b, a, topic);
        SubscribedMoves(b, a, topic);
      }
    }
  }

  lemma MarksStay(b: Bus, a: Action)
    requires Enabled(b, a) && !a.Subscribe? && !a.Unregister?
    ensures |NextSubs(b, a)| == |b.subs|
    ensures forall s :: 0 <= s < |b.subs| ==>
      NextSubs(b, a)[s].topic == b.subs[s].topic && NextSubs(b, a)[s].removed == b.subs[s].removed
  {
    RewriteKeepsTopic(b, a);
    forall s | 0 <= s < |b.subs| ensures NextSubs(b, a)[s].removed == b.subs[s].removed {
      SubAfter(b, a, s);
      hide NextSubs, Enabled;
    }
    hide NextSubs, Enabled;
  }

  lemma {:induction false} RegistryExactHolds(b: Bus, acts: seq<Action>, t: Bus)
    requires RegistryExact(b) && Leads(b, acts, t)
    ensures RegistryExact(t)
    decreases |acts|
  {
    if acts != [] {
      RegistryExactStep(b, acts[0]);
      RegistryExactHolds(Apply(b, acts[0]), acts[1..], t);
    }
  }

  // --- publishers ---

  /** What an action adds to the record of a subscriber. */
  lemma ReachStep(b: Bus, a: Action, s: nat, p: nat)
    requires Enabled(b, a) && s < |b.subs|
    ensures s < |NextSubs(b, a)|
    ensures p in NextSubs(b, a)[s].enqueued <==>
      p in b.subs[s].enqueued || (IsSend(a) && a.p == p && CurrentSub(b, p) == s)
    ensures p in NextSubs(b, a)[s].handled <==>
      p in b.subs[s].handled || (a == PublishHandle(p) && CurrentSub(b, p) == s)
  {
    SubAfter(b, a, s);
    TouchedIsThere(b, a);
    hide NextSubs, Enabled;
  }

  /** The subscribers that publisher `p` has reached are the same in `t`. */
  ghost predicate SameReach(b: Bus, t: Bus, p: nat) {
    && |b.subs| <= |t.subs|
    && (forall s :: 0 <= s < |b.subs| ==>
          && t.subs[s].topic == b.subs[s].topic
          && (p in t.subs[s].enqueued <==> p in b.subs[s].enqueued)
          && (p in t.subs[s].handled <==> p in b.subs[s].handled))
    && (forall s :: |b.subs| <= s < |t.subs| ==> !Reached(t.subs[s], p))
  }

  lemma OthersKeepReach(b: Bus, a: Action, p: nat)
    requires Enabled(b, a) && !(IsWalk(a) && a.p == p)
    ensures SameReach(b, Apply(b, a), p)
  {
    assert Apply(b, a).subs == NextSubs(b, a) by {
      hide Enabled, NextSubs;
    }
    hide NextSubs, Enabled, Apply, CurrentSub, Reached, IsSend;
    NewIsUnreached(b, a, p);
    forall s: nat | s < |b.subs|
      ensures NextSubs(b, a)[s].topic == b.subs[s].topic
      ensures p in NextSubs(b, a)[s].enqueued <==> p in b.subs[s].enqueued
      ensures p in NextSubs(b, a)[s].handled <==> p in b.subs[s].handled
    {
      ReachStep(b, a, s, p);
      OthersWalk(a, p);
      RewriteKeepsTopic(b, a);
    }
  }

  lemma OthersWalk(a: Action, p: nat)
    requires !(IsWalk(a) && a.p == p)
    ensures !(IsSend(a) && a.p == p) && a != PublishHandle(p)
  {
  }

  lemma NewIsUnreached(b: Bus, a: Action, p: nat)
    requires Enabled(b, a)
    ensures |b.subs| <= |NextSubs(b, a)|
    ensures forall s :: |b.subs| <= s < |NextSubs(b, a)| ==> !Reached(NextSubs(b, a)[s], p)
  {
    RewriteKeepsTopic(b, a);
    hide NextSubs, Enabled;
  }

  lemma PubFrame(b: Bus, t: Bus, p: nat)
    requires p < |b.pubs| && p < |t.pubs| && PubOk(b, p) && SameReach(b, t, p)
    requires t.pubs[p] == b.pubs[p]
             || t.pubs[p] == b.pubs[p].(parked := true)
             || (t.pubs[p] == b.pubs[p].(phase := Published) && |b.pubs[p].outcomes| == |b.pubs[p].snapshot|)
             || (t.pubs[p] == b.pubs[p].(phase := Rejected) && b.pubs[p].phase == NotPublished)
    ensures PubOk(t, p)
  {
  }

  lemma PubSnapshot(b: Bus, t: Bus, p: nat)
    requires p < |b.pubs| && p < |t.pubs| && PubOk(b, p) && SameReach(b, t, p) && RegistryOk(b)
    requires b.pubs[p].phase == NotPublished
    requires t.pubs[p] == b.pubs[p].(phase := Publishing, snapshot := Registered(b, b.pubs[p].topic))
    ensures PubOk(t, p)
  {
    assert b.pubs[p].snapshot == [];
  }

  /** What an action that does not take publisher `p` on makes of it. */
  lemma PubAfter(b: Bus, a: Action, p: nat)
    requires Enabled(b, a) && p < |b.pubs| && !(IsWalk(a) && a.p == p) && !(a == PublishBegin(p) && !b.closed)
    ensures var q := b.pubs[p];
            && p < |NextPubs(b, a)|
            && (NextPubs(b, a)[p] == q || NextPubs(b, a)[p] == q.(parked := true)
                || (NextPubs(b, a)[p] == q.(phase := Published) && |q.outcomes| == |q.snapshot|)
                || (NextPubs(b, a)[p] == q.(phase := Rejected) && q.phase == NotPublished))
  {
  }

  lemma PubStepOther(b: Bus, a: Action, p: nat)
    requires RegistryOk(b) && PubsOk(b) && Enabled(b, a) && p < |b.pubs| && !(IsWalk(a) && a.p == p)
    ensures p < |Apply(b, a).pubs| && PubOk(Apply(b, a), p)
  {
    assert PubOk(b, p);
    OthersKeepReach(b, a, p);
    hide PubsOk, PubOk, NextSubs, SameReach, RegistryOk;
    if a == PublishBegin(p) && !b.closed {
      PubSnapshot(b, Apply(b, a), p);
    } else {
      PubAfter(b, a, p);
      hide NextPubs, Enabled;
      PubFrame(b, Apply(b, a), p);
    }
  }

  lemma PubWalks(b: Bus, t: Bus, p: nat, o: Outcome)
    requires AtSub(b, p) && PubOk(b, p) && !Reached(b.subs[CurrentSub(b, p)], p)
    requires p < |t.pubs| && t.pubs[p] == b.pubs[p].(outcomes := b.pubs[p].outcomes + [o], parked := false)
    requires |t.subs| == |b.subs|
    requires forall s :: 0 <= s < |b.subs| ==>
      && t.subs[s].topic == b.subs[s].topic
      && (p in t.subs[s].enqueued <==> p in b.subs[s].enqueued || (o == Queued && CurrentSub(b, p) == s))
      && (p in t.subs[s].handled <==> p in b.subs[s].handled || (o == Handled && CurrentSub(b, p) == s))
    ensures PubOk(t, p)
  {
    var q, r := b.pubs[p], t.pubs[p];
    assert q.snapshot[..|r.outcomes|] == q.snapshot[..|q.outcomes|] + [CurrentSub(b, p)];
  }

  /** What an action that takes a publisher on makes of it. */
  lemma PubWalked(b: Bus, a: Action) returns (o: Outcome)
    requires Enabled(b, a) && IsWalk(a)
    ensures AtSub(b, a.p) && a.p < |NextPubs(b, a)|
    ensures NextPubs(b, a)[a.p] == b.pubs[a.p].(outcomes := b.pubs[a.p].outcomes + [o], parked := false)
    ensures (o == Handled <==> a.PublishHandle?) && (o == Queued <==> IsSend(a))
    ensures (o == SkippedStopped <==> a.PublishSkipStopped?) && (o == SkippedCtx <==> a.PublishSkipCtx?)
  {
    o := if a.PublishHandle? then Handled else if IsSend(a) then Queued
         else if a.PublishSkipStopped? then SkippedStopped else SkippedCtx;
  }

  lemma PubStepWalk(b: Bus, a: Action)
    requires PubsOk(b) && Enabled(b, a) && IsWalk(a)
    ensures a.p < |Apply(b, a).pubs| && PubOk(Apply(b, a), a.p)
  {
    var o := PubWalked(b, a);
    assert PubOk(b, a.p);
    CurrentIsFresh(b, a.p);
    RewriteKeepsTopic(b, a);
    var t := Apply(b, a);
    assert t.subs == NextSubs(b, a) && t.pubs == NextPubs(b, a);
    hide PubsOk, PubOk, NextSubs, NextPubs, Enabled, Apply;
    forall s: nat | s < |b.subs|
      ensures a.p in t.subs[s].enqueued <==>
        a.p in b.subs[s].enqueued || (IsSend(a) && CurrentSub(b, a.p) == s)
      ensures a.p in t.subs[s].handled <==>
        a.p in b.subs[s].handled || (a.PublishHandle? && CurrentSub(b, a.p) == s)
    {
      ReachStep(b, a, s, a.p);
    }
    PubWalks(b, t, a.p, o);
  }

  lemma PubsStep(b: Bus, a: Action)
    requires RegistryOk(b) && PubsOk(b) && Enabled(b, a)
    ensures PubsOk(Apply(b, a))
  {
    var t := Apply(b, a);
    forall p | 0 <= p < |t.pubs| ensures PubOk(t, p) {
      if IsWalk(a) && a.p == p {
        PubStepWalk(b, a);
      } else {
        PubStepOther(b, a, p);
      }
    }
    forall s, p: nat | 0 <= s < |t.subs| && Reached(t.subs[s], p) ensures p < |t.pubs| {
      if !(IsWalk(a) && a.p == p) {
        OthersKeepReach(b, a, p);
        assert SameReach(b, t, p);
        assert s < |b.subs| && Reached(b.subs[s], p);
      }
    }
  }

  // --- closers ---

  /** An action of a runner. */
  predicate IsRunnerMove(a: Action) {
    a.RunnerTake? || a.RunnerTakeAdmit? || a.RunnerDeliver? || a.RunnerNoticeStop? || a.RunnerExit?
  }

  lemma RewriteStops(b: Bus, a: Action, s: Sub)
    requires Enabled(b, a) && Touched(b, a).Some? && Touched(b, a).value < |b.subs|
    requires s == b.subs[Touched(b, a).value]
    ensures var r := Rewrite(b, a, s);
            && r.async == s.async && (s.stop ==> r.stop) && (s.async && s.runner == Gone ==> r.runner == Gone)
            && (a.CloseSignal? && s.async ==> r.stop)
  {
    if IsRunnerMove(a) {
      assert s.runner != Gone;
      hide Enabled, Touched;
    } else {
      hide Enabled, Touched;
    }
  }

  /** A stopped subscription stays stopped, a finished runner finished. */
  lemma StopsStay(b: Bus, a: Action, id: nat)
    requires Enabled(b, a)
    ensures Stopped(b, id) ==> Stopped(Apply(b, a), id)
    ensures Drained(b, id) ==> Drained(Apply(b, a), id)
    ensures a.CloseSignal? && Touched(b, a) == Some(id) ==> Stopped(Apply(b, a), id)
  {
    assert Apply(b, a).subs == NextSubs(b, a) by {
      hide Enabled, NextSubs;
    }
    hide NextSubs, Enabled, Touched, Apply, Rewrite;
    TouchedIsThere(b, a);
    if id < |b.subs| {
      SubAfter(b, a, id);
      if Touched(b, a) == Some(id) {
        RewriteStops(b, a, b.subs[id]);
      }
    }
  }

  lemma CloserKept(b: Bus, a: Action, k: Closer)
    requires Enabled(b, a) && CloserOk(b, k)
    ensures CloserOk(Apply(b, a), k)
  {
    RewriteKeepsTopic(b, a);
    forall id: nat ensures Stopped(b, id) ==> Stopped(Apply(b, a), id) {
      StopsStay(b, a, id);
    }
    forall id: nat ensures Drained(b, id) ==> Drained(Apply(b, a), id) {
      StopsStay(b, a, id);
    }
    hide Stopped, Drained, NextSubs, NextPubs, NextRegistry, NextClosers, Enabled;
  }

  predicate IsClose(a: Action) {
    a.CloseBegin? || a.CloseSignal? || a.CloseWait? || a.CloseTimeout?
  }

  lemma CloserBegins(b: Bus, a: Action)
    requires RegistryOk(b) && ClosersOk(b) && Enabled(b, a) && a.CloseBegin?
    ensures CloserOk(Apply(b, a), Apply(b, a).closers[a.c])
  {
    if !b.closed {
      forall i | 0 <= i < |a.captured| ensures a.captured[i] < |b.subs| {
        assert a.captured[i] in a.captured;
      }
    }
    RewriteKeepsTopic(b, a);
    hide RegistryOk, ClosersOk, NextSubs, NextPubs, NextRegistry, CapturesAll;
  }

  lemma CloserSignals(b: Bus, a: Action)
    requires ClosersOk(b) && Enabled(b, a) && a.CloseSignal?
    ensures CloserOk(Apply(b, a), Apply(b, a).closers[a.c])
  {
    var k := b.closers[a.c];
    assert CloserOk(b, k);
    CloserKept(b, a, k);
    StopsStay(b, a, k.captured[k.phase.next]);
    hide ClosersOk, NextSubs, NextPubs, NextRegistry, Stopped;
  }

  lemma CloserWaits(b: Bus, a: Action)
    requires ClosersOk(b) && Enabled(b, a) && (a.CloseWait? || a.CloseTimeout?)
    ensures CloserOk(Apply(b, a), Apply(b, a).closers[a.c])
  {
    assert CloserOk(b, b.closers[a.c]);
    assert Apply(b, a).subs == b.subs;
    hide ClosersOk, NextSubs, NextPubs, NextRegistry;
  }

  lemma ClosersStep(b: Bus, a: Action)
    requires RegistryOk(b) && ClosersOk(b) && Enabled(b, a)
    ensures ClosersOk(Apply(b, a))
  {
    var t := Apply(b, a);
    forall c | 0 <= c < |t.closers| ensures CloserOk(t, t.closers[c]) {
      if IsClose(a) && a.c == c {
        if a.CloseBegin? {
          CloserBegins(b, a);
        } else if a.CloseSignal? {
          CloserSignals(b, a);
        } else {
          CloserWaits(b, a);
        }
      } else {
        CloserKept(b, a, b.closers[c]);
      }
    }
    hide CloserOk, RegistryOk, NextSubs, NextPubs, NextRegistry, CapturesAll;
  }

  lemma {:induction false} InvHolds(b: Bus, acts: seq<Action>, t: Bus)
    requires Inv(b) && Leads(b, acts, t)
    ensures Inv(t)
    decreases |acts|
  {
    hide SubsOk, RegistryOk, PubsOk, ClosersOk, Apply, Enabled;
    if acts != [] {
      SubsStep(b, acts[0]);
      RegistryStep(b, acts[0]);
      PubsStep(b, acts[0]);
      ClosersStep(b, acts[0]);
      InvHolds(Apply(b, acts[0]), acts[1..], t);
    }
  }

  lemma ReachableInv(b: Bus)
    requires Reachable(b)
    ensures Inv(b)
  {
    var bufferSize, topics, closers, acts :| Leads(New(bufferSize, topics, closers), acts, b);
    InitInv(bufferSize, topics, closers);
    InvHolds(New(bufferSize, topics, closers), acts, b);
  }

  // ----- what a reachable bus guarantees -----

  /** An async subscription delivers a prefix of what was enqueued, in order, and its
      queue keeps within the buffer size. */
  lemma DeliveredInOrder(b: Bus, s: nat)
    requires Reachable(b) && s < |b.subs|
    ensures b.subs[s].delivered <= b.subs[s].enqueued && Distinct(b.subs[s].enqueued)
    ensures |b.subs[s].queue| <= b.cap
  {
    ReachableInv(b);
    assert SubOk(b.subs[s], b.cap);
  }

  /** Everything enqueued before the stop signal is delivered before done. */
  lemma DrainedBeforeDone(b: Bus, s: nat)
    requires Reachable(b) && s < |b.subs| && b.subs[s].runner == Gone
    ensures b.subs[s].stopMark <= |b.subs[s].delivered| <= |b.subs[s].enqueued|
    ensures b.subs[s].delivered[..b.subs[s].stopMark] == b.subs[s].enqueued[..b.subs[s].stopMark]
  {
    ReachableInv(b);
    assert SubOk(b.subs[s], b.cap);
  }

  function DrainWeight(s: Sub): nat {
    3 * |s.queue|
    + match s.runner
      case Listening => 3
      case Delivering(_) => 4
      case Draining => 1
      case DrainDelivering(_) => 2
      case Gone => 0
  }

  predicate IsRunnerStep(a: Action, s: nat) {
    a == RunnerTake(s) || a == RunnerDeliver(s) || a == RunnerNoticeStop(s) || a == RunnerExit(s)
  }

  /** A stopped subscription that is not done always has a step of its own to make. */
  lemma RunnerProgress(b: Bus, s: nat) returns (a: Action)
    requires Runs(b, s) && b.subs[s].stop && b.subs[s].runner != Gone && SubOk(b.subs[s], b.cap)
    ensures Enabled(b, a) && IsRunnerStep(a, s)
    ensures Apply(b, a).subs[s].runner == Gone ==> Apply(b, a).subs[s].delivered == b.subs[s].enqueued
    ensures Runs(Apply(b, a), s) && Apply(b, a).subs[s].stop
    ensures Apply(b, a).subs[s].enqueued == b.subs[s].enqueued && Apply(b, a).pubs == b.pubs
    ensures Apply(b, a).closers == b.closers && Apply(b, a).closed == b.closed
    ensures DrainWeight(Apply(b, a).subs[s]) < DrainWeight(b.subs[s])
  {
    match b.subs[s].runner
    case Listening => a := RunnerNoticeStop(s);
    case Delivering(_) => a := RunnerDeliver(s);
    case Draining => a := if b.subs[s].queue == [] then RunnerExit(s) else RunnerTake(s);
    case DrainDelivering(_) => a := RunnerDeliver(s);
  }

  /** After its stop signal a subscription comes to done by itself, in a bounded number of
      steps, and delivers all that was enqueued by now. */
  lemma {:induction false} SubscriptionDrains(b: Bus, s: nat) returns (acts: seq<Action>, t: Bus)
    requires Inv(b) && Runs(b, s) && b.subs[s].stop
    ensures Leads(b, acts, t) && |acts| <= DrainWeight(b.subs[s])
    ensures forall k :: 0 <= k < |acts| ==> IsRunnerStep(acts[k], s)
    ensures Runs(t, s) && t.subs[s].runner == Gone
    ensures b.subs[s].runner != Gone ==> t.subs[s].delivered == b.subs[s].enqueued
    ensures b.subs[s].runner == Gone ==> t == b
    ensures Inv(t) && t.pubs == b.pubs && t.subs[s].enqueued == b.subs[s].enqueued
    ensures t.closers == b.closers && t.closed == b.closed
    decreases DrainWeight(b.subs[s])
  {
    if b.subs[s].runner == Gone {
      return [], b;
    }
    assert SubOk(b.subs[s], b.cap);
    hide SubOk, SubsOk, RegistryOk, PubsOk, ClosersOk, Apply, Enabled;
    var a := RunnerProgress(b, s);
    SubsStep(b, a);
    RegistryStep(b, a);
    PubsStep(b, a);
    ClosersStep(b, a);
    var rest, u := SubscriptionDrains(Apply(b, a), s);
    acts, t := [a] + rest, u;
    assert acts[1..] == rest;
  }

  lemma InvStep(b: Bus, a: Action)
    requires Inv(b) && Enabled(b, a)
    ensures Inv(Apply(b, a))
  {
    SubsStep(b, a);
    RegistryStep(b, a);
    PubsStep(b, a);
    ClosersStep(b, a);
  }

  /** A Publish that returned met exactly the subscribers `ids`, in order, each once: its
      outcomes say whether the event was handled or enqueued there. Nobody else got it. */
  ghost predicate MetExactly(b: Bus, p: nat, ids: seq<nat>)
    requires p < |b.pubs|
  {
    && |b.pubs[p].outcomes| == |ids| && Distinct(ids)
    && (forall k :: 0 <= k < |ids| ==>
          && ids[k] < |b.subs| && b.subs[ids[k]].topic == b.pubs[p].topic
          && (p in b.subs[ids[k]].enqueued <==> b.pubs[p].outcomes[k] == Queued)
          && (p in b.subs[ids[k]].handled <==> b.pubs[p].outcomes[k] == Handled))
    && (forall s :: 0 <= s < |b.subs| && Reached(b.subs[s], p) ==> s in ids)
    && (forall s :: 0 <= s < |b.subs| ==> Distinct(b.subs[s].enqueued) && Distinct(b.subs[s].handled))
  }

  /** A Publish that returned without being rejected met its snapshot. */
  lemma PublishReachesSnapshot(b: Bus, p: nat)
    requires Inv(b) && p < |b.pubs| && b.pubs[p].phase == Published
    ensures MetExactly(b, p, b.pubs[p].snapshot)
  {
    assert PubOk(b, p);
    assert forall s :: 0 <= s < |b.subs| ==> SubOk(b.subs[s], b.cap);
  }

  lemma SnapshotStep(b: Bus, a: Action, p: nat)
    requires Enabled(b, a) && p < |b.pubs| && b.pubs[p].phase != NotPublished
    ensures var u := Apply(b, a);
            && p < |u.pubs| && u.pubs[p].snapshot == b.pubs[p].snapshot && u.pubs[p].topic == b.pubs[p].topic
            && (b.pubs[p].phase == Rejected ==> u.pubs[p] == b.pubs[p]) && u.pubs[p].phase != NotPublished
  {
    hide NextSubs, NextRegistry, NextClosers;
  }

  /** A snapshot, once taken, is walked to the end unchanged; a rejection is final. */
  lemma {:induction false} SnapshotStays(b: Bus, acts: seq<Action>, t: Bus, p: nat)
    requires Leads(b, acts, t) && p < |b.pubs| && b.pubs[p].phase != NotPublished
    ensures p < |t.pubs| && t.pubs[p].snapshot == b.pubs[p].snapshot && t.pubs[p].topic == b.pubs[p].topic
    ensures b.pubs[p].phase == Rejected ==> t.pubs[p] == b.pubs[p]
    ensures t.pubs[p].phase != NotPublished
    decreases |acts|
  {
    if acts != [] {
      SnapshotStep(b, acts[0], p);
      hide Apply, Enabled;
      SnapshotStays(Apply(b, acts[0]), acts[1..], t, p);
    }
  }

  /** A Publish that takes the lock while the bus is open, whatever else goes on before and
      after: once it has returned, its event went to exactly the subscriptions of the topic
      that were made and not removed before the lock, in the order they were made. */
  lemma PublishReachesSubscribed(b: Bus, p: nat, acts: seq<Action>, t: Bus)
    requires Reachable(b) && Enabled(b, PublishBegin(p)) && !b.closed
    requires Leads(Apply(b, PublishBegin(p)), acts, t)
    ensures p < |t.pubs| && t.pubs[p].snapshot == Subscribed(b.subs, b.pubs[p].topic)
    ensures t.pubs[p].phase == Published ==> MetExactly(t, p, Subscribed(b.subs, b.pubs[p].topic))
  {
    ReachableInv(b);
    ReachableIsExact(b);
    assert Registered(b, b.pubs[p].topic) == Subscribed(b.subs, b.pubs[p].topic);
    InvStep(b, PublishBegin(p));
    var u := Apply(b, PublishBegin(p));
    InvHolds(u, acts, t);
    SnapshotStays(u, acts, t, p);
    if t.pubs[p].phase == Published {
      PublishReachesSnapshot(t, p);
    }
  }

  lemma ReachableIsExact(b: Bus)
    requires Reachable(b)
    ensures RegistryExact(b)
  {
    var bufferSize, topics, closers, acts :| Leads(New(bufferSize, topics, closers), acts, b);
    RegistryExactHolds(New(bufferSize, topics, closers), acts, b);
  }

  /** A Publish that finds the bus closed is rejected, and its event never reaches anybody. */
  lemma ClosedReachesNobody(b: Bus, p: nat, acts: seq<Action>, t: Bus)
    requires Reachable(b) && Enabled(b, PublishBegin(p)) && b.closed
    requires Leads(Apply(b, PublishBegin(p)), acts, t)
    ensures p < |t.pubs| && t.pubs[p].phase == Rejected && forall s :: 0 <= s < |t.subs| ==> !Reached(t.subs[s], p)
  {
    ReachableInv(b);
    InvStep(b, PublishBegin(p));
    var u := Apply(b, PublishBegin(p));
    InvHolds(u, acts, t);
    SnapshotStays(u, acts, t, p);
    assert PubOk(t, p);
  }

  /** The Close call that closed the bus returned nil: every async subscription it
      captured has delivered all that was enqueued before its stop signal. */
  lemma CloseMeansDrained(b: Bus, c: nat, k: nat)
    requires Reachable(b) && c < |b.closers| && b.closers[c].first && b.closers[c].phase == ReturnedNil
    requires k < |b.closers[c].captured|
    ensures var id := b.closers[c].captured[k];
            id < |b.subs|
            && (b.subs[id].async ==> b.subs[id].runner == Gone && b.subs[id].stopMark <= |b.subs[id].delivered|)
  {
    ReachableInv(b);
    assert CloserOk(b, b.closers[c]);
    assert Drained(b, b.closers[c].captured[k]);
    assert SubOk(b.subs[b.closers[c].captured[k]], b.cap);
  }

  /** What the closing Close captures, whatever goes on around it: every subscription made
      and not removed before it, each once. */
  lemma CloseCapturesSubscribed(b: Bus, c: nat, captured: seq<nat>, acts: seq<Action>, t: Bus)
    requires Reachable(b) && !b.closed && Enabled(b, CloseBegin(c, captured))
    requires Leads(Apply(b, CloseBegin(c, captured)), acts, t)
    ensures c < |t.closers| && t.closers[c].first && t.closers[c].captured == captured && Distinct(captured)
    ensures forall id: nat :: id in captured <==> id < |b.subs| && !b.subs[id].removed
  {
    ReachableIsExact(b);
    forall id: nat ensures id in captured <==> id < |b.subs| && !b.subs[id].removed {
      if id in captured {
        var topic :| topic in b.registry && id in b.registry[topic];
        assert id in Registered(b, topic);
        SubscribedMeans(b.subs, topic, id);
      } else if id < |b.subs| {
        SubscribedMeans(b.subs, b.subs[id].topic, id);
        assert id !in Registered(b, b.subs[id].topic);
      }
    }
    CaptureStays(Apply(b, CloseBegin(c, captured)), acts, t, c);
  }

  lemma {:induction false} SubscribedMeans(subs: seq<Sub>, topic: nat, id: nat)
    ensures id in Subscribed(subs, topic) <==> id < |subs| && subs[id].topic == topic && !subs[id].removed
  {
    if subs != [] {
      SubscribedMeans(subs[..|subs| - 1], topic, id);
    }
  }

  /** No list of the registry has any of the first `n` subscriptions. */
  ghost predicate NoneBelow(b: Bus, n: nat) {
    forall topic, id: nat :: id in Registered(b, topic) ==> id >= n
  }

  lemma NoneBelowStep(b: Bus, a: Action, n: nat)
    requires Enabled(b, a) && NoneBelow(b, n) && n <= |b.subs|
    ensures NoneBelow(Apply(b, a), n) && n <= |Apply(b, a).subs|
  {
    var u := Apply(b, a);
    RewriteKeepsTopic(b, a);
    forall topic, id: nat | id in Registered(u, topic) ensures id >= n {
      if a.CloseBegin? {
        assert u.registry == if b.closed then b.registry else map[];
      } else {
        RegistryMoves(b, a, topic);
        WithoutShrinks(Registered(b, topic), if a.Unregister? then a.s else 0);
      }
      assert id in Registered(b, topic) || id == |b.subs|;
    }
  }

  lemma {:induction false} WithoutShrinks(ids: seq<nat>, id: nat)
    ensures forall x :: x in Without(ids, id) ==> x in ids
  {
    if ids != [] {
      WithoutShrinks(ids[1..], id);
    }
  }

  lemma {:induction false} NoneBelowStays(b: Bus, acts: seq<Action>, t: Bus, n: nat)
    requires Leads(b, acts, t) && NoneBelow(b, n) && n <= |b.subs|
    ensures NoneBelow(t, n)
    decreases |acts|
  {
    if acts != [] {
      NoneBelowStep(b, acts[0], n);
      hide Apply, Enabled, NoneBelow;
      NoneBelowStays(Apply(b, acts[0]), acts[1..], t, n);
    }
  }

  /** The closing Close takes every subscription made before out of the registry for good. */
  lemma CloseEmptiesRegistry(b: Bus, c: nat, captured: seq<nat>, acts: seq<Action>, t: Bus)
    requires !b.closed && Enabled(b, CloseBegin(c, captured)) && Leads(Apply(b, CloseBegin(c, captured)), acts, t)
    ensures forall topic, id: nat :: id in Registered(t, topic) ==> id >= |b.subs|
  {
    var u := Apply(b, CloseBegin(c, captured));
    assert u.registry == map[] && u.subs == b.subs;
    hide Apply, Enabled;
    NoneBelowStays(u, acts, t, |b.subs|);
  }

  lemma {:induction false} CaptureStays(b: Bus, acts: seq<Action>, t: Bus, c: nat)
    requires Leads(b, acts, t) && c < |b.closers| && b.closers[c].phase != NotClosing
    ensures c < |t.closers| && t.closers[c].captured == b.closers[c].captured && t.closers[c].first == b.closers[c].first
    decreases |acts|
  {
    if acts != [] {
      CaptureStep(b, acts[0], c);
      hide Apply, Enabled;
      CaptureStays(Apply(b, acts[0]), acts[1..], t, c);
    }
  }

  lemma CaptureStep(b: Bus, a: Action, c: nat)
    requires Enabled(b, a) && c < |b.closers| && b.closers[c].phase != NotClosing
    ensures var u := Apply(b, a);
            && c < |u.closers| && u.closers[c].phase != NotClosing
            && u.closers[c].captured == b.closers[c].captured && u.closers[c].first == b.closers[c].first
  {
    hide NextSubs, NextPubs, NextRegistry;
  }

  // ----- how the calls end -----

  function CloserLeft(k: Closer): nat {
    match k.phase
    case NotClosing => 2 * |k.captured| + 4
    case Signalling(next) => if next <= |k.captured| then 2 * |k.captured| + 2 - next else 0
    case Waiting(next) => if next <= |k.captured| then |k.captured| + 1 - next else 0
    case _ => 0
  }

  lemma CloseStep(b: Bus, a: Action, c: nat)
    requires Enabled(b, a) && c < |b.closers|
    ensures
      var before, u := b.closers[c].phase, Apply(b, a);
      && c < |u.closers|
      && (before in {ReturnedNil, TimedOut} ==> u.closers[c].phase == before && a != CloseTimeout(c))
      && (before !in {ReturnedNil, TimedOut} ==> (u.closers[c].phase == TimedOut <==> a == CloseTimeout(c)))
  {
    hide NextSubs, NextPubs, NextRegistry, CapturesAll;
  }

  /** A Close reports a timeout exactly when its context ended it. */
  lemma {:induction false} HowCloseEnds(b: Bus, acts: seq<Action>, t: Bus, c: nat)
    requires Leads(b, acts, t) && c < |b.closers|
    ensures c < |t.closers|
    ensures b.closers[c].phase in {ReturnedNil, TimedOut} ==>
      t.closers[c].phase == b.closers[c].phase && CloseTimeout(c) !in acts
    ensures b.closers[c].phase !in {ReturnedNil, TimedOut} ==>
      (t.closers[c].phase == TimedOut <==> CloseTimeout(c) in acts)
    decreases |acts|
  {
    if acts != [] {
      CloseStep(b, acts[0], c);
      hide Apply, Enabled;
      assert forall a :: a in acts <==> a == acts[0] || a in acts[1..];
      HowCloseEnds(Apply(b, acts[0]), acts[1..], t, c);
    }
  }

  /** The own steps of a Close, other than giving up. */
  predicate IsCloseStep(a: Action, c: nat) {
    (a.CloseBegin? || a.CloseSignal? || a.CloseWait?) && a.c == c
  }

  predicate IsDrainStep(a: Action) {
    a.RunnerTake? || a.RunnerDeliver? || a.RunnerNoticeStop? || a.RunnerExit?
  }

  /** A Close that is at work can return nil: its own steps and those of the runners lead
      there. */
  lemma {:induction false} CloseCanReturn(b: Bus, c: nat) returns (acts: seq<Action>, t: Bus)
    requires Inv(b) && c < |b.closers| && b.closers[c].phase !in {NotClosing, TimedOut}
    ensures Leads(b, acts, t) && c < |t.closers| && t.closers[c].phase == ReturnedNil
    ensures forall k :: 0 <= k < |acts| ==> IsDrainStep(acts[k]) || IsCloseStep(acts[k], c)
    decreases CloserLeft(b.closers[c])
  {
    if b.closers[c].phase == ReturnedNil {
      return [], b;
    }
    hide Inv, Apply, Enabled, Execute, IsDrainStep, IsCloseStep, CloserLeft;
    var turn, u := CloserTurn(b, c);
    var rest;
    rest, t := CloseCanReturn(u, c);
    LeadsThrough(b, turn, u, rest, t);
    acts := turn + rest;
  }

  /** The next own step of a Close, after the subscription it waits for has drained. */
  lemma CloserTurn(b: Bus, c: nat) returns (acts: seq<Action>, t: Bus)
    requires Inv(b) && c < |b.closers| && b.closers[c].phase !in {NotClosing, ReturnedNil, TimedOut}
    ensures Leads(b, acts, t) && Inv(t) && c < |t.closers| && t.closers[c].phase !in {NotClosing, TimedOut}
    ensures CloserLeft(t.closers[c]) < CloserLeft(b.closers[c])
    ensures forall k :: 0 <= k < |acts| ==> IsDrainStep(acts[k]) || IsCloseStep(acts[k], c)
  {
    ClosersAreOk(b, c);
    hide Inv, CloserOk, Apply, Enabled, Execute, IsDrainStep, IsCloseStep, CloserLeft;
    var drain, u := AwaitCurrent(b, c);
    var a := CloserMoves(u, c);
    t := Apply(u, a);
    InvStep(u, a);
    LeadsOne(u, a);
    LeadsThrough(b, drain, u, [a], t);
    acts := drain + [a];
  }

  /** A waiting Close waits for one subscription, which drains by itself. */
  lemma AwaitCurrent(b: Bus, c: nat) returns (acts: seq<Action>, t: Bus)
    requires Inv(b) && c < |b.closers| && CloserOk(b, b.closers[c])
    ensures Leads(b, acts, t) && Inv(t) && t.closers == b.closers && CloserOk(t, t.closers[c])
    ensures forall k :: 0 <= k < |acts| ==> IsDrainStep(acts[k])
    ensures
      var k := t.closers[c];
      k.phase.Waiting? && k.phase.next < |k.captured| ==> Drained(t, k.captured[k.phase.next])
  {
    var k := b.closers[c];
    acts, t := [], b;
    if k.phase.Waiting? && k.phase.next < |k.captured| {
      var id := k.captured[k.phase.next];
      assert Stopped(b, id);
      if b.subs[id].async {
        hide SubsOk, RegistryOk, PubsOk, ClosersOk, CloserOk;
        acts, t := SubscriptionDrains(b, id);
        assert CloserOk(t, t.closers[c]) by {
          hide SubsOk, RegistryOk, PubsOk, Leads;
          assert ClosersOk(t);
          ClosersAreOk(t, c);
        }
      }
    }
  }

  lemma ClosersAreOk(b: Bus, c: nat)
    requires ClosersOk(b) && c < |b.closers|
    ensures CloserOk(b, b.closers[c])
  {
  }

  lemma CloserMoves(b: Bus, c: nat) returns (a: Action)
    requires c < |b.closers| && CloserOk(b, b.closers[c]) && b.closers[c].phase !in {NotClosing, ReturnedNil, TimedOut}
    requires
      var k := b.closers[c];
      k.phase.Waiting? && k.phase.next < |k.captured| ==> Drained(b, k.captured[k.phase.next])
    ensures Enabled(b, a) && IsCloseStep(a, c)
    ensures
      var u := Apply(b, a);
      && c < |u.closers| && u.closers[c].phase !in {NotClosing, TimedOut}
      && CloserLeft(u.closers[c]) < CloserLeft(b.closers[c])
  {
    var k := b.closers[c];
    hide NextSubs, NextPubs, NextRegistry;
    a := if k.phase.Signalling? && k.phase.next < |k.captured| then CloseSignal(c) else CloseWait(c);
  }

  /** A Close can begin whenever it has not yet, whatever the registry holds. */
  lemma CloseCanBegin(b: Bus, c: nat) returns (captured: seq<nat>)
    requires RegistryExact(b) && c < |b.closers| && b.closers[c].phase == NotClosing
    ensures Enabled(b, CloseBegin(c, captured))
  {
    captured := Remaining(b.subs);
    if !b.closed {
      RemainingAre(b.subs);
      forall id: nat ensures id in captured <==> exists topic :: topic in b.registry && id in b.registry[topic] {
        if id in captured {
          var topic := b.subs[id].topic;
          SubscribedMeans(b.subs, topic, id);
          assert id in Registered(b, topic);
          assert topic in b.registry && id in b.registry[topic];
        }
        forall topic | topic in b.registry && id in b.registry[topic] ensures id in captured {
          assert id in Registered(b, topic);
          SubscribedMeans(b.subs, topic, id);
        }
      }
    }
  }

  /** The subscriptions that were not removed. */
  ghost function Remaining(subs: seq<Sub>): seq<nat> {
    if subs == [] then []
    else
      var n := |subs| - 1;
      Remaining(subs[..n]) + if subs[n].removed then [] else [n]
  }

  lemma {:induction false} RemainingAre(subs: seq<Sub>)
    ensures Distinct(Remaining(subs))
    ensures forall id: nat :: id in Remaining(subs) <==> id < |subs| && !subs[id].removed
  {
    if subs != [] {
      var n := |subs| - 1;
      var before := Remaining(subs[..n]);
      RemainingAre(subs[..n]);
      assert Remaining(subs) == before + if subs[n].removed then [] else [n];
      hide Remaining;
      forall k | 0 <= k < |before| ensures before[k] != n {
        assert before[k] in before;
      }
    }
  }

  /** What a Publish has to report so far: its context's error for some subscriber exactly
      if that context ended its wait, and a subscriber is passed by as gone only if it
      was stopped. */
  ghost predicate Told(b: Bus, p: nat, ctxDone: bool)
    requires p < |b.pubs|
  {
    && (b.pubs[p].phase == NotPublished ==> b.pubs[p].outcomes == [])
    && (SkippedCtx in b.pubs[p].outcomes <==> ctxDone)
    && forall k :: 0 <= k < |b.pubs[p].outcomes| && b.pubs[p].outcomes[k] == SkippedStopped ==>
         k < |b.pubs[p].snapshot| && Stopped(b, b.pubs[p].snapshot[k])
  }

  lemma ToldStep(b: Bus, a: Action, p: nat, ctxDone: bool)
    requires Enabled(b, a) && p < |b.pubs| && Told(b, p, ctxDone)
    ensures p < |Apply(b, a).pubs| && Told(Apply(b, a), p, ctxDone || a == PublishSkipCtx(p))
  {
    var q, u := b.pubs[p], Apply(b, a);
    PubsAfter(b, a);
    forall k | 0 <= k < |q.snapshot| && Stopped(b, q.snapshot[k]) ensures Stopped(u, q.snapshot[k]) {
      hide Apply, NextPubs, Told;
      StopsStay(b, a, q.snapshot[k]);
    }
    hide Apply, Stopped, NextPubs, Told;
    if IsWalk(a) && a.p == p {
      var o := PubWalked(b, a);
      if a.PublishSkipStopped? {
        SkippedIsStopped(b, a);
      }
      hide Enabled;
      ToldWalks(b, u, p, o, ctxDone);
    } else if a == PublishBegin(p) && !b.closed {
      BeginsWalk(b, p);
      hide Enabled;
      ToldBegins(b, u, p, ctxDone);
    } else {
      PubAfter(b, a, p);
      hide Enabled;
      ToldStays(b, u, p, ctxDone);
    }
  }

  lemma ToldWalks(b: Bus, u: Bus, p: nat, o: Outcome, ctxDone: bool)
    requires AtSub(b, p) && p < |u.pubs| && Told(b, p, ctxDone)
    requires u.pubs[p] == b.pubs[p].(outcomes := b.pubs[p].outcomes + [o], parked := false)
    requires forall k :: 0 <= k < |b.pubs[p].snapshot| && Stopped(b, b.pubs[p].snapshot[k]) ==> Stopped(u, b.pubs[p].snapshot[k])
    requires o == SkippedStopped ==> Stopped(b, CurrentSub(b, p))
    ensures Told(u, p, ctxDone || o == SkippedCtx)
  {
    hide Stopped;
  }

  lemma ToldBegins(b: Bus, u: Bus, p: nat, ctxDone: bool)
    requires p < |b.pubs| && Told(b, p, ctxDone) && b.pubs[p].phase == NotPublished
    requires p < |u.pubs| && u.pubs[p].outcomes == b.pubs[p].outcomes && u.pubs[p].phase == Publishing
    ensures Told(u, p, ctxDone)
  {
    hide Stopped;
  }

  lemma ToldStays(b: Bus, u: Bus, p: nat, ctxDone: bool)
    requires p < |b.pubs| && Told(b, p, ctxDone) && p < |u.pubs|
    requires u.pubs[p].outcomes == b.pubs[p].outcomes && u.pubs[p].snapshot == b.pubs[p].snapshot
    requires u.pubs[p].phase == NotPublished ==> b.pubs[p].phase == NotPublished
    requires forall k :: 0 <= k < |b.pubs[p].snapshot| && Stopped(b, b.pubs[p].snapshot[k]) ==> Stopped(u, b.pubs[p].snapshot[k])
    ensures Told(u, p, ctxDone)
  {
    hide Stopped;
  }

  lemma SkippedIsStopped(b: Bus, a: Action)
    requires Enabled(b, a) && a.PublishSkipStopped?
    ensures AtSub(b, a.p) && Stopped(b, CurrentSub(b, a.p))
  {
  }

  lemma BeginsWalk(b: Bus, p: nat)
    requires Enabled(b, PublishBegin(p)) && !b.closed
    ensures p < |b.pubs| && b.pubs[p].phase == NotPublished && p < |NextPubs(b, PublishBegin(p))|
    ensures NextPubs(b, PublishBegin(p))[p].outcomes == b.pubs[p].outcomes
    ensures NextPubs(b, PublishBegin(p))[p].phase == Publishing
  {
  }

  lemma {:induction false} PublishTold(b: Bus, acts: seq<Action>, t: Bus, p: nat, ctxDone: bool)
    requires Leads(b, acts, t) && p < |b.pubs| && Told(b, p, ctxDone)
    ensures p < |t.pubs| && Told(t, p, ctxDone || PublishSkipCtx(p) in acts)
    decreases |acts|
  {
    if acts != [] {
      ToldStep(b, acts[0], p, ctxDone);
      hide Apply, Enabled, Told;
      assert forall a :: a in acts <==> a == acts[0] || a in acts[1..];
      PublishTold(Apply(b, acts[0]), acts[1..], t, p, ctxDone || acts[0] == PublishSkipCtx(p));
    }
  }

  /** Over any run: a Publish fails to enqueue somewhere exactly if its own context ended a
      wait, and passes by only subscriptions that were stopped. */
  lemma PublishReports(bufferSize: int, topics: seq<nat>, closers: nat, acts: seq<Action>, t: Bus, p: nat)
    requires Leads(New(bufferSize, topics, closers), acts, t) && p < |topics|
    ensures p < |t.pubs| && (SkippedCtx in t.pubs[p].outcomes <==> PublishSkipCtx(p) in acts)
    ensures forall k :: 0 <= k < |t.pubs[p].outcomes| && t.pubs[p].outcomes[k] == SkippedStopped ==>
      k < |t.pubs[p].snapshot| && Stopped(t, t.pubs[p].snapshot[k])
  {
    PublishTold(New(bufferSize, topics, closers), acts, t, p, false);
  }

  // ----- what stopped subscriptions do to publishers -----

  /** Unsubscribing takes a subscription out of the registry before it stops it. */
  ghost predicate RemovedFirst(b: Bus) {
    !b.closed ==> forall s :: 0 <= s < |b.subs| && b.subs[s].stop ==> b.subs[s].removed
  }

  lemma RemovedFirstStep(b: Bus, a: Action)
    requires Enabled(b, a) && ClosersOk(b) && RemovedFirst(b)
    ensures RemovedFirst(Apply(b, a))
  {
    var u := Apply(b, a);
    assert u.subs == NextSubs(b, a) && u.closed == (b.closed || a.CloseBegin?);
    if !u.closed {
      RewriteKeepsTopic(b, a);
      TouchedIsThere(b, a);
      assert !a.CloseSignal?;
      forall s: nat | s < |u.subs| && u.subs[s].stop ensures u.subs[s].removed {
        if s < |b.subs| {
          SubAfter(b, a, s);
        }
      }
    }
  }

  lemma {:induction false} RemovedFirstHolds(b: Bus, acts: seq<Action>, t: Bus)
    requires Inv(b) && RemovedFirst(b) && Leads(b, acts, t)
    ensures RemovedFirst(t)
    decreases |acts|
  {
    if acts != [] {
      InvStep(b, acts[0]);
      RemovedFirstStep(b, acts[0]);
      hide SubsOk, RegistryOk, PubsOk, ClosersOk, Apply, Enabled, RemovedFirst;
      RemovedFirstHolds(Apply(b, acts[0]), acts[1..], t);
    }
  }

  /** A Publish that takes the lock on an open bus meets no subscription that is stopped. */
  lemma PublishMeetsLive(b: Bus, p: nat, id: nat)
    requires Reachable(b) && !b.closed && p < |b.pubs| && id in Registered(b, b.pubs[p].topic)
    ensures id < |b.subs| && !b.subs[id].stop
  {
    var bufferSize, topics, closers, acts :| Leads(New(bufferSize, topics, closers), acts, b);
    InitInv(bufferSize, topics, closers);
    RemovedFirstHolds(New(bufferSize, topics, closers), acts, b);
    ReachableIsExact(b);
    SubscribedMeans(b.subs, b.pubs[p].topic, id);
  }

  lemma WaitStep(b: Bus, a: Action, p: nat, s: nat)
    requires Enabled(b, a) && Runs(b, s) && b.subs[s].stop
    requires p < |b.pubs| && b.pubs[p].phase != NotPublished && !ParkedAt(b, p, s)
    ensures
      var u := Apply(b, a);
      && Runs(u, s) && u.subs[s].stop && p < |u.pubs| && u.pubs[p].phase != NotPublished && !ParkedAt(u, p, s)
  {
    assert Apply(b, a).subs == NextSubs(b, a);
    RewriteKeepsTopic(b, a);
    StopsStay(b, a, s);
    assert Stopped(b, s);
    PubsAfter(b, a);
    hide NextSubs, Apply;
    WaitOfPub(b, a, p, s);
    hide Enabled, NextPubs;
  }

  lemma WaitOfPub(b: Bus, a: Action, p: nat, s: nat)
    requires Enabled(b, a) && Runs(b, s) && b.subs[s].stop
    requires p < |b.pubs| && b.pubs[p].phase != NotPublished && !ParkedAt(b, p, s)
    ensures p < |NextPubs(b, a)|
    ensures
      var q, r := b.pubs[p], NextPubs(b, a)[p];
      && r.phase != NotPublished && r.snapshot == q.snapshot
      && (r.parked && r.phase == Publishing ==>
            && r.outcomes == q.outcomes && q.phase == Publishing
            && (q.parked || (AtSub(b, p) && CurrentSub(b, p) != s)))
  {
  }

  /** A stopped subscription never makes a publisher wait that was not waiting there. */
  lemma {:induction false} StoppedNeverBlocks(b: Bus, acts: seq<Action>, t: Bus, p: nat, s: nat)
    requires Leads(b, acts, t) && Runs(b, s) && b.subs[s].stop
    requires p < |b.pubs| && b.pubs[p].phase != NotPublished && !ParkedAt(b, p, s)
    ensures !ParkedAt(t, p, s)
    decreases |acts|
  {
    if acts != [] {
      WaitStep(b, acts[0], p, s);
      hide Apply, Enabled, ParkedAt;
      StoppedNeverBlocks(Apply(b, acts[0]), acts[1..], t, p, s);
    }
  }

  /** While an enqueued event is not delivered, the runner of its subscription has a step
      that takes one off the queue or delivers one. */
  lemma DeliveryProgress(b: Bus, s: nat) returns (a: Action)
    requires Runs(b, s) && SubOk(b.subs[s], b.cap) && b.subs[s].runner != Gone
    requires |b.subs[s].delivered| < |b.subs[s].enqueued|
    ensures Enabled(b, a) && (a == RunnerTake(s) || (a.RunnerTakeAdmit? && a.s == s) || a == RunnerDeliver(s))
  {
    var sub := b.subs[s];
    if sub.runner.Delivering? || sub.runner.DrainDelivering? {
      return RunnerDeliver(s);
    }
    assert sub.queue != [];
    if sub.stop || forall p: nat :: !ParkedAt(b, p, s) {
      return RunnerTake(s);
    }
    var p: nat :| ParkedAt(b, p, s);
    a := RunnerTakeAdmit(s, p);
  }

  // ----- which stops lose no event -----

  /** Nobody who publishes from now on meets it. */
  predicate Leaving(b: Bus, s: nat) {
    Runs(b, s) && (b.subs[s].removed || b.closed)
  }

  /** A publisher has yet to come to subscription `s`, or is there and before its select. */
  predicate HeadedTo(q: Pub, s: nat) {
    && q.phase == Publishing
    && exists k :: |q.outcomes| <= k < |q.snapshot| && q.snapshot[k] == s && !(q.parked && k == |q.outcomes|)
  }

  predicate Headed(b: Bus, p: nat, s: nat) {
    p < |b.pubs| && HeadedTo(b.pubs[p], s)
  }

  predicate NoneHeaded(b: Bus, s: nat) {
    forall p :: 0 <= p < |b.pubs| ==> !Headed(b, p, s)
  }

  /** Whatever happens from here, a finished runner has delivered all that was enqueued. */
  ghost predicate NeverStrands(b: Bus, s: nat) {
    forall acts, t :: Leads(b, acts, t) && s < |t.subs| && t.subs[s].runner == Gone ==>
      t.subs[s].delivered == t.subs[s].enqueued
  }

  /** No event is enqueued after the stop signal of a subscription nobody is headed to. */
  ghost predicate Quiet(b: Bus, s: nat) {
    Leaving(b, s) && NoneHeaded(b, s) && (b.subs[s].stop ==> b.subs[s].stopMark == |b.subs[s].enqueued|)
  }

  lemma LeavingStep(b: Bus, a: Action, s: nat)
    requires Enabled(b, a) && Leaving(b, s)
    ensures Leaving(Apply(b, a), s)
  {
    hide NextPubs, NextRegistry, NextClosers;
  }

  /** Who begins to publish now does not meet a leaving subscription. */
  lemma BeginsElsewhere(b: Bus, p: nat, s: nat)
    requires RegistryExact(b) && Enabled(b, PublishBegin(p)) && Leaving(b, s)
    ensures !Headed(Apply(b, PublishBegin(p)), p, s)
  {
    var t := Apply(b, PublishBegin(p));
    assert t.pubs[p] == NextPub(b, PublishBegin(p), b.pubs[p]);
    hide Apply, NextPubs;
    if !b.closed {
      SubscribedMeans(b.subs, b.pubs[p].topic, s);
      assert s !in Registered(b, b.pubs[p].topic);
      hide RegistryExact, Subscribed, Registered;
    }
  }

  lemma WalkedOn(q: Pub, s: nat, o: Outcome)
    requires !HeadedTo(q, s)
    ensures !HeadedTo(q.(outcomes := q.outcomes + [o], parked := false), s)
  {
  }

  lemma HeadedWalk(b: Bus, a: Action, s: nat)
    requires Enabled(b, a) && IsWalk(a) && !HeadedTo(b.pubs[a.p], s)
    ensures a.p < |NextPubs(b, a)| && !HeadedTo(NextPubs(b, a)[a.p], s)
  {
    hide HeadedTo, NextPubs;
    var o := PubWalked(b, a);
    hide Enabled;
    WalkedOn(b.pubs[a.p], s, o);
  }

  lemma HeadedOther(b: Bus, a: Action, s: nat, p: nat)
    requires Enabled(b, a) && p < |b.pubs| && !(IsWalk(a) && a.p == p) && !(a == PublishBegin(p) && !b.closed)
    requires !HeadedTo(b.pubs[p], s)
    ensures p < |NextPubs(b, a)| && !HeadedTo(NextPubs(b, a)[p], s)
  {
    hide NextPubs;
    PubAfter(b, a, p);
    hide Enabled;
  }

  lemma PubsAfter(b: Bus, a: Action)
    requires Enabled(b, a)
    ensures Apply(b, a).pubs == NextPubs(b, a) && |NextPubs(b, a)| == |b.pubs|
  {
    hide Enabled, NextSubs, NextPub;
  }

  lemma HeadedStep(b: Bus, a: Action, s: nat, p: nat)
    requires RegistryExact(b) && Enabled(b, a) && Leaving(b, s) && !Headed(b, p, s)
    ensures !Headed(Apply(b, a), p, s)
  {
    hide HeadedTo, NextPubs, Apply, Enabled, RegistryExact, Leaving;
    PubsAfter(b, a);
    TouchedIsThere(b, a);
    if a == PublishBegin(p) {
      BeginsElsewhere(b, p, s);
    } else if p < |b.pubs| {
      if IsWalk(a) && a.p == p {
        HeadedWalk(b, a, s);
      } else {
        HeadedOther(b, a, s, p);
      }
    }
  }

  lemma SenderIsHeaded(b: Bus, p: nat)
    requires AtSub(b, p) && !b.pubs[p].parked
    ensures Headed(b, p, CurrentSub(b, p))
  {
  }

  lemma StopMarkStep(b: Bus, a: Action, s: nat)
    requires Enabled(b, a) && Quiet(b, s)
    ensures var u := Apply(b, a).subs[s];
            u.stop ==> u.stopMark == |u.enqueued|
  {
    hide NextPubs, NextRegistry, NextClosers;
    if a.PublishSend? {
      SenderIsHeaded(b, a.p);
    }
    hide Headed, Enabled;
  }

  lemma {:induction false} QuietStays(b: Bus, acts: seq<Action>, t: Bus, s: nat)
    requires RegistryExact(b) && Quiet(b, s) && Leads(b, acts, t)
    ensures Quiet(t, s)
    decreases |acts|
  {
    if acts != [] {
      var a := acts[0];
      RegistryExactStep(b, a);
      LeavingStep(b, a, s);
      StopMarkStep(b, a, s);
      forall p | 0 <= p < |Apply(b, a).pubs| ensures !Headed(Apply(b, a), p, s) {
        assert |Apply(b, a).pubs| == |b.pubs|;
        HeadedStep(b, a, s, p);
      }
      assert Quiet(Apply(b, a), s);
      hide RegistryExact, Quiet, Apply, Enabled;
      QuietStays(Apply(b, a), acts[1..], t, s);
    }
  }

  lemma {:induction false} LeadsThrough(b: Bus, first: seq<Action>, t: Bus, second: seq<Action>, u: Bus)
    requires Leads(b, first, t) && Leads(t, second, u)
    ensures Leads(b, first + second, u)
    decreases |first|
  {
    hide Apply, Enabled;
    if first == [] {
      assert first + second == second;
    } else {
      assert (first + second)[1..] == first[1..] + second;
      LeadsThrough(Apply(b, first[0]), first[1..], t, second, u);
    }
  }

  lemma LeadsOne(b: Bus, a: Action)
    requires Enabled(b, a)
    ensures Leads(b, [a], Apply(b, a))
  {
    hide Apply, Enabled;
    assert [a][1..] == [] && Execute(Apply(b, a), []) == Some(Apply(b, a));
  }

  /** A publisher can always get past the subscriber it is at without enqueuing. */
  lemma PassBy(b: Bus, p: nat) returns (a: Action)
    requires AtSub(b, p)
    ensures Enabled(b, a) && IsWalk(a) && a.p == p && !IsSend(a)
    ensures Touched(b, a) == None || (a.PublishHandle? && !b.subs[CurrentSub(b, p)].async)
  {
    var s := b.subs[CurrentSub(b, p)];
    if !s.async {
      a := PublishHandle(p);
    } else if s.stop {
      a := PublishSkipStopped(p);
    } else {
      a := PublishSkipCtx(p);
    }
  }

  lemma PassByKeeps(b: Bus, a: Action, s: nat)
    requires Enabled(b, a) && IsWalk(a) && !IsSend(a) && Runs(b, s)
    requires a.PublishHandle? ==> !b.subs[CurrentSub(b, a.p)].async
    ensures var u := Apply(b, a);
            && Runs(u, s) && u.subs[s] == b.subs[s] && |u.subs| == |b.subs| && |u.pubs| == |b.pubs|
            && u.pubs[a.p].phase == Publishing && u.pubs[a.p].snapshot == b.pubs[a.p].snapshot
            && |u.pubs[a.p].outcomes| == |b.pubs[a.p].outcomes| + 1 && !u.pubs[a.p].parked && u.cap == b.cap
  {
    hide NextRegistry, NextClosers;
  }

  /** A publisher walks on to the subscriber at place `k` of its snapshot. */
  lemma {:induction false} WalkTo(b: Bus, p: nat, k: nat, s: nat) returns (acts: seq<Action>, t: Bus)
    requires Runs(b, s) && p < |b.pubs| && b.pubs[p].phase == Publishing && AllBelow(b.pubs[p].snapshot, |b.subs|)
    requires |b.pubs[p].outcomes| <= k < |b.pubs[p].snapshot| && b.pubs[p].snapshot[k] == s
    requires !(b.pubs[p].parked && k == |b.pubs[p].outcomes|)
    ensures Leads(b, acts, t) && Runs(t, s) && t.subs[s] == b.subs[s] && t.cap == b.cap
    ensures AtSub(t, p) && CurrentSub(t, p) == s && !t.pubs[p].parked
    decreases k - |b.pubs[p].outcomes|
  {
    if |b.pubs[p].outcomes| == k {
      return [], b;
    }
    assert AtSub(b, p);
    var a := PassBy(b, p);
    PassByKeeps(b, a, s);
    hide Apply, Enabled;
    var rest;
    rest, t := WalkTo(Apply(b, a), p, k, s);
    acts := [a] + rest;
    assert acts[1..] == rest;
  }

  /** From a subscription that is leaving to one that is stopped. */
  lemma StopNow(b: Bus, s: nat) returns (acts: seq<Action>, t: Bus)
    requires Inv(b) && Leaving(b, s) && !b.subs[s].stop
    ensures Leads(b, acts, t) && Inv(t) && Runs(t, s) && t.subs[s].stop && t.pubs == b.pubs
    ensures t.subs[s].runner == b.subs[s].runner
  {
    var u := Apply(b, Unregister(s));
    assert Enabled(b, Unregister(s));
    RemoveNow(b, s);
    t := Apply(u, UnsubscribeStop(s));
    SignalNow(u, s);
    InvStep(b, Unregister(s));
    LeadsOne(b, Unregister(s));
    hide Inv, Execute, Apply, Enabled;
    InvStep(u, UnsubscribeStop(s));
    LeadsOne(u, UnsubscribeStop(s));
    LeadsThrough(b, [Unregister(s)], u, [UnsubscribeStop(s)], t);
    acts := [Unregister(s)] + [UnsubscribeStop(s)];
  }

  lemma RemoveNow(b: Bus, s: nat)
    requires Enabled(b, Unregister(s)) && Runs(b, s)
    ensures var u := Apply(b, Unregister(s));
            Runs(u, s) && u.subs[s] == b.subs[s].(removed := true) && u.pubs == b.pubs && Enabled(u, UnsubscribeStop(s))
  {
    hide NextRegistry, NextClosers;
  }

  lemma SignalNow(b: Bus, s: nat)
    requires Enabled(b, UnsubscribeStop(s))
    ensures var u := Apply(b, UnsubscribeStop(s));
            Runs(u, s) && u.subs[s] == SignalStop(b.subs[s]) && u.pubs == b.pubs
  {
    hide NextRegistry, NextClosers;
  }

  lemma DrainedQueue(b: Bus, s: nat, p: nat, k: nat)
    requires Inv(b) && Runs(b, s) && b.subs[s].delivered == b.subs[s].enqueued && b.subs[s].runner == Gone
    requires p < |b.pubs| && |b.pubs[p].outcomes| <= k < |b.pubs[p].snapshot| && b.pubs[p].snapshot[k] == s
    ensures b.subs[s].queue == [] && p !in b.subs[s].delivered && b.cap > 0
    ensures AllBelow(b.pubs[p].snapshot, |b.subs|)
  {
    assert SubOk(b.subs[s], b.cap) && PubOk(b, p);
    assert s !in b.pubs[p].snapshot[..|b.pubs[p].outcomes|];
  }

  /** A stopped subscription drains and its runner leaves while a publisher is headed to it. */
  lemma DrainMeanwhile(b: Bus, s: nat, p: nat, k: nat) returns (acts: seq<Action>, t: Bus)
    requires Inv(b) && Leaving(b, s) && !b.subs[s].stop
    requires p < |b.pubs| && |b.pubs[p].outcomes| <= k < |b.pubs[p].snapshot| && b.pubs[p].snapshot[k] == s
    ensures Leads(b, acts, t) && Inv(t) && Runs(t, s) && t.subs[s].runner == Gone && t.pubs == b.pubs
    ensures t.subs[s].queue == [] && p !in t.subs[s].delivered && t.cap > 0
    ensures AllBelow(t.pubs[p].snapshot, |t.subs|)
  {
    assert SubOk(b.subs[s], b.cap);
    hide Inv, Leaving;
    var stop, u := StopNow(b, s);
    var drain;
    drain, t := SubscriptionDrains(u, s);
    acts := stop + drain;
    LeadsThrough(b, stop, u, drain, t);
    DrainedQueue(t, s, p, k);
  }

  /** The event of a publisher headed to a subscription can be lost: the runner drains its
      queue and leaves before the event is enqueued. */
  lemma HeadedCanStrand(b: Bus, s: nat, p: nat) returns (acts: seq<Action>, t: Bus)
    requires Inv(b) && Leaving(b, s) && !b.subs[s].stop && Headed(b, p, s)
    ensures Leads(b, acts, t) && s < |t.subs| && t.subs[s].runner == Gone
    ensures p in t.subs[s].enqueued && p !in t.subs[s].delivered
  {
    var k: nat :| |b.pubs[p].outcomes| <= k < |b.pubs[p].snapshot| && b.pubs[p].snapshot[k] == s
      && !(b.pubs[p].parked && k == |b.pubs[p].outcomes|);
    hide Inv, Leaving;
    var drain, u := DrainMeanwhile(b, s, p, k);
    var walk, v := WalkTo(u, p, k, s);
    LeadsThrough(b, drain, u, walk, v);
    t := SendLast(v, p, s);
    LeadsOne(v, PublishSend(p));
    acts := drain + walk + [PublishSend(p)];
    hide Apply, Enabled;
    LeadsThrough(b, drain + walk, v, [PublishSend(p)], t);
  }

  lemma SendLast(b: Bus, p: nat, s: nat) returns (t: Bus)
    requires AtSub(b, p) && Runs(b, s) && CurrentSub(b, p) == s && !b.pubs[p].parked && |b.subs[s].queue| < b.cap
    ensures Enabled(b, PublishSend(p)) && t == Apply(b, PublishSend(p)) && s < |t.subs|
    ensures t.subs[s] == Send(b.subs[s], p)
  {
    t := Apply(b, PublishSend(p));
  }

  /** The exact condition, once no new publisher can meet a subscription and before its stop
      signal: nobody is headed to it. One parked at its full queue does no harm. */
  lemma NeverStrandsIff(b: Bus, s: nat)
    requires Reachable(b) && Leaving(b, s) && !b.subs[s].stop
    ensures NeverStrands(b, s) <==> NoneHeaded(b, s)
  {
    ReachableInv(b);
    ReachableIsExact(b);
    hide Inv, RegistryExact;
    if NoneHeaded(b, s) {
      forall acts, t | Leads(b, acts, t) && s < |t.subs| && t.subs[s].runner == Gone
        ensures t.subs[s].delivered == t.subs[s].enqueued
      {
        InvHolds(b, acts, t);
        QuietStays(b, acts, t, s);
        QuietDelivers(t, s);
      }
    } else {
      var p: nat :| p < |b.pubs| && Headed(b, p, s);
      var acts, t := HeadedCanStrand(b, s, p);
    }
  }

  lemma QuietDelivers(b: Bus, s: nat)
    requires Inv(b) && Quiet(b, s) && b.subs[s].runner == Gone
    ensures b.subs[s].delivered == b.subs[s].enqueued
  {
    assert SubOk(b.subs[s], b.cap);
  }

  lemma {:induction false} GoneIsFinal(b: Bus, acts: seq<Action>, t: Bus, s: nat)
    requires Leads(b, acts, t) && Runs(b, s) && b.subs[s].runner == Gone
    ensures Runs(t, s) && t.subs[s].runner == Gone && t.subs[s].delivered == b.subs[s].delivered
    decreases |acts|
  {
    if acts != [] {
      GoneStep(b, acts[0], s);
      hide Apply, Enabled;
      GoneIsFinal(Apply(b, acts[0]), acts[1..], t, s);
    }
  }

  lemma GoneStep(b: Bus, a: Action, s: nat)
    requires Enabled(b, a) && Runs(b, s) && b.subs[s].runner == Gone
    ensures var u := Apply(b, a);
            Runs(u, s) && u.subs[s].runner == Gone && u.subs[s].delivered == b.subs[s].delivered
  {
    hide NextPubs, NextRegistry, NextClosers;
  }

  /** One subscription and one publisher, before and after its snapshot. */
  const SUBSCRIBED := Bus(1, false, map[0 := [0]], [NewSub(0, true)], [Pub(0, NotPublished, [], [], false)], [])

  const SNAPSHOT_TAKEN := SUBSCRIBED.(pubs := [Pub(0, Publishing, [0], [], false)])

  lemma FirstSubscription()
    ensures Apply(New(1, [0], 0), Subscribe(0, true)) == SUBSCRIBED
  {
    var t := Apply(New(1, [0], 0), Subscribe(0, true));
    assert Registered(New(1, [0], 0), 0) + [0] == [0];
    assert t.pubs == SUBSCRIBED.pubs && t.subs == SUBSCRIBED.subs && t.registry == SUBSCRIBED.registry;
    assert t.closers == [];
  }

  lemma FirstSnapshot()
    ensures Enabled(SUBSCRIBED, PublishBegin(0)) && Apply(SUBSCRIBED, PublishBegin(0)) == SNAPSHOT_TAKEN
  {
  }

  lemma FirstRemoval() returns (b: Bus)
    ensures Enabled(SNAPSHOT_TAKEN, Unregister(0)) && b == Apply(SNAPSHOT_TAKEN, Unregister(0))
    ensures Leaving(b, 0) && !b.subs[0].stop && Headed(b, 0, 0)
  {
    b := Apply(SNAPSHOT_TAKEN, Unregister(0));
    assert b.pubs == SNAPSHOT_TAKEN.pubs && b.pubs[0].snapshot[0] == 0;
  }

  /** The publisher has taken its snapshot when the subscription in it is removed. */
  lemma RemovedAfterSnapshot() returns (acts: seq<Action>, b: Bus)
    ensures Leads(New(1, [0], 0), acts, b) && Inv(b) && Leaving(b, 0) && !b.subs[0].stop && Headed(b, 0, 0)
  {
    var start := New(1, [0], 0);
    assert Leads(start, [], start) && Enabled(start, Subscribe(0, true));
    InitInv(1, [0], 0);
    hide Inv, Execute, Apply, Enabled, Leaving, Headed;
    FirstSubscription();
    FirstSnapshot();
    b := FirstRemoval();
    OneMore(start, [], start, Subscribe(0, true));
    OneMore(start, [] + [Subscribe(0, true)], SUBSCRIBED, PublishBegin(0));
    acts := [] + [Subscribe(0, true)] + [PublishBegin(0)];
    OneMore(start, acts, SNAPSHOT_TAKEN, Unregister(0));
    acts := acts + [Unregister(0)];
  }

  /** An unsubscribed handler may never see an event that Publish enqueued for it. */
  lemma StrandedEvent() returns (b: Bus)
    ensures Reachable(b) && |b.subs| > 0 && 0 in b.subs[0].enqueued
    ensures forall acts, t :: Leads(b, acts, t) ==> |t.subs| > 0 && 0 !in t.subs[0].delivered
  {
    hide Inv, Leaving, Headed, Apply, Enabled, Execute;
    var begun, left := RemovedAfterSnapshot();
    var acts;
    acts, b := HeadedCanStrand(left, 0, 0);
    LeadsThrough(New(1, [0], 0), begun, left, acts, b);
    assert Reachable(b);
    ReachableInv(b);
    AsyncWhenEnqueued(b, 0, 0);
    forall more, t | Leads(b, more, t) ensures |t.subs| > 0 && 0 !in t.subs[0].delivered {
      GoneIsFinal(b, more, t, 0);
    }
  }

  lemma AsyncWhenEnqueued(b: Bus, s: nat, p: nat)
    requires Inv(b) && s < |b.subs| && p in b.subs[s].enqueued
    ensures Runs(b, s)
  {
    assert SubOk(b.subs[s], b.cap);
  }

  lemma OneMore(b: Bus, acts: seq<Action>, t: Bus, a: Action)
    requires Leads(b, acts, t) && Inv(t) && Enabled(t, a)
    ensures Leads(b, acts + [a], Apply(t, a)) && Inv(Apply(t, a))
  {
    InvStep(t, a);
    hide Apply, Enabled, Inv;
    LeadsOne(t, a);
    LeadsThrough(b, acts, t, [a], Apply(t, a));
  }
}
