/** The debounce loop of the configuration watcher (pkg/config/watcher.go). */
module Watcher {
  import opened Common

  /** What the loop receives: a file event by its operations, an error, the end of either
      channel, or the cancellation of its context. */
  datatype What =
    | FileEvent(write: bool, create: bool)
    | WatcherError
    | EventsClosed
    | ErrorsClosed
    | Cancelled

  /** An input at a time. When a timer is due at that very time, `late` says whether
      stopping it comes too late. */
  datatype Input = Input(at: nat, what: What, late: bool)

  predicate Triggers(x: Input) {
    x.what.FileEvent? && (x.what.write || x.what.create)
  }

  predicate Ends(x: Input) {
    x.what.EventsClosed? || x.what.ErrorsClosed? || x.what.Cancelled?
  }

  predicate Ignored(x: Input) {
    !Triggers(x) && !Ends(x)
  }

  ghost predicate Timed(inputs: seq<Input>) {
    forall i, j :: 0 <= i < j < |inputs| ==> inputs[i].at <= inputs[j].at
  }

  // ----- when reloads happen -----

  /** The next write, creation or cancellation, if the loop lives to see it. */
  function Disturber(inputs: seq<Input>): Option<Input> {
    if inputs == [] || inputs[0].what.EventsClosed? || inputs[0].what.ErrorsClosed? then None
    else if Triggers(inputs[0]) || inputs[0].what.Cancelled? then Some(inputs[0])
    else Disturber(inputs[1..])
  }

  /** A timer with this deadline goes off before anything stops it. */
  predicate Outlives(deadline: nat, inputs: seq<Input>) {
    var d := Disturber(inputs);
    d.None? || d.value.at > deadline || (d.value.at == deadline && d.value.late)
  }

  /** The times of the reloads: one delay after each write or creation that is the last
      one or whose successor is later than that. */
  function Reloads(inputs: seq<Input>, delay: nat): seq<nat> {
    if inputs == [] || Ends(inputs[0]) then []
    else if Triggers(inputs[0]) && Outlives(inputs[0].at + delay, inputs[1..])
    then [inputs[0].at + delay] + Reloads(inputs[1..], delay)
    else Reloads(inputs[1..], delay)
  }

  /** The i-th input is a write or creation that the loop sees and that is reloaded at `e`. */
  ghost predicate ReloadedAt(inputs: seq<Input>, delay: nat, i: nat, e: nat) {
    && i < |inputs| && Triggers(inputs[i])
    && (forall j :: 0 <= j < i ==> !Ends(inputs[j]))
    && e == inputs[i].at + delay && Outlives(e, inputs[i + 1..])
  }

  lemma {:induction false} ReloadIff(inputs: seq<Input>, delay: nat, e: nat)
    ensures e in Reloads(inputs, delay) <==> exists i :: ReloadedAt(inputs, delay, i, e)
  {
    if inputs != [] && !Ends(inputs[0]) {
      ReloadIff(inputs[1..], delay, e);
      if i: nat :| ReloadedAt(inputs[1..], delay, i, e) {
        assert inputs[1..][i + 1..] == inputs[i + 2..];
        forall j | 0 <= j < i + 1 ensures !Ends(inputs[j]) {
          assert j > 0 ==> inputs[j] == inputs[1..][j - 1];
        }
        assert ReloadedAt(inputs, delay, i + 1, e);
      }
      if i: nat :| ReloadedAt(inputs, delay, i, e) {
        if i > 0 {
          assert inputs[1..][i..] == inputs[i + 1..];
          assert forall j :: 0 <= j < i - 1 ==> inputs[1..][j] == inputs[j + 1];
          assert ReloadedAt(inputs[1..], delay, i - 1, e);
        }
      }
      if Triggers(inputs[0]) && Outlives(inputs[0].at + delay, inputs[1..]) && e == inputs[0].at + delay {
        assert ReloadedAt(inputs, delay, 0, e);
      }
    }
  }

  lemma {:induction false} ReloadsFollow(inputs: seq<Input>, delay: nat, from: nat)
    requires Timed(inputs) && (inputs != [] ==> inputs[0].at >= from)
    ensures forall e :: e in Reloads(inputs, delay) ==> e >= from + delay
  {
    if inputs != [] && !Ends(inputs[0]) {
      assert Timed(inputs[1..]);
      ReloadsFollow(inputs[1..], delay, from);
    }
  }

  lemma {:induction false} ReloadsAfterTimer(inputs: seq<Input>, delay: nat, deadline: nat)
    requires Timed(inputs) && Outlives(deadline, inputs)
    ensures forall e :: e in Reloads(inputs, delay) ==> e >= deadline + delay
  {
    if inputs != [] && !Ends(inputs[0]) {
      assert Timed(inputs[1..]);
      if Triggers(inputs[0]) {
        ReloadsFollow(inputs, delay, deadline);
      } else {
        ReloadsAfterTimer(inputs[1..], delay, deadline);
      }
    }
  }

  /** However fast the file changes, reloads are at least one delay apart. */
  lemma {:induction false} ReloadsSpaced(inputs: seq<Input>, delay: nat)
    requires Timed(inputs)
    ensures forall a, b :: 0 <= a < b < |Reloads(inputs, delay)| ==>
      Reloads(inputs, delay)[a] + delay <= Reloads(inputs, delay)[b]
  {
    if inputs != [] && !Ends(inputs[0]) {
      assert Timed(inputs[1..]);
      ReloadsSpaced(inputs[1..], delay);
      if Triggers(inputs[0]) && Outlives(inputs[0].at + delay, inputs[1..]) {
        ReloadsAfterTimer(inputs[1..], delay, inputs[0].at + delay);
        var rest := Reloads(inputs[1..], delay);
        assert forall b :: 0 <= b < |rest| ==> rest[b] in rest;
        assert forall b :: 1 <= b < |rest| + 1 ==> Reloads(inputs, delay)[b] == rest[b - 1];
      }
    }
  }

  function Relevant(inputs: seq<Input>): seq<Input> {
    if inputs == [] then []
    else if Ignored(inputs[0]) then Relevant(inputs[1..])
    else [inputs[0]] + Relevant(inputs[1..])
  }

  lemma {:induction false} RelevantDisturber(inputs: seq<Input>)
    ensures Disturber(Relevant(inputs)) == Disturber(inputs)
  {
    if inputs != [] {
      RelevantDisturber(inputs[1..]);
      if !Ignored(inputs[0]) {
        assert Relevant(inputs)[1..] == Relevant(inputs[1..]);
      }
    }
  }

  /** Other file events and watcher errors change nothing. */
  lemma {:induction false} IgnoredInputsChangeNothing(inputs: seq<Input>, delay: nat)
    ensures Reloads(Relevant(inputs), delay) == Reloads(inputs, delay)
  {
    if inputs != [] {
      IgnoredInputsChangeNothing(inputs[1..], delay);
      RelevantDisturber(inputs[1..]);
      if !Ignored(inputs[0]) {
        assert Relevant(inputs)[1..] == Relevant(inputs[1..]);
      }
    }
  }

  /** A cancelled watcher reloads nothing any more; one whose channel was closed still does. */
  lemma PendingAtTheEnd(event: Input, end: Input, delay: nat)
    requires Triggers(event) && Ends(end) && event.at <= end.at < event.at + delay
    ensures Reloads([event, end], delay) == if end.what.Cancelled? then [] else [event.at + delay]
  {
    assert [event, end][1..] == [end];
    assert Reloads([end], delay) == [];
    assert Disturber([end]) == if end.what.Cancelled? then Some(end) else None;
  }

  // ----- the loop -----

  /** The timers of the run time, by identity, and the times at which they went off. */
  class Timers {
    var live: map<nat, nat>
    var issued: nat
    var fired: seq<nat>
    /** The most timers that were ever pending together. */
    ghost var peak: nat

    ghost predicate Valid()
      reads this
    {
      (forall id :: id in live ==> id < issued) && |live| <= peak
    }

    constructor ()
      ensures Valid() && live == map[] && fired == [] && peak == 0
    {
      live, issued, fired, peak := map[], 0, [], 0;
    }

    /** time.AfterFunc */
    method AfterFunc(deadline: nat) returns (id: nat)
      requires Valid()
      modifies this
      ensures Valid() && id !in old(live)
      ensures live == old(live)[id := deadline] && fired == old(fired)
      ensures peak == if |live| > old(peak) then |live| else old(peak)
    {
      id := issued;
      live, issued := live[id := deadline], issued + 1;
      if |live| > peak {
        peak := |live|;
      }
    }

    /** Timer.Stop; no effect on a timer that went off. */
    method Stop(id: nat, now: nat, late: bool)
      requires Valid()
      modifies this`live, this`fired
      ensures Valid() && live == old(live) - {id}
      ensures fired == old(fired) + if id in old(live) && old(live)[id] == now && late then [now] else []
    {
      if id in live && live[id] == now && late {
        fired := fired + [now];
      }
      FewerTimers(live, id);
      live := live - {id};
    }

    /** Time passes up to `now`: a timer due before goes off. */
    method Advance(now: nat)
      requires Valid()
      modifies this`live, this`fired
      ensures Valid()
      ensures forall id :: id in live <==> id in old(live) && old(live)[id] >= now
      ensures forall id :: id in live ==> live[id] == old(live)[id]
      ensures old(live) == map[] ==> fired == old(fired)
      ensures forall id :: old(live.Keys) == {id} ==>
        fired == old(fired) + if old(live)[id] < now then [old(live)[id]] else []
    {
      var todo := live.Keys;
      while todo != {}
        invariant todo <= old(live.Keys) && Valid()
        invariant live.Keys <= old(live.Keys) && forall id :: id in live ==> live[id] == old(live)[id]
        invariant forall id :: id in old(live) ==> (id in live <==> id in todo || old(live)[id] >= now)
        invariant todo == old(live.Keys) ==> fired == old(fired)
        invariant todo == {} ==> forall id :: old(live.Keys) == {id} ==>
          fired == old(fired) + if old(live)[id] < now then [old(live)[id]] else []
        decreases todo
      {
        var id :| id in todo;
        if live[id] < now {
          fired := fired + [live[id]];
          FewerTimers(live, id);
          live := live - {id};
        }
        todo := todo - {id};
      }
    }
  }

  lemma FewerTimers(live: map<nat, nat>, id: nat)
    ensures |live - {id}| <= |live|
  {
    assert (live - {id}).Keys <= live.Keys;
    SubsetCard((live - {id}).Keys, live.Keys);
  }

  /** The deadline of the pending timer. */
  ghost function Pending(live: map<nat, nat>, debounce: Option<nat>): Option<nat> {
    if debounce.Some? && debounce.value in live then Some(live[debounce.value]) else None
  }

  ghost predicate AtMostThis(live: map<nat, nat>, debounce: Option<nat>) {
    forall id :: id in live ==> debounce == Some(id)
  }

  /** What is still to come: the pending timer, if it outlives the rest, and then the
      reloads of the rest. */
  ghost function Ahead(pending: Option<nat>, rest: seq<Input>, delay: nat): seq<nat> {
    (if pending.Some? && Outlives(pending.value, rest) then [pending.value] else []) + Reloads(rest, delay)
  }

  /** The pending timer goes off at the very moment it should be stopped. */
  ghost function Missed(pending: Option<nat>, x: Input): seq<nat> {
    if pending == Some(x.at) && x.late then [x.at] else []
  }

  lemma {:induction false} DisturberNotBefore(inputs: seq<Input>, now: nat)
    requires Timed(inputs) && (inputs != [] ==> inputs[0].at >= now)
    ensures Disturber(inputs).Some? ==> Disturber(inputs).value.at >= now
  {
    if inputs != [] {
      assert Timed(inputs[1..]);
      DisturberNotBefore(inputs[1..], now);
    }
  }

  /** A timer that is due before the next input is not disturbed by it. */
  lemma DueGoesOff(deadline: nat, inputs: seq<Input>)
    requires Timed(inputs) && inputs != [] && deadline < inputs[0].at
    ensures Outlives(deadline, inputs)
  {
    DisturberNotBefore(inputs, inputs[0].at);
  }

  lemma AheadOfNothing(pending: Option<nat>, delay: nat)
    ensures Ahead(pending, [], delay) == if pending.Some? then [pending.value] else []
  {
  }

  lemma AheadOfIgnored(pending: Option<nat>, x: Input, rest: seq<Input>, delay: nat)
    requires Ignored(x)
    ensures Ahead(pending, [x] + rest, delay) == Ahead(pending, rest, delay)
  {
    assert ([x] + rest)[1..] == rest;
  }

  lemma AheadOfEnd(pending: Option<nat>, x: Input, rest: seq<Input>, delay: nat)
    requires Ends(x) && (x.what.Cancelled? && pending.Some? ==> pending.value >= x.at)
    ensures Ahead(pending, [x] + rest, delay) ==
      if x.what.Cancelled? then Missed(pending, x) else Ahead(pending, [], delay)
  {
  }

  lemma AheadOfTrigger(pending: Option<nat>, x: Input, rest: seq<Input>, delay: nat)
    requires Triggers(x) && (pending.Some? ==> pending.value >= x.at)
    ensures Ahead(pending, [x] + rest, delay) ==
      Missed(pending, x) + Ahead(Some(x.at + delay), rest, delay)
  {
    assert ([x] + rest)[1..] == rest;
  }

  lemma OnePending(live: map<nat, nat>, debounce: Option<nat>)
    requires AtMostThis(live, debounce)
    ensures Pending(live, debounce).Some? ==> live.Keys == {debounce.value}
    ensures Pending(live, debounce).None? ==> live == map[]
  {
    if Pending(live, debounce).None? {
      assert live.Keys == {};
    }
  }

  /** Time passes until the next input; a timer that is due goes off. */
  method Elapse(timers: Timers, debounce: Option<nat>, delay: nat, x: Input, ghost rest: seq<Input>)
    requires timers.Valid() && timers.peak <= 1 && AtMostThis(timers.live, debounce)
    requires Timed([x] + rest)
    modifies timers`live, timers`fired
    ensures timers.Valid() && AtMostThis(timers.live, debounce)
    ensures Pending(timers.live, debounce).Some? ==> Pending(timers.live, debounce).value >= x.at
    ensures timers.fired + Ahead(Pending(timers.live, debounce), [x] + rest, delay)
         == old(timers.fired + Ahead(Pending(timers.live, debounce), [x] + rest, delay))
  {
    hide Outlives, Reloads, Disturber;
    OnePending(timers.live, debounce);
    ghost var was := Pending(timers.live, debounce);
    if was.Some? && was.value < x.at {
      DueGoesOff(was.value, [x] + rest);
    }
    timers.Advance(x.at);
    OnePending(timers.live, debounce);
  }

  lemma NoneLeft(live: map<nat, nat>, debounce: Option<nat>)
    requires AtMostThis(live, debounce) && (debounce.Some? ==> debounce.value !in live)
    ensures live == map[]
  {
    assert live.Keys == {};
  }

  lemma OneLeft(live: map<nat, nat>, id: nat, deadline: nat)
    requires live == map[id := deadline]
    ensures |live| == 1 && Pending(live, Some(id)) == Some(deadline)
  {
    assert live.Keys == {id};
  }

  /** A write or creation: stop the pending timer and start another. */
  method Restart(timers: Timers, debounce: Option<nat>, delay: nat, x: Input) returns (next: Option<nat>)
    requires timers.Valid() && timers.peak <= 1 && AtMostThis(timers.live, debounce)
    modifies timers
    ensures timers.Valid() && timers.peak <= 1 && AtMostThis(timers.live, next)
    ensures Pending(timers.live, next) == Some(x.at + delay)
    ensures timers.fired == old(timers.fired) + Missed(old(Pending(timers.live, debounce)), x)
  {
    if debounce.Some? {
      timers.Stop(debounce.value, x.at, x.late);
    }
    NoneLeft(timers.live, debounce);
    var id := timers.AfterFunc(x.at + delay);
    next := Some(id);
    OneLeft(timers.live, id, x.at + delay);
  }

  /** A cancellation: stop the pending timer. */
  method Quit(timers: Timers, debounce: Option<nat>, x: Input)
    requires timers.Valid() && AtMostThis(timers.live, debounce)
    modifies timers`live, timers`fired
    ensures timers.Valid() && timers.live == map[]
    ensures timers.fired == old(timers.fired) + Missed(old(Pending(timers.live, debounce)), x)
  {
    if debounce.Some? {
      timers.Stop(debounce.value, x.at, x.late);
    }
    NoneLeft(timers.live, debounce);
  }

  /** One turn of the loop. */
  method Turn(timers: Timers, debounce: Option<nat>, delay: nat, x: Input, ghost rest: seq<Input>)
    returns (next: Option<nat>, running: bool)
    requires timers.Valid() && timers.peak <= 1 && AtMostThis(timers.live, debounce)
    requires Timed([x] + rest)
    modifies timers
    ensures timers.Valid() && timers.peak <= 1 && AtMostThis(timers.live, next)
    ensures timers.fired + Ahead(Pending(timers.live, next), if running then rest else [], delay)
         == old(timers.fired + Ahead(Pending(timers.live, debounce), [x] + rest, delay))
  {
    hide Ahead, Missed;
    Elapse(timers, debounce, delay, x, rest);
    next, running := debounce, true;
    ghost var pending := Pending(timers.live, debounce);
    match x.what {
      case Cancelled =>
        Quit(timers, debounce, x);
        AheadOfEnd(pending, x, rest, delay);
        AheadOfNothing(None, delay);
        running := false;
      case EventsClosed =>
        AheadOfEnd(pending, x, rest, delay);
        running := false;
      case ErrorsClosed =>
        AheadOfEnd(pending, x, rest, delay);
        running := false;
      case WatcherError =>
        AheadOfIgnored(pending, x, rest, delay);
      case FileEvent(write, create) =>
        if write || create {
          ghost var fired := timers.fired;
          next := Restart(timers, debounce, delay, x);
          AheadOfTrigger(pending, x, rest, delay);
          assert fired + (Missed(pending, x) + Ahead(Some(x.at + delay), rest, delay)) ==
            (fired + Missed(pending, x)) + Ahead(Some(x.at + delay), rest, delay);
        } else {
          AheadOfIgnored(pending, x, rest, delay);
        }
    }
  }

  /** No input comes any more, and the pending timer goes off. */
  method RunOut(timers: Timers, debounce: Option<nat>, delay: nat)
    requires timers.Valid() && AtMostThis(timers.live, debounce)
    modifies timers`live, timers`fired
    ensures timers.fired == old(timers.fired + Ahead(Pending(timers.live, debounce), [], delay))
  {
    hide Ahead;
    AheadOfNothing(Pending(timers.live, debounce), delay);
    OnePending(timers.live, debounce);
    if debounce.Some? && debounce.value in timers.live {
      timers.Advance(timers.live[debounce.value] + 1);
    }
  }

  /** watchLoop: the reloads that happen are those of the inputs, and never is more than
      one timer pending. */
  method WatchLoop(timers: Timers, inputs: seq<Input>, delay: nat)
    requires timers.Valid() && timers.live == map[] && timers.fired == [] && timers.peak == 0
    requires Timed(inputs)
    modifies timers
    ensures timers.fired == Reloads(inputs, delay)
    ensures timers.peak <= 1
  {
    hide Outlives, Reloads, Disturber, Timers.Valid;
    var debounce: Option<nat> := None;
    var i := 0;
    var running := true;
    assert inputs[0..] == inputs;
    while running && i < |inputs|
      invariant 0 <= i <= |inputs| && timers.Valid() && timers.peak <= 1
      invariant AtMostThis(timers.live, debounce)
      invariant timers.fired + Ahead(Pending(timers.live, debounce), if running then inputs[i..] else [], delay)
             == Reloads(inputs, delay)
      decreases |inputs| - i
    {
      ghost var rest := inputs[i + 1..];
      assert [inputs[i]] + rest == inputs[i..];
      debounce, running := Turn(timers, debounce, delay, inputs[i], rest);
      i := i + 1;
    }
    // The loop is over or waits for ever; what is pending goes off.
    assert (if running then inputs[i..] else []) == [];
    RunOut(timers, debounce, delay);
  }
}
