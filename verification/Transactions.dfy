/** Declarative transactions: units nested through immutable contexts, run against
    a driver with savepoints (pkg/db/drivers/pgx/tx.go). */
module Transactions {
  import opened Common

  /** How a unit, or a whole program, ends. */
  datatype End = Succeeded | Failed | Panicked

  /** The answers the driver gives to one unit: whether the transaction or savepoint
      could be opened, and whether its commit succeeds. */
  datatype Call = Call(newTx: bool, beginOk: bool, commitOk: bool)

  /** A program handed a context. After a nested unit it continues in whichever way
      it likes, so it may propagate, swallow or recover the unit's outcome.
      `Call.newTx` selects WithNewTx, otherwise the unit is a WithTx. */
  datatype Prog =
    | Return(end: End)
    | Exec(next: Prog)
    | Nest(call: Call, body: Prog, onOk: Prog, onFailed: Prog, onPanicked: Prog)

  /** The value stored in the context under the instance key: a transaction state. */
  type Ctx = Option<nat>

  /** What the driver saw. `Wrote` names the transaction used, or the pool. */
  datatype Event =
    | Began(tx: nat, top: bool)
    | Wrote(via: Option<nat>)
    | Ended(tx: nat, committed: bool)

  function Continuation(p: Prog, end: End): (next: Prog)
    requires p.Nest?
    ensures next < p
  {
    match end
    case Succeeded => p.onOk
    case Failed => p.onFailed
    case Panicked => p.onPanicked
  }

  /** How a program ends: errors and panics of the last unit asked for are its own. */
  ghost function Outcome(p: Prog): End
    decreases p, 0
  {
    match p
    case Return(e) => e
    case Exec(next) => Outcome(next)
    case Nest(call, body, onOk, onFailed, onPanicked) =>
      match UnitOutcome(call, body)
      case Succeeded => Outcome(onOk)
      case Failed => Outcome(onFailed)
      case Panicked => Outcome(onPanicked)
  }

  /** A unit commits, returns an error, or panics again. */
  ghost function UnitOutcome(call: Call, body: Prog): End
    decreases body, 1
  {
    if !call.beginOk then Failed
    else if Outcome(body) == Succeeded && !call.commitOk then Failed
    else Outcome(body)
  }

  /** For each statement a program runs, in order, whether what it writes is kept.
      `open` tells whether a unit is open around the program, and `keep` whether what
      the program writes directly is kept: all units around it have to commit, from the
      innermost out to the nearest one that is a transaction of its own. */
  ghost function Kept(p: Prog, open: bool, keep: bool): seq<bool>
    decreases p, 1
  {
    if p.Return? then []
    else FirstKept(p, open, keep) + Kept(Following(p), open, keep)
  }

  /** The same of the first thing a program does. */
  ghost function FirstKept(p: Prog, open: bool, keep: bool): seq<bool>
    requires !p.Return?
    decreases p, 0
  {
    if p.Exec? then [keep]
    else KeptUnit(p.call, p.body, p.call.newTx || !open, keep)
  }

  /** The same of one unit; `top` tells whether it is a transaction of its own. */
  ghost function KeptUnit(call: Call, body: Prog, top: bool, keep: bool): seq<bool>
    decreases body, 2
  {
    if call.beginOk then Kept(body, true, UnitOutcome(call, body) == Succeeded && (top || keep)) else []
  }

  /** What a program goes on with after the first thing it does. */
  ghost function Following(p: Prog): (next: Prog)
    requires !p.Return?
    ensures next < p
  {
    if p.Exec? then p.next else Continuation(p, UnitOutcome(p.call, p.body))
  }

  // ----- reading a driver log -----

  datatype Frame = Frame(tx: nat, top: bool)

  /** The units open at the end of a log, innermost last. */
  ghost function Stack(log: seq<Event>): seq<Frame> {
    if log == [] then []
    else
      var s := Stack(log[..|log| - 1]);
      match log[|log| - 1]
      case Began(tx, top) => s + [Frame(tx, top)]
      case Wrote(_) => s
      case Ended(_, _) => if s == [] then [] else s[..|s| - 1]
  }

  ghost function StackAt(log: seq<Event>, k: nat): seq<Frame>
    requires k <= |log|
  {
    Stack(log[..k])
  }

  ghost predicate IsCommitted(log: seq<Event>, t: nat) {
    Ended(t, true) in log
  }

  /** The units around a write, from the innermost to its top-level transaction. */
  ghost function Enclosing(s: seq<Frame>): set<nat> {
    if s == [] then {}
    else {s[|s| - 1].tx} + if s[|s| - 1].top then {} else Enclosing(s[..|s| - 1])
  }

  /** Position `k` of the log is a write, and every unit around it up to its
      top-level transaction commits somewhere in the log. */
  ghost predicate Survives(log: seq<Event>, k: nat) {
    k < |log| && log[k].Wrote? && forall t :: t in Enclosing(StackAt(log, k)) ==> IsCommitted(log, t)
  }

  /** Number of commit or rollback calls that ended `t`. */
  ghost function EndCount(log: seq<Event>, t: nat): nat {
    if log == [] then 0
    else EndCount(log[..|log| - 1], t) + if log[|log| - 1].Ended? && log[|log| - 1].tx == t then 1 else 0
  }

  ghost predicate HasEnded(log: seq<Event>, t: nat) {
    EndCount(log, t) > 0
  }

  lemma EndedMore(log: seq<Event>, tx: nat, committed: bool)
    ensures
      var more := log + [Ended(tx, committed)];
      && Stack(more) == (if Stack(log) == [] then [] else Stack(log)[..|Stack(log)| - 1])
      && forall t: nat :: HasEnded(more, t) <==> HasEnded(log, t) || t == tx
  {
    assert (log + [Ended(tx, committed)])[..|log|] == log;
  }

  lemma NotAnEnd(log: seq<Event>, e: Event)
    requires !e.Ended?
    ensures forall t: nat :: EndCount(log + [e], t) == EndCount(log, t)
    ensures forall t: nat :: IsCommitted(log + [e], t) <==> IsCommitted(log, t)
  {
    var more := log + [e];
    assert more[..|log|] == log;
    forall t: nat ensures IsCommitted(more, t) <==> IsCommitted(log, t) {
      hide EndCount;
      assert forall k :: 0 <= k < |log| ==> more[k] == log[k];
    }
  }

  // ----- what becomes of a write, seen from inside an open unit -----

  datatype Fate = Durable | Merged | Lost

  /** Follow the relative stack outwards: lost at the first unit that does not
      commit, durable at a committed top-level transaction, merged into the
      surrounding unit if neither is met. */
  ghost function FateOf(r: seq<Frame>, log: seq<Event>): Fate {
    if r == [] then Merged
    else
      var f := r[|r| - 1];
      if !IsCommitted(log, f.tx) then Lost
      else if f.top then Durable
      else FateOf(r[..|r| - 1], log)
  }

  ghost function Relative(s: seq<Frame>, base: nat): seq<Frame> {
    if base <= |s| then s[base..] else []
  }

  /** The writes made from position `from` on that meet a given fate above `base` open units. */
  ghost function WritesWith(log: seq<Event>, from: nat, base: nat, fate: Fate): set<nat> {
    set k | from <= k < |log| && log[k].Wrote? && FateOf(Relative(StackAt(log, k), base), log) == fate
  }

  lemma StackAtPrefix(a: seq<Event>, b: seq<Event>, k: nat)
    requires a <= b && k <= |a|
    ensures StackAt(b, k) == StackAt(a, k)
  {
    assert b[..k] == a[..k];
  }

  lemma {:induction false} FateStable(r: seq<Frame>, a: seq<Event>, b: seq<Event>)
    requires forall f :: f in r ==> (IsCommitted(a, f.tx) <==> IsCommitted(b, f.tx))
    ensures FateOf(r, a) == FateOf(r, b)
  {
    if r != [] {
      FateStable(r[..|r| - 1], a, b);
    }
  }

  /** The fate of a write above `outer` more units. */
  lemma {:induction false} FateThrough(outer: seq<Frame>, r: seq<Frame>, log: seq<Event>)
    ensures FateOf(outer + r, log) == if FateOf(r, log) == Merged then FateOf(outer, log) else FateOf(r, log)
  {
    if r == [] {
      assert outer + r == outer;
    } else {
      assert (outer + r)[..|outer + r| - 1] == outer + r[..|r| - 1];
      FateThrough(outer, r[..|r| - 1], log);
    }
  }

  lemma {:induction false} LostMeansUncommitted(s: seq<Frame>, log: seq<Event>)
    ensures FateOf(s, log) == Lost <==> exists t :: t in Enclosing(s) && !IsCommitted(log, t)
  {
    if s != [] {
      LostMeansUncommitted(s[..|s| - 1], log);
    }
  }

  // ----- the effect of a stretch of execution -----

  /** The state of the module and the database; `n` transactions were begun. */
  datatype State = State(log: seq<Event>, durable: set<nat>, pending: map<nat, set<nat>>, n: nat)

  /** Units opened between the two states are closed again, each by exactly one
      commit or rollback, and older units are left alone. */
  ghost predicate Balanced(a: State, b: State) {
    && a.log <= b.log && a.n <= b.n
    && Stack(b.log) == Stack(a.log)
    && (forall k :: |a.log| <= k <= |b.log| ==> Stack(a.log) <= StackAt(b.log, k))
    && (forall k, f :: |a.log| <= k <= |b.log| && f in Relative(StackAt(b.log, k), |Stack(a.log)|) ==> a.n <= f.tx < b.n)
    && (forall t: nat :: t < a.n ==> (IsCommitted(b.log, t) <==> IsCommitted(a.log, t)))
    && (forall t: nat :: t < a.n ==> EndCount(b.log, t) == EndCount(a.log, t))
    && (forall t: nat :: a.n <= t < b.n ==> EndCount(b.log, t) == 1)
  }

  /** Every write went through the innermost open unit, or through `via` when the
      stretch had no unit open. */
  ghost predicate WritesInnermost(a: State, b: State, via: Option<nat>) {
    forall k :: |a.log| <= k < |b.log| && b.log[k].Wrote? ==>
      var r := Relative(StackAt(b.log, k), |Stack(a.log)|);
      b.log[k].via == if r == [] then via else Some(r[|r| - 1].tx)
  }

  ghost function Fated(a: State, b: State, fate: Fate): set<nat> {
    WritesWith(b.log, |a.log|, |Stack(a.log)|, fate)
  }

  /** What the writes of the stretch did to the database, for a stretch that writes
      through `via`. */
  ghost predicate Stores(a: State, b: State, via: Option<nat>) {
    && (forall t: nat :: t < a.n ==> t in a.pending && t in b.pending)
    && b.durable == a.durable + Fated(a, b, Durable) + (if via.None? then Fated(a, b, Merged) else {})
    && (forall t: nat :: t < a.n ==>
          b.pending[t] == a.pending[t] + if via == Some(t) then Fated(a, b, Merged) else {})
  }

  ghost predicate Effect(a: State, b: State, via: Option<nat>) {
    Balanced(a, b) && WritesInnermost(a, b, via) && Stores(a, b, via)
  }

  /** The positions of the writes from position `from` on, in order. */
  ghost function Writes(log: seq<Event>, from: nat): seq<nat> {
    if |log| <= from then []
    else Writes(log[..|log| - 1], from) + if log[|log| - 1].Wrote? then [|log| - 1] else []
  }

  /** The fate of the write at position `k`, told from where the stretch began. */
  ghost function FateAt(a: State, b: State, k: nat): Fate {
    if k <= |b.log| then FateOf(Relative(StackAt(b.log, k), |Stack(a.log)|), b.log) else Merged
  }

  /** Whether a write of that fate is kept when what merges into the surroundings is. */
  ghost predicate Settled(fate: Fate, keep: bool) {
    fate == Durable || (fate == Merged && keep)
  }

  /** The i-th write of the stretch is kept exactly when `kept[i]` says so. */
  ghost predicate Keeps(a: State, b: State, keep: bool, kept: seq<bool>) {
    var w := Writes(b.log, |a.log|);
    && |w| == |kept|
    && forall i :: 0 <= i < |w| ==> (Settled(FateAt(a, b, w[i]), keep) <==> kept[i])
  }

  lemma {:induction false} WritesInRange(log: seq<Event>, from: nat)
    ensures forall k :: k in Writes(log, from) <==> from <= k < |log| && log[k].Wrote?
  {
    if |log| > from {
      WritesInRange(log[..|log| - 1], from);
    }
  }

  lemma {:induction false} WritesSplit(a: seq<Event>, log: seq<Event>, from: nat)
    requires a <= log && from <= |a|
    ensures Writes(log, from) == Writes(a, from) + Writes(log, |a|)
    decreases |log|
  {
    if |log| == |a| {
      assert log == a;
    } else {
      WritesSplit(a, log[..|log| - 1], from);
    }
  }

  lemma KeepsCompose(a: State, b: State, c: State, keep: bool, first: seq<bool>, rest: seq<bool>)
    requires Balanced(a, b) && Balanced(b, c) && Keeps(a, b, keep, first) && Keeps(b, c, keep, rest)
    ensures Keeps(a, c, keep, first + rest)
  {
    WritesSplit(b.log, c.log, |a.log|);
    WritesInRange(b.log, |a.log|);
    var w := Writes(b.log, |a.log|);
    forall i | 0 <= i < |w| ensures FateAt(a, c, w[i]) == FateAt(a, b, w[i]) {
      assert w[i] in w;
      FateStays(a, b, c, w[i]);
    }
    assert forall k :: FateAt(b, c, k) == FateAt(a, c, k);
    hide Balanced, FateAt, Settled;
    KeepsJoined(a, b, c, keep, first, rest);
  }

  lemma KeepsJoined(a: State, b: State, c: State, keep: bool, first: seq<bool>, rest: seq<bool>)
    requires Keeps(a, b, keep, first) && Keeps(b, c, keep, rest)
    requires Writes(c.log, |a.log|) == Writes(b.log, |a.log|) + Writes(c.log, |b.log|)
    requires forall i :: 0 <= i < |Writes(b.log, |a.log|)| ==>
      FateAt(a, c, Writes(b.log, |a.log|)[i]) == FateAt(a, b, Writes(b.log, |a.log|)[i])
    requires forall k :: FateAt(b, c, k) == FateAt(a, c, k)
    ensures Keeps(a, c, keep, first + rest)
  {
    hide Writes, FateAt, Settled;
  }

  /** A later stretch does not change the fate of a write. */
  lemma FateStays(a: State, b: State, c: State, k: nat)
    requires Balanced(a, b) && Balanced(b, c) && |a.log| <= k < |b.log|
    ensures FateAt(a, c, k) == FateAt(a, b, k)
  {
    StackAtPrefix(b.log, c.log, k);
    FateStable(Relative(StackAt(b.log, k), |Stack(a.log)|), b.log, c.log);
  }

  /** Two stretches in a row. */
  lemma BalancedCompose(a: State, b: State, c: State)
    requires Balanced(a, b) && Balanced(b, c)
    ensures Balanced(a, c)
  {
    forall k | |a.log| <= k <= |c.log|
      ensures Stack(a.log) <= StackAt(c.log, k)
      ensures forall f :: f in Relative(StackAt(c.log, k), |Stack(a.log)|) ==> a.n <= f.tx < c.n
    {
      if k <= |b.log| {
        StackAtPrefix(b.log, c.log, k);
      }
    }
  }

  lemma FatedCompose(a: State, b: State, c: State, fate: Fate)
    requires Balanced(a, b) && Balanced(b, c)
    ensures Fated(a, c, fate) == Fated(a, b, fate) + Fated(b, c, fate)
  {
    forall k | |a.log| <= k < |b.log|
      ensures c.log[k] == b.log[k]
      ensures FateOf(Relative(StackAt(c.log, k), |Stack(a.log)|), c.log)
           == FateOf(Relative(StackAt(b.log, k), |Stack(a.log)|), b.log)
    {
      StackAtPrefix(b.log, c.log, k);
      FateStable(Relative(StackAt(b.log, k), |Stack(a.log)|), b.log, c.log);
    }
  }

  lemma WritesCompose(a: State, b: State, c: State, via: Option<nat>)
    requires a.log <= b.log <= c.log && Stack(b.log) == Stack(a.log)
    requires WritesInnermost(a, b, via) && WritesInnermost(b, c, via)
    ensures WritesInnermost(a, c, via)
  {
    forall k | |a.log| <= k < |c.log| && c.log[k].Wrote?
      ensures var r := Relative(StackAt(c.log, k), |Stack(a.log)|);
              c.log[k].via == if r == [] then via else Some(r[|r| - 1].tx)
    {
      if k < |b.log| {
        StackAtPrefix(b.log, c.log, k);
      }
    }
  }

  lemma EffectGrows(a: State, b: State, via: Option<nat>)
    requires Effect(a, b, via)
    ensures a.log <= b.log
  {
  }

  lemma KeepsOfBoth(a: State, b: State, c: State, via: Option<nat>, keep: bool, first: seq<bool>, rest: seq<bool>)
    requires Effect(a, b, via) && Effect(b, c, via) && Keeps(a, b, keep, first) && Keeps(b, c, keep, rest)
    ensures Keeps(a, c, keep, first + rest)
  {
    KeepsCompose(a, b, c, keep, first, rest);
  }

  lemma EffectCompose(a: State, b: State, c: State, via: Option<nat>)
    requires Effect(a, b, via) && Effect(b, c, via)
    ensures Effect(a, c, via)
  {
    assert Balanced(a, c) by {
      BalancedCompose(a, b, c);
    }
    assert WritesInnermost(a, c, via) by {
      WritesCompose(a, b, c, via);
    }
    assert Stores(a, c, via) by {
      StoresCompose(a, b, c, via);
    }
  }

  lemma StoresCompose(a: State, b: State, c: State, via: Option<nat>)
    requires Balanced(a, b) && Balanced(b, c)
    requires Stores(a, b, via) && Stores(b, c, via)
    ensures Stores(a, c, via)
  {
    FatedCompose(a, b, c, Durable);
    FatedCompose(a, b, c, Merged);
  }

  lemma StackAtEnd(log: seq<Event>)
    ensures StackAt(log, |log|) == Stack(log)
  {
    assert log[..|log|] == log;
  }

  lemma EffectOfNothing(a: State, via: Option<nat>)
    requires forall t: nat :: t < a.n ==> t in a.pending
    ensures Effect(a, a, via)
  {
    StackAtEnd(a.log);
  }

  /** One more event: what the log looks like at each position. */
  lemma Extend(log: seq<Event>, e: Event)
    ensures (log + [e])[..|log|] == log && (log + [e])[..|log + [e]| - 1] == log
    ensures StackAt(log + [e], |log|) == Stack(log)
    ensures StackAt(log + [e], |log| + 1) == Stack(log + [e])
  {
    assert (log + [e])[..|log|] == log;
    assert (log + [e])[..|log| + 1] == log + [e];
  }

  lemma WriteBalanced(a: State, b: State, via: Option<nat>)
    requires b.log == a.log + [Wrote(via)] && b.n == a.n
    ensures Balanced(a, b)
  {
    hide Enclosing, FateOf;
    hide EndCount, IsCommitted;
    Extend(a.log, Wrote(via));
    NotAnEnd(a.log, Wrote(via));
  }

  /** A single write through `via`. */
  lemma EffectOfWrite(a: State, b: State, via: Option<nat>)
    requires forall t: nat :: t < a.n ==> t in a.pending
    requires via.Some? ==> via.value < a.n
    requires b.log == a.log + [Wrote(via)] && b.n == a.n
    requires b.durable == a.durable + if via.None? then {|a.log|} else {}
    requires b.pending == if via.None? then a.pending
                          else a.pending[via.value := a.pending[via.value] + {|a.log|}]
    ensures Effect(a, b, via)
  {
    Extend(a.log, Wrote(via));
    WriteBalanced(a, b, via);
    hide Balanced, EndCount, IsCommitted;
    assert WritesInnermost(a, b, via);
    assert Fated(a, b, Merged) == {|a.log|};
    assert Fated(a, b, Durable) == {};
    assert Stores(a, b, via);
  }

  lemma KeepsNothing(a: State)
    ensures forall keep: bool :: Keeps(a, a, keep, [])
  {
  }

  lemma KeepsOfWrite(a: State, b: State, via: Option<nat>)
    requires b.log == a.log + [Wrote(via)]
    ensures forall keep: bool :: Keeps(a, b, keep, [keep])
  {
    Extend(a.log, Wrote(via));
    assert Writes(b.log, |a.log|) == [|a.log|];
  }

  // ----- the effect of one unit -----

  /** A unit opened in state `a` as transaction `a.n`, ran its body from `b0` to `b1`
      through its own transaction, and was ended. */
  ghost predicate UnitRan(a: State, b0: State, b1: State, c: State, under: Option<nat>, committed: bool) {
    && (forall t: nat :: t < a.n ==> t in a.pending)
    && (under.Some? ==> under.value < a.n)
    && b0 == State(a.log + [Began(a.n, under.None?)], a.durable, a.pending[a.n := {}], a.n + 1)
    && Effect(b0, b1, Some(a.n))
    && c.log == b1.log + [Ended(a.n, committed)] && c.n == b1.n
    && c.durable == b1.durable + (if committed && under.None? then b1.pending[a.n] else {})
    && c.pending == (if committed && under.Some?
                     then b1.pending[under.value := b1.pending[under.value] + b1.pending[a.n]]
                     else b1.pending)
    && FreshTx(a)
  }

  /** Transaction numbers at or above `a.n` do not occur in the log yet. */
  ghost predicate FreshTx(a: State) {
    forall k :: 0 <= k < |a.log| && !a.log[k].Wrote? ==> a.log[k].tx < a.n
  }

  lemma {:induction false} FreshHasNoEnds(log: seq<Event>, n: nat, t: nat)
    requires forall k :: 0 <= k < |log| && !log[k].Wrote? ==> log[k].tx < n
    requires n <= t
    ensures EndCount(log, t) == 0
  {
    if log != [] {
      FreshHasNoEnds(log[..|log| - 1], n, t);
    }
  }

  /** The stacks inside the unit, seen from the whole log. */
  lemma UnitStackInside(outer: seq<Frame>, f: Frame, body: seq<Event>, whole: seq<Event>, k: nat)
    requires body <= whole && k <= |body|
    requires outer + [f] <= StackAt(body, k)
    ensures outer <= StackAt(whole, k)
    ensures Relative(StackAt(whole, k), |outer|) == [f] + Relative(StackAt(body, k), |outer| + 1)
  {
    StackAtPrefix(body, whole, k);
  }

  /** The stack after the unit is the stack before it. */
  lemma UnitStackOutside(a: seq<Event>, b1: seq<Event>, t: nat, top: bool, committed: bool)
    requires a <= b1 && Stack(b1) == Stack(a + [Began(t, top)])
    ensures Stack(b1 + [Ended(t, committed)]) == Stack(a)
    ensures StackAt(b1 + [Ended(t, committed)], |a|) == Stack(a)
    ensures StackAt(b1 + [Ended(t, committed)], |b1| + 1) == Stack(a)
  {
    Extend(a, Began(t, top));
    Extend(b1, Ended(t, committed));
    StackAtPrefix(a, b1 + [Ended(t, committed)], |a|);
    StackAtEnd(a);
  }

  lemma UnitFrames(a: State, b0: State, b1: State, c: State, under: Option<nat>, committed: bool, k: nat)
    requires UnitRan(a, b0, b1, c, under, committed)
    requires |a.log| <= k <= |c.log|
    ensures Stack(a.log) <= StackAt(c.log, k)
    ensures forall g :: g in Relative(StackAt(c.log, k), |Stack(a.log)|) ==> a.n <= g.tx < c.n
  {
    hide Stores, WritesInnermost, EndCount, IsCommitted;
    var f := Frame(a.n, under.None?);
    Extend(a.log, Began(a.n, under.None?));
    assert a.log <= b0.log <= b1.log;
    UnitStackOutside(a.log, b1.log, a.n, under.None?, committed);
    if |a.log| < k < |c.log| {
      assert Stack(b0.log) == Stack(a.log) + [f];
      assert Stack(b0.log) <= StackAt(b1.log, k);
      UnitStackInside(Stack(a.log), f, b1.log, c.log, k);
      forall g | g in Relative(StackAt(c.log, k), |Stack(a.log)|) ensures a.n <= g.tx < c.n {
        assert g == f || g in Relative(StackAt(b1.log, k), |Stack(b0.log)|);
      }
    }
  }

  lemma UnitBalanced(a: State, b0: State, b1: State, c: State, under: Option<nat>, committed: bool)
    requires UnitRan(a, b0, b1, c, under, committed)
    ensures Balanced(a, c)
  {
    assert a.log <= b0.log <= b1.log <= c.log;
    UnitStackOutside(a.log, b1.log, a.n, under.None?, committed);
    UnitCounts(a, b0, b1, c, under, committed);
    forall k | |a.log| <= k <= |c.log|
      ensures Stack(a.log) <= StackAt(c.log, k)
      ensures forall g :: g in Relative(StackAt(c.log, k), |Stack(a.log)|) ==> a.n <= g.tx < c.n
    {
      UnitFrames(a, b0, b1, c, under, committed, k);
    }
  }

  lemma OneEndMore(log: seq<Event>, tx: nat, committed: bool)
    ensures forall t: nat :: EndCount(log + [Ended(tx, committed)], t) == EndCount(log, t) + if t == tx then 1 else 0
  {
    assert (log + [Ended(tx, committed)])[..|log|] == log;
  }

  lemma UnitCounts(a: State, b0: State, b1: State, c: State, under: Option<nat>, committed: bool)
    requires UnitRan(a, b0, b1, c, under, committed)
    ensures forall t: nat :: t < a.n ==> (IsCommitted(c.log, t) <==> IsCommitted(a.log, t))
    ensures forall t: nat :: t < a.n ==> EndCount(c.log, t) == EndCount(a.log, t)
    ensures forall t: nat :: a.n <= t < c.n ==> EndCount(c.log, t) == 1
  {
    FreshHasNoEnds(a.log, a.n, a.n);
    NotAnEnd(a.log, Began(a.n, under.None?));
    UnitCommits(a, b0, b1, c, under, committed);
    OneEndMore(b1.log, a.n, committed);
    hide EndCount, IsCommitted, Stores, WritesInnermost;
  }

  /** Inside the unit every position lies above the outer stack. */
  lemma UnitInside(a: State, b0: State, b1: State, c: State, under: Option<nat>, committed: bool, k: nat)
    requires UnitRan(a, b0, b1, c, under, committed)
    requires |a.log| <= k < |c.log| && c.log[k].Wrote?
    ensures |b0.log| == |a.log| + 1 && |Stack(b0.log)| == |Stack(a.log)| + 1
    ensures |a.log| < k < |b1.log| && c.log[k] == b1.log[k]
    ensures Relative(StackAt(c.log, k), |Stack(a.log)|)
         == [Frame(a.n, under.None?)] + Relative(StackAt(b1.log, k), |Stack(b0.log)|)
  {
    hide Stores, WritesInnermost, EndCount, IsCommitted;
    Extend(a.log, Began(a.n, under.None?));
    assert b0.log[|a.log|].Began? && b0.log <= b1.log <= c.log;
    UnitStackInside(Stack(a.log), Frame(a.n, under.None?), b1.log, c.log, k);
  }

  lemma UnitWrites(a: State, b0: State, b1: State, c: State, under: Option<nat>, committed: bool, via: Option<nat>)
    requires UnitRan(a, b0, b1, c, under, committed)
    ensures WritesInnermost(a, c, via)
  {
    hide Balanced, Stores;
    forall k | |a.log| <= k < |c.log| && c.log[k].Wrote?
      ensures var r := Relative(StackAt(c.log, k), |Stack(a.log)|);
              c.log[k].via == if r == [] then via else Some(r[|r| - 1].tx)
    {
      UnitInside(a, b0, b1, c, under, committed, k);
      assert WritesInnermost(b0, b1, Some(a.n));
    }
  }

  /** The fate of a write inside the unit, told from outside. */
  lemma UnitFate(a: State, b0: State, b1: State, c: State, under: Option<nat>, committed: bool, k: nat)
    requires UnitRan(a, b0, b1, c, under, committed)
    requires |a.log| < k < |b1.log| && b1.log[k].Wrote?
    ensures
      var inner := FateOf(Relative(StackAt(b1.log, k), |Stack(b0.log)|), b1.log);
      FateOf(Relative(StackAt(c.log, k), |Stack(a.log)|), c.log)
      == if inner != Merged then inner else if !committed then Lost else if under.None? then Durable else Merged
  {
    hide Stores, WritesInnermost, EndCount;
    var f := Frame(a.n, under.None?);
    UnitInside(a, b0, b1, c, under, committed, k);
    var r := Relative(StackAt(b1.log, k), |Stack(b0.log)|);
    FateThrough([f], r, c.log);
    UnitCommits(a, b0, b1, c, under, committed);
    FateStable(r, b1.log, c.log);
    assert [f][..0] == [];
  }

  lemma UnitCommits(a: State, b0: State, b1: State, c: State, under: Option<nat>, committed: bool)
    requires UnitRan(a, b0, b1, c, under, committed)
    ensures IsCommitted(c.log, a.n) <==> committed
    ensures forall t: nat :: t != a.n ==> (IsCommitted(c.log, t) <==> IsCommitted(b1.log, t))
  {
    assert !IsCommitted(b0.log, a.n);
    assert !IsCommitted(b1.log, a.n);
  }

  /** The writes of the whole unit by their fate. */
  lemma UnitFated(a: State, b0: State, b1: State, c: State, under: Option<nat>, committed: bool)
    requires UnitRan(a, b0, b1, c, under, committed)
    ensures
      var inner := Fated(b0, b1, Merged);
      && Fated(a, c, Durable) == Fated(b0, b1, Durable) + (if committed && under.None? then inner else {})
      && Fated(a, c, Merged) == if committed && under.Some? then inner else {}
  {
    forall k | |a.log| <= k < |c.log| && c.log[k].Wrote?
      ensures |a.log| < k < |b1.log| && c.log[k] == b1.log[k]
    {
      UnitInside(a, b0, b1, c, under, committed, k);
    }
    forall k | |a.log| < k < |b1.log| && b1.log[k].Wrote?
      ensures
        var inside := FateOf(Relative(StackAt(b1.log, k), |Stack(b0.log)|), b1.log);
        FateOf(Relative(StackAt(c.log, k), |Stack(a.log)|), c.log)
        == if inside != Merged then inside else if !committed then Lost else if under.None? then Durable else Merged
    {
      UnitFate(a, b0, b1, c, under, committed, k);
    }
    UnitLengths(a, b0, b1, c, under, committed);
    hide UnitRan, FateOf, Relative, StackAt, Stack;
  }

  lemma UnitLengths(a: State, b0: State, b1: State, c: State, under: Option<nat>, committed: bool)
    requires UnitRan(a, b0, b1, c, under, committed)
    ensures |b0.log| == |a.log| + 1 <= |b1.log| == |c.log| - 1
    ensures forall k :: 0 <= k < |b1.log| ==> c.log[k] == b1.log[k]
  {
  }

  /** What a unit stored, from what its body stored. */
  lemma StoredByUnit(
    a: State, b0: State, b1: State, c: State, under: Option<nat>, committed: bool,
    durable: set<nat>, inner: set<nat>)
    requires (forall t: nat :: t < a.n ==> t in a.pending) && (under.Some? ==> under.value < a.n)
    requires b0.durable == a.durable && b0.pending == a.pending[a.n := {}] && b0.n == a.n + 1
    requires b1.durable == b0.durable + durable
    requires forall t: nat :: t < b0.n ==>
      t in b0.pending && t in b1.pending && b1.pending[t] == b0.pending[t] + if t == a.n then inner else {}
    requires c.durable == b1.durable + if committed && under.None? then b1.pending[a.n] else {}
    requires c.pending == if committed && under.Some?
                          then b1.pending[under.value := b1.pending[under.value] + b1.pending[a.n]]
                          else b1.pending
    ensures c.durable == a.durable + durable + if committed && under.None? then inner else {}
    ensures forall t: nat :: t < a.n ==>
      t in c.pending && c.pending[t] == a.pending[t] + if committed && under == Some(t) then inner else {}
  {
    assert b1.pending[a.n] == inner;
  }

  lemma UnitStored(a: State, b0: State, b1: State, c: State, under: Option<nat>, committed: bool)
    requires UnitRan(a, b0, b1, c, under, committed)
    ensures
      var durable, inner := Fated(b0, b1, Durable), Fated(b0, b1, Merged);
      && c.durable == a.durable + durable + (if committed && under.None? then inner else {})
      && forall t: nat :: t < a.n ==>
           && t in a.pending && t in c.pending
           && c.pending[t] == a.pending[t] + if committed && under == Some(t) then inner else {}
  {
    hide Fated, Balanced, WritesInnermost, FreshTx;
    StoredByUnit(a, b0, b1, c, under, committed, Fated(b0, b1, Durable), Fated(b0, b1, Merged));
  }

  lemma UnitStores(a: State, b0: State, b1: State, c: State, under: Option<nat>, committed: bool, via: Option<nat>)
    requires UnitRan(a, b0, b1, c, under, committed)
    requires under.Some? ==> via == under
    ensures Stores(a, c, via)
  {
    hide UnitRan, Fated;
    UnitFated(a, b0, b1, c, under, committed);
    UnitStored(a, b0, b1, c, under, committed);
  }

  /** A unit that ran leaves the effect its writes deserve on the surrounding stretch. */
  lemma EffectOfUnit(a: State, b0: State, b1: State, c: State, under: Option<nat>, committed: bool, via: Option<nat>)
    requires UnitRan(a, b0, b1, c, under, committed)
    requires under.Some? ==> via == under
    ensures Effect(a, c, via)
  {
    UnitBalanced(a, b0, b1, c, under, committed);
    UnitWrites(a, b0, b1, c, under, committed, via);
    UnitStores(a, b0, b1, c, under, committed, via);
  }

  /** A unit keeps what its body kept for itself, if it commits and, unless it is a
      transaction of its own, its surroundings keep it. */
  lemma KeepsOfUnit(
    a: State, b0: State, b1: State, c: State, under: Option<nat>, committed: bool, keep: bool, kept: seq<bool>)
    requires UnitRan(a, b0, b1, c, under, committed)
    requires Keeps(b0, b1, committed && (under.None? || keep), kept)
    ensures Keeps(a, c, keep, kept)
  {
    UnitLengths(a, b0, b1, c, under, committed);
    WritesSplit(b0.log, b1.log, |a.log|);
    assert b1.log[..|b0.log|] == b0.log;
    WritesSplit(b1.log, c.log, |a.log|);
    assert Writes(c.log, |a.log|) == Writes(b1.log, |b0.log|);
    WritesInRange(b1.log, |b0.log|);
    var w := Writes(b1.log, |b0.log|);
    hide UnitRan, Writes;
    forall i | 0 <= i < |w|
      ensures Settled(FateAt(a, c, w[i]), keep) <==> Settled(FateAt(b0, b1, w[i]), committed && (under.None? || keep))
    {
      assert w[i] in w;
      UnitFate(a, b0, b1, c, under, committed, w[i]);
    }
  }

  lemma KeptByUnit(
    a: State, b0: State, b1: State, c: State, under: Option<nat>, committed: bool, call: Call, body: Prog)
    requires UnitRan(a, b0, b1, c, under, committed)
    requires call.beginOk && (committed <==> UnitOutcome(call, body) == Succeeded)
    requires forall keep: bool :: Keeps(b0, b1, keep, Kept(body, true, keep))
    ensures forall keep: bool :: Keeps(a, c, keep, KeptUnit(call, body, under.None?, keep))
  {
    hide UnitRan, Keeps;
    forall keep: bool ensures Keeps(a, c, keep, KeptUnit(call, body, under.None?, keep)) {
      var kept := committed && (under.None? || keep);
      assert Keeps(b0, b1, kept, Kept(body, true, kept));
      KeepsOfUnit(a, b0, b1, c, under, committed, keep, KeptUnit(call, body, under.None?, keep));
    }
  }

  /** A unit has its effect, keeps what it should, and starts with its begin. */
  lemma WhatUnitDoes(
    a: State, b0: State, b1: State, c: State, under: Option<nat>, committed: bool, via: Option<nat>,
    call: Call, body: Prog)
    requires UnitRan(a, b0, b1, c, under, committed) && (under.Some? ==> via == under)
    requires call.beginOk && (committed <==> UnitOutcome(call, body) == Succeeded)
    requires forall keep: bool :: Keeps(b0, b1, keep, Kept(body, true, keep))
    ensures Effect(a, c, via) && a.log + [Began(a.n, under.None?)] <= c.log
    ensures forall keep: bool :: Keeps(a, c, keep, KeptUnit(call, body, under.None?, keep))
  {
    EffectOfUnit(a, b0, b1, c, under, committed, via);
    KeptByUnit(a, b0, b1, c, under, committed, call, body);
    EffectGrows(b0, b1, Some(a.n));
    hide Effect, Keeps, FreshTx;
  }

  // ----- the module and its driver -----

  /** The i-th open unit has not ended, and sits on its parent; `n` transactions were begun. */
  ghost predicate OpenFrame(s: seq<Frame>, i: nat, parent: seq<Option<nat>>, n: nat, log: seq<Event>)
    requires i < |s|
  {
    && s[i].tx < n && s[i].tx < |parent| && !HasEnded(log, s[i].tx)
    && (if s[i].top then parent[s[i].tx] == None
        else i > 0 && parent[s[i].tx] == Some(s[i - 1].tx))
    && forall j :: 0 <= j < i ==> s[j].tx < s[i].tx
  }

  lemma FramesAfterEnd(parent: seq<Option<nat>>, n: nat, log: seq<Event>, tx: nat, committed: bool)
    requires forall i :: 0 <= i < |Stack(log)| ==> OpenFrame(Stack(log), i, parent, n, log)
    requires Stack(log) != [] && Stack(log)[|Stack(log)| - 1].tx == tx
    ensures
      var more := log + [Ended(tx, committed)];
      forall i :: 0 <= i < |Stack(more)| ==> OpenFrame(Stack(more), i, parent, n, more)
  {
    EndedMore(log, tx, committed);
    var s, left, more := Stack(log), Stack(log + [Ended(tx, committed)]), log + [Ended(tx, committed)];
    hide Stack, HasEnded;
    assert OpenFrame(s, |s| - 1, parent, n, log);
    forall i | 0 <= i < |left| ensures OpenFrame(left, i, parent, n, more) {
      assert OpenFrame(s, i, parent, n, log) && left[i] == s[i] && s[i].tx < s[|s| - 1].tx;
    }
  }

  class TxRuntime {
    /** The statement log: a write is identified by its position. */
    var log: seq<Event>
    /** Writes visible to everybody. */
    var durable: set<nat>
    /** Writes held by each transaction or savepoint. */
    var pending: map<nat, set<nat>>
    /** The transaction a savepoint was opened under; none for a top-level one. */
    var parent: seq<Option<nat>>
    /** The done flag of each transaction state. */
    var done: seq<bool>

    ghost predicate Valid()
      reads this
    {
      && (forall k :: 0 <= k < |log| && !log[k].Wrote? ==> log[k].tx < |done|)
      && (forall t: nat :: t < |done| ==> t in pending)
      && (forall t: nat :: t < |done| ==> (done[t] <==> HasEnded(log, t)))
      && |parent| == |done|
      && (forall i :: 0 <= i < |Stack(log)| ==> FrameOpen(Stack(log), i))
    }

    ghost predicate FrameOpen(s: seq<Frame>, i: nat)
      requires i < |s|
      reads this
    {
      OpenFrame(s, i, parent, |done|, log)
    }

    ghost predicate IsInnermost(tx: nat)
      reads this
    {
      |Stack(log)| > 0 && Stack(log)[|Stack(log)| - 1].tx == tx
    }

    ghost function Now(): State
      reads this
    {
      State(log, durable, pending, |done|)
    }

    constructor ()
      ensures Valid() && Now() == State([], {}, map[], 0)
    {
      log, durable, pending, parent, done := [], {}, map[], [], [];
    }

    /** resolveQuerier: the transaction the context names while it is live, else the pool. */
    function Q(ctx: Ctx): (via: Option<nat>)
      requires ctx.Some? ==> ctx.value < |done|
      reads this
      ensures Valid() ==> forall t :: via == Some(t) <==> ctx == Some(t) && !HasEnded(log, t)
    {
      if ctx.Some? && !done[ctx.value] then ctx else None
    }

    // --- driver ---

    /** BeginTx on the pool, or Begin under an innermost transaction: a savepoint. */
    method DriverBegin(under: Option<nat>) returns (tx: nat)
      requires Valid()
      requires under.Some? ==> IsInnermost(under.value)
      modifies this
      ensures Valid() && tx == |old(done)| && IsInnermost(tx)
      ensures parent == old(parent) + [under]
      ensures log == old(log) + [Began(tx, under.None?)] && done == old(done) + [false]
      ensures durable == old(durable) && pending == old(pending)[tx := {}]
    {
      tx := |done|;
      ghost var before := log;
      log := log + [Began(tx, under.None?)];
      done := done + [false];
      parent := parent + [under];
      pending := pending[tx := {}];
      Extend(before, Began(tx, under.None?));
      FreshHasNoEnds(before, tx, tx);
      assert forall t :: EndCount(log, t) == EndCount(before, t);
      forall i | 0 <= i < |Stack(log)| ensures FrameOpen(Stack(log), i) {
        forall j | 0 <= j < |Stack(before)| ensures Stack(before)[j].tx < tx {
          assert old(FrameOpen(Stack(log), j));
        }
        assert i < |Stack(before)| ==> old(FrameOpen(Stack(log), i));
      }
    }

    /** The context names nothing, a finished transaction, or the innermost open one. */
    ghost predicate CtxUsable(ctx: Ctx)
      requires Valid()
      reads this
    {
      && (ctx.Some? ==> ctx.value < |done|)
      && (Q(ctx).Some? ==> IsInnermost(Q(ctx).value))
    }

    lemma KeepsCtx(a: State, ctx: Ctx)
      requires Valid() && Balanced(a, Now())
      requires ctx.Some? ==> ctx.value < a.n
      requires ctx.Some? && !HasEnded(a.log, ctx.value) ==>
        |Stack(a.log)| > 0 && Stack(a.log)[|Stack(a.log)| - 1].tx == ctx.value
      ensures CtxUsable(ctx)
      ensures Q(ctx) == if ctx.Some? && !HasEnded(a.log, ctx.value) then ctx else None
    {
    }

    lemma InnermostIsPending(tx: nat)
      requires Valid() && IsInnermost(tx)
      ensures tx < |done| && tx in pending && !HasEnded(log, tx)
    {
      assert FrameOpen(Stack(log), |Stack(log)| - 1);
    }

    /** A statement on the pool commits at once; on a transaction it joins the
        writes of its innermost savepoint. */
    method DriverExec(via: Option<nat>)
      requires Valid()
      requires via.Some? ==> IsInnermost(via.value) && via.value in pending
      modifies this
      ensures Valid() && done == old(done) && parent == old(parent)
      ensures log == old(log) + [Wrote(via)]
      ensures durable == old(durable) + if via.None? then {|old(log)|} else {}
      ensures pending == if via.None? then old(pending)
                         else old(pending)[via.value := old(pending)[via.value] + {|old(log)|}]
    {
      Extend(log, Wrote(via));
      forall i | 0 <= i < |Stack(log)| ensures FrameOpen(Stack(log), i) {
      }
      if via.Some? {
        pending := pending[via.value := pending[via.value] + {|log|}];
      } else {
        durable := durable + {|log|};
      }
      log := log + [Wrote(via)];
      forall i | 0 <= i < |Stack(log)| ensures FrameOpen(Stack(log), i) {
        assert old(FrameOpen(Stack(log), i));
      }
    }

    /** Commit or roll back the innermost transaction. A commit hands its writes to
        the parent, or to everybody; a rollback, or a commit that fails, drops them. */
    method DriverEnd(tx: nat, committed: bool)
      requires Valid() && IsInnermost(tx) && tx in pending
      modifies this
      ensures done == old(done) && parent == old(parent)
      ensures EndedUnmarked(tx)
      ensures log == old(log) + [Ended(tx, committed)]
      ensures tx < |parent|
      ensures parent[tx].Some? ==> parent[tx].value in old(pending)
      ensures durable == old(durable) + if committed && parent[tx].None? then old(pending)[tx] else {}
      ensures pending == if committed && parent[tx].Some?
                         then old(pending)[parent[tx].value := old(pending)[parent[tx].value] + old(pending)[tx]]
                         else old(pending)
    {
      EndInnermost(tx);
      FramesAfterEnd(parent, |done|, log, tx, committed);
      EndedMore(log, tx, committed);
      hide Stack, HasEnded, OpenFrame;
      if committed {
        if parent[tx].Some? {
          pending := pending[parent[tx].value := pending[parent[tx].value] + pending[tx]];
        } else {
          durable := durable + pending[tx];
        }
      }
      log := log + [Ended(tx, committed)];
    }

    /** The innermost unit and the one it sits on. */
    lemma EndInnermost(tx: nat)
      requires Valid() && IsInnermost(tx)
      ensures tx < |done| == |parent| && (parent[tx].Some? ==> parent[tx].value in pending)
      ensures forall i :: 0 <= i < |Stack(log)| ==> OpenFrame(Stack(log), i, parent, |done|, log)
    {
      var s := Stack(log);
      forall i | 0 <= i < |s| ensures OpenFrame(s, i, parent, |done|, log) {
        assert FrameOpen(s, i);
      }
      assert FrameOpen(s, |s| - 1);
      if parent[tx].Some? {
        assert FrameOpen(s, |s| - 2);
      }
    }

    // --- the module ---

    /** Everything `Valid` asks for, except that `tx` has just ended and its flag is not yet set. */
    ghost predicate EndedUnmarked(tx: nat)
      reads this
    {
      && (forall k :: 0 <= k < |log| && !log[k].Wrote? ==> log[k].tx < |done|)
      && (forall t: nat :: t < |done| ==> t in pending)
      && tx < |done| && HasEnded(log, tx)
      && (forall t: nat :: t < |done| && t != tx ==> (done[t] <==> HasEnded(log, t)))
      && |parent| == |done|
      && (forall i :: 0 <= i < |Stack(log)| ==> FrameOpen(Stack(log), i))
    }

    method MarkDone(tx: nat)
      requires EndedUnmarked(tx)
      modifies this`done
      ensures Valid() && done == old(done)[tx := true]
    {
      done := done[tx := true];
      forall i | 0 <= i < |Stack(log)| ensures FrameOpen(Stack(log), i) {
        assert old(FrameOpen(Stack(log), i));
      }
    }

    /** What was begun since the log was `before` and `n` transactions existed: nothing if
        the driver refused, else first of all a transaction under `under`, if any. */
    ghost predicate Opened(before: seq<Event>, n: nat, beginOk: bool, under: Option<nat>)
      reads this
    {
      if !beginOk then log == before
      else before + [Began(n, under.None?)] <= log && n < |parent| && parent[n] == under
    }

    /** WithTx: a savepoint under the live transaction of the context, else a top-level transaction. */
    method WithTx(ctx: Ctx, call: Call, body: Prog) returns (end: End)
      requires Valid() && CtxUsable(ctx)
      modifies this
      ensures Valid() && old(parent) <= parent && Effect(old(Now()), Now(), old(Q(ctx)))
      ensures Opened(old(log), |old(done)|, call.beginOk, old(Q(ctx)))
      ensures forall keep: bool :: Keeps(old(Now()), Now(), keep, KeptUnit(call, body, old(Q(ctx)).None?, keep))
      ensures end == UnitOutcome(call, body)
      decreases body, 4
    {
      if ctx.Some? && !done[ctx.value] {
        end := NestedTx(ctx.value, call, body);
      } else {
        end := BeginTopLevel(ctx, call, body);
      }
    }

    /** WithNewTx: always a top-level transaction. */
    method WithNewTx(ctx: Ctx, call: Call, body: Prog) returns (end: End)
      requires Valid() && CtxUsable(ctx)
      modifies this
      ensures Valid() && old(parent) <= parent && Effect(old(Now()), Now(), old(Q(ctx)))
      ensures Opened(old(log), |old(done)|, call.beginOk, None)
      ensures forall keep: bool :: Keeps(old(Now()), Now(), keep, KeptUnit(call, body, true, keep))
      ensures end == UnitOutcome(call, body)
      decreases body, 4
    {
      end := BeginTopLevel(ctx, call, body);
    }

    method BeginTopLevel(ghost ctx: Ctx, call: Call, body: Prog) returns (end: End)
      requires Valid() && CtxUsable(ctx)
      modifies this
      ensures Valid() && old(parent) <= parent && Effect(old(Now()), Now(), old(Q(ctx)))
      ensures Opened(old(log), |old(done)|, call.beginOk, None)
      ensures forall keep: bool :: Keeps(old(Now()), Now(), keep, KeptUnit(call, body, true, keep))
      ensures end == UnitOutcome(call, body)
      decreases body, 3
    {
      hide Effect, Keeps, Kept, Stack, EndCount, IsCommitted;
      ghost var a := Now();
      if !call.beginOk {
        KeepsNothing(a);
        EffectOfNothing(a, Q(ctx));
        return Failed;
      }
      var tx := DriverBegin(None);
      ghost var b0 := Now();
      ghost var b1, committed;
      end, b1, committed := RunUnit(tx, call, body);
      WhatUnitDoes(a, b0, b1, Now(), None, committed, old(Q(ctx)), call, body);
    }

    method NestedTx(under: nat, call: Call, body: Prog) returns (end: End)
      requires Valid() && IsInnermost(under)
      modifies this
      ensures Valid() && old(parent) <= parent && Effect(old(Now()), Now(), Some(under))
      ensures Opened(old(log), |old(done)|, call.beginOk, Some(under))
      ensures forall keep: bool :: Keeps(old(Now()), Now(), keep, KeptUnit(call, body, false, keep))
      ensures end == UnitOutcome(call, body)
      decreases body, 3
    {
      hide Effect, Keeps, Kept, Stack, EndCount, IsCommitted;
      ghost var a := Now();
      InnermostIsPending(under);
      if !call.beginOk {
        KeepsNothing(a);
        EffectOfNothing(a, Some(under));
        return Failed;
      }
      var tx := DriverBegin(Some(under));
      ghost var b0 := Now();
      ghost var b1, committed;
      end, b1, committed := RunUnit(tx, call, body);
      WhatUnitDoes(a, b0, b1, Now(), Some(under), committed, Some(under), call, body);
    }

    /** runUnit: run the body with the unit's own context, end its transaction once,
        and mark it done on every way out. */
    method RunUnit(tx: nat, call: Call, body: Prog) returns (end: End, ghost b1: State, ghost committed: bool)
      requires Valid() && IsInnermost(tx) && tx + 1 == |done|
      modifies this
      ensures Valid() && old(parent) <= parent
      ensures Effect(old(Now()), b1, Some(tx))
      ensures forall keep: bool :: Keeps(old(Now()), b1, keep, Kept(body, true, keep))
      ensures tx in b1.pending && (old(parent)[tx].Some? ==> old(parent)[tx].value in b1.pending)
      ensures Now().log == b1.log + [Ended(tx, committed)] && Now().n == b1.n
      ensures durable == b1.durable + if committed && old(parent)[tx].None? then b1.pending[tx] else {}
      ensures pending ==
        if committed && old(parent)[tx].Some?
        then b1.pending[old(parent)[tx].value := b1.pending[old(parent)[tx].value] + b1.pending[tx]]
        else b1.pending
      ensures end == if Outcome(body) == Succeeded && !call.commitOk then Failed else Outcome(body)
      ensures committed <==> end == Succeeded
      decreases body, 2
    {
      InnermostIsPending(tx);
      end := Run(Some(tx), body);
      b1 := Now();
      InnermostIsPending(tx);
      if end != Succeeded {
        DriverEnd(tx, false);
      } else if call.commitOk {
        DriverEnd(tx, true);
      } else {
        DriverEnd(tx, false);
        end := Failed;
      }
      committed := end == Succeeded;
      MarkDone(tx);
    }

    /** One statement through Q(ctx). */
    method ExecOne(ctx: Ctx)
      requires Valid() && CtxUsable(ctx)
      modifies this
      ensures Valid() && old(parent) == parent && Effect(old(Now()), Now(), old(Q(ctx)))
      ensures forall keep: bool :: Keeps(old(Now()), Now(), keep, [keep])
    {
      ghost var a, via := Now(), Q(ctx);
      if via.Some? {
        InnermostIsPending(via.value);
      }
      DriverExec(Q(ctx));
      EffectOfWrite(a, Now(), via);
      KeepsOfWrite(a, Now(), via);
    }

    /** One nested unit. */
    method NestOne(ctx: Ctx, p: Prog) returns (end: End)
      requires Valid() && CtxUsable(ctx) && p.Nest?
      modifies this
      ensures Valid() && old(parent) <= parent && Effect(old(Now()), Now(), old(Q(ctx)))
      ensures forall keep: bool :: Keeps(old(Now()), Now(), keep, FirstKept(p, old(Q(ctx)).Some?, keep))
      ensures end == UnitOutcome(p.call, p.body)
      decreases p.body, 5
    {
      hide Effect, Keeps;
      ghost var a, via := Now(), Q(ctx);
      ghost var top := p.call.newTx || via.None?;
      if p.call.newTx {
        end := WithNewTx(ctx, p.call, p.body);
      } else {
        end := WithTx(ctx, p.call, p.body);
      }
      forall keep: bool ensures Keeps(a, Now(), keep, FirstKept(p, via.Some?, keep)) {
        assert Keeps(a, Now(), keep, KeptUnit(p.call, p.body, top, keep));
      }
    }

    /** The first thing a body does; it goes on with `next` and the same context. */
    method StepOne(ctx: Ctx, p: Prog) returns (next: Prog)
      requires Valid() && CtxUsable(ctx) && !p.Return?
      modifies this
      ensures Valid() && old(parent) <= parent && Effect(old(Now()), Now(), old(Q(ctx)))
      ensures CtxUsable(ctx) && Q(ctx) == old(Q(ctx))
      ensures forall keep: bool :: Keeps(old(Now()), Now(), keep, FirstKept(p, old(Q(ctx)).Some?, keep))
      ensures next == Following(p) && Outcome(next) == Outcome(p)
      decreases p, 0
    {
      ghost var a, via := Now(), Q(ctx);
      if p.Exec? {
        ExecOne(ctx);
        assert forall keep: bool {:trigger FirstKept(p, via.Some?, keep)} :: FirstKept(p, via.Some?, keep) == [keep];
        next := p.next;
      } else {
        var end := NestOne(ctx, p);
        next := Continuation(p, end);
      }
      assert Balanced(a, Now());
      hide Effect, Balanced, Keeps;
      KeepsCtx(a, ctx);
    }

    /** A function body: it uses only the context it was given. */
    method Run(ctx: Ctx, p: Prog) returns (end: End)
      requires Valid() && CtxUsable(ctx)
      modifies this
      ensures Valid() && old(parent) <= parent && Effect(old(Now()), Now(), old(Q(ctx)))
      ensures forall keep: bool :: Keeps(old(Now()), Now(), keep, Kept(p, old(Q(ctx)).Some?, keep))
      ensures end == Outcome(p)
      decreases p, 1
    {
      hide Effect;
      ghost var a, via := Now(), Q(ctx);
      if p.Return? {
        EffectOfNothing(a, via);
        return p.end;
      }
      var next := StepOne(ctx, p);
      ghost var b := Now();
      end := Run(ctx, next);
      EffectCompose(a, b, Now(), via);
      forall keep: bool ensures Keeps(a, Now(), keep, Kept(p, via.Some?, keep)) {
        KeepsOfBoth(a, b, Now(), via, keep, FirstKept(p, via.Some?, keep), Kept(next, via.Some?, keep));
      }
    }

    /** The database holds exactly the writes whose enclosing units all committed. */
    ghost predicate Faithful()
      reads this
    {
      durable == set k | 0 <= k < |log| && Survives(log, k)
    }

    /** A whole program, started with a plain context while no unit is open. Its i-th
        statement is durable exactly when the units around it say so. */
    method RunProgram(p: Prog) returns (end: End)
      requires Valid() && Stack(log) == [] && Faithful()
      modifies this
      ensures Valid() && Stack(log) == [] && Faithful()
      ensures old(log) <= log && end == Outcome(p)
      ensures
        var w, kept := Writes(log, |old(log)|), Kept(p, false, true);
        |w| == |kept| && forall i :: 0 <= i < |w| ==> (w[i] in durable <==> kept[i])
      ensures forall t: nat :: |old(done)| <= t < |done| ==> EndCount(log, t) == 1 && done[t]
      ensures forall ctx: Ctx :: (ctx.Some? ==> ctx.value < |done|) ==> Q(ctx) == None || ctx.value < |old(done)|
      ensures forall k :: |old(log)| <= k < |log| && log[k].Wrote? ==>
        var s := StackAt(log, k);
        log[k].via == if s == [] then None else Some(s[|s| - 1].tx)
    {
      ghost var a := Now();
      end := Run(None, p);
      SurvivorsOfRun(a, Now());
      KeptIsDurable(a, Now(), Kept(p, false, true));
      forall k | |a.log| <= k < |log| && log[k].Wrote?
        ensures var s := StackAt(log, k); log[k].via == if s == [] then None else Some(s[|s| - 1].tx)
      {
        assert Relative(StackAt(log, k), 0) == StackAt(log, k);
      }
    }
  }

  /** On the pool what merges into the surroundings is durable. */
  lemma KeptIsDurable(a: State, b: State, kept: seq<bool>)
    requires Effect(a, b, None) && Keeps(a, b, true, kept)
    requires a.durable == set k | 0 <= k < |a.log| && Survives(a.log, k)
    ensures
      var w := Writes(b.log, |a.log|);
      |w| == |kept| && forall i :: 0 <= i < |w| ==> (w[i] in b.durable <==> kept[i])
  {
    WritesInRange(b.log, |a.log|);
    var w := Writes(b.log, |a.log|);
    forall i | 0 <= i < |w| ensures w[i] in b.durable <==> Settled(FateAt(a, b, w[i]), true) {
      assert w[i] in w;
      hide Balanced, WritesInnermost, Survives;
      assert Stores(a, b, None) && w[i] !in a.durable;
    }
    hide Effect, Settled, FateAt, Writes;
  }

  /** What a program started with no unit open makes durable. */
  lemma SurvivorsOfRun(a: State, b: State)
    requires Stack(a.log) == [] && Effect(a, b, None) && FreshTx(a)
    requires a.durable == set k | 0 <= k < |a.log| && Survives(a.log, k)
    ensures b.durable == set k | 0 <= k < |b.log| && Survives(b.log, k)
  {
    forall k | 0 <= k < |b.log| && b.log[k].Wrote?
      ensures k in b.durable <==> Survives(b.log, k)
    {
      if k < |a.log| {
        OldWritesKeepFate(a, b, k);
      } else {
        assert Relative(StackAt(b.log, k), 0) == StackAt(b.log, k);
        LostMeansUncommitted(StackAt(b.log, k), b.log);
      }
    }
  }

  lemma {:induction false} StackIsFresh(log: seq<Event>, n: nat)
    requires forall k :: 0 <= k < |log| && !log[k].Wrote? ==> log[k].tx < n
    ensures forall f :: f in Stack(log) ==> f.tx < n
  {
    if log != [] {
      StackIsFresh(log[..|log| - 1], n);
    }
  }

  lemma {:induction false} EnclosingIsOpen(s: seq<Frame>, t: nat)
    requires t in Enclosing(s)
    ensures exists f :: f in s && f.tx == t
  {
    if t != s[|s| - 1].tx {
      EnclosingIsOpen(s[..|s| - 1], t);
    }
  }

  lemma OldWritesKeepFate(a: State, b: State, k: nat)
    requires Balanced(a, b) && FreshTx(a) && k < |a.log|
    ensures Survives(b.log, k) <==> Survives(a.log, k)
  {
    StackAtPrefix(a.log, b.log, k);
    StackIsFresh(a.log[..k], a.n);
    forall t | t in Enclosing(StackAt(a.log, k)) ensures IsCommitted(b.log, t) <==> IsCommitted(a.log, t) {
      EnclosingIsOpen(StackAt(a.log, k), t);
    }
  }
}
