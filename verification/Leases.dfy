/** The lease protocols of packages/scrape-kdl-playwright/src/index.ts and adapters/rod/adapter.go, as
    steps that can happen in any order. */
module Leases {
  import opened Options

  datatype Outcome = Granted | Rejected

  /** A caller of `acquire` is known by its number; signals by theirs. `listening` are the waiters whose
      abort listener is registered, `grants` the callers granted so far, in order. */
  datatype State = State(
    held: bool, closed: bool, waiters: seq<nat>, aborted: set<nat>, signals: map<nat, Option<nat>>,
    listening: set<nat>, settled: map<nat, Outcome>, released: set<nat>, grants: seq<nat>, next: nat)

  const START := State(false, false, [], {}, map[], {}, map[], {}, [], 0)

  /** What can happen: a call of acquire, a signal becoming aborted, the abort listener of a waiter
      running, a release callback being called (again), and close. */
  datatype Event = Acquire(signal: Option<nat>) | Abort(aborted: nat) | Listener(id: nat) | Release(id: nat) | Close

  predicate IsAborted(s: State, id: nat) {
    id in s.signals && s.signals[id].Some? && s.signals[id].value in s.aborted
  }

  // ---------- the steps ----------

  function AcquireStep(s: State, signal: Option<nat>): State {
    var t := s.(signals := s.signals[s.next := signal], next := s.next + 1);
    if s.closed || IsAborted(t, s.next) then t.(settled := t.settled[s.next := Rejected])
    else if !s.held then t.(held := true, settled := t.settled[s.next := Granted], grants := t.grants + [s.next])
    else t.(waiters := t.waiters + [s.next], listening := if signal.Some? then t.listening + {s.next} else t.listening)
  }

  function Without(ids: seq<nat>, id: nat): seq<nat> {
    if ids == [] then [] else (if ids[0] == id then [] else [ids[0]]) + Without(ids[1..], id)
  }

  function ListenerStep(s: State, id: nat): State {
    if id !in s.listening || !IsAborted(s, id) then s
    else
      s.(listening := s.listening - {id}, waiters := Without(s.waiters, id),
         settled := if id in s.settled then s.settled else s.settled[id := Rejected])
  }

  /** The loop of a release: aborted waiters at the front are rejected, the first other one is granted. */
  function PassOn(s: State): State
    decreases |s.waiters|
  {
    if s.waiters == [] then s.(held := false)
    else
      var id := s.waiters[0];
      var t := s.(waiters := s.waiters[1..], listening := s.listening - {id});
      if IsAborted(s, id) then PassOn(t.(settled := t.settled[id := Rejected]))
      else t.(settled := t.settled[id := Granted], grants := t.grants + [id])
  }

  function ReleaseStep(s: State, id: nat): State {
    if id !in s.settled || s.settled[id] != Granted || id in s.released then s
    else PassOn(s.(released := s.released + {id}))
  }

  function RejectAll(s: State): State
    decreases |s.waiters|
  {
    if s.waiters == [] then s
    else
      var id := s.waiters[0];
      RejectAll(s.(waiters := s.waiters[1..], listening := s.listening - {id}, settled := s.settled[id := Rejected]))
  }

  function CloseStep(s: State): State {
    if s.closed then s else RejectAll(s.(closed := true))
  }

  function Step(s: State, e: Event): State {
    match e
    case Acquire(signal) => AcquireStep(s, signal)
    case Abort(a) => s.(aborted := s.aborted + {a})
    case Listener(id) => ListenerStep(s, id)
    case Release(id) => ReleaseStep(s, id)
    case Close => CloseStep(s)
  }

  function Run(events: seq<Event>): State {
    if events == [] then START else Step(Run(events[..|events| - 1]), events[|events| - 1])
  }

  // ---------- the adapter ----------

  class PlaywrightLease {
    var leaseHeld: bool
    var leaseWaiters: seq<nat>
    var closed: bool
    /** The promises and signals around the adapter. */
    var aborted: set<nat>
    var signals: map<nat, Option<nat>>
    var listening: set<nat>
    var settled: map<nat, Outcome>
    var released: set<nat>
    var grants: seq<nat>
    var next: nat

    constructor ()
      ensures Now() == START
    {
      leaseHeld, closed, leaseWaiters, aborted, signals := false, false, [], {}, map[];
      listening, settled, released, grants, next := {}, map[], {}, [], 0;
    }

    function Now(): State
      reads this
    {
      State(leaseHeld, closed, leaseWaiters, aborted, signals, listening, settled, released, grants, next)
    }

    method DoAcquire(signal: Option<nat>) returns (id: nat)
      modifies this
      ensures Now() == Step(old(Now()), Acquire(signal)) && id == old(next)
    {
      id := next;
      next := next + 1;
      signals := signals[id := signal];
      if closed || (signal.Some? && signal.value in aborted) {
        settled := settled[id := Rejected];
        return;
      }
      if !leaseHeld {
        leaseHeld := true;
        settled := settled[id := Granted];
        grants := grants + [id];
        return;
      }
      if signal.Some? {
        listening := listening + {id};
      }
      leaseWaiters := leaseWaiters + [id];
    }

    method DoAbort(signal: nat)
      modifies this
      ensures Now() == Step(old(Now()), Abort(signal))
    {
      aborted := aborted + {signal};
    }

    /** onAbort. */
    method DoListener(id: nat)
      modifies this
      ensures Now() == Step(old(Now()), Listener(id))
    {
      if id !in listening || !IsAborted(Now(), id) {
        return;
      }
      listening := listening - {id};
      leaseWaiters := Without(leaseWaiters, id);
      if id !in settled {
        settled := settled[id := Rejected];
      }
    }

    /** The release callback of a lease. */
    method DoRelease(id: nat)
      modifies this
      ensures Now() == Step(old(Now()), Release(id))
    {
      hide IsAborted;
      if id !in settled || settled[id] != Granted || id in released {
        return;
      }
      released := released + {id};
      ghost var goal := PassOn(Now());
      while leaseWaiters != []
        invariant PassOn(Now()) == goal
        decreases |leaseWaiters|
      {
        var waiter := leaseWaiters[0];
        var canceled := IsAborted(Now(), waiter);
        leaseWaiters := leaseWaiters[1..];
        listening := listening - {waiter};
        if !canceled {
          settled := settled[waiter := Granted];
          grants := grants + [waiter];
          return;
        }
        settled := settled[waiter := Rejected];
      }
      leaseHeld := false;
    }

    method DoClose()
      modifies this
      ensures Now() == Step(old(Now()), Close)
    {
      if closed {
        return;
      }
      closed := true;
      ghost var goal := RejectAll(Now());
      while leaseWaiters != []
        invariant RejectAll(Now()) == goal
        decreases |leaseWaiters|
      {
        var waiter := leaseWaiters[0];
        leaseWaiters := leaseWaiters[1..];
        listening := listening - {waiter};
        settled := settled[waiter := Rejected];
      }
    }
  }

  // ---------- safety ----------

  /** Leases granted and not released. */
  function Outstanding(s: State): set<nat> {
    set id | id in s.settled && s.settled[id] == Granted && id !in s.released
  }

  predicate Rising(ids: seq<nat>) {
    forall i, j | 0 <= i < j < |ids| :: ids[i] < ids[j]
  }

  /** At most one lease is out, and the adapter knows. */
  ghost predicate OneLease(s: State) {
    if s.held then exists id :: Outstanding(s) == {id} else Outstanding(s) == {}
  }

  /** Every caller so far is either settled or waiting, and not both. */
  ghost predicate Callers(s: State) {
    && (forall id: nat :: id in s.settled || id in s.waiters <==> id < s.next)
    && (forall id | id in s.waiters :: id !in s.settled)
    && (forall id | id in s.listening :: id in s.waiters)
    && (forall id: nat :: id in s.signals <==> id < s.next)
  }

  /** Waiters stand in the order of their calls, behind every caller that was granted. */
  ghost predicate InOrder(s: State) {
    && Rising(s.waiters) && Rising(s.grants)
    && (forall id: nat :: id in s.grants <==> id in s.settled && s.settled[id] == Granted)
    && forall g, w | g in s.grants && w in s.waiters :: g < w
  }

  /** Only an aborted caller is turned away, unless the adapter is closed. */
  predicate Fair(s: State) {
    forall id | id in s.settled && s.settled[id] == Rejected :: IsAborted(s, id) || s.closed
  }

  ghost predicate Orderly(s: State) {
    Callers(s) && InOrder(s) && Fair(s)
  }

  ghost predicate Safe(s: State) {
    Orderly(s) && OneLease(s) && (s.waiters != [] ==> s.held && !s.closed)
  }

  lemma {:induction false} FirstOfRising(ids: seq<nat>)
    requires Rising(ids) && ids != []
    ensures Rising(ids[1..]) && ids[0] !in ids[1..] && forall id | id in ids[1..] :: ids[0] < id
    ensures forall id: nat :: id in ids <==> id == ids[0] || id in ids[1..]
  {
    assert ids == [ids[0]] + ids[1..];
  }

  lemma {:induction false} RisingSnoc(ids: seq<nat>, id: nat)
    requires Rising(ids) && forall x | x in ids :: x < id
    ensures Rising(ids + [id])
    ensures forall x: nat :: x in ids + [id] <==> x in ids || x == id
  {
    assert forall i | 0 <= i < |ids| :: ids[i] in ids && (ids + [id])[i] == ids[i];
  }

  lemma {:induction false} WithoutOne(ids: seq<nat>, id: nat)
    requires Rising(ids)
    ensures Rising(Without(ids, id)) && forall x: nat :: x in Without(ids, id) <==> x in ids && x != id
  {
    if ids != [] {
      FirstOfRising(ids);
      WithoutOne(ids[1..], id);
      if ids[0] != id {
        RisingCons(ids[0], Without(ids[1..], id));
      } else {
        assert [] + Without(ids[1..], id) == Without(ids[1..], id);
      }
    }
  }

  lemma {:induction false} RisingCons(id: nat, ids: seq<nat>)
    requires Rising(ids) && forall x | x in ids :: id < x
    ensures Rising([id] + ids)
    ensures forall x: nat :: x in [id] + ids <==> x in ids || x == id
  {
    assert forall i | 0 <= i < |ids| :: ids[i] in ids && ([id] + ids)[i + 1] == ids[i];
  }

  lemma {:induction false} AcquireSafe(s: State, signal: Option<nat>)
    requires Safe(s) && ReleasedAreSettled(s)
    ensures Safe(AcquireStep(s, signal))
  {
    hide Rising;
    assert s.next !in s.settled && s.next !in s.waiters;
    var t := AcquireStep(s, signal);
    RisingSnoc(s.waiters, s.next);
    RisingSnoc(s.grants, s.next);
    if s.next in t.settled && t.settled[s.next] == Granted {
      assert Outstanding(t) == {s.next};
    } else {
      assert Outstanding(t) == Outstanding(s);
    }
  }

  lemma {:induction false} AbortSafe(s: State, a: nat)
    requires Safe(s)
    ensures Safe(Step(s, Abort(a)))
  {
    assert Outstanding(Step(s, Abort(a))) == Outstanding(s);
  }

  lemma {:induction false} ListenerSafe(s: State, id: nat)
    requires Safe(s)
    ensures Safe(ListenerStep(s, id))
  {
    hide Rising;
    WithoutOne(s.waiters, id);
    assert Outstanding(ListenerStep(s, id)) == Outstanding(s);
  }

  /** Rejecting the first waiter, who was aborted or finds the adapter closed. */
  lemma {:induction false} RejectFirst(s: State)
    requires Orderly(s) && s.waiters != [] && (IsAborted(s, s.waiters[0]) || s.closed)
    ensures var id := s.waiters[0];
      var t := s.(waiters := s.waiters[1..], listening := s.listening - {id}, settled := s.settled[id := Rejected]);
      Orderly(t) && Outstanding(t) == Outstanding(s)
  {
    hide Rising;
    FirstOfRising(s.waiters);
  }

  lemma {:induction false} GrantFirst(s: State)
    requires Orderly(s) && s.waiters != [] && s.held && !s.closed && Outstanding(s) == {} && s.waiters[0] !in s.released
    ensures var id := s.waiters[0];
      Safe(s.(waiters := s.waiters[1..], listening := s.listening - {id}, settled := s.settled[id := Granted], grants := s.grants + [id]))
  {
    hide Rising;
    var id := s.waiters[0];
    var t := s.(waiters := s.waiters[1..], listening := s.listening - {id}, settled := s.settled[id := Granted], grants := s.grants + [id]);
    FirstOfRising(s.waiters);
    RisingSnoc(s.grants, id);
    assert Outstanding(t) == {id};
  }

  /** Only settled callers have released anything. */
  predicate ReleasedAreSettled(s: State) {
    forall id | id in s.released :: id in s.settled
  }

  lemma {:induction false} PassOnSafe(s: State)
    requires Orderly(s) && s.held && Outstanding(s) == {} && (s.waiters != [] ==> !s.closed) && ReleasedAreSettled(s)
    ensures Safe(PassOn(s)) && ReleasedAreSettled(PassOn(s))
    decreases |s.waiters|
  {
    hide InOrder, Fair;
    if s.waiters != [] {
      var id := s.waiters[0];
      assert id in s.waiters;
      if IsAborted(s, id) {
        RejectFirst(s);
        PassOnSafe(s.(waiters := s.waiters[1..], listening := s.listening - {id}, settled := s.settled[id := Rejected]));
      } else {
        GrantFirst(s);
      }
    } else {
      StillOrderly(s);
    }
  }

  lemma {:induction false} StillOrderly(s: State)
    requires Orderly(s)
    ensures Orderly(s.(held := false)) && Outstanding(s.(held := false)) == Outstanding(s)
  {}

  lemma {:induction false} ReleaseSafe(s: State, id: nat)
    requires Safe(s) && ReleasedAreSettled(s)
    ensures Safe(ReleaseStep(s, id)) && ReleasedAreSettled(ReleaseStep(s, id))
  {
    hide PassOn;
    if id in s.settled && s.settled[id] == Granted && id !in s.released {
      var t := s.(released := s.released + {id});
      assert id in Outstanding(s);
      assert Outstanding(t) == Outstanding(s) - {id} == {};
      PassOnSafe(t);
    }
  }

  lemma {:induction false} RejectAllSafe(s: State)
    requires Orderly(s) && OneLease(s) && s.closed && ReleasedAreSettled(s)
    ensures Safe(RejectAll(s)) && ReleasedAreSettled(RejectAll(s)) && RejectAll(s).waiters == []
    decreases |s.waiters|
  {
    hide InOrder, Fair, Callers;
    if s.waiters != [] {
      RejectFirst(s);
      RejectAllSafe(s.(waiters := s.waiters[1..], listening := s.listening - {s.waiters[0]}, settled := s.settled[s.waiters[0] := Rejected]));
    }
  }

  lemma {:induction false} CloseSafe(s: State)
    requires Safe(s) && ReleasedAreSettled(s)
    ensures Safe(CloseStep(s)) && ReleasedAreSettled(CloseStep(s))
  {
    hide RejectAll;
    if !s.closed {
      var t := s.(closed := true);
      assert Outstanding(t) == Outstanding(s);
      assert Orderly(t);
      RejectAllSafe(t);
    }
  }

  /** Every step keeps what is safe. */
  lemma {:induction false} StepSafe(s: State, e: Event)
    requires Safe(s) && ReleasedAreSettled(s)
    ensures Safe(Step(s, e)) && ReleasedAreSettled(Step(s, e))
  {
    hide Safe, PassOn, RejectAll, ReleaseStep, CloseStep;
    match e {
      case Acquire(signal) => AcquireSafe(s, signal);
      case Abort(a) => AbortSafe(s, a);
      case Listener(id) => ListenerSafe(s, id);
      case Release(id) => ReleaseSafe(s, id);
      case Close => CloseSafe(s);
    }
  }

  /** Whatever happens, in whatever order: at most one lease is out; callers wait only while it is,
      in the order of their calls; each is settled or waiting; and only aborted ones are turned away
      before the adapter is closed. */
  lemma {:induction false} AlwaysSafe(events: seq<Event>)
    ensures Safe(Run(events)) && ReleasedAreSettled(Run(events))
  {
    hide Step, Safe;
    if events == [] {
      StartIsSafe();
    } else {
      AlwaysSafe(events[..|events| - 1]);
      StepSafe(Run(events[..|events| - 1]), events[|events| - 1]);
    }
  }

  lemma {:induction false} StartIsSafe()
    ensures Safe(START)
  {
    var s := State(false, false, [], {}, map[], {}, map[], {}, [], 0);
    assert START == s && Outstanding(s) == {} && Callers(s) && InOrder(s) && Fair(s);
  }

  // ---------- what a run never does ----------

  lemma {:induction false} PassOnKeeps(s: State, id: nat)
    requires id in s.settled && id !in s.waiters && Rising(s.waiters)
    ensures id in PassOn(s).settled && PassOn(s).settled[id] == s.settled[id]
    decreases |s.waiters|
  {
    if s.waiters != [] {
      FirstOfRising(s.waiters);
      if IsAborted(s, s.waiters[0]) {
        PassOnKeeps(s.(waiters := s.waiters[1..], listening := s.listening - {s.waiters[0]}, settled := s.settled[s.waiters[0] := Rejected]), id);
      }
    }
  }

  lemma {:induction false} RejectAllKeeps(s: State, id: nat)
    requires id in s.settled && id !in s.waiters && Rising(s.waiters)
    ensures id in RejectAll(s).settled && RejectAll(s).settled[id] == s.settled[id] && RejectAll(s).grants == s.grants
    decreases |s.waiters|
  {
    if s.waiters != [] {
      FirstOfRising(s.waiters);
      RejectAllKeeps(s.(waiters := s.waiters[1..], listening := s.listening - {s.waiters[0]}, settled := s.settled[s.waiters[0] := Rejected]), id);
    }
  }

  /** A caller is settled once: no later step changes what it was told. */
  lemma {:induction false} SettledOnce(s: State, e: Event, id: nat)
    requires Safe(s) && id in s.settled
    ensures id in Step(s, e).settled && Step(s, e).settled[id] == s.settled[id]
  {
    hide PassOn, RejectAll, OneLease, Fair, Without;
    assert id !in s.waiters;
    match e {
      case Release(r) => PassOnKeeps(s.(released := s.released + {r}), id);
      case Close => RejectAllKeeps(s.(closed := true), id);
      case _ =>
    }
  }

  /** Nothing is granted once the adapter is closed. */
  lemma {:induction false} NoGrantAfterClose(s: State, e: Event)
    requires Safe(s) && s.closed
    ensures Step(s, e).closed && Step(s, e).grants == s.grants
  {}

  /** A caller is granted only when every earlier caller is settled: granted before it, or aborted. */
  lemma {:induction false} GrantsAreFirstCome(s: State, g: nat, id: nat)
    requires Safe(s) && g in s.grants && id < g && !s.closed
    ensures id in s.settled && (s.settled[id] == Granted || IsAborted(s, id))
  {
    assert id in s.settled || id in s.waiters;
  }

  /** No caller is left waiting for nothing: while callers wait one lease is out, and its release
      settles the first of them. */
  lemma {:induction false} ReleaseWakes(s: State, id: nat)
    requires Safe(s) && s.waiters != [] && id in Outstanding(s)
    ensures s.held && s.waiters[0] in Step(s, Release(id)).settled
  {
    var t := s.(released := s.released + {id});
    FirstOfRising(t.waiters);
    if IsAborted(t, t.waiters[0]) {
      var u := t.(waiters := t.waiters[1..], listening := t.listening - {t.waiters[0]}, settled := t.settled[t.waiters[0] := Rejected]);
      PassOnKeeps(u, t.waiters[0]);
    }
  }

  // ---------- what each step decides ----------

  /** What a caller knows: granted, rejected, or neither while it waits. */
  predicate Told(s: State, id: nat, outcome: Outcome) {
    id in s.settled && s.settled[id] == outcome
  }

  /** A call is rejected when the adapter is closed or its signal aborted, granted when no lease is out,
      and waits behind all others otherwise, listening to its signal. */
  lemma {:induction false} AcquireDecides(s: State, signal: Option<nat>)
    requires Safe(s)
    ensures var t, id := Step(s, Acquire(signal)), s.next;
      var refused := s.closed || (signal.Some? && signal.value in s.aborted);
      && (refused ==> Told(t, id, Rejected) && t.held == s.held && t.waiters == s.waiters)
      && (!refused && !s.held ==> Told(t, id, Granted) && t.held && t.waiters == s.waiters)
      && (!refused && s.held ==> id !in t.settled && t.held && t.waiters == s.waiters + [id] && (id in t.listening <==> signal.Some?))
      && (forall other | other != id :: other in t.settled <==> other in s.settled)
  {
    assert s.next !in s.settled && s.next !in s.listening;
  }

  /** Whoever waits with a signal listens to it. */
  ghost predicate Listens(s: State) {
    forall id | id in s.waiters && id in s.signals && s.signals[id].Some? :: id in s.listening
  }

  /** An abort by itself settles nobody; the listener of an aborted waiter rejects that waiter, who waits
      no longer, and nobody else. */
  lemma {:induction false} ListenerDecides(s: State, a: nat, id: nat)
    requires Safe(s) && Listens(s)
    ensures Step(s, Abort(a)).settled == s.settled && Step(s, Abort(a)).waiters == s.waiters
    ensures var t := Step(s, Listener(id));
      && t.held == s.held && t.grants == s.grants
      && (id in s.waiters && IsAborted(s, id) ==> Told(t, id, Rejected) && id !in t.waiters)
      && (!(id in s.waiters && IsAborted(s, id)) ==> t == s)
      && (forall other: nat | other != id :: (other in t.waiters <==> other in s.waiters) && (other in t.settled <==> other in s.settled))
  {
    hide Rising;
    WithoutOne(s.waiters, id);
  }

  /** How a release ends: everybody in front is rejected, the next one granted; nobody left, no lease. */
  ghost predicate PassedOn(s: State, t: State, k: nat) {
    && k <= |s.waiters| && (forall i | 0 <= i < k :: Told(t, s.waiters[i], Rejected))
    && if k == |s.waiters| then !t.held && t.waiters == [] && t.grants == s.grants
       else t.held && Told(t, s.waiters[k], Granted) && t.waiters == s.waiters[k + 1..] && t.grants == s.grants + [s.waiters[k]]
  }

  /** Releasing the lease passes it on to the first waiter who was not aborted, rejecting those before;
      releasing it again, or what is no lease, does nothing. */
  lemma {:induction false} ReleaseDecides(s: State, id: nat, k: nat)
    requires Safe(s) && k <= |s.waiters| && (forall i | 0 <= i < k :: IsAborted(s, s.waiters[i]))
    requires k < |s.waiters| ==> !IsAborted(s, s.waiters[k])
    ensures id in Outstanding(s) ==> PassedOn(s, Step(s, Release(id)), k)
    ensures id !in Outstanding(s) ==> Step(s, Release(id)) == s
  {
    hide PassOn, Rising, PassedOn;
    if id in Outstanding(s) {
      var t := s.(released := s.released + {id});
      PassOnDecides(t, k);
      SamePassedOn(s, t, PassOn(t), k);
    }
  }

  lemma {:induction false} SamePassedOn(s: State, t: State, u: State, k: nat)
    requires t.waiters == s.waiters && t.grants == s.grants && PassedOn(t, u, k)
    ensures PassedOn(s, u, k)
  {}

  lemma {:induction false} PassOnDecides(s: State, k: nat)
    requires Rising(s.waiters) && s.held && k <= |s.waiters| && (forall i | 0 <= i < k :: IsAborted(s, s.waiters[i]))
    requires k < |s.waiters| ==> !IsAborted(s, s.waiters[k])
    ensures PassedOn(s, PassOn(s), k)
    decreases k
  {
    hide Rising;
    if k > 0 {
      var id := s.waiters[0];
      FirstOfRising(s.waiters);
      var t := s.(waiters := s.waiters[1..], listening := s.listening - {id}, settled := s.settled[id := Rejected]);
      PassOnDecides(t, k - 1);
      PassOnKeeps(t, id);
      forall i | 0 <= i < k ensures Told(PassOn(s), s.waiters[i], Rejected) {
        assert i > 0 ==> s.waiters[i] == t.waiters[i - 1];
      }
      assert k < |s.waiters| ==> s.waiters[k] == t.waiters[k - 1] && s.waiters[k + 1..] == t.waiters[k..];
    }
  }

  /** Closing rejects everybody who waits, and takes no lease back. */
  lemma {:induction false} CloseDecides(s: State)
    requires Safe(s)
    ensures var t := Step(s, Close);
      && t.closed && t.held == s.held && t.grants == s.grants && (s.waiters != [] ==> t.waiters == [])
      && (forall id | id in s.waiters :: Told(t, id, Rejected))
  {
    hide Rising;
    if !s.closed {
      RejectAllDecides(s.(closed := true));
    }
  }

  lemma {:induction false} RejectAllDecides(s: State)
    requires Rising(s.waiters)
    ensures var t := RejectAll(s);
      && t.closed == s.closed && t.held == s.held && t.grants == s.grants && t.waiters == []
      && (forall id | id in s.waiters :: Told(t, id, Rejected))
    decreases |s.waiters|
  {
    hide Rising;
    if s.waiters != [] {
      var first := s.waiters[0];
      FirstOfRising(s.waiters);
      var t := s.(waiters := s.waiters[1..], listening := s.listening - {first}, settled := s.settled[first := Rejected]);
      RejectAllDecides(t);
      RejectAllKeeps(t, first);
    }
  }

  lemma {:induction false} PassOnListens(s: State)
    requires Listens(s) && Rising(s.waiters)
    ensures Listens(PassOn(s)) && PassOn(s).signals == s.signals
    decreases |s.waiters|
  {
    hide Rising;
    if s.waiters != [] {
      FirstOfRising(s.waiters);
      if IsAborted(s, s.waiters[0]) {
        PassOnListens(s.(waiters := s.waiters[1..], listening := s.listening - {s.waiters[0]}, settled := s.settled[s.waiters[0] := Rejected]));
      }
    }
  }

  lemma {:induction false} StepListens(s: State, e: Event)
    requires Safe(s) && Listens(s)
    ensures Listens(Step(s, e))
  {
    hide Rising, PassOn, OneLease, Fair;
    match e {
      case Acquire(signal) =>
        assert forall id | id in s.waiters :: id != s.next;
      case Abort(a) =>
      case Listener(id) => WithoutOne(s.waiters, id);
      case Release(id) => PassOnListens(s.(released := s.released + {id}));
      case Close =>
        if !s.closed {
          RejectAllDecides(s.(closed := true));
        }
    }
  }

  /** So it is in every run. */
  lemma {:induction false} AlwaysListens(events: seq<Event>)
    ensures Listens(Run(events))
  {
    hide Step, Safe, Listens;
    if events == [] {
      NobodyListens();
    } else {
      AlwaysListens(events[..|events| - 1]);
      AlwaysSafe(events[..|events| - 1]);
      StepListens(Run(events[..|events| - 1]), events[|events| - 1]);
    }
  }

  lemma {:induction false} NobodyListens()
    ensures Listens(START)
  {}

  // ---------- the one-slot channel ----------

  /** The channel of the rod adapter: tokens in it, and leases taken and not given back. */
  datatype Channel = Channel(tokens: nat, out: set<nat>, next: nat)

  const FULL := Channel(1, {}, 0)

  /** Taking the token, when there is one; giving a lease back, again or for the first time. */
  datatype Use = Take | Give(id: nat)

  predicate CanHappen(c: Channel, u: Use) {
    u.Take? ==> c.tokens > 0
  }

  function UseStep(c: Channel, u: Use): Channel
    requires CanHappen(c, u)
  {
    match u
    case Take => Channel(c.tokens - 1, c.out + {c.next}, c.next + 1)
    case Give(id) => if id in c.out then Channel(c.tokens + 1, c.out - {id}, c.next) else c
  }

  /** Uses one after the other; an acquire that is canceled, or waits, is none. */
  function RunUses(uses: seq<Use>): Option<Channel> {
    if uses == [] then Some(FULL) else
    var before :- RunUses(uses[..|uses| - 1]);
    if CanHappen(before, uses[|uses| - 1]) then Some(UseStep(before, uses[|uses| - 1])) else None
  }

  /** In every state the tokens in the channel and the leases out come to one, so a release never
      finds the channel full and at most one caller holds the page. */
  lemma {:induction false} OneToken(uses: seq<Use>)
    requires RunUses(uses).Some?
    ensures var c := RunUses(uses).value; c.tokens + |c.out| == 1 && forall id | id in c.out :: id < c.next
  {
    if uses != [] {
      OneToken(uses[..|uses| - 1]);
    }
  }

  /** Taking makes a new lease, and giving it back makes room for the next; giving back again does nothing. */
  lemma {:induction false} UsesDecide(c: Channel, id: nat)
    requires c.tokens + |c.out| == 1 && forall other | other in c.out :: other < c.next
    ensures CanHappen(c, Take) <==> c.out == {}
    ensures CanHappen(c, Take) ==> UseStep(c, Take).out == {c.next} && !CanHappen(UseStep(c, Take), Take)
    ensures id in c.out ==> UseStep(c, Give(id)).out == {} && CanHappen(UseStep(c, Give(id)), Take)
    ensures id !in c.out ==> UseStep(c, Give(id)) == c
  {
    if c.tokens > 0 {
      assert c.out == {};
    }
    if id in c.out {
      OnlyOut(c.out, id);
    }
  }

  class RodLease {
    var tokens: nat
    /** Callbacks that have run: sync.Once. */
    var done: set<nat>
    ghost var out: set<nat>
    ghost var next: nat

    ghost predicate Valid()
      reads this
    {
      tokens + |out| == 1 && (forall id | id in out :: id < next && id !in done) && forall id | id in done :: id < next
    }

    constructor ()
      ensures Valid() && Channel(tokens, out, next) == FULL && done == {}
    {
      tokens, out, next, done := 1, {}, 0, {};
    }

    /** A receive from the channel that finds the token. */
    method Acquire()
      requires Valid() && tokens > 0
      modifies this
      ensures Valid() && done == old(done)
      ensures Channel(tokens, out, next) == UseStep(old(Channel(tokens, out, next)), Take)
    {
      tokens := tokens - 1;
      out := out + {next};
      next := next + 1;
    }

    /** The release callback of a lease: the first time a send, which never blocks. */
    method Release(id: nat)
      requires Valid() && (id in out || id in done)
      modifies this
      ensures Valid() && tokens <= 1 && (id !in old(done) ==> old(tokens) == 0)
      ensures Channel(tokens, out, next) == UseStep(old(Channel(tokens, out, next)), Give(id))
    {
      if id in done {
        return;
      }
      OnlyOut(out, id);
      done := done + {id};
      tokens := tokens + 1;
      out := out - {id};
    }
  }

  lemma {:induction false} OnlyOut(ids: set<nat>, id: nat)
    requires |ids| <= 1 && id in ids
    ensures ids == {id} && |ids| == 1
  {
    var rest := ids - {id};
    assert |rest| == |ids| - 1;
    assert rest == {};
  }
}
