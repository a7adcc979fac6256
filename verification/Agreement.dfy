/** Quiescent agreement: with no failed process-map write, no lost event and each process
    forked once before anything else happens to it, kernel and mirror hold the same value for
    a process (or are both tombstones) whenever no event about it is pending. */
module Agreement {
  import opened Types
  import opened Protocol
  import opened Invariants

  predicate Agree(r: Replicas, k: Key) {
    || Get(r.kernel, k) == Get(r.mirror, k)
    || (k in r.kernel && k in r.mirror && r.kernel[k].tombstone && r.mirror[k].tombstone)
  }

  /** The last queued event about a process. */
  function LastFor(q: seq<Event>, k: Key): (e: Option<Event>)
    ensures e.Some? ==> e.value in q && e.value.key == k
  {
    if q == [] then None
    else if q[|q| - 1].key == k then Some(q[|q| - 1])
    else LastFor(q[..|q| - 1], k)
  }

  lemma {:induction false} LastForPop(q: seq<Event>, k: Key)
    requires q != []
    ensures LastFor(q, k) == if LastFor(q[1..], k).Some? then LastFor(q[1..], k)
                             else if q[0].key == k then Some(q[0]) else None
  {
    if |q| > 1 {
      LastForPop(q[..|q| - 1], k);
      assert q[1..][..|q| - 2] == q[..|q| - 1][1..];
    }
  }

  lemma LastForPush(q: seq<Event>, e: Event, k: Key)
    ensures LastFor(q + [e], k) == if e.key == k then Some(e) else LastFor(q, k)
  {
    assert (q + [e])[..|q|] == q;
  }

  /** The kernel entry still holds what event `e` reported, and handling `e` will settle it:
      a fork reports only an entry the mirror does not have yet. */
  predicate Reported(r: Replicas, k: Key, e: Event) {
    && k in r.kernel && r.kernel[k] == e.value
    && (e.kind.Fork? ==> k !in r.mirror && e.hasMark && e.value.hasMark)
    && (e.kind.Exit? ==> e.value.tombstone)
  }

  /** The invariant tying kernel, mirror and the last pending event of a process. */
  ghost predicate Tied(r: Replicas, k: Key) {
    && (Agree(r, k) || (LastFor(r.queue, k).Some? && Reported(r, k, LastFor(r.queue, k).value)))
    && (k !in r.past.seen ==> Agree(r, k) && LastFor(r.queue, k).None?)
  }

  predicate SameAt(r: Replicas, t: Replicas, k: Key) {
    Get(t.kernel, k) == Get(r.kernel, k) && Get(t.mirror, k) == Get(r.mirror, k)
  }

  // ---------------------------------------------------------------- daemon writes

  lemma UpsertSettles(r: Replicas, key: Key, next: Value, k: Key)
    ensures var t := Upsert(r, key, next, true);
            && t.queue == r.queue && t.past.seen == r.past.seen
            && (SameAt(r, t, k) || (k == key && Agree(t, k)))
            && (key !in r.mirror ==> Agree(t, key))
  {
  }

  lemma FirstSettles(r: Replicas, e: Event, now: U64, k: Key)
    ensures var t := FirstEffect(r, e, now, true);
            && t.queue == r.queue && t.past.seen == r.past.seen
            && (SameAt(r, t, k) || (k == e.key && Agree(t, k)))
            && (Reported(r, e.key, e) && e.value != ZERO_VALUE ==> Agree(t, e.key))
  {
    if e.kind.Exit? {
      UpsertSettles(r, e.key, Entombed(if e.key in r.mirror then r.mirror[e.key] else e.value, now), k);
    } else {
      UpsertSettles(r, e.key, e.value, k);
    }
  }

  lemma DaemonSettles(r: Replicas, c: Control, a: Action, k: Key)
    requires !IsKernel(a) && !a.HandleFirst? && !a.HandleSecond? && Reliable(a)
    requires a.Refresh? ==> a.key in r.kernel
    requires a.NoMark? || a.Repair? || a.Entomb? ==> a.key in r.mirror
    ensures var t := NextDaemon(r, c, a);
            && t.queue == r.queue && t.past.seen == r.past.seen
            && (SameAt(r, t, k) || Agree(t, k) ||
                (a.Refresh? && !Agree(r, k) && k in r.mirror && Get(t.kernel, k) == Get(r.kernel, k)))
  {
    match a
    case Mark(key, priority, mark, explicit, now, ok) =>
      UpsertSettles(r, key, NewValue(priority, mark, explicit, c.generation, now), k);
    case NoMark(key, now, ok) => UpsertSettles(r, key, NewNoMark(r.mirror[key], c.generation, now), k);
    case Entomb(key, now, ok) => UpsertSettles(r, key, Entombed(r.mirror[key], now), k);
    case _ =>
  }

  // ---------------------------------------------------------------- steps

  /** No process-map write fails and no event is lost. */
  predicate Reliable(a: Action) {
    match a
    case KFork(_, _, _, ok, sent) => ok && sent
    case KExit(_, _, ok, sent) => ok && sent
    case KExec(_, _, ok, sent) => ok && sent
    case HandleFirst(_, ok) => ok
    case HandleSecond(_, _, ok) => ok
    case Mark(_, _, _, _, _, ok) => ok
    case NoMark(_, _, ok) => ok
    case Repair(_, ok) => ok
    case Entomb(_, _, ok) => ok
    case Collect(_, _, _, ok) => ok
    case _ => true
  }

  /** A process is forked at most once, before its exec and exit. */
  predicate ForkFirst(r: Replicas, a: Action) {
    a.KFork? && a.child.pid == a.child.tgid ==> KeyOf(a.child) !in r.past.seen
  }

  /** The event of a kernel program reports what the entry now is, unless both replicas agree
      anyway. */
  ghost predicate Reports(r: Replicas, o: Outcome, key: Key) {
    o.event.key == key && (Agree(r.(kernel := o.kernel), key) || Reported(r.(kernel := o.kernel), key, o.event))
  }

  lemma ForkReports(r: Replicas, parent: Task, child: Task, now: U64)
    requires Tied(r, KeyOf(child)) && KeyOf(child) !in r.past.seen
    ensures Reports(r, ForkOutcome(r.kernel, parent, child, now, true), KeyOf(child))
  {
  }

  lemma ExitReports(r: Replicas, task: Task, now: U64)
    requires Tied(r, KeyOf(task))
    ensures Reports(r, ExitOutcome(r.kernel, task, now, true), KeyOf(task))
  {
  }

  lemma ExecReports(r: Replicas, c: Control, task: Task, now: U64)
    requires Tied(r, KeyOf(task))
    ensures Reports(r, ExecOutcome(r.kernel, c.active, c.rules, task, now, true), KeyOf(task))
  {
  }

  lemma OutcomeReports(r: Replicas, c: Control, a: Action)
    requires IsKernel(a) && Reliable(a) && ForkFirst(r, a)
    requires TaskOf(a).pid == TaskOf(a).tgid && Tied(r, KeyOf(TaskOf(a)))
    ensures Reports(r, KernelOutcome(r.kernel, c, a), KeyOf(TaskOf(a)))
  {
    match a
    case KFork(parent, child, now, _, _) => ForkReports(r, parent, child, now);
    case KExit(task, now, _, _) => ExitReports(r, task, now);
    case KExec(task, now, _, _) => ExecReports(r, c, task, now);
  }

  /** A kernel program changes the entry of its own process only. */
  lemma OutcomeElsewhere(kernel: ProcessMap, c: Control, a: Action, k: Key)
    requires IsKernel(a)
    ensures var o := KernelOutcome(kernel, c, a);
            o.event.key == KeyOf(TaskOf(a)) && (k != o.event.key ==> Get(o.kernel, k) == Get(kernel, k))
  {
  }

  lemma KernelKeepsTied(r: Replicas, c: Control, a: Action, k: Key)
    requires IsKernel(a) && Reliable(a) && ForkFirst(r, a) && Tied(r, k)
    ensures Tied(NextKernel(r, c, a), k)
  {
    if TaskOf(a).pid == TaskOf(a).tgid {
      var o := KernelOutcome(r.kernel, c, a);
      OutcomeElsewhere(r.kernel, c, a, k);
      LastForPush(r.queue, o.event, k);
      if k == o.event.key {
        OutcomeReports(r, c, a);
      }
    }
  }

  lemma FirstKeepsTied(r: Replicas, c: Control, a: Action, k: Key)
    requires a.HandleFirst? && r.queue != [] && Reliable(a) && Tied(r, k)
    requires MapOk(r.kernel, c.generation, r.clock)
    ensures Tied(NextHandling(r, c, a), k)
  {
    LastForPop(r.queue, k);
    FirstSettles(r.(queue := r.queue[1..]), r.queue[0], a.now, k);
  }

  lemma StepKeepsTied(s: State, a: Action, k: Key)
    requires Enabled(s, a) && Reliable(a) && ForkFirst(s.r, a)
    requires ValuesOk(s.r, s.c.generation) && Tied(s.r, k)
    ensures Tied(Next(s, a).r, k)
  {
    var r := if AdvancesClock(a) then s.r.(clock := a.now) else s.r;
    assert Tied(r, k);
    if IsPolicy(a) {
    } else if IsKernel(a) {
      KernelKeepsTied(r, s.c, a, k);
    } else if a.HandleFirst? {
      FirstKeepsTied(r, s.c, a, k);
    } else if a.HandleSecond? {
      match SecondValue(r.mirror, s.c.generation, r.phase, a.decision, a.now)
      case None =>
      case Some(v) => UpsertSettles(r.(phase := Idle), r.phase.event.key, v, k);
    } else {
      DaemonSettles(r, s.c, a, k);
    }
  }

  /** The first `n` steps are reliable and fork only fresh keys. */
  ghost predicate Faithful(b: Run, n: nat)
    requires |b.states| == |b.actions| + 1 && n <= |b.actions|
  {
    forall i {:trigger b.actions[i]} :: 0 <= i < n ==>
      Reliable(b.actions[i]) && ForkFirst(b.states[i].r, b.actions[i])
  }

  lemma {:induction false} ReachableTied(b: Run, n: nat, k: Key)
    requires IsRun(b) && n < |b.states| && Faithful(b, n)
    ensures Tied(b.states[n].r, k)
  {
    if n > 0 {
      ReachableTied(b, n - 1, k);
      ReachableOk(b, n - 1);
      StepKeepsTied(b.states[n - 1], b.actions[n - 1], k);
    }
  }

  /** Quiescent agreement, over every interleaving. */
  lemma QuiescentAgreement(b: Run, n: nat, k: Key)
    requires IsRun(b) && n < |b.states| && Faithful(b, n)
    requires forall e :: e in b.states[n].r.queue ==> e.key != k
    ensures Agree(b.states[n].r, k)
  {
    ReachableTied(b, n, k);
  }
}
