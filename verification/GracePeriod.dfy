/** How long a tombstone stays: its timestamp is no earlier than a death of its process, so it
    is collected only after the TTL since then has passed. */
module GracePeriod {
  import opened Types
  import opened Merge
  import opened Protocol
  import opened Exactness
  import opened Programs
  import opened Lifetimes

  // ---------------------------------------------------------------- burials in the mirror

  /** The daemon handles an exit of `k`, or finds no such process. */
  predicate Burial(s: State, a: Action, k: Key) {
    || (a.HandleFirst? && s.r.queue != [] && s.r.queue[0].kind.Exit? && s.r.queue[0].key == k)
    || (a.Entomb? && a.key == k)
  }

  /** A burial turns the mirror entry into its tombstone, stamped with the reading of the burial
      or with the entry's own timestamp, whichever is later, and changes nothing else in it. */
  lemma BurialStamps(s: State, a: Action, k: Key)
    requires Enabled(s, a) && Burial(s, a, k) && k in s.r.mirror
    ensures k in Next(s, a).r.mirror
    ensures var v, w := s.r.mirror[k], Next(s, a).r.mirror[k];
            && w == Value(true, v.explicit, v.hasMark, v.priority, v.generation, v.mark, w.timestamp)
            && v.timestamp <= w.timestamp && a.now <= w.timestamp
            && (w.timestamp == v.timestamp || w.timestamp == a.now)
  {
    if a.HandleFirst? {
      var r := s.r.(queue := s.r.queue[1..]);
      assert Next(s, a).r == FirstExit(r, s.r.queue[0], a.now, a.ok);
    }
  }

  /** The fields that outrank the timestamp are the same. */
  predicate SameClass(v: Value, w: Value) {
    v.generation == w.generation && v.priority == w.priority && v.explicit == w.explicit
  }

  /** If step `i` buries a process and step `j` collects its tombstone, which is still of the
      same generation, priority and kind, then more than the TTL has passed in between. */
  lemma GraceFromBurial(b: Run, i: nat, j: nat, k: Key)
    requires IsRun(b) && i < j < |b.actions| && Burial(b.states[i], b.actions[i], k)
    requires forall n :: i <= n <= j ==> k in b.states[n].r.mirror
    requires SameClass(b.states[i].r.mirror[k], b.states[j].r.mirror[k]) && k !in b.states[j + 1].r.mirror
    ensures b.actions[j].Collect?
    ensures b.actions[j].ttl <= b.actions[j].now ==> b.actions[i].now + b.actions[j].ttl < b.actions[j].now
  {
    BurialStamps(b.states[i], b.actions[i], k);
    MirrorMonotone(b, i + 1, j, k);
    RemovalOnlyAfterTTL(b.states[j], b.actions[j], k);
  }

  // ---------------------------------------------------------------- a burial overtaken

  /** A process marked under generation 1 and, with its events lost, matched and ended under
      generation 2: the kernel holds a tombstone the mirror does not know. */
  const ENDED := Value(true, true, true, 0, 2, 7, 0)

  function Ended(mirror: ProcessMap, clock: U64, runs: nat): State {
    State(Replicas(map[PID1 := ENDED], mirror, [], Idle, clock, Past({PID1}, runs)), Switched(0))
  }

  lemma EndUnseen() returns (b: Run)
    ensures IsRun(b) && OnePriority(b, |b.actions|, 0) && Last(b) == Ended(map[PID1 := Entry(0)], 0, 2)
  {
    b := MarkThenSwitch(0);
    var task := Task(1, 1, 0, HIT);
    var matched := Replicas(map[PID1 := ENDED.(tombstone := false)], map[PID1 := Entry(0)], [], Idle, 0,
                            Past({PID1}, 1));
    b := Append(b, KExec(task, 0, true, false), State(matched, Switched(0)), 0);
    b := Append(b, KExit(task, 0, true, false), Ended(map[PID1 := Entry(0)], 0, 2), 0);
  }

  const BURIED_AT_10 := Entry(0).(tombstone := true, timestamp := 10)

  function Collected(): State {
    Ended(map[], 10, 2).(r := Ended(map[], 10, 2).r.(kernel := map[]))
  }

  lemma BurialTaken()
    ensures Taken(Ended(map[PID1 := Entry(0)], 0, 2), Tick(10), Ended(map[PID1 := Entry(0)], 10, 2))
    ensures Taken(Ended(map[PID1 := Entry(0)], 10, 2), Entomb(PID1, 10, false),
                  Ended(map[PID1 := BURIED_AT_10], 10, 2))
  {
  }

  lemma CollectTaken()
    ensures Taken(Ended(map[PID1 := BURIED_AT_10], 10, 2), Refresh(PID1), Ended(map[PID1 := ENDED], 10, 2))
    ensures Taken(Ended(map[PID1 := ENDED], 10, 2), Collect(PID1, 10, 5, true), Collected())
  {
    assert map[PID1 := ENDED] - {PID1} == map[];
  }

  /** The class matters: where a tombstone of a newer generation overtakes a burial, the grace
      period counts from the earlier death, and the burial may be collected at once. */
  lemma BurialOvertaken() returns (b: Run, i: nat, j: nat)
    ensures IsRun(b) && i < j < |b.actions| && Burial(b.states[i], b.actions[i], PID1)
    ensures forall n :: i <= n <= j ==> PID1 in b.states[n].r.mirror
    ensures PID1 !in b.states[j + 1].r.mirror && b.actions[j].Collect? && b.actions[j].ttl <= b.actions[j].now
    ensures b.actions[i].now + b.actions[j].ttl >= b.actions[j].now
  {
    BurialTaken();
    CollectTaken();
    b := EndUnseen();
    i, j := |b.actions| + 1, |b.actions| + 3;
    b := Append(b, Tick(10), Ended(map[PID1 := Entry(0)], 10, 2), 0);
    b := Append(b, Entomb(PID1, 10, false), Ended(map[PID1 := BURIED_AT_10], 10, 2), 0);
    b := Append(b, Refresh(PID1), Ended(map[PID1 := ENDED], 10, 2), 0);
    b := Append(b, Collect(PID1, 10, 5, true), Collected(), 0);
  }

  // ---------------------------------------------------------------- every tombstone has its death

  /** Process `k` dies: its exit program runs, or the daemon buries it. */
  predicate Death(s: State, a: Action, k: Key) {
    (a.KExit? && Program(s, a) && KeyOf(a.task) == k) || Burial(s, a, k)
  }

  /** Step `i` is a death of `k`, no later than `timestamp`. */
  predicate DiesBy(b: Run, i: nat, k: Key, timestamp: U64)
    requires i < |b.actions| < |b.states|
  {
    Death(b.states[i], b.actions[i], k) && b.actions[i].now <= timestamp
  }

  /** `v` is stored or reported for `k`. */
  ghost predicate HeldFor(r: Replicas, k: Key, v: Value) {
    || (k in r.kernel && r.kernel[k] == v) || (k in r.mirror && r.mirror[k] == v)
    || exists e :: e in r.queue && e.key == k && e.value == v
  }

  /** `v` is a tombstone of `k` that was there before step `a`, or records a death by `a`. */
  ghost predicate Accounted(s: State, a: Action, k: Key, v: Value) {
    HeldFor(s.r, k, v) || (Death(s, a, k) && a.now <= v.timestamp)
  }

  lemma ForkBrings(s: State, a: Action, k: Key, v: Value)
    requires Program(s, a) && a.KFork? && HeldFor(Next(s, a).r, k, v) && v.tombstone
    ensures Accounted(s, a, k, v)
  {
    var e := ForkInherits(s, a);
    Elsewhere(s.r.kernel, Next(s, a).r.kernel, e.key, k);
  }

  lemma ExitBrings(s: State, a: Action, k: Key, v: Value)
    requires Program(s, a) && a.KExit? && HeldFor(Next(s, a).r, k, v) && v.tombstone
    ensures Accounted(s, a, k, v)
  {
    var e := ExitBuries(s, a);
  }

  lemma ExecBrings(s: State, a: Action, k: Key, v: Value)
    requires Program(s, a) && a.KExec? && HeldFor(Next(s, a).r, k, v) && v.tombstone
    ensures Accounted(s, a, k, v)
  {
    var e := ExecTells(s, a);
    Elsewhere(s.r.kernel, Next(s, a).r.kernel, e.key, k);
  }

  lemma Elsewhere(m: ProcessMap, n: ProcessMap, key: Key, k: Key)
    requires SameElsewhere(m, n, key)
    ensures k != key ==> Get(m, k) == Get(n, k)
  {
    if k != key {
      assert k in m <==> k in m - {key};
      assert k in n <==> k in n - {key};
    }
  }

  /** A merge leaves the old entry or the merged value, in the mirror and in the kernel. */
  lemma UpsertBrings(r: Replicas, key: Key, next: Value, ok: bool, k: Key, v: Value)
    requires HeldFor(Upsert(r, key, next, ok), k, v)
    ensures HeldFor(r, k, v) || (k == key && v == next)
  {
  }

  lemma FirstBrings(s: State, a: Action, k: Key, v: Value)
    requires Enabled(s, a) && a.HandleFirst? && HeldFor(Next(s, a).r, k, v) && v.tombstone
    ensures Accounted(s, a, k, v)
  {
    var r, e := s.r.(queue := s.r.queue[1..]), s.r.queue[0];
    assert e in s.r.queue && forall x :: x in r.queue ==> x in s.r.queue;
    assert HeldFor(r, k, v) ==> HeldFor(s.r, k, v);
    match e.kind {
      case Fork => ReceivedBrings(r, e, a.ok, k, v);
      case Exec => ReceivedBrings(r, e, a.ok, k, v);
      case Exit =>
        if e.key in r.mirror || e.value.tombstone {
          UpsertBrings(r, e.key, Entombed(if e.key in r.mirror then r.mirror[e.key] else e.value, a.now), a.ok, k, v);
        }
    }
  }

  lemma ReceivedBrings(r: Replicas, e: Event, ok: bool, k: Key, v: Value)
    requires !e.kind.Exit? && HeldFor(FirstEffect(r, e, 0, ok), k, v)
    ensures HeldFor(r, k, v) || (k == e.key && v == e.value)
  {
    if e.kind.Exec? && e.value != ZERO_VALUE && HeldFor(Upsert(r, e.key, e.value, ok), k, v) {
      UpsertBrings(r, e.key, e.value, ok, k, v);
    }
  }

  lemma DaemonBrings(s: State, a: Action, k: Key, v: Value)
    requires Enabled(s, a) && !IsKernel(a) && !a.HandleFirst? && HeldFor(Next(s, a).r, k, v) && v.tombstone
    ensures Accounted(s, a, k, v)
  {
    assert Next(s, a).r.queue == s.r.queue;
    match a
    case HandleSecond(d, now, ok) =>
      match SecondValue(s.r.mirror, s.c.generation, s.r.phase, d, now) {
        case None =>
        case Some(next) => UpsertBrings(s.r.(phase := Idle), s.r.phase.event.key, next, ok, k, v);
      }
    case Mark(key, priority, mark, explicit, now, ok) =>
      UpsertBrings(s.r, key, NewValue(priority, mark, explicit, s.c.generation, now), ok, k, v);
    case NoMark(key, now, ok) =>
      UpsertBrings(s.r, key, NewNoMark(s.r.mirror[key], s.c.generation, now), ok, k, v);
    case Entomb(key, now, ok) => UpsertBrings(s.r, key, Entombed(s.r.mirror[key], now), ok, k, v);
    case _ =>
  }

  lemma StepBrings(s: State, a: Action, k: Key, v: Value)
    requires Enabled(s, a) && HeldFor(Next(s, a).r, k, v) && v.tombstone
    ensures Accounted(s, a, k, v)
  {
    if a.HandleFirst? {
      FirstBrings(s, a, k, v);
    } else if !IsKernel(a) {
      DaemonBrings(s, a, k, v);
    } else if Program(s, a) {
      match a
      case KFork(_, _, _, _, _) => ForkBrings(s, a, k, v);
      case KExit(_, _, _, _) => ExitBrings(s, a, k, v);
      case KExec(_, _, _, _) => ExecBrings(s, a, k, v);
    } else {
      assert Next(s, a).r == s.r.(clock := a.now);
    }
  }

  /** In every run, every tombstone of a process, in the kernel, the mirror or an event, is
      stamped no earlier than some death of that process. */
  lemma {:induction false} TombstoneDated(b: Run, n: nat, k: Key, v: Value) returns (i: nat)
    requires IsRun(b) && n <= |b.actions| && HeldFor(b.states[n].r, k, v) && v.tombstone
    ensures i < n && DiesBy(b, i, k, v.timestamp)
  {
    assert n > 0;
    i := n - 1;
    StepBrings(b.states[i], b.actions[i], k, v);
    if HeldFor(b.states[i].r, k, v) {
      i := TombstoneDated(b, n - 1, k, v);
    }
  }

  /** The grace period: whenever the clock is past the TTL and a process leaves the mirror, more
      than the TTL has passed since a death of that process. */
  lemma GraceSinceDeath(b: Run, j: nat, k: Key) returns (i: nat)
    requires IsRun(b) && j < |b.actions| && k in b.states[j].r.mirror && k !in b.states[j + 1].r.mirror
    requires b.actions[j].Collect? ==> b.actions[j].ttl <= b.actions[j].now
    ensures b.actions[j].Collect? && i < j && Death(b.states[i], b.actions[i], k)
    ensures b.actions[i].now + b.actions[j].ttl < b.actions[j].now
  {
    RemovalOnlyAfterTTL(b.states[j], b.actions[j], k);
    i := TombstoneDated(b, j, k, b.states[j].r.mirror[k]);
  }
}
