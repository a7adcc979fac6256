/** What the exec program guarantees: by the mode of the active policy, the process leaves exec
    with the mark the rules give its comm, in authoritative mode exactly so. */
module Exactness {
  import opened Types
  import opened ExactRules
  import opened Protocol
  import opened Invariants

  function AsEffective(d: Decision): Effective {
    if d.Match? then Marked(d.mark) else Unmarked
  }

  /** A same-generation entry of higher priority is the one thing that outranks a match. */
  predicate Outranked(existing: Option<Value>, g: U64, d: Decision) {
    d.Match? && existing.Some? && existing.value.generation == g && existing.value.priority > d.priority
  }

  /** The exact condition, for any priorities: an authoritative exec on a process that is not
      tombstoned leaves the rules' decision unless it is outranked by a different mark. */
  lemma ExecExactIff(r: Replicas, c: Control, task: Task, now: U64)
    requires ValuesOk(r, c.generation) && PolicyOk(c) && r.clock <= now
    requires c.active.generation != 0 && c.active.mode == AUTHORITATIVE
    requires KeyOf(task) in r.kernel ==> !r.kernel[KeyOf(task)].tombstone
    ensures var key := KeyOf(task);
            var existing := Get(r.kernel, key);
            var d := Lookup(c.rules, c.active.generation, task.comm);
            var after := ExecOutcome(r.kernel, c.active, c.rules, task, now, true).kernel;
            EffectiveOf(Get(after, key)) == AsEffective(d)
            <==> (Outranked(existing, c.active.generation, d) ==> EffectiveOf(existing) == AsEffective(d))
  {
  }

  // ---------------------------------------------------------------- every mode, any priorities

  predicate Deciding(c: Control) {
    c.active.generation != 0 && (c.active.mode == POSITIVE_ONLY || c.active.mode == AUTHORITATIVE)
  }

  predicate Buried(kernel: ProcessMap, key: Key) {
    key in kernel && kernel[key].tombstone
  }

  /** A successful exec under any policy, given the decision `d` of its rules: without a policy,
      on a tombstone, or on a miss that is not authoritative or has no entry, nothing changes; a
      match writes the rule's mark unless it is outranked; an authoritative miss takes the mark
      of a live entry, and keeps what decides merges if the entry is of this generation. */
  lemma ExecByPolicy(r: Replicas, c: Control, task: Task, now: U64, d: Decision)
    requires ValuesOk(r, c.generation) && PolicyOk(c) && r.clock <= now
    requires d == Lookup(c.rules, c.active.generation, task.comm)
    ensures var key, g := KeyOf(task), c.active.generation;
            var after := ExecOutcome(r.kernel, c.active, c.rules, task, now, true).kernel;
            && (!Deciding(c) || Buried(r.kernel, key) ==> after == r.kernel)
            && (d.Miss? && (c.active.mode == POSITIVE_ONLY || key !in r.kernel) ==> after == r.kernel)
            && (Deciding(c) && !Buried(r.kernel, key) && d.Match? ==>
                  after == if Outranked(Get(r.kernel, key), g, d) then r.kernel
                           else r.kernel[key := Value(false, true, true, d.priority, g, d.mark, now)])
            && (Deciding(c) && !Buried(r.kernel, key) && d.Miss? && c.active.mode == AUTHORITATIVE
                && key in r.kernel ==>
                  var was := r.kernel[key];
                  after == r.kernel[key :=
                    if was.generation == g then Value(false, was.explicit, false, was.priority, g, was.mark, now)
                    else Value(false, false, false, 0, g, 0, now)])
  {
  }

  /** In every state of every run, an exec of a whole process does what a scan of the active
      policy's rules says, by the policy's mode; nothing else changes its entry. */
  lemma ExecDecides(b: Run, n: nat, exec: Action)
    requires IsRun(b) && n < |b.states| && exec.KExec? && Enabled(b.states[n], exec)
    requires exec.task.pid == exec.task.tgid && ZeroPadded(exec.task.comm)
    ensures var s, key := b.states[n], KeyOf(exec.task);
            var g, kernel, after := s.c.active.generation, s.r.kernel, Next(s, exec).r.kernel;
            var d := Scan(s.c.policy.commRules, Unpad(exec.task.comm));
            if !Deciding(s.c) || !exec.ok || Buried(kernel, key) then after == kernel
            else if d.Match? then
              after == if Outranked(Get(kernel, key), g, d) then kernel
                       else kernel[key := Value(false, true, true, d.priority, g, d.mark, exec.now)]
            else if s.c.active.mode == POSITIVE_ONLY || key !in kernel then after == kernel
            else
              after == kernel[key :=
                if kernel[key].generation == g then
                  Value(false, kernel[key].explicit, false, kernel[key].priority, g, kernel[key].mark, exec.now)
                else Value(false, false, false, 0, g, 0, exec.now)]
  {
    ReachableOk(b, n);
    var s := b.states[n];
    var d := Lookup(s.c.rules, s.c.active.generation, exec.task.comm);
    ExecByPolicy(s.r, s.c, exec.task, exec.now, d);
    if s.c.active.generation != 0 {
      PolicyLookup(s.c, exec.task.comm);
    }
    if exec.ok {
      ExecStep(s, exec);
    }
  }

  lemma PolicyLookup(c: Control, comm: Comm)
    requires PolicyOk(c) && c.active.generation != 0 && ZeroPadded(comm)
    ensures Lookup(c.rules, c.active.generation, comm) == Scan(c.policy.commRules, Unpad(comm))
  {
    TableLookupIsScan(c.active.generation, c.policy.commRules, comm);
    LookupInSlice(c.rules, c.active.generation, comm);
  }

  /** The positive-only counterpart of ExecExactIff, after any run: a match leaves the rule's mark
      iff it is not outranked by a different one, and a miss changes nothing. */
  lemma PositiveExecIff(b: Run, n: nat, exec: Action)
    requires IsRun(b) && n < |b.states| && PositiveExec(b.states[n], exec) && ZeroPadded(exec.task.comm)
    ensures var s, key := b.states[n], KeyOf(exec.task);
            var kernel, after := s.r.kernel, Next(s, exec).r.kernel;
            var d := Scan(s.c.policy.commRules, Unpad(exec.task.comm));
            && (d.Miss? ==> after == kernel)
            && (d.Match? ==>
                  (EffectiveOf(Get(after, key)) == Marked(d.mark) <==>
                     (Outranked(Get(kernel, key), s.c.active.generation, d) ==>
                        EffectiveOf(Get(kernel, key)) == Marked(d.mark))))
  {
    ExecDecides(b, n, exec);
  }

  predicate PositiveExec(s: State, exec: Action) {
    && exec.KExec? && exec.ok && exec.task.pid == exec.task.tgid && Enabled(s, exec)
    && s.c.active.generation != 0 && s.c.active.mode == POSITIVE_ONLY && !Buried(s.r.kernel, KeyOf(exec.task))
  }

  /** With one fixed priority P >= 0 nothing outranks a match, in this mode either. */
  lemma PositiveExecExact(b: Run, n: nat, p: Int8, exec: Action)
    requires IsRun(b) && n < |b.states| && 0 <= p && OnePriority(b, n, p)
    requires PositiveExec(b.states[n], exec) && ZeroPadded(exec.task.comm)
    ensures var s := b.states[n];
            var d := Scan(s.c.policy.commRules, Unpad(exec.task.comm));
            EffectiveOf(Get(Next(s, exec).r.kernel, KeyOf(exec.task))) ==
              if d.Match? then Marked(d.mark) else EffectiveOf(Get(s.r.kernel, KeyOf(exec.task)))
  {
    ReachableOk(b, n);
    ReachablePriority(b, n, p);
    var s := b.states[n];
    PolicyLookup(s.c, exec.task.comm);
    ExecDecides(b, n, exec);
  }

  // ---------------------------------------------------------------- one fixed priority

  /** With one priority everywhere, marks carry it and only no-mark values may carry 0. */
  predicate PriorityOk(v: Value, p: Int8) {
    v.priority == p || (v.priority == 0 && !v.hasMark)
  }

  ghost predicate PriorityMap(m: ProcessMap, p: Int8) {
    forall k :: k in m ==> PriorityOk(m[k], p)
  }

  ghost predicate PriorityState(r: Replicas, p: Int8) {
    && PriorityMap(r.kernel, p) && PriorityMap(r.mirror, p)
    && (forall e :: e in r.queue ==> PriorityOk(e.value, p))
    && (r.phase.Decide? ==> PriorityOk(r.phase.value, p))
  }

  ghost predicate PriorityRules(c: Control, p: Int8) {
    forall k :: k in c.rules ==> c.rules[k].priority == p
  }

  /** Every priority an operation brings in is `p`. */
  predicate UsesPriority(a: Action, p: Int8) {
    match a
    case HandleSecond(d, _, _) => d.Match? ==> d.priority == p
    case Mark(_, priority, _, _, _, _) => priority == p
    case PutRule(_, rule, _) => rule.priority == p
    case _ => true
  }

  lemma UpsertKeepsPriority(r: Replicas, key: Key, next: Value, ok: bool, p: Int8)
    requires PriorityState(r, p) && PriorityOk(next, p)
    ensures PriorityState(Upsert(r, key, next, ok), p)
  {
  }

  lemma OutcomeKeepsPriority(kernel: ProcessMap, c: Control, a: Action, p: Int8)
    requires IsKernel(a) && PriorityMap(kernel, p) && PriorityRules(c, p)
    ensures var o := KernelOutcome(kernel, c, a); PriorityMap(o.kernel, p) && PriorityOk(o.event.value, p)
  {
  }

  lemma FirstForkKeepsPriority(r: Replicas, e: Event, ok: bool, p: Int8)
    requires PriorityState(r, p) && PriorityOk(e.value, p)
    ensures PriorityState(FirstFork(r, e, ok), p)
  {
    UpsertKeepsPriority(r, e.key, e.value, ok, p);
  }

  lemma FirstExecKeepsPriority(r: Replicas, e: Event, ok: bool, p: Int8)
    requires PriorityState(r, p) && PriorityOk(e.value, p)
    ensures PriorityState(FirstExec(r, e, ok), p)
  {
    UpsertKeepsPriority(r, e.key, e.value, ok, p);
  }

  lemma FirstKeepsPriority(r: Replicas, e: Event, now: U64, ok: bool, p: Int8)
    requires PriorityState(r, p) && PriorityOk(e.value, p)
    ensures PriorityState(FirstEffect(r, e, now, ok), p)
  {
    match e.kind
    case Fork => FirstForkKeepsPriority(r, e, ok, p);
    case Exit =>
    case Exec => FirstExecKeepsPriority(r, e, ok, p);
  }

  lemma SecondKeepsPriority(r: Replicas, c: Control, a: Action, p: Int8)
    requires a.HandleSecond? && r.phase.Decide? && PriorityState(r, p) && UsesPriority(a, p)
    ensures PriorityState(NextHandling(r, c, a), p)
  {
    match SecondValue(r.mirror, c.generation, r.phase, a.decision, a.now)
    case None =>
    case Some(v) => UpsertKeepsPriority(r.(phase := Idle), r.phase.event.key, v, a.ok, p);
  }

  lemma DaemonKeepsPriority(r: Replicas, c: Control, a: Action, p: Int8)
    requires PriorityState(r, p) && UsesPriority(a, p)
    requires a.Refresh? ==> a.key in r.kernel
    requires a.NoMark? || a.Repair? || a.Entomb? ==> a.key in r.mirror
    ensures PriorityState(NextDaemon(r, c, a), p)
  {
  }

  lemma StepKeepsPriority(s: State, a: Action, p: Int8)
    requires Enabled(s, a) && UsesPriority(a, p) && PriorityState(s.r, p) && PriorityRules(s.c, p)
    ensures PriorityState(Next(s, a).r, p) && PriorityRules(Next(s, a).c, p)
  {
    var r := if AdvancesClock(a) then s.r.(clock := a.now) else s.r;
    assert PriorityState(r, p);
    if IsPolicy(a) {
    } else if IsKernel(a) {
      OutcomeKeepsPriority(r.kernel, s.c, a, p);
    } else if a.HandleFirst? {
      FirstKeepsPriority(r.(queue := r.queue[1..]), r.queue[0], a.now, a.ok, p);
    } else if a.HandleSecond? {
      SecondKeepsPriority(r, s.c, a, p);
    } else {
      DaemonKeepsPriority(r, s.c, a, p);
    }
  }

  /** Every priority the first `n` steps bring in is `p`. */
  ghost predicate OnePriority(b: Run, n: nat, p: Int8)
    requires n <= |b.actions|
  {
    forall i {:trigger b.actions[i]} :: 0 <= i < n ==> UsesPriority(b.actions[i], p)
  }

  lemma {:induction false} ReachablePriority(b: Run, n: nat, p: Int8)
    requires IsRun(b) && n < |b.states| && OnePriority(b, n, p)
    ensures PriorityState(b.states[n].r, p) && PriorityRules(b.states[n].c, p)
  {
    if n > 0 {
      ReachablePriority(b, n - 1, p);
      StepKeepsPriority(b.states[n - 1], b.actions[n - 1], p);
    }
  }

  /** An exec that can be decided: of a whole process, in authoritative mode, not tombstoned
      in the kernel, and whose map write succeeds. */
  predicate AuthoritativeExec(s: State, exec: Action) {
    && exec.KExec? && exec.ok && exec.task.pid == exec.task.tgid && Enabled(s, exec)
    && s.c.active.generation != 0 && s.c.active.mode == AUTHORITATIVE
    && (KeyOf(exec.task) in s.r.kernel ==> !s.r.kernel[KeyOf(exec.task)].tombstone)
  }

  /** If every priority ever used is one fixed nonnegative P, then after any run an
      authoritative exec of a process that is not tombstoned leaves exactly the mark that a
      scan of the active policy's rules gives its comm, matches and misses alike. */
  lemma AuthoritativeExecExact(b: Run, n: nat, p: Int8, exec: Action)
    requires IsRun(b) && n < |b.states| && 0 <= p && OnePriority(b, n, p)
    requires AuthoritativeExec(b.states[n], exec) && ZeroPadded(exec.task.comm)
    ensures EffectiveOf(Get(Next(b.states[n], exec).r.kernel, KeyOf(exec.task)))
            == AsEffective(Scan(b.states[n].c.policy.commRules, Unpad(exec.task.comm)))
  {
    ReachableOk(b, n);
    ReachablePriority(b, n, p);
    var s := b.states[n];
    ExecStepExact(s.r, s.c, p, exec);
    ExecStep(s, exec);
  }

  lemma ExecStep(s: State, exec: Action)
    requires exec.KExec? && exec.ok && exec.task.pid == exec.task.tgid && Enabled(s, exec)
    ensures Next(s, exec).r.kernel == ExecOutcome(s.r.kernel, s.c.active, s.c.rules, exec.task, exec.now, true).kernel
    ensures Next(s, exec).c == s.c && Next(s, exec).r.clock == exec.now
  {
  }

  lemma ExecStepExact(r: Replicas, c: Control, p: Int8, exec: Action)
    requires ValuesOk(r, c.generation) && PolicyOk(c) && PriorityState(r, p) && PriorityRules(c, p) && 0 <= p
    requires exec.KExec? && r.clock <= exec.now
    requires c.active.generation != 0 && c.active.mode == AUTHORITATIVE && ZeroPadded(exec.task.comm)
    requires KeyOf(exec.task) in r.kernel ==> !r.kernel[KeyOf(exec.task)].tombstone
    ensures var after := ExecOutcome(r.kernel, c.active, c.rules, exec.task, exec.now, true).kernel;
            EffectiveOf(Get(after, KeyOf(exec.task))) == AsEffective(Scan(c.policy.commRules, Unpad(exec.task.comm)))
  {
    ExecExactIff(r, c, exec.task, exec.now);
    PolicyLookup(c, exec.task.comm);
  }

  // ---------------------------------------------------------------- a negative priority

  const HIT: Comm := [97, 0, 0, 0, 0, 0, 0, 0, 0, 0, 0, 0, 0, 0, 0, 0]
  const OTHER: Comm := [98, 0, 0, 0, 0, 0, 0, 0, 0, 0, 0, 0, 0, 0, 0, 0]
  const PID1 := Key(1, 0)

  function OneRule(p: Int8): KernelPolicy {
    KernelPolicy(AUTHORITATIVE, [ExactCommRule([97], p, 7)])
  }

  function OneEntry(p: Int8): RuleTable {
    map[RuleKey(2, HIT) := RuleValue(p, 7)]
  }

  function Entry(p: Int8): Value {
    Value(false, true, true, p, 1, 5, 0)
  }

  function Marked1(p: Int8): Replicas {
    Replicas(map[PID1 := Entry(p)], map[PID1 := Entry(p)], [], Idle, 0, Past({}, 0))
  }

  const OFF := Control(1, 1, Cell(0, USERSPACE_ONLY), map[], KernelPolicy(USERSPACE_ONLY, []), 0)

  function Staged(p: Int8): Control {
    OFF.(reserved := 2, rules := OneEntry(p), peak := 1)
  }

  function Switched(p: Int8): Control {
    Control(2, 2, Cell(2, AUTHORITATIVE), OneEntry(p), OneRule(p), 1)
  }

  lemma MarkTaken(p: Int8)
    ensures Taken(Init(), Mark(PID1, p, 5, true, 0, true), State(Marked1(p), OFF))
    ensures Taken(State(Marked1(p), OFF), Reserve, State(Marked1(p), OFF.(reserved := 2)))
  {
  }

  lemma PutTaken(p: Int8)
    ensures Taken(State(Marked1(p), OFF.(reserved := 2)), PutRule(HIT, RuleValue(p, 7), true),
              State(Marked1(p), Staged(p)))
  {
    assert OneEntry(p).Keys == {RuleKey(2, HIT)};
  }

  lemma ActivateTaken(p: Int8)
    ensures Taken(State(Marked1(p), Staged(p)), Activate(OneRule(p)), State(Marked1(p), Switched(p)))
  {
    assert Pad([97]) == HIT && OneRule(p).commRules[..0] == [];
    assert Slice(OneEntry(p), 2) == OneEntry(p) == TableOf(2, OneRule(p).commRules);
  }

  /** A marked process, then a switch to an authoritative policy with one rule. */
  lemma MarkThenSwitch(p: Int8) returns (b: Run)
    ensures IsRun(b) && OnePriority(b, |b.actions|, p)
    ensures Last(b) == State(Marked1(p), Switched(p))
  {
    MarkTaken(p);
    PutTaken(p);
    ActivateTaken(p);
    b := Run([], [Init()]);
    b := Append(b, Mark(PID1, p, 5, true, 0, true), State(Marked1(p), OFF), p);
    b := Append(b, Reserve, State(Marked1(p), OFF.(reserved := 2)), p);
    b := Append(b, PutRule(HIT, RuleValue(p, 7), true), State(Marked1(p), Staged(p)), p);
    b := Append(b, Activate(OneRule(p)), State(Marked1(p), Switched(p)), p);
  }

  lemma Append(b: Run, a: Action, t: State, p: Int8) returns (e: Run)
    requires IsRun(b) && Taken(Last(b), a, t) && OnePriority(b, |b.actions|, p) && UsesPriority(a, p)
    ensures e == Extend(b, a, t) && IsRun(e) && Last(e) == t && OnePriority(e, |e.actions|, p)
  {
    e := Extend(b, a, t);
    ExtendIsRun(b, a, t);
    forall i {:trigger e.actions[i]} | 0 <= i < |e.actions| ensures UsesPriority(e.actions[i], p) {
      if i < |b.actions| {
        assert e.actions[i] == b.actions[i];
      }
    }
  }

  const MISSED := Value(false, false, false, 0, 2, 0, 0)

  lemma StaleMiss(p: Int8)
    ensures var task := Task(1, 1, 0, OTHER);
            ExecOutcome(map[PID1 := Entry(p)], Cell(2, AUTHORITATIVE), OneEntry(p), task, 0, true).kernel
            == map[PID1 := MISSED]
  {
    assert OTHER[0] != HIT[0];
  }

  lemma MatchOutranked(p: Int8)
    requires p < 0
    ensures ExecOutcome(map[PID1 := MISSED], Cell(2, AUTHORITATIVE), OneEntry(p), Task(1, 1, 0, HIT), 0, true).kernel
            == map[PID1 := MISSED]
  {
  }

  /** The bound on P is needed: with any P < 0 a process that first misses under a stale
      generation is recorded with priority 0, and a later exec that matches stays unmarked. */
  lemma NegativePriorityNotExact(p: Int8) returns (b: Run, exec: Action)
    requires p < 0
    ensures IsRun(b) && OnePriority(b, |b.actions|, p) && AuthoritativeExec(Last(b), exec)
              && ZeroPadded(exec.task.comm)
    ensures Scan(Last(b).c.policy.commRules, Unpad(exec.task.comm)) == Match(p, 7)
    ensures EffectiveOf(Get(Next(Last(b), exec).r.kernel, KeyOf(exec.task))) == Unmarked
  {
    b := MarkThenSwitch(p);
    var miss := KExec(Task(1, 1, 0, OTHER), 0, true, true);
    StaleMiss(p);
    ExecStep(Last(b), miss);
    b := Append(b, miss, Next(Last(b), miss), p);
    exec := KExec(Task(1, 1, 0, HIT), 0, true, true);
    MatchOutranked(p);
    ExecStep(Last(b), exec);
    HitScans(p);
  }

  lemma HitScans(p: Int8)
    ensures ZeroPadded(HIT) && Scan(OneRule(p).commRules, Unpad(HIT)) == Match(p, 7)
  {
    assert Pad([97]) == HIT && OneRule(p).commRules[..0] == [];
    CommRoundTrip([97]);
  }

  /** Every authoritative exec after every run whose one priority is `p` leaves the active
      policy's decision. */
  ghost predicate ExactUnder(p: Int8) {
    forall b: Run, n: nat, exec: Action ::
      IsRun(b) && n < |b.states| && OnePriority(b, n, p) && AuthoritativeExec(b.states[n], exec)
          && ZeroPadded(exec.task.comm)
      ==> EffectiveOf(Get(Next(b.states[n], exec).r.kernel, KeyOf(exec.task)))
          == AsEffective(Scan(b.states[n].c.policy.commRules, Unpad(exec.task.comm)))
  }

  /** The exact condition on the one priority. */
  lemma ExactIffNonnegative(p: Int8)
    ensures ExactUnder(p) <==> 0 <= p
  {
    if 0 <= p {
      forall b: Run, n: nat, exec: Action |
        IsRun(b) && n < |b.states| && OnePriority(b, n, p) && AuthoritativeExec(b.states[n], exec)
            && ZeroPadded(exec.task.comm)
        ensures EffectiveOf(Get(Next(b.states[n], exec).r.kernel, KeyOf(exec.task)))
                == AsEffective(Scan(b.states[n].c.policy.commRules, Unpad(exec.task.comm)))
      {
        AuthoritativeExecExact(b, n, p, exec);
      }
    } else {
      var b, exec := NegativePriorityNotExact(p);
      assert Last(b) == b.states[|b.actions|];
    }
  }
}
