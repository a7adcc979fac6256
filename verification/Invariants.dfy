/** What every step of the protocol keeps, under arbitrary write failures and lost events. */
module Invariants {
  import opened Types
  import opened ExactRules
  import opened Protocol

  // ---------------------------------------------------------------- values

  /** A value from the current or an earlier generation, and not from the future. */
  predicate ValueOk(v: Value, g: U64, clock: U64) {
    1 <= v.generation <= g && v.timestamp <= clock
  }

  ghost predicate MapOk(m: ProcessMap, g: U64, clock: U64) {
    forall k :: k in m ==> ValueOk(m[k], g, clock)
  }

  ghost predicate QueueOk(q: seq<Event>, g: U64, clock: U64) {
    forall e :: e in q ==> e.value == ZERO_VALUE || ValueOk(e.value, g, clock)
  }

  /** No stored, queued or pending value is from a later generation or a later time than
      the daemon's current ones, and stored generations are never 0. */
  ghost predicate ValuesOk(r: Replicas, g: U64) {
    && 1 <= g
    && MapOk(r.kernel, g, r.clock) && MapOk(r.mirror, g, r.clock) && QueueOk(r.queue, g, r.clock)
    && (r.phase.Decide? && r.phase.hasValue ==> ValueOk(r.phase.value, g, r.clock))
  }

  lemma UpsertKeepsValues(r: Replicas, key: Key, next: Value, ok: bool, g: U64)
    requires ValuesOk(r, g) && ValueOk(next, g, r.clock)
    ensures ValuesOk(Upsert(r, key, next, ok), g)
  {
  }

  lemma OutcomeOk(kernel: ProcessMap, c: Control, a: Action)
    requires IsKernel(a) && MapOk(kernel, c.generation, a.now) && PolicyOk(c)
    ensures var o := KernelOutcome(kernel, c, a);
            && MapOk(o.kernel, c.generation, a.now)
            && (o.event.value == ZERO_VALUE || ValueOk(o.event.value, c.generation, a.now))
  {
  }

  lemma KernelKeepsValues(r: Replicas, c: Control, a: Action)
    requires ValuesOk(r, c.generation) && PolicyOk(c) && IsKernel(a) && r.clock == a.now
    ensures ValuesOk(NextKernel(r, c, a), c.generation)
  {
    OutcomeOk(r.kernel, c, a);
  }

  lemma FirstForkKeepsValues(r: Replicas, e: Event, ok: bool, g: U64)
    requires ValuesOk(r, g) && (e.value == ZERO_VALUE || ValueOk(e.value, g, r.clock))
    ensures ValuesOk(FirstFork(r, e, ok), g)
  {
    if e.value != ZERO_VALUE {
      UpsertKeepsValues(r, e.key, e.value, ok, g);
    }
  }

  lemma FirstExecKeepsValues(r: Replicas, e: Event, ok: bool, g: U64)
    requires ValuesOk(r, g) && (e.value == ZERO_VALUE || ValueOk(e.value, g, r.clock))
    ensures ValuesOk(FirstExec(r, e, ok), g)
  {
    if e.value != ZERO_VALUE {
      UpsertKeepsValues(r, e.key, e.value, ok, g);
    }
  }

  lemma FirstExitKeepsValues(r: Replicas, e: Event, now: U64, ok: bool, g: U64)
    requires ValuesOk(r, g) && now <= r.clock && (e.value == ZERO_VALUE || ValueOk(e.value, g, r.clock))
    ensures ValuesOk(FirstExit(r, e, now, ok), g)
  {
    if e.key in r.mirror || e.value.tombstone {
      UpsertKeepsValues(r, e.key, Entombed(if e.key in r.mirror then r.mirror[e.key] else e.value, now), ok, g);
    }
  }

  lemma HandlingKeepsValues(r: Replicas, c: Control, a: Action)
    requires ValuesOk(r, c.generation) && (a.HandleFirst? || a.HandleSecond?) && a.now <= r.clock
    requires a.HandleFirst? ==> r.queue != []
    requires a.HandleSecond? ==> r.phase.Decide?
    ensures ValuesOk(NextHandling(r, c, a), c.generation)
  {
    if a.HandleFirst? {
      var q, e := r.(queue := r.queue[1..]), r.queue[0];
      assert ValuesOk(q, c.generation);
      match e.kind
      case Fork => FirstForkKeepsValues(q, e, a.ok, c.generation);
      case Exit => FirstExitKeepsValues(q, e, a.now, a.ok, c.generation);
      case Exec => FirstExecKeepsValues(q, e, a.ok, c.generation);
    } else {
      match SecondValue(r.mirror, c.generation, r.phase, a.decision, a.now)
      case None =>
      case Some(v) => UpsertKeepsValues(r.(phase := Idle), r.phase.event.key, v, a.ok, c.generation);
    }
  }

  lemma DaemonKeepsValues(r: Replicas, c: Control, a: Action)
    requires ValuesOk(r, c.generation) && (UsesReading(a) ==> a.now <= r.clock)
    requires a.Refresh? ==> a.key in r.kernel
    requires a.NoMark? || a.Repair? || a.Entomb? ==> a.key in r.mirror
    ensures ValuesOk(NextDaemon(r, c, a), c.generation)
  {
  }

  // ---------------------------------------------------------------- policy

  /** The active cell names the current generation (or none yet), and the rules stored under
      it are exactly those of the last activated policy. */
  ghost predicate PolicyOk(c: Control) {
    && 1 <= c.generation <= c.reserved
    && (c.active.generation == 0 || c.active.generation == c.generation)
    && (forall k :: k in c.rules ==> 1 <= k.generation <= c.reserved)
    && Normal(c.policy)
    && c.active.mode == c.policy.mode
    && (c.active.generation != 0 ==>
          Slice(c.rules, c.active.generation) == TableOf(c.active.generation, c.policy.commRules))
    && (c.active.generation == 0 ==> c.generation == 1 && c.policy.commRules == [])
  }

  /** Writing under another generation than the active one, below the reserved one. */
  lemma TableChangeKeepsPolicy(c: Control, rules: RuleTable, peak: nat)
    requires PolicyOk(c) && (forall k :: k in rules ==> 1 <= k.generation <= c.reserved)
    requires Slice(rules, c.active.generation) == Slice(c.rules, c.active.generation)
    ensures PolicyOk(c.(rules := rules, peak := peak))
  {
  }

  lemma PutKeepsPolicy(c: Control, comm: Comm, rule: RuleValue, ok: bool)
    requires PolicyOk(c) && c.generation < c.reserved
    ensures PolicyOk(NextControl(c, PutRule(comm, rule, ok)))
  {
    var rules := if ok then c.rules[RuleKey(c.reserved, comm) := rule] else c.rules;
    assert Slice(rules, c.active.generation) == Slice(c.rules, c.active.generation);
    TableChangeKeepsPolicy(c, rules, Higher(c.peak, |rules|));
  }

  lemma DropKeepsPolicy(c: Control, key: RuleKey, ok: bool)
    requires PolicyOk(c) && key.generation != c.active.generation
    ensures PolicyOk(NextControl(c, DropRule(key, ok)))
  {
    var rules := if ok then c.rules - {key} else c.rules;
    assert Slice(rules, c.active.generation) == Slice(c.rules, c.active.generation);
    TableChangeKeepsPolicy(c, rules, c.peak);
  }

  lemma StepKeepsPolicy(s: State, a: Action)
    requires PolicyOk(s.c) && Enabled(s, a) && IsPolicy(a)
    ensures PolicyOk(NextControl(s.c, a))
  {
    match a
    case PutRule(comm, rule, ok) => PutKeepsPolicy(s.c, comm, rule, ok);
    case DropRule(key, ok) => DropKeepsPolicy(s.c, key, ok);
    case _ =>
  }

  lemma StepKeepsOk(s: State, a: Action)
    requires ValuesOk(s.r, s.c.generation) && PolicyOk(s.c) && Enabled(s, a)
    ensures ValuesOk(Next(s, a).r, Next(s, a).c.generation) && PolicyOk(Next(s, a).c)
  {
    var r := if AdvancesClock(a) then s.r.(clock := a.now) else s.r;
    assert ValuesOk(r, s.c.generation);
    if IsPolicy(a) {
      StepKeepsPolicy(s, a);
    } else if IsKernel(a) {
      KernelKeepsValues(r, s.c, a);
    } else if a.HandleFirst? || a.HandleSecond? {
      HandlingKeepsValues(r, s.c, a);
    } else {
      DaemonKeepsValues(r, s.c, a);
    }
  }

  /** Both invariants hold in every reachable state. */
  lemma {:induction false} ReachableOk(b: Run, i: nat)
    requires IsRun(b) && i < |b.states|
    ensures ValuesOk(b.states[i].r, b.states[i].c.generation) && PolicyOk(b.states[i].c)
  {
    if i == 0 {
      assert Slice(map[], 0) == TableOf(0, []);
    } else {
      ReachableOk(b, i - 1);
      StepKeepsOk(b.states[i - 1], b.actions[i - 1]);
    }
  }

  // ---------------------------------------------------------------- atomicity of policy switches

  /** The policy of the last activation, or the initial one. */
  function LastActivated(actions: seq<Action>): KernelPolicy {
    if actions == [] then KernelPolicy(USERSPACE_ONLY, [])
    else if actions[|actions| - 1].Activate? then actions[|actions| - 1].policy
    else LastActivated(actions[..|actions| - 1])
  }

  lemma {:induction false} PolicyIsLastActivated(b: Run, i: nat)
    requires IsRun(b) && i < |b.states|
    ensures b.states[i].c.policy == LastActivated(b.actions[..i])
  {
    if i > 0 {
      PolicyIsLastActivated(b, i - 1);
      var a := b.actions[i - 1];
      assert b.actions[..i][..i - 1] == b.actions[..i - 1] && b.actions[..i][i - 1] == a;
    }
  }

  /** At every point of every run the exec program's lookup decides each comm exactly as the
      last activated policy does: it never sees part of a rule set, whatever writes failed. */
  lemma SwitchAtomic(b: Run, i: nat, raw: Comm)
    requires IsRun(b) && i < |b.states| && ZeroPadded(raw) && b.states[i].c.active.generation != 0
    ensures var c, policy := b.states[i].c, LastActivated(b.actions[..i]);
            && c.active.mode == policy.mode && AllValid(policy.commRules)
            && Slice(c.rules, c.active.generation) == TableOf(c.active.generation, policy.commRules)
            && Lookup(c.rules, c.active.generation, raw) == Scan(policy.commRules, Unpad(raw))
  {
    ReachableOk(b, i);
    PolicyIsLastActivated(b, i);
    var c := b.states[i].c;
    TableLookupIsScan(c.active.generation, c.policy.commRules, raw);
    LookupInSlice(c.rules, c.active.generation, raw);
  }

  lemma LookupInSlice(table: RuleTable, generation: U64, raw: Comm)
    ensures Lookup(table, generation, raw) == Lookup(Slice(table, generation), generation, raw)
  {
  }
}
