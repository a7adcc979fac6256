/** One lemma per action: how taking it extends a run, with the new state spelled out. */
module Steps {
  import opened Types
  import opened ExactRules
  import opened Protocol

  function AfterKernel(r: Replicas, o: Outcome, now: U64, sent: bool): Replicas {
    r.(kernel := o.kernel, clock := now,
       queue := if sent then r.queue + [o.event] else r.queue, past := OneMore(r.past, o.event.key))
  }

  lemma TakeThread(b: Run, a: Action)
    requires IsRun(b) && IsKernel(a) && Last(b).r.clock <= a.now && TaskOf(a).pid != TaskOf(a).tgid
    ensures IsRun(Extend(b, a, Last(b).(r := Last(b).r.(clock := a.now))))
  {
    ExtendIsRun(b, a, Last(b).(r := Last(b).r.(clock := a.now)));
  }

  lemma TakeKernel(b: Run, a: Action, o: Outcome)
    requires IsRun(b) && IsKernel(a) && Last(b).r.clock <= a.now && TaskOf(a).pid == TaskOf(a).tgid
    requires o == KernelOutcome(Last(b).r.kernel, Last(b).c, a)
    ensures IsRun(Extend(b, a, Last(b).(r := AfterKernel(Last(b).r, o, a.now, a.sent))))
  {
    ExtendIsRun(b, a, Last(b).(r := AfterKernel(Last(b).r, o, a.now, a.sent)));
  }

  lemma TakeTick(b: Run, now: U64)
    requires IsRun(b) && Last(b).r.clock <= now
    ensures IsRun(Extend(b, Tick(now), Last(b).(r := Last(b).r.(clock := now))))
  {
    ExtendIsRun(b, Tick(now), Last(b).(r := Last(b).r.(clock := now)));
  }

  lemma TakeFirst(b: Run, now: U64, ok: bool, r: Replicas)
    requires IsRun(b) && now <= Last(b).r.clock && Last(b).r.phase.Idle? && Last(b).r.queue != []
    requires r == FirstEffect(Last(b).r.(queue := Last(b).r.queue[1..]), Last(b).r.queue[0], now, ok)
    ensures IsRun(Extend(b, HandleFirst(now, ok), Last(b).(r := r)))
  {
    ExtendIsRun(b, HandleFirst(now, ok), Last(b).(r := r));
  }

  lemma TakeSecond(b: Run, d: Decision, now: U64, ok: bool, r: Replicas)
    requires IsRun(b) && now <= Last(b).r.clock && Last(b).r.phase.Decide?
    requires r == SecondEffect(Last(b).r.(phase := Idle), Last(b).c.generation, Last(b).r.phase, d, now, ok)
    ensures IsRun(Extend(b, HandleSecond(d, now, ok), Last(b).(r := r)))
  {
    ExtendIsRun(b, HandleSecond(d, now, ok), Last(b).(r := r));
  }

  lemma TakeMark(b: Run, key: Key, priority: Int8, mark: U64, explicit: bool, now: U64, ok: bool)
    requires IsRun(b) && now <= Last(b).r.clock && Last(b).r.phase.Idle?
    ensures var r := Upsert(Last(b).r, key, NewValue(priority, mark, explicit, Last(b).c.generation, now), ok);
            IsRun(Extend(b, Mark(key, priority, mark, explicit, now, ok), Last(b).(r := r)))
  {
    var r := Upsert(Last(b).r, key, NewValue(priority, mark, explicit, Last(b).c.generation, now), ok);
    ExtendIsRun(b, Mark(key, priority, mark, explicit, now, ok), Last(b).(r := r));
  }

  lemma TakeNoMark(b: Run, key: Key, now: U64, ok: bool)
    requires IsRun(b) && now <= Last(b).r.clock && Last(b).r.phase.Idle?
    requires key in Last(b).r.mirror && !Last(b).r.mirror[key].tombstone
    ensures var r := Upsert(Last(b).r, key, NewNoMark(Last(b).r.mirror[key], Last(b).c.generation, now), ok);
            IsRun(Extend(b, NoMark(key, now, ok), Last(b).(r := r)))
  {
    var r := Upsert(Last(b).r, key, NewNoMark(Last(b).r.mirror[key], Last(b).c.generation, now), ok);
    ExtendIsRun(b, NoMark(key, now, ok), Last(b).(r := r));
  }

  lemma TakeEntomb(b: Run, key: Key, now: U64, ok: bool)
    requires IsRun(b) && now <= Last(b).r.clock && Last(b).r.phase.Idle?
    requires key in Last(b).r.mirror && !Last(b).r.mirror[key].tombstone
    ensures var r := Upsert(Last(b).r, key, Entombed(Last(b).r.mirror[key], now), ok);
            IsRun(Extend(b, Entomb(key, now, ok), Last(b).(r := r)))
  {
    var r := Upsert(Last(b).r, key, Entombed(Last(b).r.mirror[key], now), ok);
    ExtendIsRun(b, Entomb(key, now, ok), Last(b).(r := r));
  }

  lemma TakeRefresh(b: Run, key: Key)
    requires IsRun(b) && Last(b).r.phase.Idle? && key in Last(b).r.kernel
    ensures var r := Last(b).r.(mirror := Last(b).r.mirror[key := Refreshed(Last(b).r, key)]);
            IsRun(Extend(b, Refresh(key), Last(b).(r := r)))
  {
    var r := Last(b).r.(mirror := Last(b).r.mirror[key := Refreshed(Last(b).r, key)]);
    ExtendIsRun(b, Refresh(key), Last(b).(r := r));
  }

  lemma TakeRepair(b: Run, key: Key, ok: bool)
    requires IsRun(b) && Last(b).r.phase.Idle? && key in Last(b).r.mirror
    ensures IsRun(Extend(b, Repair(key, ok), Last(b).(r := Sync(Last(b).r, key, Last(b).r.mirror[key], ok))))
  {
    ExtendIsRun(b, Repair(key, ok), Last(b).(r := Sync(Last(b).r, key, Last(b).r.mirror[key], ok)));
  }

  lemma TakeCollect(b: Run, key: Key, now: U64, ttl: U64, ok: bool)
    requires IsRun(b) && Last(b).r.phase.Idle? && now <= Last(b).r.clock
    requires key in Last(b).r.mirror && Last(b).r.mirror[key].tombstone
              && Last(b).r.mirror[key].timestamp < Cutoff(now, ttl)
    ensures var s := Last(b);
            var r := s.r.(mirror := s.r.mirror - {key}, kernel := if ok then s.r.kernel - {key} else s.r.kernel);
            IsRun(Extend(b, Collect(key, now, ttl, ok), s.(r := r)))
  {
    var s := Last(b);
    var r := s.r.(mirror := s.r.mirror - {key}, kernel := if ok then s.r.kernel - {key} else s.r.kernel);
    ExtendIsRun(b, Collect(key, now, ttl, ok), s.(r := r));
  }

  lemma TakeReserve(b: Run)
    requires IsRun(b) && Last(b).r.phase.Idle? && Last(b).c.reserved < MAX_U64
    ensures IsRun(Extend(b, Reserve, Last(b).(c := Last(b).c.(reserved := Last(b).c.reserved + 1))))
  {
    ExtendIsRun(b, Reserve, Last(b).(c := Last(b).c.(reserved := Last(b).c.reserved + 1)));
  }

  lemma TakePut(b: Run, comm: Comm, rule: RuleValue, ok: bool)
    requires IsRun(b) && Last(b).r.phase.Idle? && Last(b).c.generation < Last(b).c.reserved
    ensures var c := Last(b).c;
            var rules := if ok then c.rules[RuleKey(c.reserved, comm) := rule] else c.rules;
            var next := c.(rules := rules, peak := Higher(c.peak, |rules|));
            IsRun(Extend(b, PutRule(comm, rule, ok), Last(b).(c := next)))
  {
    var c := Last(b).c;
    var rules := if ok then c.rules[RuleKey(c.reserved, comm) := rule] else c.rules;
    ExtendIsRun(b, PutRule(comm, rule, ok), Last(b).(c := c.(rules := rules, peak := Higher(c.peak, |rules|))));
  }

  lemma TakeDrop(b: Run, key: RuleKey, ok: bool)
    requires IsRun(b) && Last(b).r.phase.Idle? && key.generation != Last(b).c.active.generation
    ensures var c := Last(b).c;
            IsRun(Extend(b, DropRule(key, ok), Last(b).(c := c.(rules := if ok then c.rules - {key} else c.rules))))
  {
    var c := Last(b).c;
    ExtendIsRun(b, DropRule(key, ok), Last(b).(c := c.(rules := if ok then c.rules - {key} else c.rules)));
  }

  lemma TakeActivate(b: Run, policy: KernelPolicy)
    requires IsRun(b) && Last(b).r.phase.Idle? && Last(b).c.generation < Last(b).c.reserved && Normal(policy)
    requires Slice(Last(b).c.rules, Last(b).c.reserved) == TableOf(Last(b).c.reserved, policy.commRules)
    ensures var c := Last(b).c;
            IsRun(Extend(b, Activate(policy),
                         Last(b).(c := Control(c.reserved, c.reserved, Cell(c.reserved, policy.mode), c.rules,
                             policy, c.peak))))
  {
    var c := Last(b).c;
    ExtendIsRun(b, Activate(policy),
                Last(b).(c := Control(c.reserved, c.reserved, Cell(c.reserved, policy.mode), c.rules, policy,
                    c.peak)));
  }
}
