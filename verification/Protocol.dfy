/** The two-replica protocol as a state machine. The kernel process map and the daemon's
    mirror are changed by the fork, exit and exec programs and by the daemon; an event
    queue runs from the kernel to the daemon.

    One run of a kernel program is one step. A daemon operation is split at its map writes:
    each step performs at most one write to a shared map, so kernel steps may come between
    any two writes. A step's `ok` says whether its map write succeeded (a failed write
    leaves the map unchanged), and `sent` whether the ring buffer had room for its event.
    Every `now` is a reading of the boot clock, which never runs backwards; a daemon write may
    use a reading that is already old when the write happens. */
module Protocol {
  import opened Types
  import opened Merge
  import opened ExactRules

  type ProcessMap = map<Key, Value>

  const NSEC_PER_USER_TICK := 10_000_000

  datatype Task = Task(pid: U32, tgid: U32, startBoottime: U64, comm: Comm)

  function KeyOf(task: Task): Key {
    Key(task.tgid, task.startBoottime / NSEC_PER_USER_TICK)
  }

  datatype Kind = Fork | Exit | Exec

  datatype Event = Event(kind: Kind, key: Key, parentKey: Key, ppid: U32, hasMark: bool, value: Value, comm: Comm)

  /** The active-policy cell. */
  datatype Cell = Cell(generation: U64, mode: U8)

  /** Where the daemon is inside the handling of one event: `value` and `hasValue` are the
      local variables that survive the first map write. */
  datatype Phase = Idle | Decide(event: Event, value: Value, hasValue: bool)

  /** What the kernel programs have done so far: the keys they ran for, and how often they ran. */
  datatype Past = Past(seen: set<Key>, runs: nat)

  /** What kernel programs and daemon exchange about processes. */
  datatype Replicas = Replicas(
    kernel: ProcessMap,
    mirror: ProcessMap,
    queue: seq<Event>,
    phase: Phase,
    clock: U64,
    past: Past)

  /** What the daemon tells the exec program. */
  datatype Control = Control(
    generation: U64,        // checker generation
    reserved: U64,          // last generation reserved for a policy transaction
    active: Cell,
    rules: RuleTable,
    policy: KernelPolicy,   // last activated policy
    peak: nat)              // the largest size the rule table had after an insertion

  datatype State = State(r: Replicas, c: Control)

  function Init(): State {
    State(Replicas(map[], map[], [], Idle, 0, Past({}, 0)),
          Control(1, 1, Cell(0, USERSPACE_ONLY), map[], KernelPolicy(USERSPACE_ONLY, []), 0))
  }

  datatype Action =
    // kernel programs
    | KFork(parent: Task, child: Task, now: U64, ok: bool, sent: bool)
    | KExit(task: Task, now: U64, ok: bool, sent: bool)
    | KExec(task: Task, now: U64, ok: bool, sent: bool)
    // the daemon reads the boot clock
    | Tick(now: U64)
    // handleEvent: up to and including the first map write, and the rest
    | HandleFirst(now: U64, ok: bool)
    | HandleSecond(decision: Decision, now: U64, ok: bool)
    // setProcessMark and traversal
    | Mark(key: Key, priority: Int8, mark: U64, explicit: bool, now: U64, ok: bool)
    | NoMark(key: Key, now: U64, ok: bool)
    // refreshMirrorFromKernel: read one entry, write one repair
    | Refresh(key: Key)
    | Repair(key: Key, ok: bool)
    // cleanup
    | Entomb(key: Key, now: U64, ok: bool)
    | Collect(key: Key, now: U64, ttl: U64, ok: bool)
    // policy transactions
    | Reserve
    | PutRule(comm: Comm, rule: RuleValue, ok: bool)
    | DropRule(ruleKey: RuleKey, ok: bool)
    | Activate(policy: KernelPolicy)

  // ---------------------------------------------------------------- kernel programs

  /** The value a forked child starts with: its parent's live mark, as an inherited one. */
  function Inherited(kernel: ProcessMap, parentKey: Key, now: U64): Option<Value> {
    if parentKey in kernel && !kernel[parentKey].tombstone && kernel[parentKey].hasMark
    then Some(kernel[parentKey].(tombstone := false, explicit := false, timestamp := now))
    else None
  }

  predicate LiveMark(v: Value) {
    !v.tombstone && v.hasMark
  }

  /** What one run of a kernel program leaves in the process map, and the event it sends. */
  datatype Outcome = Outcome(kernel: ProcessMap, event: Event)

  function ForkOutcome(kernel: ProcessMap, parent: Task, child: Task, now: U64, ok: bool): Outcome {
    var key, parentKey := KeyOf(child), KeyOf(parent);
    if key in kernel then
      Outcome(kernel, Event(Fork, key, parentKey, parent.tgid, LiveMark(kernel[key]), kernel[key], child.comm))
    else
      match Inherited(kernel, parentKey, now)
      case None => Outcome(kernel, Event(Fork, key, parentKey, parent.tgid, false, ZERO_VALUE, child.comm))
      case Some(v) =>
        Outcome(if ok then kernel[key := v] else kernel, Event(Fork, key, parentKey, parent.tgid, ok, v, child.comm))
  }

  function ExitOutcome(kernel: ProcessMap, task: Task, now: U64, ok: bool): Outcome {
    var key := KeyOf(task);
    if key in kernel then
      var v := kernel[key].(tombstone := true, timestamp := now);
      Outcome(if ok then kernel[key := v] else kernel,
              Event(Exit, key, ZERO_KEY, 0, LiveMark(kernel[key]), v, task.comm))
    else
      Outcome(kernel, Event(Exit, key, ZERO_KEY, 0, false, ZERO_VALUE, task.comm))
  }

  /** The value the exec program wants to write, if any. */
  function Candidate(existing: Option<Value>, active: Cell, rules: RuleTable, comm: Comm, now: U64): Option<Value> {
    if active.generation == 0 || (active.mode != POSITIVE_ONLY && active.mode != AUTHORITATIVE) then None
    else
      match Lookup(rules, active.generation, comm)
      case Match(priority, mark) =>
        Some(Value(false, true, true, priority, active.generation, mark, now))
      case Miss =>
        if active.mode != AUTHORITATIVE || existing.None? then None
        else if existing.value.generation == active.generation then
          Some(Value(false, existing.value.explicit, false, existing.value.priority, active.generation,
              existing.value.mark, now))
        else
          Some(Value(false, false, false, 0, active.generation, 0, now))
  }

  function ExecOutcome(kernel: ProcessMap, active: Cell, rules: RuleTable, task: Task, now: U64, ok: bool): Outcome {
    var key := KeyOf(task);
    var existing := Get(kernel, key);
    var candidate := Candidate(existing, active, rules, task.comm, now);
    if candidate.Some? && (existing.None? || NextWins(existing.value, candidate.value)) && ok then
      Outcome(kernel[key := candidate.value],
              Event(Exec, key, ZERO_KEY, 0, LiveMark(candidate.value), candidate.value, task.comm))
    else
      var v := if existing.Some? then existing.value else ZERO_VALUE;
      Outcome(kernel, Event(Exec, key, ZERO_KEY, 0, LiveMark(v), v, task.comm))
  }

  // ---------------------------------------------------------------- daemon

  /** syncKernel: overwrite the kernel entry. */
  function Sync(r: Replicas, key: Key, v: Value, ok: bool): Replicas {
    if ok then r.(kernel := r.kernel[key := v]) else r
  }

  /** upsertProcess: merge into the mirror; write through only when the mirror changed. */
  function Upsert(r: Replicas, key: Key, next: Value, ok: bool): Replicas {
    var merged := if key in r.mirror then Prefer(r.mirror[key], next) else next;
    if key in r.mirror && merged == r.mirror[key] then r
    else Sync(r.(mirror := r.mirror[key := merged]), key, merged, ok)
  }

  function NewValue(priority: Int8, mark: U64, explicit: bool, generation: U64, now: U64): Value {
    Value(false, explicit, true, priority, generation, mark, now)
  }

  function NewNoMark(v: Value, generation: U64, now: U64): Value {
    Value(false, v.explicit, false, v.priority, generation, v.mark, now)
  }

  function Entombed(v: Value, now: U64): Value {
    v.(tombstone := true, timestamp := Max(v.timestamp, now))
  }

  /** handleEvent up to and including its first map write. */
  function FirstFork(r: Replicas, e: Event, ok: bool): Replicas {
    if e.hasMark && e.value.hasMark then
      Upsert(r, e.key, e.value, ok).(phase := Decide(e, e.value, true))
    else if e.key in r.mirror && LiveMark(r.mirror[e.key]) then
      Sync(r, e.key, r.mirror[e.key], ok).(phase := Decide(e, r.mirror[e.key], true))
    else
      r.(phase := Decide(e, ZERO_VALUE, false))
  }

  function FirstExit(r: Replicas, e: Event, now: U64, ok: bool): Replicas {
    if e.key !in r.mirror && !e.value.tombstone then r
    else Upsert(r, e.key, Entombed(if e.key in r.mirror then r.mirror[e.key] else e.value, now), ok)
  }

  function FirstExec(r: Replicas, e: Event, ok: bool): Replicas {
    var r1 := if e.value != ZERO_VALUE then Upsert(r, e.key, e.value, ok) else r;
    if e.key !in r1.mirror then r1.(phase := Decide(e, e.value, false))
    else
      var v := r1.mirror[e.key];
      var r2 := if v != e.value then Sync(r1, e.key, v, ok) else r1;
      if v.tombstone then r2 else r2.(phase := Decide(e, v, true))
  }

  function FirstEffect(r: Replicas, e: Event, now: U64, ok: bool): Replicas {
    match e.kind
    case Fork => FirstFork(r, e, ok)
    case Exit => FirstExit(r, e, now, ok)
    case Exec => FirstExec(r, e, ok)
  }

  /** The value the rest of handleEvent merges, if any: the checker's decision, the parent's
      mark for a fork, or a live no-mark value for a process that had an entry. */
  function SecondValue(mirror: ProcessMap, g: U64, p: Phase, d: Decision, now: U64): Option<Value>
    requires p.Decide?
  {
    var e := p.event;
    if d.Match? then
      Some(NewValue(d.priority, d.mark, true, g, now))
    else if e.kind.Fork? && e.parentKey in mirror && LiveMark(mirror[e.parentKey]) then
      Some(NewValue(mirror[e.parentKey].priority, mirror[e.parentKey].mark, false, g, now))
    else if p.hasValue then
      Some(NewNoMark(p.value, g, now))
    else if e.kind.Fork? && e.key in mirror && !mirror[e.key].tombstone then
      Some(NewNoMark(mirror[e.key], g, now))
    else None
  }

  function SecondEffect(r: Replicas, g: U64, p: Phase, d: Decision, now: U64, ok: bool): Replicas
    requires p.Decide?
  {
    match SecondValue(r.mirror, g, p, d, now)
    case None => r
    case Some(v) => Upsert(r, p.event.key, v, ok)
  }

  /** The unsigned subtraction that computes the tombstone cutoff. */
  function Cutoff(now: U64, ttl: U64): U64 {
    if ttl <= now then now - ttl else now - ttl + MAX_U64 + 1
  }

  // ---------------------------------------------------------------- steps and runs

  predicate IsKernel(a: Action) {
    a.KFork? || a.KExit? || a.KExec?
  }

  /** Kernel programs read the clock and write in one step; the daemon reads it in a step of
      its own and writes later with that reading. */
  predicate AdvancesClock(a: Action) {
    IsKernel(a) || a.Tick?
  }

  predicate UsesReading(a: Action) {
    a.HandleFirst? || a.HandleSecond? || a.Mark? || a.NoMark? || a.Entomb? || a.Collect?
  }

  predicate Enabled(s: State, a: Action) {
    && (AdvancesClock(a) ==> s.r.clock <= a.now)
    && (UsesReading(a) ==> a.now <= s.r.clock)
    && (IsKernel(a) || a.Tick? || (s.r.phase.Decide? <==> a.HandleSecond?))
    && match a
       case HandleFirst(_, _) => s.r.queue != []
       case NoMark(key, _, _) => key in s.r.mirror && !s.r.mirror[key].tombstone
       case Entomb(key, _, _) => key in s.r.mirror && !s.r.mirror[key].tombstone
       case Refresh(key) => key in s.r.kernel
       case Repair(key, _) => key in s.r.mirror
       case Collect(key, now, ttl, _) =>
         key in s.r.mirror && s.r.mirror[key].tombstone && s.r.mirror[key].timestamp < Cutoff(now, ttl)
       case Reserve => s.c.reserved < MAX_U64
       case PutRule(_, _, _) => s.c.generation < s.c.reserved
       case DropRule(ruleKey, _) => ruleKey.generation != s.c.active.generation
       case Activate(policy) =>
         && s.c.generation < s.c.reserved && Normal(policy)
         && Slice(s.c.rules, s.c.reserved) == TableOf(s.c.reserved, policy.commRules)
       case _ => true
  }

  predicate IsPolicy(a: Action) {
    a.Reserve? || a.PutRule? || a.DropRule? || a.Activate?
  }

  /** The task a kernel program runs for. */
  function TaskOf(a: Action): Task
    requires IsKernel(a)
  {
    if a.KFork? then a.child else a.task
  }

  function KernelOutcome(kernel: ProcessMap, c: Control, a: Action): Outcome
    requires IsKernel(a)
  {
    match a
    case KFork(parent, child, now, ok, _) => ForkOutcome(kernel, parent, child, now, ok)
    case KExit(task, now, ok, _) => ExitOutcome(kernel, task, now, ok)
    case KExec(task, now, ok, _) => ExecOutcome(kernel, c.active, c.rules, task, now, ok)
  }

  function OneMore(past: Past, key: Key): Past {
    Past(past.seen + {key}, past.runs + 1)
  }

  /** Kernel programs ignore threads other than the group leader. */
  function NextKernel(r: Replicas, c: Control, a: Action): Replicas
    requires IsKernel(a)
  {
    if TaskOf(a).pid != TaskOf(a).tgid then r
    else
      var o := KernelOutcome(r.kernel, c, a);
      r.(kernel := o.kernel, queue := if a.sent then r.queue + [o.event] else r.queue,
         past := OneMore(r.past, o.event.key))
  }

  function NextHandling(r: Replicas, c: Control, a: Action): Replicas
    requires a.HandleFirst? ==> r.queue != []
    requires a.HandleSecond? ==> r.phase.Decide?
  {
    match a
    case HandleFirst(now, ok) => FirstEffect(r.(queue := r.queue[1..]), r.queue[0], now, ok)
    case HandleSecond(d, now, ok) => SecondEffect(r.(phase := Idle), c.generation, r.phase, d, now, ok)
    case _ => r
  }

  /** What reading one kernel entry during a refresh leaves in the mirror. */
  function Refreshed(r: Replicas, key: Key): Value
    requires key in r.kernel
  {
    if key in r.mirror then Prefer(r.mirror[key], r.kernel[key]) else r.kernel[key]
  }

  function NextDaemon(r: Replicas, c: Control, a: Action): Replicas
    requires a.Refresh? ==> a.key in r.kernel
    requires a.NoMark? || a.Repair? || a.Entomb? ==> a.key in r.mirror
  {
    match a
    case Mark(key, priority, mark, explicit, now, ok) =>
      Upsert(r, key, NewValue(priority, mark, explicit, c.generation, now), ok)
    case NoMark(key, now, ok) => Upsert(r, key, NewNoMark(r.mirror[key], c.generation, now), ok)
    case Refresh(key) => r.(mirror := r.mirror[key := Refreshed(r, key)])
    case Repair(key, ok) => Sync(r, key, r.mirror[key], ok)
    case Entomb(key, now, ok) => Upsert(r, key, Entombed(r.mirror[key], now), ok)
    case Collect(key, now, ttl, ok) =>
      r.(mirror := r.mirror - {key}, kernel := if ok then r.kernel - {key} else r.kernel)
    case _ => r
  }

  function Higher(a: nat, b: nat): nat {
    if a < b then b else a
  }

  function NextControl(c: Control, a: Action): Control
    requires a.Reserve? ==> c.reserved < MAX_U64
  {
    match a
    case Reserve => c.(reserved := c.reserved + 1)
    case PutRule(comm, rule, ok) =>
      var rules := if ok then c.rules[RuleKey(c.reserved, comm) := rule] else c.rules;
      c.(rules := rules, peak := Higher(c.peak, |rules|))
    case DropRule(ruleKey, ok) => c.(rules := if ok then c.rules - {ruleKey} else c.rules)
    case Activate(policy) =>
      c.(active := Cell(c.reserved, policy.mode), generation := c.reserved, policy := policy)
    case _ => c
  }

  function Next(s: State, a: Action): State
    requires Enabled(s, a)
  {
    var r := if AdvancesClock(a) then s.r.(clock := a.now) else s.r;
    if IsPolicy(a) then State(r, NextControl(s.c, a))
    else if IsKernel(a) then State(NextKernel(r, s.c, a), s.c)
    else if a.HandleFirst? || a.HandleSecond? then State(NextHandling(r, s.c, a), s.c)
    else State(NextDaemon(r, s.c, a), s.c)
  }

  /** A run: the actions taken and the states passed through. */
  datatype Run = Run(actions: seq<Action>, states: seq<State>)

  ghost predicate IsRun(b: Run) {
    && |b.states| == |b.actions| + 1 && b.states[0] == Init()
    && forall i {:trigger b.actions[i]} :: 0 <= i < |b.actions| ==> Taken(b.states[i], b.actions[i], b.states[i + 1])
  }

  predicate Taken(s: State, a: Action, t: State) {
    Enabled(s, a) && t == Next(s, a)
  }

  function Last(b: Run): State
    requires b.states != []
  {
    b.states[|b.states| - 1]
  }

  function Extend(b: Run, a: Action, t: State): Run {
    Run(b.actions + [a], b.states + [t])
  }

  lemma ExtendIsRun(b: Run, a: Action, t: State)
    requires IsRun(b) && Taken(Last(b), a, t)
    ensures IsRun(Extend(b, a, t))
  {
    var e := Extend(b, a, t);
    forall i {:trigger e.actions[i]} | 0 <= i < |e.actions|
      ensures Taken(e.states[i], e.actions[i], e.states[i + 1])
    {
      if i < |b.actions| {
        assert e.actions[i] == b.actions[i];
      }
    }
  }
}
