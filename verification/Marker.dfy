/** The kernel programs and the daemon's marker as imperative code over the shared maps.
    `history` records the protocol step each map operation performs, and every method is
    proved to extend it to a longer run of the protocol: whatever holds of all runs holds of
    this code. Kernel programs may run between any two map operations (`Interfere`), map
    writes may fail, and events may be lost. */
module Marker {
  import opened Types
  import opened Merge
  import opened ExactRules
  import opened Protocol
  import opened Programs
  import opened Invariants
  import opened Agreement
  import opened Lifetimes
  import opened Steps
  import opened ProcessLists
  import opened Targets
  import opened VisitOrder
  import opened Sweeps

  /** `later` continues `run` with kernel program runs and clock readings only. */
  ghost predicate Environment(run: seq<Action>, later: seq<Action>) {
    run <= later && forall i :: |run| <= i < |later| ==> AdvancesClock(later[i])
  }

  lemma EnvironmentStep(log: seq<Action>, run: seq<Action>, a: Action)
    requires Environment(log, run) && AdvancesClock(a)
    ensures Environment(log, run + [a])
  {
  }

  /** procInfoFromEvent: procfs data if it is still about this process lifetime. */
  function InfoOf(event: Event, procfs: Option<ProcessInfo>): (r: ProcessInfo)
    ensures r.key == event.key
    ensures procfs != Some(r) ==>
              r.ppid == event.ppid && r.comm == Unpad(event.comm) && (procfs.Some? ==> procfs.value.key != event.key)
  {
    if procfs.Some? && procfs.value.key == event.key then procfs.value
    else ProcessInfo(event.key, event.ppid, Unpad(event.comm), [], [])
  }

  /** Whether the daemon merges the event's value as it is reported: a forked mark, or the value
      of an exec. */
  predicate Brings(e: Event) {
    (e.kind.Fork? && e.hasMark && e.value.hasMark) || (e.kind.Exec? && e.value != ZERO_VALUE)
  }

  /** The mirror after merging what the event brings. */
  function Received(m: ProcessMap, e: Event): ProcessMap {
    if Brings(e) then Merged(m, e.key, e.value) else m
  }

  /** What outranks a new explicit mark of priority `p` in the current generation `g`. */
  predicate Outweighs(v: Value, g: U64, p: Int8) {
    v.tombstone || (v.generation == g && v.priority > p)
  }

  /** handleEvent as far as its first map write: `m` becomes `n`, and `value` is carried on. */
  ghost predicate FirstHalf(e: Event, m: ProcessMap, n: ProcessMap, decide: bool, value: Value, hasValue: bool,
      now: U64)
  {
    match e.kind
    case Fork =>
      && decide && n == Received(m, e)
      && (hasValue <==> Brings(e) || HasMark(m, e.key))
      && (hasValue ==> value == if Brings(e) then e.value else m[e.key])
    case Exit =>
      && !decide
      && n == if e.key in m || e.value.tombstone then
                var was := if e.key in m then m[e.key] else e.value;
                m[e.key := Value(true, was.explicit, was.hasMark, was.priority, was.generation, was.mark,
                                 if was.timestamp > now then was.timestamp else now)]
              else m
    case Exec =>
      && n == Received(m, e)
      && (decide <==> !(e.key in n && n[e.key].tombstone))
      && (decide ==> (hasValue <==> e.key in n) && (hasValue ==> value == n[e.key]))
  }

  /** The rest of handleEvent: `m` becomes `n`. */
  ghost predicate SecondHalf(e: Event, m: ProcessMap, n: ProcessMap, value: Value, hasValue: bool, d: Decision,
      g: U64, now: U64)
  {
    if d.Match? then n == Merged(m, e.key, Value(false, true, true, d.priority, g, d.mark, now))
    else if e.kind.Fork? && HasMark(m, e.parentKey) then
      n == Merged(m, e.key, Value(false, false, true, m[e.parentKey].priority, g, m[e.parentKey].mark, now))
    else if hasValue then
      n == Merged(m, e.key, Value(false, value.explicit, false, value.priority, g, value.mark, now))
    else if e.kind.Fork? && e.key in m && !m[e.key].tombstone then
      n == Merged(m, e.key, Value(false, m[e.key].explicit, false, m[e.key].priority, g, m[e.key].mark, now))
    else n == m
  }

  /** What handling `e` leaves of mirror `m` in generation `g`, when the checker answers `d` about
      the process; `read` is the clock reading before the first map write, and `decided` that of
      the decision, if one was made. */
  ghost predicate Handled(e: Event, m: ProcessMap, n: ProcessMap, g: U64, d: Decision, read: U64,
      decided: Option<U64>)
  {
    var r := Received(m, e);
    // the checker decides about every fork, and every exec of a process that is not tombstoned
    && (decided.None? <==> e.kind.Exit? || (e.kind.Exec? && e.key in r && r[e.key].tombstone))
    // an exit leaves a tombstone, unless the process is unknown to both sides
    && (e.kind.Exit? ==>
          n == if e.key in m || e.value.tombstone then
                 var was := if e.key in m then m[e.key] else e.value;
                 m[e.key := Value(true, was.explicit, was.hasMark, was.priority, was.generation, was.mark,
                                  if was.timestamp > read then was.timestamp else read)]
               else m)
    && (e.kind.Exec? && decided.None? ==> n == r)
    && (decided.Some? ==>
          var now := decided.value;
          // a match: an explicit mark of this generation is merged
          if d.Match? then n == Merged(r, e.key, Value(false, true, true, d.priority, g, d.mark, now))
          // a fork: its parent's mark is merged as an inherited one
          else if e.kind.Fork? && HasMark(r, e.parentKey) then
            n == Merged(r, e.key, Value(false, false, true, r[e.parentKey].priority, g, r[e.parentKey].mark, now))
          // otherwise a live entry loses its mark, and no entry is made
          else if e.kind.Fork? && Brings(e) then
            n == Merged(r, e.key, Value(false, e.value.explicit, false, e.value.priority, g, e.value.mark, now))
          else if e.key in r && !r[e.key].tombstone then
            n == Merged(r, e.key, Value(false, r[e.key].explicit, false, r[e.key].priority, g, r[e.key].mark, now))
          else n == r)
  }

  lemma HandledInHalves(e: Event, m: ProcessMap, mid: ProcessMap, n: ProcessMap, value: Value, hasValue: bool,
      d: Decision, g: U64, read: U64, decided: Option<U64>)
    requires FirstHalf(e, m, mid, decided.Some?, value, hasValue, read)
    requires if decided.Some? then SecondHalf(e, mid, n, value, hasValue, d, g, decided.value) else n == mid
    ensures Handled(e, m, n, g, d, read, decided)
  {
  }

  /** A match is what the mirror ends with iff nothing it is merged with outweighs it; if not,
      the entry is one of those, of higher rank. */
  lemma MatchStays(m: ProcessMap, e: Event, d: Decision, g: U64, now: U64)
    requires d.Match? && (e.key in m ==> ValueOk(m[e.key], g, now)) && (Brings(e) ==> ValueOk(e.value, g, now))
    ensures var v := Value(false, true, true, d.priority, g, d.mark, now);
            var w := Merged(Received(m, e), e.key, v)[e.key];
            && RankLeq(v, w) && (w == v || Get(m, e.key) == Some(w) || (Brings(e) && w == e.value))
            && (w == v <==>
                  && !(e.key in m && Outweighs(m[e.key], g, d.priority))
                  && !(Brings(e) && Outweighs(e.value, g, d.priority)))
  {
  }

  /** Account of the policy transactions so far: the largest size the rule table had after an
      insertion, the failed insertions and activations, and how many kernel program runs there
      had been at the last activation. */
  datatype Ledger = Ledger(peak: nat, failures: nat, runsAtActivation: nat)

  /** The account after an insertion that left `size` rules, or failed. */
  function Account(ledger: Ledger, size: nat, ok: bool): Ledger {
    ledger.(peak := Higher(ledger.peak, size), failures := if ok then ledger.failures else ledger.failures + 1)
  }

  class Marker {
    // shared with the kernel programs
    var kernel: ProcessMap
    var commRules: RuleTable
    var active: Cell
    var queue: seq<Event>
    var clock: U64

    // private to the daemon
    var mirror: ProcessMap
    var check: CheckFunc
    var generation: U64
    var policyGeneration: U64
    var kernelPolicy: KernelPolicy
    var installed: map<U64, seq<RuleKey>>
    var tombTTL: U64

    ghost var phase: Phase
    ghost var past: Past
    ghost var history: Run
    ghost var ledger: Ledger
    ghost var dropFailed: bool   // whether a rule deletion ever failed

    ghost function View(): State
      reads `kernel, `mirror, `queue, `phase, `clock, `past, `generation, `policyGeneration, `active, `commRules,
          `kernelPolicy, `ledger
    {
      State(Replicas(kernel, mirror, queue, phase, clock, past),
            Control(generation, policyGeneration, active, commRules, kernelPolicy, ledger.peak))
    }

    /** The fields are the last state of a run of the protocol. */
    ghost predicate Traced()
      reads `kernel, `mirror, `queue, `phase, `clock, `past, `generation, `policyGeneration, `active, `commRules,
          `kernelPolicy, `ledger, `history
    {
      IsRun(history) && Last(history) == View()
    }

    constructor (check: CheckFunc, tombTTL: U64)
      ensures Traced() && phase.Idle? && history == Run([], [Init()])
      ensures Booked() && this.check == check && this.tombTTL == tombTTL
    {
      kernel, mirror, queue, clock := map[], map[], [], 0;
      commRules, active := map[], Cell(0, USERSPACE_ONLY);
      this.check, this.tombTTL := check, tombTTL;
      generation, policyGeneration := 1, 1;
      kernelPolicy, installed := KernelPolicy(USERSPACE_ONLY, []), map[];
      phase, past, history := Idle, Past({}, 0), Run([], [Init()]);
      ledger, dropFailed := Ledger(0, 0, 0), false;
    }

    /** Outside a policy transaction every rule in the table is recorded under its own
        generation, and if no deletion ever failed the table never held more than two
        policies' worth of rules. */
    ghost predicate Booked()
      reads `commRules, `installed, `generation, `policyGeneration, `ledger, `dropFailed
    {
      && AllRecorded(commRules, installed, []) && GoodRecords(installed, generation, policyGeneration) && Capped()
      && (!dropFailed ==> installed.Keys <= {generation})
    }

    /** The peak is raised by every insertion, and nothing else makes the table grow. */
    ghost predicate Capped()
      reads `ledger, `dropFailed
    {
      !dropFailed ==> ledger.peak <= 2 * MAX_KERNEL_COMM_RULES
    }

    /** What all runs keep, for the current fields. */
    lemma Facts()
      requires Traced()
      ensures ValuesOk(View().r, generation) && PolicyOk(View().c)
    {
      ReachableOk(history, |history.states| - 1);
    }

    lemma ActiveFact()
      requires Traced()
      ensures active.generation == 0 || active.generation == generation
      ensures 1 <= generation <= policyGeneration
    {
      Facts();
    }

    lemma ReserveFact()
      requires Traced()
      ensures 1 <= generation <= policyGeneration && active.generation <= generation
      ensures policyGeneration < MAX_U64 ==> Slice(commRules, policyGeneration + 1) == map[]
    {
      Facts();
    }

    lemma NormalPolicy()
      requires Traced()
      ensures Normal(kernelPolicy)
    {
      Facts();
    }

    lemma AllBelowReserved()
      requires Traced() && generation < policyGeneration
      ensures AllBelow(kernel, policyGeneration) && AllBelow(mirror, policyGeneration)
    {
      Facts();
    }

    /** If no deletion ever failed, the rule table was within its capacity in every state the
        code has been through. */
    lemma TableWithinCapacity(i: nat)
      requires Traced() && Capped() && !dropFailed && i < |history.states|
      ensures |history.states[i].c.rules| <= 2 * MAX_KERNEL_COMM_RULES
    {
      RulesWithinPeak(history, i, |history.states| - 1);
    }

    /** If no map write failed, no event was lost and processes were forked first, kernel and
        mirror agree about every process without a queued event. */
    lemma ReplicasAgree(k: Key)
      requires Traced() && Faithful(history, |history.actions|) && forall e :: e in queue ==> e.key != k
      ensures Agree(View().r, k)
    {
      QuiescentAgreement(history, |history.actions|, k);
    }

    /** In that case, where the mirror shows every listed process its nearest match, as after a
        switch, so does the kernel map. */
    lemma KernelResolved(procs: seq<ProcessInfo>)
      requires Traced() && Faithful(history, |history.actions|)
      requires forall e :: e in queue ==> !Listed(procs, e.key)
      requires AllResolved(procs, mirror, check, generation)
      ensures AllResolved(procs, kernel, check, generation)
    {
      forall p | p in procs ensures Resolved(kernel, p.key, Nearest(procs, check, p), generation) {
        ReplicasAgree(p.key);
        assert Resolved(mirror, p.key, Nearest(procs, check, p), generation);
        assert Get(kernel, p.key) == Get(mirror, p.key) || (p.key in kernel && kernel[p.key].tombstone);
      }
    }

    // -------------------------------------------------------------- kernel programs

    /** The process-map part of sched_process_fork: an existing entry of the child stays and is
        reported; otherwise the parent's live mark, if any, is inherited. */
    method ForkProgram(parent: Task, child: Task, now: U64, ok: bool) returns (event: Event)
      modifies this`kernel
      ensures Outcome(kernel, event) == ForkOutcome(old(kernel), parent, child, now, ok)
      ensures event.kind.Fork? && event.key == KeyOf(child) && event.parentKey == KeyOf(parent)
      ensures event.ppid == parent.tgid && event.comm == child.comm
      ensures event.key in old(kernel) ==>
                var was := old(kernel)[event.key];
                kernel == old(kernel) && event.value == was && (event.hasMark <==> !was.tombstone && was.hasMark)
      ensures event.key !in old(kernel) && event.parentKey in old(kernel) ==>
                var from := old(kernel)[event.parentKey];
                if !from.tombstone && from.hasMark then
                  && event.value == Value(false, false, true, from.priority, from.generation, from.mark, now)
                  && event.hasMark == ok && kernel == if ok then old(kernel)[event.key := event.value] else old(kernel)
                else kernel == old(kernel) && event.value == ZERO_VALUE && !event.hasMark
      ensures event.key !in old(kernel) && event.parentKey !in old(kernel) ==>
                kernel == old(kernel) && event.value == ZERO_VALUE && !event.hasMark
      ensures old(kernel.Keys) <= kernel.Keys
    {
      var key, parentKey := KeyOf(child), KeyOf(parent);
      var value, hasMark := ZERO_VALUE, false;
      if key in kernel {
        value := kernel[key];
        hasMark := !value.tombstone && value.hasMark;
      } else if parentKey in kernel && !kernel[parentKey].tombstone && kernel[parentKey].hasMark {
        value := kernel[parentKey].(tombstone := false, explicit := false, timestamp := now);
        if ok {
          kernel := kernel[key := value];
          hasMark := true;
        }
      }
      event := Event(Fork, key, parentKey, parent.tgid, hasMark, value, child.comm);
    }

    /** The process-map part of sched_process_exit: an existing entry becomes a tombstone of
        this moment. */
    method ExitProgram(task: Task, now: U64, ok: bool) returns (event: Event)
      modifies this`kernel
      ensures Outcome(kernel, event) == ExitOutcome(old(kernel), task, now, ok)
      ensures event.kind.Exit? && event.key == KeyOf(task) && event.comm == task.comm
      ensures event.key !in old(kernel) ==>
                kernel == old(kernel) && event.value == ZERO_VALUE && !event.hasMark
      ensures event.key in old(kernel) ==>
                var was := old(kernel)[event.key];
                && event.value == Value(true, was.explicit, was.hasMark, was.priority, was.generation, was.mark, now)
                && kernel == (if ok then old(kernel)[event.key := event.value] else old(kernel))
                && (event.hasMark <==> !was.tombstone && was.hasMark)
      ensures old(kernel.Keys) <= kernel.Keys
    {
      var key := KeyOf(task);
      var value, hasMark := ZERO_VALUE, false;
      if key in kernel {
        hasMark := !kernel[key].tombstone && kernel[key].hasMark;
        value := kernel[key].(tombstone := true, timestamp := now);
        if ok {
          kernel := kernel[key := value];
        }
      }
      event := Event(Exit, key, ZERO_KEY, 0, hasMark, value, task.comm);
    }

    /** The process-map part of sched_process_exec: under a deciding policy a match is merged as
        an explicit mark, and in authoritative mode a miss as the loss of the entry's mark; under
        any other nothing changes. The event reports the entry as it now is. */
    method ExecProgram(task: Task, now: U64, ok: bool) returns (event: Event)
      modifies this`kernel
      ensures Outcome(kernel, event) == ExecOutcome(old(kernel), active, commRules, task, now, ok)
      ensures event.kind.Exec? && event.key == KeyOf(task) && event.comm == task.comm
      ensures event.value == if event.key in kernel then kernel[event.key] else ZERO_VALUE
      ensures event.hasMark <==> !event.value.tombstone && event.value.hasMark
      ensures !ok || active.generation == 0 || active.mode !in {POSITIVE_ONLY, AUTHORITATIVE} ==> kernel == old(kernel)
      ensures ok && active.generation != 0 && active.mode in {POSITIVE_ONLY, AUTHORITATIVE}
              && RuleKey(active.generation, task.comm) in commRules ==>
                var rule := commRules[RuleKey(active.generation, task.comm)];
                kernel == Merged(old(kernel), event.key,
                                 Value(false, true, true, rule.priority, active.generation, rule.mark, now))
      ensures RuleKey(active.generation, task.comm) !in commRules ==>
                active.mode == POSITIVE_ONLY || event.key !in old(kernel) ==> kernel == old(kernel)
      ensures ok && active.generation != 0 && active.mode == AUTHORITATIVE
              && RuleKey(active.generation, task.comm) !in commRules && event.key in old(kernel) ==>
                var was := old(kernel)[event.key];
                kernel == Merged(old(kernel), event.key,
                  if was.generation == active.generation then
                    Value(false, was.explicit, false, was.priority, active.generation, was.mark, now)
                  else Value(false, false, false, 0, active.generation, 0, now))
      ensures old(kernel.Keys) <= kernel.Keys
    {
      var key := KeyOf(task);
      var existing := Get(kernel, key);
      var value := if existing.Some? then existing.value else ZERO_VALUE;
      if active.generation != 0 && (active.mode == POSITIVE_ONLY || active.mode == AUTHORITATIVE) {
        var ruleKey := RuleKey(active.generation, task.comm);
        var matched := ruleKey in commRules;
        if matched || (active.mode == AUTHORITATIVE && existing.Some?) {
          var candidate := ZERO_VALUE.(generation := active.generation, timestamp := now);
          if matched {
            var rule := commRules[ruleKey];
            candidate := candidate.(explicit := true, hasMark := true, priority := rule.priority, mark := rule.mark);
          } else if existing.value.generation == active.generation {
            candidate := candidate.(explicit := value.explicit, priority := value.priority, mark := value.mark);
          }
          if existing.None? || NextWins(existing.value, candidate) {
            if ok {
              kernel := kernel[key := candidate];
              value := candidate;
            }
          }
        }
      }
      event := Event(Exec, key, ZERO_KEY, 0, !value.tombstone && value.hasMark, value, task.comm);
    }

    /** Submits the event of a kernel program run, if the ring buffer has room. */
    method Submit(a: Action, event: Event, ghost before: ProcessMap)
      requires IsRun(history) && IsKernel(a) && clock <= a.now && TaskOf(a).pid == TaskOf(a).tgid
      requires Last(history) == State(View().r.(kernel := before), View().c)
      requires Outcome(kernel, event) == KernelOutcome(before, View().c, a)
      modifies this`queue, this`clock, this`past, this`history
      ensures Traced() && history == Extend(old(history), a, View()) && clock == a.now
      ensures past.runs == old(past.runs) + 1
    {
      clock := a.now;
      if a.sent {
        queue := queue + [event];
      }
      past := OneMore(past, event.key);
      TakeKernel(history, a, Outcome(kernel, event));
      history := Extend(history, a, View());
    }

    /** One kernel program run: threads are ignored; otherwise the process map is updated
        before the event is submitted. */
    method RunKernelProgram(a: Action)
      requires Traced() && IsKernel(a) && clock <= a.now
      modifies this`kernel, this`queue, this`clock, this`past, this`history
      ensures Traced() && history == Extend(old(history), a, View()) && clock == a.now
      ensures old(kernel.Keys) <= kernel.Keys
      ensures if TaskOf(a).pid == TaskOf(a).tgid then past.runs == old(past.runs) + 1
              else past == old(past) && kernel == old(kernel)
    {
      if TaskOf(a).pid != TaskOf(a).tgid {
        clock := a.now;
        TakeThread(history, a);
        history := Extend(history, a, View());
        return;
      }
      ghost var before := kernel;
      var event: Event;
      match a {
        case KFork(parent, child, now, ok, _) => event := ForkProgram(parent, child, now, ok);
        case KExit(task, now, ok, _) => event := ExitProgram(task, now, ok);
        case KExec(task, now, ok, _) => event := ExecProgram(task, now, ok);
      }
      Submit(a, event, before);
    }

    /** Any number of kernel program runs, in any order, for any tasks; `log` is the history up
        to here. */
    method InterfereAfter(ghost log: seq<Action>)
      requires Traced() && Environment(log, history.actions)
      modifies this`kernel, this`queue, this`clock, this`past, this`history
      ensures Traced() && old(kernel.Keys) <= kernel.Keys && old(clock) <= clock && old(past.runs) <= past.runs
      ensures past.runs == old(past.runs) ==> kernel == old(kernel)
      ensures Environment(log, history.actions)
    {
      var n: nat :| true;
      for i := 0 to n
        invariant Traced() && old(kernel.Keys) <= kernel.Keys && old(clock) <= clock && old(past.runs) <= past.runs
        invariant past.runs == old(past.runs) ==> kernel == old(kernel)
        invariant Environment(log, history.actions)
      {
        var a: Action := *;
        if IsKernel(a) && clock <= a.now {
          ghost var was := history.actions;
          RunKernelProgram(a);
          EnvironmentStep(log, was, a);
        }
      }
    }

    method Interfere()
      requires Traced()
      modifies this`kernel, this`queue, this`clock, this`past, this`history
      ensures Traced() && old(kernel.Keys) <= kernel.Keys && old(clock) <= clock && old(past.runs) <= past.runs
      ensures past.runs == old(past.runs) ==> kernel == old(kernel)
    {
      InterfereAfter(history.actions);
    }

    // -------------------------------------------------------------- map primitives

    /** nowBootNS: the boot clock has moved on by any amount. */
    method Now() returns (now: U64)
      requires Traced()
      modifies this`clock, this`history
      ensures Traced() && old(clock) <= now == clock
      ensures history.actions == old(history.actions) + [Tick(now)]
    {
      now := *;
      now := Max(now, clock);
      TakeTick(history, now);
      clock := now;
      history := Extend(history, Tick(now), View());
    }

    method SyncKernel(key: Key, value: Value) returns (ghost ok: bool)
      modifies this`kernel
      ensures View().r == Sync(old(View().r), key, value, ok)
      ensures kernel == if ok then old(kernel)[key := value] else old(kernel)
    {
      var succeeded: bool := *;
      if succeeded {
        kernel := kernel[key := value];
      }
      ok := succeeded;
    }

    method UpsertProcess(key: Key, next: Value) returns (ghost ok: bool)
      modifies this`kernel, this`mirror
      ensures View().r == Upsert(old(View().r), key, next, ok)
      ensures mirror == Merged(old(mirror), key, next)
      ensures kernel == if ok && mirror != old(mirror) then old(kernel)[key := mirror[key]] else old(kernel)
    {
      var merged := next;
      ok := true;
      if key in mirror {
        merged := Prefer(mirror[key], next);
        if merged == mirror[key] {
          return;
        }
      }
      mirror := mirror[key := merged];
      ok := SyncKernel(key, merged);
    }

    // -------------------------------------------------------------- events

    method ReceiveFork(event: Event) returns (value: Value, hasValue: bool, ghost ok: bool)
      requires event.kind.Fork?
      modifies this`kernel, this`mirror, this`phase
      ensures View().r == FirstFork(old(View().r), event, ok) && phase == Decide(event, value, hasValue)
      ensures mirror == Received(old(mirror), event)
      ensures hasValue <==> Brings(event) || HasMark(old(mirror), event.key)
      ensures hasValue ==> value == if Brings(event) then event.value else old(mirror)[event.key]
      ensures kernel == if ok && (mirror != old(mirror) || (hasValue && !Brings(event)))
                        then old(kernel)[event.key := mirror[event.key]] else old(kernel)
    {
      value, hasValue, ok := ZERO_VALUE, false, true;
      if event.hasMark && event.value.hasMark {
        value, hasValue := event.value, true;
        ok := UpsertProcess(event.key, value);
      } else if event.key in mirror && LiveMark(mirror[event.key]) {
        value, hasValue := mirror[event.key], true;
        ok := SyncKernel(event.key, value);
      }
      phase := Decide(event, value, hasValue);
    }

    method ReceiveExit(event: Event, now: U64) returns (ghost ok: bool)
      modifies this`kernel, this`mirror
      ensures View().r == FirstExit(old(View().r), event, now, ok)
      ensures event.key !in old(mirror) && !event.value.tombstone ==> mirror == old(mirror)
      ensures event.key in old(mirror) || event.value.tombstone ==>
                var was := if event.key in old(mirror) then old(mirror)[event.key] else event.value;
                mirror == old(mirror)[event.key :=
                  Value(true, was.explicit, was.hasMark, was.priority, was.generation, was.mark,
                        if was.timestamp > now then was.timestamp else now)]
      ensures kernel == if ok && mirror != old(mirror) then old(kernel)[event.key := mirror[event.key]]
                        else old(kernel)
    {
      ok := true;
      if event.key !in mirror && !event.value.tombstone {
        return;
      }
      var value := event.value;
      if event.key in mirror {
        value := mirror[event.key];
      }
      value := value.(tombstone := true, timestamp := Max(value.timestamp, now));
      ok := UpsertProcess(event.key, value);
    }

    method ReceiveExec(event: Event) returns (decide: bool, value: Value, hasValue: bool, ghost ok: bool)
      requires phase.Idle? && event.kind.Exec?
      modifies this`kernel, this`mirror, this`phase
      ensures View().r == FirstExec(old(View().r), event, ok)
      ensures phase == if decide then Decide(event, value, hasValue) else Idle
      ensures mirror == Received(old(mirror), event)
      ensures decide <==> !(event.key in mirror && mirror[event.key].tombstone)
      ensures decide ==> (hasValue <==> event.key in mirror) && (hasValue ==> value == mirror[event.key])
      ensures kernel == if ok && event.key in mirror && (mirror != old(mirror) || mirror[event.key] != event.value)
                        then old(kernel)[event.key := mirror[event.key]] else old(kernel)
    {
      value, hasValue, ok := event.value, false, true;
      if event.value != ZERO_VALUE {
        ok := UpsertProcess(event.key, event.value);
        value, hasValue := mirror[event.key], true;
      }
      if event.key in mirror {
        value, hasValue := mirror[event.key], true;
        if value != event.value {
          ok := SyncKernel(event.key, value);
        }
      }
      decide := !value.tombstone;
      if decide {
        phase := Decide(event, value, hasValue);
      }
    }

    /** handleEvent on `event` up to its first map write. */
    method Receive(event: Event, now: U64) returns (decide: bool, value: Value, hasValue: bool, ghost ok: bool)
      requires phase.Idle?
      modifies this`kernel, this`mirror, this`phase
      ensures View().r == FirstEffect(old(View().r), event, now, ok)
      ensures phase == if decide then Decide(event, value, hasValue) else Idle
      ensures FirstHalf(event, old(mirror), mirror, decide, value, hasValue, now)
    {
      decide, value, hasValue := true, ZERO_VALUE, false;
      match event.kind {
        case Fork => value, hasValue, ok := ReceiveFork(event);
        case Exit =>
          decide := false;
          ok := ReceiveExit(event, now);
        case Exec => decide, value, hasValue, ok := ReceiveExec(event);
      }
    }

    /** handleEvent on the oldest event up to its first map write. */
    method HandleFirstHalf(now: U64) returns (decide: bool, value: Value, hasValue: bool, ghost ok: bool)
      requires Traced() && phase.Idle? && queue != [] && now <= clock
      modifies this`kernel, this`mirror, this`queue, this`phase, this`history
      ensures Traced() && history.actions == old(history.actions) + [HandleFirst(now, ok)]
      ensures phase == if decide then Decide(old(queue[0]), value, hasValue) else Idle
      ensures FirstHalf(old(queue[0]), old(mirror), mirror, decide, value, hasValue, now)
    {
      var event := queue[0];
      queue := queue[1..];
      decide, value, hasValue, ok := Receive(event, now);
      TakeFirst(history, now, ok, View().r);
      history := Extend(history, HandleFirst(now, ok), View());
    }

    /** What handleEvent merges last: the checker's match, else the parent's mark for a fork, else
        the loss of a live entry's mark. */
    method Conclude(event: Event, value: Value, hasValue: bool, d: Decision, now: U64) returns (ghost ok: bool)
      requires phase.Idle?
      modifies this`kernel, this`mirror
      ensures View().r == SecondEffect(old(View().r), generation, Decide(event, value, hasValue), d, now, ok)
      ensures SecondHalf(event, old(mirror), mirror, value, hasValue, d, generation, now)
      ensures kernel == if ok && mirror != old(mirror) then old(kernel)[event.key := mirror[event.key]]
                        else old(kernel)
    {
      ok := true;
      if d.Match? {
        ok := UpsertProcess(event.key, NewValue(d.priority, d.mark, true, generation, now));
      } else if event.kind.Fork? && event.parentKey in mirror && LiveMark(mirror[event.parentKey]) {
        var inherited := mirror[event.parentKey].(
          tombstone := false, hasMark := true, explicit := false, generation := generation, timestamp := now);
        ok := UpsertProcess(event.key, inherited);
      } else if hasValue {
        ok := UpsertProcess(event.key, NewNoMark(value, generation, now));
      } else if event.kind.Fork? && event.key in mirror && !mirror[event.key].tombstone {
        ok := UpsertProcess(event.key, NewNoMark(mirror[event.key], generation, now));
      }
    }

    /** The rest of handleEvent, given the checker's decision. */
    method HandleSecondHalf(event: Event, value: Value, hasValue: bool, d: Decision, now: U64)
        returns (ghost ok: bool)
      requires Traced() && phase == Decide(event, value, hasValue) && now <= clock
      modifies this`kernel, this`mirror, this`phase, this`history
      ensures Traced() && phase.Idle? && history.actions == old(history.actions) + [HandleSecond(d, now, ok)]
      ensures SecondHalf(event, old(mirror), mirror, value, hasValue, d, generation, now)
      ensures kernel == if ok && mirror != old(mirror) then old(kernel)[event.key := mirror[event.key]]
                        else old(kernel)
    {
      phase := Idle;
      ok := Conclude(event, value, hasValue, d, now);
      TakeSecond(history, d, now, ok, View().r);
      history := Extend(history, HandleSecond(d, now, ok), View());
    }

    /** handleEvent on the oldest queued event: one protocol step, or two with the checker's
        decision in the second, and otherwise only kernel program runs and clock readings.
        The checker decides about every fork and about every exec of a process that is not
        tombstoned; what it decides, or a fork's parent does, or else the loss of the mark, is
        merged into the mirror after what the event brings, and written through. */
    method HandleEvent(procfs: Option<ProcessInfo>)
      returns (ghost start: seq<Action>, ghost first: Action, ghost rest: seq<Action>, ghost second: Option<Action>)
      requires Traced() && phase.Idle? && queue != []
      modifies this`kernel, this`mirror, this`queue, this`clock, this`past, this`phase, this`history
      ensures Traced() && phase.Idle?
      ensures Environment(old(history.actions), start) && first.HandleFirst?
      ensures Environment(start + [first], rest)
      ensures history.actions == if second.Some? then rest + [second.value] else rest
      ensures second.Some? ==>
                second.value.HandleSecond? && second.value.decision == Ask(check, InfoOf(old(queue[0]), procfs))
      ensures old(clock) <= first.now && (second.Some? ==> first.now <= second.value.now)
      ensures Handled(old(queue[0]), old(mirror), mirror, generation, Ask(check, InfoOf(old(queue[0]), procfs)),
                      first.now, if second.Some? then Some(second.value.now) else None)
      // a match stays unless the process is tombstoned or has a higher priority in this generation
      ensures var e, d := old(queue[0]), Ask(check, InfoOf(old(queue[0]), procfs));
              !e.kind.Exit? && d.Match? ==>
                && e.key in mirror && (second.None? ==> mirror[e.key].tombstone)
                && (second.Some? ==>
                      var v := Value(false, true, true, d.priority, generation, d.mark, second.value.now);
                      && RankLeq(v, mirror[e.key])
                      && (|| mirror[e.key] == v || Get(old(mirror), e.key) == Some(mirror[e.key])
                          || (Brings(e) && mirror[e.key] == e.value)))
                && ((second.Some? && mirror[e.key] ==
                       Value(false, true, true, d.priority, generation, d.mark, second.value.now)) <==>
                    && !(e.key in old(mirror) && Outweighs(old(mirror)[e.key], generation, d.priority))
                    && !(Brings(e) && Outweighs(e.value, generation, d.priority)))
      ensures second.Some? && second.value.ok && mirror != Received(old(mirror), old(queue[0])) ==>
                var e := old(queue[0]); e.key in mirror && e.key in kernel && kernel[e.key] == mirror[e.key]
    {
      Facts();
      assert queue[0] in queue;
      var event := queue[0];
      var decide, value, hasValue;
      decide, value, hasValue, start, first := ReceiveEvent();
      ghost var mid := mirror;
      rest, second := FinishEvent(decide, event, value, hasValue, Ask(check, InfoOf(event, procfs)), start + [first]);
      HandledInHalves(old(queue[0]), old(mirror), mid, mirror, value, hasValue, Ask(check, InfoOf(event, procfs)),
                      generation, first.now, if second.Some? then Some(second.value.now) else None);
      if second.Some? && second.value.decision.Match? {
        MatchStays(old(mirror), event, second.value.decision, generation, second.value.now);
      }
    }

    /** What follows the first map write: a clock reading, kernel program runs, and the decision. */
    method FinishEvent(decide: bool, event: Event, value: Value, hasValue: bool, d: Decision, ghost log: seq<Action>)
      returns (ghost rest: seq<Action>, ghost second: Option<Action>)
      requires Traced() && phase == (if decide then Decide(event, value, hasValue) else Idle) && history.actions == log
      modifies this`kernel, this`mirror, this`queue, this`clock, this`past, this`phase, this`history
      ensures Traced() && phase.Idle? && Environment(log, rest)
      ensures history.actions == if second.Some? then rest + [second.value] else rest
      ensures (second.Some? <==> decide) && (second.None? ==> mirror == old(mirror))
      ensures second.Some? ==>
                && second.value.HandleSecond? && second.value.decision == d && old(clock) <= second.value.now
                && SecondHalf(event, old(mirror), mirror, value, hasValue, d, generation, second.value.now)
                && (second.value.ok && mirror != old(mirror) ==>
                      event.key in mirror && event.key in kernel && kernel[event.key] == mirror[event.key])
    {
      var later := Pause(log);
      rest := history.actions;
      second := DecideEvent(decide, event, value, hasValue, d, later);
    }

    method ReceiveEvent()
      returns (decide: bool, value: Value, hasValue: bool, ghost start: seq<Action>, ghost first: Action)
      requires Traced() && phase.Idle? && queue != []
      modifies this`kernel, this`mirror, this`queue, this`clock, this`phase, this`history
      ensures Traced() && Environment(old(history.actions), start) && first.HandleFirst?
      ensures history.actions == start + [first] && old(clock) <= first.now <= clock
      ensures phase == if decide then Decide(old(queue[0]), value, hasValue) else Idle
      ensures FirstHalf(old(queue[0]), old(mirror), mirror, decide, value, hasValue, first.now)
    {
      var now := Now();
      start := history.actions;
      EnvironmentStep(old(history.actions), old(history.actions), Tick(now));
      ghost var ok;
      decide, value, hasValue, ok := HandleFirstHalf(now);
      first := HandleFirst(now, ok);
    }

    method DecideEvent(decide: bool, event: Event, value: Value, hasValue: bool, d: Decision, now: U64)
      returns (ghost second: Option<Action>)
      requires Traced() && now <= clock && phase == if decide then Decide(event, value, hasValue) else Idle
      modifies this`kernel, this`mirror, this`phase, this`history
      ensures Traced() && phase.Idle?
      ensures history.actions == if second.Some? then old(history.actions) + [second.value] else old(history.actions)
      ensures second.Some? <==> decide
      ensures second.Some? ==>
                && second.value.HandleSecond? && second.value.decision == d && second.value.now == now
                && SecondHalf(event, old(mirror), mirror, value, hasValue, d, generation, now)
                && (second.value.ok && mirror != old(mirror) ==>
                      event.key in mirror && event.key in kernel && kernel[event.key] == mirror[event.key])
      ensures second.None? ==> mirror == old(mirror)
    {
      second := None;
      if decide {
        var ok := HandleSecondHalf(event, value, hasValue, d, now);
        second := Some(HandleSecond(d, now, ok));
      }
    }

    /** A clock reading, and then any kernel program runs. */
    method Pause(ghost log: seq<Action>) returns (now: U64)
      requires Traced() && history.actions == log
      modifies this`kernel, this`queue, this`clock, this`past, this`history
      ensures Traced() && old(clock) <= now <= clock && old(past.runs) <= past.runs
      ensures Environment(log, history.actions)
    {
      now := Now();
      EnvironmentStep(log, log, Tick(now));
      InterfereAfter(log);
    }

    /** setProcessMark: one protocol step, after a clock reading and any kernel program runs. */
    method SetProcessMark(key: Key, priority: Int8, mark: U64)
      returns (ghost now: U64, ghost ok: bool, ghost rest: seq<Action>)
      requires Traced() && phase.Idle?
      modifies this`kernel, this`mirror, this`queue, this`clock, this`past, this`history
      ensures Traced() && old(clock) <= now
      ensures Environment(old(history.actions), rest)
      ensures history.actions == rest + [Mark(key, priority, mark, true, now, ok)]
      ensures mirror == Merged(old(mirror), key, Value(false, true, true, priority, generation, mark, now))
      ensures ok && mirror != old(mirror) ==> key in kernel && kernel[key] == mirror[key]
    {
      var reading := Pause(history.actions);
      now, rest := reading, history.actions;
      ok := MarkProcess(key, priority, mark, true, reading);
    }

    /** One merge of a live mark at the current generation. */
    method MarkProcess(key: Key, priority: Int8, mark: U64, explicit: bool, now: U64) returns (ghost ok: bool)
      requires Traced() && phase.Idle? && now <= clock
      modifies this`kernel, this`mirror, this`history
      ensures Traced()
      ensures history.actions == old(history.actions) + [Mark(key, priority, mark, explicit, now, ok)]
      ensures mirror == Merged(old(mirror), key, NewValue(priority, mark, explicit, generation, now))
      ensures ok && mirror != old(mirror) ==> key in kernel && kernel[key] == mirror[key]
      ensures View().r == Upsert(old(View().r), key, NewValue(priority, mark, explicit, generation, now), ok)
    {
      ok := UpsertProcess(key, NewValue(priority, mark, explicit, generation, now));
      TakeMark(history, key, priority, mark, explicit, now, ok);
      history := Extend(history, Mark(key, priority, mark, explicit, now, ok), View());
    }

    // -------------------------------------------------------------- refresh

    /** One merge of a live no-mark value at the current generation. */
    method UnmarkProcess(key: Key, now: U64) returns (ghost ok: bool)
      requires Traced() && phase.Idle? && now <= clock && key in mirror && !mirror[key].tombstone
      modifies this`kernel, this`mirror, this`history
      ensures Traced()
      ensures mirror == Merged(old(mirror), key, NewNoMark(old(mirror)[key], generation, now))
      ensures View().r == Upsert(old(View().r), key, NewNoMark(old(mirror)[key], generation, now), ok)
    {
      ok := UpsertProcess(key, NewNoMark(mirror[key], generation, now));
      TakeNoMark(history, key, now, ok);
      history := Extend(history, NoMark(key, now, ok), View());
    }

    method RefreshEntry(key: Key) returns (repair: bool)
      requires Traced() && phase.Idle? && key in kernel
      modifies this`mirror, this`history
      ensures Traced() && mirror == old(mirror)[key := Refreshed(old(View().r), key)]
      ensures repair <==> mirror[key] != kernel[key]
    {
      var value := kernel[key];
      if key in mirror {
        value := Prefer(mirror[key], kernel[key]);
      }
      TakeRefresh(history, key);
      mirror := mirror[key := value];
      history := Extend(history, Refresh(key), View());
      repair := value != kernel[key];
    }

    method RepairEntry(key: Key) returns (ghost ok: bool)
      requires Traced() && phase.Idle? && key in mirror
      modifies this`kernel, this`history
      ensures Traced() && kernel == if ok then old(kernel)[key := mirror[key]] else old(kernel)
    {
      TakeRepair(history, key, true);
      TakeRepair(history, key, false);
      ok := SyncKernel(key, mirror[key]);
      history := Extend(history, Repair(key, ok), View());
    }

    /** One step of the iteration, which may fail. */
    method ReadNext(key: Key) returns (failed: bool, repair: bool)
      requires Traced() && phase.Idle? && key in kernel
      modifies this`kernel, this`mirror, this`queue, this`clock, this`past, this`history
      ensures Traced() && old(past.runs) <= past.runs && old(kernel.Keys) <= kernel.Keys
      ensures past.runs == old(past.runs) ==> kernel == old(kernel)
      ensures failed ==> mirror == old(mirror)
      ensures !failed ==> key in kernel && mirror == Merged(old(mirror), key, kernel[key])
      ensures !failed ==> (repair <==> mirror[key] != kernel[key])
    {
      Interfere();
      failed, repair := *, false;
      if !failed {
        repair := RefreshEntry(key);
      }
    }

    /** The reading half of a refresh; the iteration may fail at any entry. */
    method MergeKernelEntries() returns (done: bool, repairs: seq<Key>)
      requires Traced() && phase.Idle?
      modifies this`kernel, this`mirror, this`queue, this`clock, this`past, this`history
      ensures old(past.runs) <= past.runs
      ensures Traced()
      ensures Raised(old(mirror), mirror)
      ensures forall k :: k in repairs ==> k in mirror
      ensures past.runs == old(past.runs) ==> kernel == old(kernel) && OneOf(mirror, old(mirror), old(kernel))
      ensures past.runs == old(past.runs) && done ==> Covered(kernel, mirror, repairs, {})
    {
      done, repairs := false, [];
      Interfere();
      var todo := kernel.Keys;
      while todo != {}
        invariant old(past.runs) <= past.runs
        invariant Traced() && todo <= kernel.Keys
        invariant Raised(old(mirror), mirror)
        invariant forall k :: k in repairs ==> k in mirror
        invariant past.runs == old(past.runs) ==>
                    kernel == old(kernel) && OneOf(mirror, old(mirror), old(kernel))
                        && Covered(kernel, mirror, repairs, todo)
      {
        var key :| key in todo;
        ghost var was := mirror;
        var failed, repair := ReadNext(key);
        if failed {
          return;
        }
        RaisedOne(old(mirror), was, mirror, key);
        if past.runs == old(past.runs) {
          CoveredOne(kernel, old(mirror), was, mirror, repairs, todo, key);
        }
        todo := todo - {key};
        if repair {
          repairs := repairs + [key];
        }
      }
      done := true;
    }

    method RepairNext(key: Key) returns (ghost ok: bool)
      requires Traced() && phase.Idle? && key in mirror
      modifies this`kernel, this`queue, this`clock, this`past, this`history
      ensures Traced() && old(past.runs) <= past.runs
      ensures past.runs == old(past.runs) && ok ==> kernel == old(kernel)[key := mirror[key]]
    {
      Interfere();
      ok := RepairEntry(key);
    }

    /** The writing half of a refresh. */
    method WriteRepairs(repairs: seq<Key>) returns (ghost allOk: bool)
      requires Traced() && phase.Idle? && forall k :: k in repairs ==> k in mirror
      modifies this`kernel, this`queue, this`clock, this`past, this`history
      ensures old(past.runs) <= past.runs
      ensures Traced()
      ensures past.runs == old(past.runs) && allOk ==> Repaired(kernel, old(kernel), mirror, repairs)
    {
      allOk := true;
      for i := 0 to |repairs|
        invariant old(past.runs) <= past.runs
        invariant Traced()
        invariant past.runs == old(past.runs) && allOk ==> Repaired(kernel, old(kernel), mirror, repairs[..i])
      {
        ghost var was := kernel;
        ghost var ok := RepairNext(repairs[i]);
        if past.runs == old(past.runs) && allOk && ok {
          RepairedOne(was, old(kernel), mirror, repairs, i);
        }
        allOk := allOk && ok;
      }
      assert repairs[..|repairs|] == repairs;
    }

    /** refreshMirrorFromKernel: merge every kernel entry into the mirror, then write back the
        entries where the mirror won. Mirror ranks never fall. `read` is the number of kernel
        program runs up to the end of the reading half: when none happened in it, the mirror
        takes nothing but old mirror and kernel values. When none happened at all and no write
        failed, every kernel entry then equals its mirror entry. */
    method RefreshMirrorFromKernel() returns (done: bool, ghost read: nat, ghost allOk: bool)
      requires Traced() && phase.Idle?
      modifies this`kernel, this`mirror, this`queue, this`clock, this`past, this`history
      ensures Traced() && old(past.runs) <= read <= past.runs
      ensures Raised(old(mirror), mirror)
      ensures read == old(past.runs) ==> OneOf(mirror, old(mirror), old(kernel))
      ensures read == old(past.runs) && done ==> Raised(old(kernel), mirror)
      ensures past.runs == old(past.runs) && done && allOk ==>
                forall k :: k in kernel ==> k in mirror && kernel[k] == mirror[k]
    {
      var repairs;
      done, repairs := MergeKernelEntries();
      read, allOk := past.runs, true;
      if done {
        allOk := WriteRepairs(repairs);
      }
    }

    // -------------------------------------------------------------- traversal

    /** One process of a traversal: an explicit mark if the checker matches, else the parent's
        current-generation mark, else a live entry loses its mark. `current` is what the
        children are offered; `expected` is the decision the parent hands on. */
    method ReconcileProcess(info: ProcessInfo, parentValue: Option<Value>, ghost expected: Decision)
      returns (current: Option<Value>, ghost d: Decision, ghost now: U64)
      requires Traced() && phase.Idle? && Passes(parentValue, expected, generation)
      modifies this`kernel, this`mirror, this`queue, this`clock, this`past, this`history
      ensures Traced() && old(past.runs) <= past.runs && old(clock) <= now
      ensures d == Choose(Ask(check, info), expected) && Passes(current, d, generation)
      ensures mirror == Reconciled(old(mirror), info.key, d, Ask(check, info).Match?, generation, now)
      ensures var own := Ask(check, info);
              own.Match? ==>
                mirror == Merged(old(mirror), info.key,
                                 Value(false, true, true, own.priority, generation, own.mark, now))
      ensures Ask(check, info).Miss? && parentValue.Some? ==>
                var from := parentValue.value;
                !from.tombstone && from.hasMark && from.generation == generation ==>
                  mirror == Merged(old(mirror), info.key,
                                   Value(false, false, true, from.priority, generation, from.mark, now))
      ensures Ask(check, info).Miss? && (parentValue.Some? ==>
                var from := parentValue.value;
                from.tombstone || !from.hasMark || from.generation != generation) ==>
                if info.key in old(mirror) && !old(mirror)[info.key].tombstone then
                  var was := old(mirror)[info.key];
                  mirror == Merged(old(mirror), info.key,
                                   Value(false, was.explicit, false, was.priority, generation, was.mark, now))
                else mirror == old(mirror)
    {
      var decision := Ask(check, info);
      d := Choose(decision, expected);
      current := None;
      var reading := Now();
      now := reading;
      Interfere();
      if decision.Match? {
        current := Some(NewValue(decision.priority, decision.mark, true, generation, reading));
        var _ := MarkProcess(info.key, decision.priority, decision.mark, true, reading);
      } else if parentValue.Some? && LiveMark(parentValue.value) && parentValue.value.generation == generation {
        current := Some(NewValue(parentValue.value.priority, parentValue.value.mark, false, generation, reading));
        var _ := MarkProcess(info.key, parentValue.value.priority, parentValue.value.mark, false, reading);
      } else if info.key in mirror && !mirror[info.key].tombstone {
        current := Some(NewNoMark(mirror[info.key], generation, reading));
        var _ := UnmarkProcess(info.key, reading);
      }
    }

    /** The traversal of `w.procs` from `w.before`, as far as tour `t`. */
    ghost function SweptBy(w: Walk, t: Tour): Swept
      requires Timed(t)
      reads `check, `generation
    {
      SweepAll(w.procs, w.before, check, generation, t)
    }

    /** A traversal in progress. */
    ghost predicate Walking(w: Walk, visited: set<U32>, t: Tour)
      reads `kernel, `mirror, `queue, `phase, `clock, `past, `generation, `policyGeneration, `active, `commRules,
          `kernelPolicy, `ledger, `history, `check
    {
      && Traced() && phase.Idle? && Timed(t) && OnTour(w, visited, t)
      && mirror == SweptBy(w, t).mirror
    }

    method VisitProcess(info: ProcessInfo, parentValue: Option<Value>, seen0: set<U32>,
                        ghost w: Walk, ghost t0: Tour, ghost expected: Decision)
      returns (current: Option<Value>, ghost d: Decision, ghost t: Tour)
      requires Walking(w, seen0, t0) && MayGo(w, seen0, info) && info.key.tgid !in seen0
      requires Passes(parentValue, expected, generation)
      requires expected == Expected(SweptBy(w, t0), w.procs, info.ppid, generation)
      modifies this`kernel, this`mirror, this`queue, this`clock, this`past, this`history
      ensures Walking(w, seen0 + {info.key.tgid}, t) && old(past.runs) <= past.runs
      ensures Keeps(SweptBy(w, t0), SweptBy(w, t))
      ensures Passes(current, d, generation) && Get(SweptBy(w, t).decisions, info.key.tgid) == Some(d)
    {
      ghost var now, was := 0, mirror;
      current, d, now := ReconcileProcess(info, parentValue, expected);
      t := Visit(t0, info, now);
      TourGoesOn(w, seen0, t0, info, now);
      VisitKeeps(w, seen0, t0, info, d, now, check, generation, was, mirror);
    }

    /** The recursive walk: visit `info` unless visited, then its children in PID order. */
    method WalkProcess(info: ProcessInfo, parentValue: Option<Value>, byParent: ByParent, seen0: set<U32>,
                       ghost w: Walk, ghost t0: Tour, ghost expected: Decision)
      returns (visited: set<U32>, ghost t: Tour)
      requires Walking(w, seen0, t0) && Grouped(w.procs, byParent) && MayGo(w, seen0, info)
      requires Passes(parentValue, expected, generation)
      requires expected == Expected(SweptBy(w, t0), w.procs, info.ppid, generation)
      modifies this`kernel, this`mirror, this`queue, this`clock, this`past, this`history
      ensures Walking(w, visited, t) && old(past.runs) <= past.runs
      ensures Keeps(SweptBy(w, t0), SweptBy(w, t))
      ensures seen0 <= visited && info.key.tgid in visited && ClosedAbove(w.procs, seen0, visited)
      decreases Pids(w.procs) - seen0, 1
    {
      visited, t := seen0, t0;
      if info.key.tgid !in visited {
        visited, t := WalkUnvisited(info, parentValue, byParent, seen0, w, t0, expected);
      }
    }

    method WalkUnvisited(info: ProcessInfo, parentValue: Option<Value>, byParent: ByParent, seen0: set<U32>,
                         ghost w: Walk, ghost t0: Tour, ghost expected: Decision)
      returns (visited: set<U32>, ghost t: Tour)
      requires Walking(w, seen0, t0) && Grouped(w.procs, byParent) && MayGo(w, seen0, info)
      requires Passes(parentValue, expected, generation) && info.key.tgid !in seen0
      requires expected == Expected(SweptBy(w, t0), w.procs, info.ppid, generation)
      modifies this`kernel, this`mirror, this`queue, this`clock, this`past, this`history
      ensures Walking(w, visited, t) && old(past.runs) <= past.runs
      ensures Keeps(SweptBy(w, t0), SweptBy(w, t))
      ensures seen0 <= visited && info.key.tgid in visited && ClosedAbove(w.procs, seen0, visited)
      decreases Pids(w.procs) - seen0, 0
    {
      var current, d, t1 := VisitProcess(info, parentValue, seen0, w, t0, expected);
      assert info.key.tgid in Pids(w.procs);
      visited, t := WalkChildren(info.key.tgid, current, byParent, seen0 + {info.key.tgid}, w, t1, d);
      ClosedFinish(w.procs, seen0, info.key.tgid, byParent, visited);
      KeepsJoin(SweptBy(w, t0), SweptBy(w, t1), SweptBy(w, t));
    }

    method WalkChildren(pid: U32, current: Option<Value>, byParent: ByParent, seen0: set<U32>,
                        ghost w: Walk, ghost t0: Tour, ghost d: Decision)
      returns (visited: set<U32>, ghost t: Tour)
      requires Walking(w, seen0, t0) && Grouped(w.procs, byParent) && pid in seen0
      requires Passes(current, d, generation) && Get(SweptBy(w, t0).decisions, pid) == Some(d)
      modifies this`kernel, this`mirror, this`queue, this`clock, this`past, this`history
      ensures Walking(w, visited, t) && old(past.runs) <= past.runs
      ensures Keeps(SweptBy(w, t0), SweptBy(w, t))
      ensures seen0 <= visited && ClosedAbove(w.procs, seen0, visited)
      ensures FirstVisited(Children(byParent, pid), |Children(byParent, pid)|, visited)
      decreases Pids(w.procs) - seen0, 3
    {
      visited, t := seen0, t0;
      var children := Children(byParent, pid);
      assert IsChildren(w.procs, pid, children);
      for i := 0 to |children|
        invariant Walking(w, visited, t) && old(past.runs) <= past.runs
        invariant Keeps(SweptBy(w, t0), SweptBy(w, t))
        invariant seen0 <= visited && ClosedAbove(w.procs, seen0, visited)
        invariant FirstVisited(children, i, visited)
      {
        assert children[i] in children;
        ghost var before := visited;
        visited, t := WalkChild(pid, children[i], current, byParent, visited, w, seen0, t0, t, d);
        NextVisited(children, i, before, visited);
      }
    }

    method WalkChild(ghost pid: U32, child: ProcessInfo, current: Option<Value>, byParent: ByParent, seen1: set<U32>,
                     ghost w: Walk, ghost seen0: set<U32>, ghost t0: Tour, ghost t1: Tour, ghost d: Decision)
      returns (visited: set<U32>, ghost t: Tour)
      requires Walking(w, seen1, t1) && Grouped(w.procs, byParent) && pid in seen1
      requires child in w.procs && child.ppid == pid && ClosedAbove(w.procs, seen0, seen1)
      requires Timed(t0) && Keeps(SweptBy(w, t0), SweptBy(w, t1))
      requires Passes(current, d, generation) && Get(SweptBy(w, t0).decisions, pid) == Some(d)
      modifies this`kernel, this`mirror, this`queue, this`clock, this`past, this`history
      ensures Walking(w, visited, t) && old(past.runs) <= past.runs
      ensures Keeps(SweptBy(w, t0), SweptBy(w, t))
      ensures seen1 <= visited && child.key.tgid in visited && ClosedAbove(w.procs, seen0, visited)
      decreases Pids(w.procs) - seen1, 2
    {
      visited, t := WalkProcess(child, current, byParent, seen1, w, t1, d);
      ClosedJoin(w.procs, seen0, seen1, visited);
      KeepsJoin(SweptBy(w, t0), SweptBy(w, t1), SweptBy(w, t));
    }

    /** A walk from a process whose parent is not visited. */
    method WalkRoot(info: ProcessInfo, parentValue: Option<Value>, byParent: ByParent, seen0: set<U32>,
                    ghost w: Walk, ghost t0: Tour)
      returns (visited: set<U32>, ghost t: Tour)
      requires Walking(w, seen0, t0) && Grouped(w.procs, byParent) && ClosedUnderChildren(w.procs, seen0)
      requires MayGo(w, seen0, info) && info.ppid !in seen0
      requires Passes(parentValue, Offer(mirror, w.procs, info.ppid, generation), generation)
      modifies this`kernel, this`mirror, this`queue, this`clock, this`past, this`history
      ensures Walking(w, visited, t) && old(past.runs) <= past.runs
      ensures seen0 <= visited && info.key.tgid in visited && ClosedUnderChildren(w.procs, visited)
    {
      RootExpects(w, seen0, t0, check, generation, info.ppid);
      visited, t := WalkProcess(info, parentValue, byParent, seen0, w, t0,
          Offer(mirror, w.procs, info.ppid, generation));
      ClosedJoin(w.procs, {}, seen0, visited);
    }

    /** The walks from processes with PPID 0. */
    method WalkRoots(byParent: ByParent, ghost w: Walk) returns (visited: set<U32>, ghost t: Tour)
      requires Traced() && phase.Idle? && ProcessList(w.procs) && Grouped(w.procs, byParent) && mirror == w.before
      modifies this`kernel, this`mirror, this`queue, this`clock, this`past, this`history
      ensures Walking(w, visited, t) && old(past.runs) <= past.runs
      ensures ClosedUnderChildren(w.procs, visited) && RootsVisited(w.procs, visited)
    {
      visited, t := {}, Tour([], []);
      var roots := Children(byParent, 0);
      assert IsChildren(w.procs, 0, roots);
      for i := 0 to |roots|
        invariant Walking(w, visited, t) && old(past.runs) <= past.runs
        invariant ClosedUnderChildren(w.procs, visited)
        invariant FirstVisited(roots, i, visited)
      {
        ghost var before := visited;
        RootStart(w, visited, t, roots[i]);
        visited, t := WalkRoot(roots[i], None, byParent, visited, w, t);
        NextVisited(roots, i, before, visited);
      }
    }

    /** What a parent outside the walk offers: its mirror mark, if of the current generation. */
    method OfferedByMirror(ppid: U32, byPid: ByPid, ghost procs: seq<ProcessInfo>)
        returns (parentValue: Option<Value>)
      requires PidIndexed(procs, byPid)
      ensures Passes(parentValue, Offer(mirror, procs, ppid, generation), generation)
      ensures parentValue.Some? ==> exists p :: p in procs && p.key.tgid == ppid && Get(mirror, p.key) == parentValue
      ensures forall p :: p in procs && p.key.tgid == ppid && HasMark(mirror, p.key) ==>
                mirror[p.key].generation == generation ==> parentValue == Some(mirror[p.key])
      ensures parentValue.Some? ==>
                !parentValue.value.tombstone && parentValue.value.hasMark && parentValue.value.generation == generation
    {
      parentValue := None;
      if ppid in byPid {
        var parentKey := byPid[ppid].key;
        assert Find(procs, ppid) == Some(byPid[ppid]);
        if parentKey in mirror && LiveMark(mirror[parentKey]) && mirror[parentKey].generation == generation {
          parentValue := Some(mirror[parentKey]);
        }
      } else {
        assert Find(procs, ppid).None?;
      }
    }

    /** One step of the fallback loop. */
    method WalkFallback(info: ProcessInfo, byPid: ByPid, byParent: ByParent, seen0: set<U32>, ghost w: Walk,
        ghost t0: Tour)
      returns (visited: set<U32>, ghost t: Tour)
      requires Walking(w, seen0, t0) && PidIndexed(w.procs, byPid) && Grouped(w.procs, byParent)
      requires info in w.procs && info.key.tgid !in seen0 && Start(w.procs, seen0, info)
      modifies this`kernel, this`mirror, this`queue, this`clock, this`past, this`history
      ensures Walking(w, visited, t) && old(past.runs) <= past.runs
      ensures seen0 <= visited && info.key.tgid in visited && ClosedUnderChildren(w.procs, visited)
    {
      var parentValue := OfferedByMirror(info.ppid, byPid, w.procs);
      visited, t := WalkRoot(info, parentValue, byParent, seen0, w, t0);
    }

    /** The walks from processes the roots did not reach, in list order. */
    method WalkRest(procs: seq<ProcessInfo>, byPid: ByPid, byParent: ByParent, seen0: set<U32>, ghost w: Walk,
        ghost t0: Tour)
      returns (visited: set<U32>, ghost t: Tour)
      requires Walking(w, seen0, t0) && procs == w.procs && PidIndexed(procs, byPid) && Grouped(procs, byParent)
      requires ClosedUnderChildren(procs, seen0) && RootsVisited(procs, seen0)
      modifies this`kernel, this`mirror, this`queue, this`clock, this`past, this`history
      ensures Walking(w, visited, t) && old(past.runs) <= past.runs
      ensures FirstVisited(procs, |procs|, visited)
    {
      visited, t := seen0, t0;
      for i := 0 to |procs|
        invariant Walking(w, visited, t) && old(past.runs) <= past.runs
        invariant seen0 <= visited && ClosedUnderChildren(procs, visited)
        invariant FirstVisited(procs, i, visited)
      {
        ghost var before := visited;
        if procs[i].key.tgid !in visited {
          FallbackStart(procs, seen0, visited, i);
          visited, t := WalkFallback(procs[i], byPid, byParent, visited, w, t);
        }
        NextVisited(procs, i, before, visited);
      }
    }

    /** traverseProcesses: from the roots, then from whatever a cycle or an unlisted parent
        kept from them. For any list and any starting mirror, the mirror ends as the visits of
        some legal order leave it: every listed process is visited exactly once, no live mirror
        entry of a listed process keeps an old generation, and unlisted ones are untouched. If
        all started from older generations, each process shows its own match or else what its
        parent shows, if that was visited first, unless it was tombstoned. This is the nearest
        match of every process for every checker exactly when no process is cut off. */
    method TraverseProcesses(procs: seq<ProcessInfo>) returns (ghost t: Tour)
      requires Traced() && phase.Idle? && ProcessList(procs)
      modifies this`kernel, this`mirror, this`queue, this`clock, this`past, this`history
      ensures Traced() && old(past.runs) <= past.runs
      ensures Timed(t) && TraversalOrder(procs, t.order)
      ensures mirror == SweepAll(procs, old(mirror), check, generation, t).mirror
      ensures forall p :: p in procs ==> Current(mirror, p.key, generation)
      ensures forall k :: !Listed(procs, k) ==> Get(mirror, k) == Get(old(mirror), k)
      ensures AllStale(old(mirror), procs, generation) ==>
                AllSettled(procs, old(mirror), mirror, t.order, check, generation)
      ensures AllStale(old(mirror), procs, generation) && NoneCutOff(procs) ==>
                AllNearest(procs, old(mirror), mirror, check, generation)
      ensures NearestEverywhere(procs, t.order) <==> NoneCutOff(procs)
    {
      ghost var w := Walk(procs, mirror);
      Facts();
      var byPid, byParent := IndexProcesses(procs);
      var visited;
      visited, t := WalkRoots(byParent, w);
      visited, t := WalkRest(procs, byPid, byParent, visited, w, t);
      TourResult(w, visited, t, check, generation);
      NearestIff(procs, t.order);
    }

    /** traverseProcessTree: refresh, list, walk. `read` is the number of kernel program runs
        up to the end of reading the kernel map; runs after that change nothing here. */
    method TraverseProcessTree(procs: Option<seq<ProcessInfo>>) returns (done: bool, ghost read: nat)
      requires Traced() && phase.Idle? && (procs.Some? ==> ProcessList(procs.value))
      modifies this`kernel, this`mirror, this`queue, this`clock, this`past, this`history
      ensures Traced() && old(past.runs) <= read <= past.runs && (done ==> procs.Some?)
      ensures done ==> forall p :: p in procs.value ==> Current(mirror, p.key, generation)
      ensures done && read == old(past.runs) ==> OnlyKnown(mirror, old(mirror), old(kernel), procs.value)
      ensures done && read == old(past.runs) && AllListed(procs.value, old(kernel))
                && AllListed(procs.value, old(mirror)) ==>
                NoneExpired(mirror, generation)
      ensures done && read == old(past.runs) && NoneCutOff(procs.value)
              && AllBelow(old(kernel), generation) && AllBelow(old(mirror), generation) ==>
                AllResolved(procs.value, mirror, check, generation)
    {
      ghost var allOk;
      done, read, allOk := RefreshMirrorFromKernel();
      if !done || procs.None? {
        done := false;
        return;
      }
      ghost var before := mirror;
      var _ := TraverseProcesses(procs.value);
      if read == old(past.runs) {
        AfterTraversal(procs.value, old(kernel), old(mirror), before, mirror, check, generation);
      }
    }

    // -------------------------------------------------------------- cleanup

    method EntombProcess(key: Key, now: U64)
      requires Traced() && phase.Idle? && now <= clock && key in mirror && !mirror[key].tombstone
      modifies this`kernel, this`mirror, this`history
      ensures Traced()
      ensures key in mirror && EntombedSince(old(mirror)[key], mirror[key], now)
      ensures mirror == old(mirror)[key := mirror[key]]
      ensures kernel == old(kernel) || kernel == old(kernel)[key := mirror[key]]
    {
      var ok := UpsertProcess(key, Entombed(mirror[key], now));
      TakeEntomb(history, key, now, ok);
      history := Extend(history, Entomb(key, now, ok), View());
    }

    method EntombNext(key: Key, now: U64)
      requires Traced() && phase.Idle? && now <= clock && key in mirror && !mirror[key].tombstone
      modifies this`kernel, this`mirror, this`queue, this`clock, this`past, this`history
      ensures Traced() && old(past.runs) <= past.runs && now <= clock
      ensures key in mirror && EntombedSince(old(mirror)[key], mirror[key], now)
      ensures mirror == old(mirror)[key := mirror[key]]
      ensures past.runs == old(past.runs) ==> NoNewLive(old(kernel), kernel, old(mirror).Keys)
    {
      Interfere();
      EntombProcess(key, now);
    }

    /** tombstoneDeadProcesses: exactly the live entries without a process become tombstones,
        stamped no earlier than this call, with nothing else changed. */
    method TombstoneDeadProcesses(alive: Key -> bool)
      requires Traced() && phase.Idle?
      modifies this`kernel, this`mirror, this`queue, this`clock, this`past, this`history
      ensures Traced() && old(past.runs) <= past.runs
      ensures DeadEntombed(old(mirror), mirror, alive, {}, old(clock))
      ensures past.runs == old(past.runs) ==> NoNewLive(old(kernel), kernel, old(mirror).Keys)
    {
      var dead := set k | k in mirror && !mirror[k].tombstone && !alive(k);
      var now := Now();
      while dead != {}
        invariant Traced() && old(past.runs) <= past.runs && old(clock) <= now <= clock
        invariant DeadEntombed(old(mirror), mirror, alive, dead, old(clock))
        invariant past.runs == old(past.runs) ==> NoNewLive(old(kernel), kernel, old(mirror).Keys)
      {
        var key :| key in dead;
        ghost var was := mirror;
        EntombNext(key, now);
        EntombStep(old(mirror), was, alive, dead, key, mirror[key], old(clock));
        dead := dead - {key};
      }
    }

    /** The part of that which the rest of a cleanup relies on. */
    method BuryDead(alive: Key -> bool)
      requires Traced() && phase.Idle?
      modifies this`kernel, this`mirror, this`queue, this`clock, this`past, this`history
      ensures Traced() && old(past.runs) <= past.runs && mirror.Keys == old(mirror).Keys
      ensures forall k :: k in mirror && !mirror[k].tombstone ==> alive(k)
      ensures past.runs == old(past.runs) ==> NoNewLive(old(kernel), kernel, mirror.Keys)
    {
      TombstoneDeadProcesses(alive);
    }

    /** regularCleanup: no live entry keeps an expired generation when every process that is
        alive, or live in the kernel map, is listed. */
    method RegularCleanup(alive: Key -> bool, procs: Option<seq<ProcessInfo>>) returns (done: bool, ghost read: nat)
      requires Traced() && phase.Idle? && (procs.Some? ==> ProcessList(procs.value))
      modifies this`kernel, this`mirror, this`queue, this`clock, this`past, this`history
      ensures Traced() && old(past.runs) <= read <= past.runs
      ensures done && read == old(past.runs) ==>
                OnlyKnown(mirror, old(mirror), old(kernel), if procs.Some? then procs.value else [])
      ensures (done && read == old(past.runs) && procs.Some? && AllListed(procs.value, old(kernel)) &&
               forall k :: alive(k) ==> Listed(procs.value, k)) ==> NoneExpired(mirror, generation)
    {
      BuryDead(alive);
      if exists k :: k in mirror && !mirror[k].tombstone && mirror[k].generation < generation {
        done, read := TraverseProcessTree(procs);
      } else {
        Facts();
        done, read := true, past.runs;
      }
    }

    method CollectEntry(key: Key, now: U64) returns (ok: bool)
      requires Traced() && phase.Idle? && now <= clock
      requires key in mirror && mirror[key].tombstone && mirror[key].timestamp < Cutoff(now, tombTTL)
      modifies this`kernel, this`mirror, this`history
      ensures Traced() && mirror == old(mirror) - {key}
      ensures kernel == if ok then old(kernel) - {key} else old(kernel)
    {
      TakeCollect(history, key, now, tombTTL, true);
      TakeCollect(history, key, now, tombTTL, false);
      mirror := mirror - {key};
      ok := *;
      if ok {
        kernel := kernel - {key};
      }
      history := Extend(history, Collect(key, now, tombTTL, ok), View());
    }

    /** The collecting half of collectTombstones: exactly the tombstones older than the TTL leave
        the mirror, if the clock is past the TTL, and the kernel map unless a deletion fails. */
    method CollectOld() returns (allOk: bool, ghost now: U64)
      requires Traced() && phase.Idle?
      modifies this`kernel, this`mirror, this`queue, this`clock, this`past, this`history
      ensures Traced() && old(past.runs) <= past.runs && old(clock) <= now
      ensures mirror == old(mirror) - Expired(old(mirror), Cutoff(now, tombTTL))
      ensures tombTTL <= now ==>
                forall k :: k in old(mirror) ==>
                  (k !in mirror <==> old(mirror)[k].tombstone && old(mirror)[k].timestamp + tombTTL < now)
      ensures allOk && past.runs == old(past.runs) ==>
                kernel == old(kernel) - Expired(old(mirror), Cutoff(now, tombTTL))
    {
      var reading := Now();
      now, allOk := reading, true;
      var keys := Expired(mirror, Cutoff(reading, tombTTL));
      ghost var expired := keys;
      while keys != {}
        invariant Traced() && old(past.runs) <= past.runs && now <= clock && keys <= expired
        invariant mirror == old(mirror) - (expired - keys)
        invariant allOk && past.runs == old(past.runs) ==> kernel == old(kernel) - (expired - keys)
      {
        var key :| key in keys;
        var ok := CollectNext(key, reading);
        CollectStep(old(mirror), expired, keys, key);
        CollectStep(old(kernel), expired, keys, key);
        keys := keys - {key};
        allOk := allOk && ok;
      }
    }

    method CollectNext(key: Key, now: U64) returns (ok: bool)
      requires Traced() && phase.Idle? && now <= clock
      requires key in mirror && mirror[key].tombstone && mirror[key].timestamp < Cutoff(now, tombTTL)
      modifies this`kernel, this`mirror, this`queue, this`clock, this`past, this`history
      ensures Traced() && old(past.runs) <= past.runs && now <= clock && mirror == old(mirror) - {key}
      ensures past.runs == old(past.runs) && ok ==> kernel == old(kernel) - {key}
    {
      Interfere();
      ok := CollectEntry(key, now);
    }

    /** collectTombstones: if a deletion fails the call ends there, with the expired tombstones
        out of the mirror; otherwise the regular cleanup follows, and no expired tombstone is
        back unless its key is listed as a process. */
    method CollectTombstones(alive: Key -> bool, procs: Option<seq<ProcessInfo>>)
      returns (done: bool, ghost collected: bool, ghost now: U64, ghost read: nat)
      requires Traced() && phase.Idle? && (procs.Some? ==> ProcessList(procs.value))
      modifies this`kernel, this`mirror, this`queue, this`clock, this`past, this`history
      ensures Traced() && old(past.runs) <= read <= past.runs && old(clock) <= now
      ensures !collected ==> !done && mirror == old(mirror) - Expired(old(mirror), Cutoff(now, tombTTL))
      ensures done && read == old(past.runs) ==>
                forall k :: k in Expired(old(mirror), Cutoff(now, tombTTL)) && k in mirror ==>
                  procs.Some? && Listed(procs.value, k)
      ensures (done && read == old(past.runs) && procs.Some? && AllListed(procs.value, old(kernel)) &&
               forall k :: alive(k) ==> Listed(procs.value, k)) ==> NoneExpired(mirror, generation)
    {
      var allOk;
      allOk, now := CollectOld();
      done, collected, read := false, allOk, past.runs;
      if allOk {
        done, read := RegularCleanup(alive, procs);
      }
    }

    // -------------------------------------------------------------- policy transactions

    method PutCommRule(key: RuleKey, rule: RuleValue) returns (ok: bool)
      requires Traced() && phase.Idle? && key.generation == policyGeneration && generation < policyGeneration
      modifies this`kernel, this`queue, this`clock, this`past, this`history, this`commRules, this`ledger
      ensures Traced()
      ensures commRules == if ok then old(commRules)[key := rule] else old(commRules)
      ensures ledger == Account(old(ledger), |commRules|, ok)
    {
      Interfere();
      ok := InsertRule(key, rule);
    }

    method InsertRule(key: RuleKey, rule: RuleValue) returns (ok: bool)
      requires Traced() && phase.Idle? && key.generation == policyGeneration && generation < policyGeneration
      modifies this`history, this`commRules, this`ledger
      ensures Traced()
      ensures commRules == if ok then old(commRules)[key := rule] else old(commRules)
      ensures ledger == Account(old(ledger), |commRules|, ok)
    {
      ok := *;
      TakePut(history, key.comm, rule, ok);
      if ok {
        commRules := commRules[key := rule];
      }
      ledger := Account(ledger, |commRules|, ok);
      history := Extend(history, PutRule(key.comm, rule, ok), View());
    }

    /** A deletion that finds no entry counts as done. */
    method DeleteCommRule(key: RuleKey) returns (gone: bool)
      requires Traced() && phase.Idle? && key.generation != active.generation
      modifies this`kernel, this`queue, this`clock, this`past, this`history, this`commRules, this`dropFailed
      ensures old(past.runs) <= past.runs
      ensures Traced()
      ensures commRules == if gone then old(commRules) - {key} else old(commRules)
      ensures dropFailed == (old(dropFailed) || !gone)
    {
      Interfere();
      gone := *;
      TakeDrop(history, key, gone);
      if gone {
        commRules := commRules - {key};
      } else {
        dropFailed := true;
      }
      history := Extend(history, DropRule(key, gone), View());
    }

    /** Deletes what it can and returns the keys that stay. */
    method DeleteCommRuleKeys(ghost g: U64, keys: seq<RuleKey>) returns (remaining: seq<RuleKey>)
      requires Traced() && phase.Idle? && g != active.generation && AllOf(g, keys)
      modifies this`kernel, this`queue, this`clock, this`past, this`history, this`commRules, this`dropFailed
      ensures old(past.runs) <= past.runs
      ensures Traced()
      ensures Dropped(old(commRules), commRules, keys, remaining) && |remaining| <= |keys|
      ensures (old(dropFailed) ==> dropFailed) && (!dropFailed ==> remaining == [])
    {
      remaining := [];
      for i := 0 to |keys|
        invariant old(past.runs) <= past.runs
        invariant Traced()
        invariant Dropped(old(commRules), commRules, keys[..i], remaining) && |remaining| <= i
        invariant (old(dropFailed) ==> dropFailed) && (!dropFailed ==> remaining == [])
      {
        assert keys[..i + 1] == keys[..i] + [keys[i]];
        ghost var was := commRules;
        var gone := DeleteCommRule(keys[i]);
        DroppedOne(old(commRules), was, keys[..i], remaining, keys[i], gone);
        if !gone {
          remaining := remaining + [keys[i]];
        }
      }
      assert keys[..|keys|] == keys;
    }

    method CleanupGeneration(g: U64)
      requires Traced() && phase.Idle? && g in installed && g != generation && g != active.generation
      requires AllRecorded(commRules, installed, []) && GoodRecords(installed, generation, policyGeneration)
                && Capped()
      modifies this`kernel, this`queue, this`clock, this`past, this`history, this`commRules, this`dropFailed,
          this`installed
      ensures old(past.runs) <= past.runs
      ensures Traced() && Capped() && (old(dropFailed) ==> dropFailed)
      ensures AllRecorded(commRules, installed, []) && GoodRecords(installed, generation, policyGeneration)
      ensures old(installed.Keys) - {g} <= installed.Keys <= old(installed.Keys)
      ensures !dropFailed ==> g !in installed
    {
      ghost var was := commRules;
      var remaining := DeleteCommRuleKeys(g, installed[g]);
      Rerecord(was, commRules, installed, generation, policyGeneration, g, remaining);
      installed := if remaining == [] then installed - {g} else installed[g := remaining];
    }

    /** cleanupInactiveCommRules for the current generation: rules of other generations are
        deleted, or stay recorded. */
    method CleanupInactiveCommRules()
      requires Traced() && phase.Idle?
      requires AllRecorded(commRules, installed, []) && GoodRecords(installed, generation, policyGeneration)
                && Capped()
      modifies this`kernel, this`queue, this`clock, this`past, this`history, this`commRules, this`dropFailed,
          this`installed
      ensures old(past.runs) <= past.runs
      ensures Traced() && Booked()
      ensures old(dropFailed) ==> dropFailed
    {
      ActiveFact();
      var todo := installed.Keys - {generation};
      while todo != {}
        invariant old(past.runs) <= past.runs
        invariant Traced() && Capped() && (old(dropFailed) ==> dropFailed)
        invariant AllRecorded(commRules, installed, []) && GoodRecords(installed, generation, policyGeneration)
        invariant todo <= installed.Keys - {generation}
        invariant !dropFailed ==> installed.Keys <= todo + {generation}
      {
        var g :| g in todo;
        todo := todo - {g};
        CleanupGeneration(g);
      }
    }

    /** A policy transaction: `keys` are the rules written so far under the reserved
        generation; every other rule in the table is recorded. */
    ghost predicate Transaction(keys: seq<RuleKey>)
      reads `commRules, `installed, `generation, `policyGeneration, `active, `ledger, `dropFailed
    {
      && AllRecorded(commRules, installed, keys) && AllOf(policyGeneration, keys) && |keys| <= MAX_KERNEL_COMM_RULES
      && policyGeneration !in installed && 1 <= generation < policyGeneration && policyGeneration != active.generation
      && GoodRecords(installed, generation, policyGeneration)
      && Capped() && (!dropFailed ==> installed.Keys <= {generation})
    }

    /** Reserves the next generation before the first map write; fails at the last one. */
    method ReserveGeneration() returns (ok: bool)
      requires Traced() && phase.Idle? && Booked()
      modifies this`policyGeneration, this`history
      ensures Traced() && (if ok then Transaction([]) else Booked())
      ensures ok <==> old(policyGeneration) < MAX_U64
      ensures policyGeneration == if ok then old(policyGeneration) + 1 else old(policyGeneration)
      ensures ok ==> Slice(commRules, policyGeneration) == map[]
    {
      ReserveFact();
      var cursor := policyGeneration;
      if cursor < generation {
        cursor := generation;
      }
      ok := cursor != MAX_U64;
      if ok {
        TakeReserve(history);
        policyGeneration := cursor + 1;
        history := Extend(history, Reserve, View());
      }
    }

    /** One insertion of a transaction. */
    method PutPending(key: RuleKey, rule: RuleValue, ghost keys: seq<RuleKey>) returns (ok: bool)
      requires Traced() && phase.Idle? && Transaction(keys) && |keys| < MAX_KERNEL_COMM_RULES
      requires key.generation == policyGeneration
      modifies this`kernel, this`queue, this`clock, this`past, this`history, this`commRules, this`ledger
      ensures Traced() && Transaction(if ok then keys + [key] else keys)
      ensures commRules == if ok then old(commRules)[key := rule] else old(commRules)
      ensures ledger.failures == if ok then old(ledger.failures) else old(ledger.failures) + 1
    {
      RecordOneMore(commRules, installed, keys, key, rule);
      ok := PutCommRule(key, rule);
      if !dropFailed {
        RecordedSize(commRules, installed, keys + [key], generation);
      }
    }

    method PopulateRule(rules: seq<ExactCommRule>, i: nat, ghost keys: seq<RuleKey>) returns (ok: bool, key: RuleKey)
      requires Traced() && phase.Idle? && Transaction(keys)
      requires AllValid(rules) && i < |rules| <= MAX_KERNEL_COMM_RULES && |keys| == i
      requires Slice(commRules, policyGeneration) == TableOf(policyGeneration, rules[..i])
      modifies this`kernel, this`queue, this`clock, this`past, this`history, this`commRules, this`ledger
      ensures Traced() && Transaction(if ok then keys + [key] else keys)
      ensures ok ==> Slice(commRules, policyGeneration) == TableOf(policyGeneration, rules[..i + 1])
      ensures ledger.failures == if ok then old(ledger.failures) else old(ledger.failures) + 1
    {
      var made := MakeCommRuleKey(policyGeneration, rules[i].comm);
      key := made.value;
      PopulateStep(commRules, policyGeneration, rules, i);
      ok := PutPending(key, RuleValue(rules[i].priority, rules[i].mark), keys);
    }

    /** Writes the rules under the reserved generation, stopping at the first failed write. */
    method PopulateRules(rules: seq<ExactCommRule>) returns (ok: bool, keys: seq<RuleKey>)
      requires Traced() && phase.Idle? && Transaction([])
      requires AllValid(rules) && |rules| <= MAX_KERNEL_COMM_RULES && Slice(commRules, policyGeneration) == map[]
      modifies this`kernel, this`queue, this`clock, this`past, this`history, this`commRules, this`ledger
      ensures Traced() && Transaction(keys)
      ensures ok ==> Slice(commRules, policyGeneration) == TableOf(policyGeneration, rules)
      ensures ledger.failures == if ok then old(ledger.failures) else old(ledger.failures) + 1
    {
      ok, keys := true, [];
      for i := 0 to |rules|
        invariant Traced() && Transaction(keys) && |keys| == i && ledger.failures == old(ledger.failures)
        invariant Slice(commRules, policyGeneration) == TableOf(policyGeneration, rules[..i])
      {
        var put, key := PopulateRule(rules, i, keys);
        if !put {
          return false, keys;
        }
        keys := keys + [key];
      }
      assert rules[..|rules|] == rules;
    }

    /** Deletes the rules of a failed transaction and records those that stay. */
    method RollBack(keys: seq<RuleKey>)
      requires Traced() && phase.Idle? && Transaction(keys)
      modifies this`kernel, this`queue, this`clock, this`past, this`history, this`commRules, this`dropFailed,
          this`installed
      ensures Traced() && Booked()
    {
      ghost var was := commRules;
      var remaining := DeleteCommRuleKeys(policyGeneration, keys);
      RolledBack(was, commRules, installed, keys, remaining, generation, policyGeneration);
      installed := if remaining == [] then installed else installed[policyGeneration := remaining];
    }

    /** Flips the active cell to the reserved generation, or leaves everything as it was. */
    method FlipPolicy(policy: KernelPolicy, newCheck: CheckFunc) returns (ok: bool)
      requires Traced() && phase.Idle? && generation < policyGeneration && Normal(policy)
      requires Slice(commRules, policyGeneration) == TableOf(policyGeneration, policy.commRules)
      modifies this`history, this`active, this`generation, this`kernelPolicy, this`check
      ensures Traced()
      ensures ok ==> Activated(policy, newCheck)
      ensures !ok ==> generation == old(generation) && active == old(active)
      ensures !ok ==> check == old(check) && kernelPolicy == old(kernelPolicy)
    {
      AllBelowReserved();
      TakeActivate(history, policy);
      var oldCheck, oldGeneration, oldPolicy := check, generation, kernelPolicy;
      check, generation, kernelPolicy := newCheck, policyGeneration, policy;
      ok := *;
      if ok {
        active := Cell(policyGeneration, policy.mode);
        history := Extend(history, Activate(policy), View());
      } else {
        check, generation, kernelPolicy := oldCheck, oldGeneration, oldPolicy;
      }
    }

    method ActivatePolicy(policy: KernelPolicy, newCheck: CheckFunc) returns (ok: bool)
      requires Traced() && phase.Idle? && generation < policyGeneration && Normal(policy)
      requires Slice(commRules, policyGeneration) == TableOf(policyGeneration, policy.commRules)
      modifies this`kernel, this`queue, this`clock, this`past, this`history, this`active, this`generation,
          this`kernelPolicy, this`check, this`ledger
      ensures Traced()
      ensures ok ==> Activated(policy, newCheck)
      ensures ledger.peak == old(ledger.peak) && (ok ==> ledger.runsAtActivation == past.runs)
      ensures ledger.failures == if ok then old(ledger.failures) else old(ledger.failures) + 1
      ensures !ok ==> generation == old(generation) && active == old(active)
      ensures !ok ==> check == old(check) && kernelPolicy == old(kernelPolicy)
    {
      Interfere();
      ok := FlipPolicy(policy, newCheck);
      ledger := if ok then ledger.(runsAtActivation := past.runs) else ledger.(failures := ledger.failures + 1);
    }

    /** The activation of a transaction; if it fails the transaction is as it was. */
    method TryActivate(policy: KernelPolicy, newCheck: CheckFunc, ghost keys: seq<RuleKey>) returns (ok: bool)
      requires Traced() && phase.Idle? && Transaction(keys) && Normal(policy)
      requires Slice(commRules, policyGeneration) == TableOf(policyGeneration, policy.commRules)
      modifies this`kernel, this`queue, this`clock, this`past, this`history, this`active, this`generation,
          this`kernelPolicy, this`check, this`ledger
      ensures Traced()
      ensures ok ==> Activated(policy, newCheck) && Capped() && ledger.runsAtActivation == past.runs
      ensures ok ==> GoodRecords(installed, old(generation), generation) && AllOf(generation, keys) && 1 <= generation
      ensures !ok ==> Transaction(keys) && old(ledger.failures) < ledger.failures
      ensures !ok ==> generation == old(generation) && active == old(active)
      ensures !ok ==> check == old(check) && kernelPolicy == old(kernelPolicy)
    {
      ok := ActivatePolicy(policy, newCheck);
    }

    /** The state right after activating a policy: no value carries the new generation yet. */
    ghost predicate Activated(policy: KernelPolicy, newCheck: CheckFunc)
      reads `generation, `policyGeneration, `active, `kernelPolicy, `check, `kernel, `mirror
    {
      && generation == policyGeneration && active == Cell(generation, policy.mode)
      && check == newCheck && kernelPolicy == policy
      && AllBelow(kernel, generation) && AllBelow(mirror, generation)
    }

    /** Records the rules of the generation just activated. */
    method RecordInstalled(keys: seq<RuleKey>, ghost before: U64)
      requires AllRecorded(commRules, installed, keys) && AllOf(generation, keys) && |keys| <= MAX_KERNEL_COMM_RULES
      requires generation == policyGeneration && generation !in installed && 1 <= generation
      requires GoodRecords(installed, before, generation)
      modifies this`installed
      ensures AllRecorded(commRules, installed, []) && GoodRecords(installed, generation, policyGeneration)
    {
      Installed(commRules, installed, keys, before, generation);
      installed := installed[generation := keys];
    }

    /** The end of a transaction whose rules are all written: activate, or roll back. */
    method FinishSwitch(policy: KernelPolicy, newCheck: CheckFunc, keys: seq<RuleKey>) returns (ok: bool)
      requires Traced() && phase.Idle? && Transaction(keys) && Normal(policy)
      requires Slice(commRules, policyGeneration) == TableOf(policyGeneration, policy.commRules)
      modifies this`kernel, this`queue, this`clock, this`past, this`history, this`commRules, this`dropFailed,
          this`installed, this`ledger
      modifies this`active, this`generation, this`kernelPolicy, this`check
      ensures Traced()
      ensures ok ==> Activated(policy, newCheck) && Capped() && ledger.runsAtActivation == past.runs
      ensures !ok ==> old(ledger.failures) < ledger.failures
      ensures ok ==> AllRecorded(commRules, installed, []) && GoodRecords(installed, generation, policyGeneration)
      ensures !ok ==> Booked() && generation == old(generation) && active == old(active)
      ensures !ok ==> check == old(check) && kernelPolicy == old(kernelPolicy)
    {
      ok := TryActivate(policy, newCheck, keys);
      if ok {
        RecordInstalled(keys, old(generation));
      } else {
        RollBack(keys);
      }
    }

    /** Populates the reserved generation, or rolls back. */
    method StageRules(rules: seq<ExactCommRule>) returns (ok: bool, keys: seq<RuleKey>)
      requires Traced() && phase.Idle? && Transaction([])
      requires AllValid(rules) && |rules| <= MAX_KERNEL_COMM_RULES && Slice(commRules, policyGeneration) == map[]
      modifies this`kernel, this`queue, this`clock, this`past, this`history, this`commRules, this`ledger,
          this`dropFailed, this`installed
      ensures Traced() && (if ok then Transaction(keys) else Booked())
      ensures ok ==> Slice(commRules, policyGeneration) == TableOf(policyGeneration, rules)
      ensures ledger.failures == if ok then old(ledger.failures) else old(ledger.failures) + 1
    {
      ok, keys := PopulateRules(rules);
      if !ok {
        RollBack(keys);
      }
    }

    /** A transaction on its reserved generation: populate and activate, or roll back. */
    method RunTransaction(policy: KernelPolicy, newCheck: CheckFunc) returns (ok: bool)
      requires Traced() && phase.Idle? && Transaction([]) && Normal(policy)
      requires Slice(commRules, policyGeneration) == map[]
      modifies this`kernel, this`queue, this`clock, this`past, this`history, this`commRules, this`dropFailed,
          this`ledger, this`installed
      modifies this`active, this`generation, this`kernelPolicy, this`check
      ensures Traced()
      ensures ok ==> Activated(policy, newCheck) && Capped() && ledger.runsAtActivation == past.runs
      ensures ok ==> AllRecorded(commRules, installed, []) && GoodRecords(installed, generation, policyGeneration)
      ensures !ok ==> Booked() && old(ledger.failures) < ledger.failures
      ensures !ok ==> generation == old(generation) && active == old(active)
      ensures !ok ==> check == old(check) && kernelPolicy == old(kernelPolicy)
    {
      var keys;
      ok, keys := StageRules(policy.commRules);
      if ok {
        ok := FinishSwitch(policy, newCheck, keys);
      }
    }

    /** A cleanup, and then the next generation. */
    method StartTransaction() returns (ok: bool)
      requires Traced() && phase.Idle? && Booked()
      modifies this`kernel, this`queue, this`clock, this`past, this`history, this`commRules, this`dropFailed,
          this`installed
      modifies this`policyGeneration
      ensures Traced() && (if ok then Transaction([]) else Booked())
      ensures ok <==> old(policyGeneration) < MAX_U64
      ensures policyGeneration == if ok then old(policyGeneration) + 1 else old(policyGeneration)
      ensures ok ==> Slice(commRules, policyGeneration) == map[]
    {
      CleanupInactiveCommRules();
      ok := ReserveGeneration();
    }

    /** The map transaction of a switch, after a cleanup. */
    method SwitchPolicy(policy: KernelPolicy, newCheck: CheckFunc) returns (ok: bool)
      requires Traced() && phase.Idle? && Booked() && Normal(policy)
      modifies this`kernel, this`queue, this`clock, this`past, this`history, this`commRules, this`dropFailed,
          this`ledger, this`installed
      modifies this`policyGeneration, this`active, this`generation, this`kernelPolicy, this`check
      ensures Traced()
      ensures ok ==> Activated(policy, newCheck) && Capped() && old(policyGeneration) < generation
      ensures ok ==> ledger.runsAtActivation == past.runs
      ensures !ok ==> old(policyGeneration) == MAX_U64 || old(ledger.failures) < ledger.failures
      ensures ok ==> AllRecorded(commRules, installed, []) && GoodRecords(installed, generation, policyGeneration)
      ensures !ok ==> Booked() && generation == old(generation) && active == old(active)
      ensures !ok ==> check == old(check) && kernelPolicy == old(kernelPolicy)
      ensures old(policyGeneration) == MAX_U64 ==> !ok && policyGeneration == old(policyGeneration)
    {
      ok := StartTransaction();
      if ok {
        ok := RunTransaction(policy, newCheck);
      }
    }

    /** After activation: re-mark the listed processes and drop the old generation's rules. */
    method SettleSwitch(ghost policy: KernelPolicy, ghost newCheck: CheckFunc, procs: Option<seq<ProcessInfo>>)
      returns (done: bool, ghost read: nat)
      requires Traced() && phase.Idle? && Activated(policy, newCheck) && Capped()
      requires AllRecorded(commRules, installed, []) && GoodRecords(installed, generation, policyGeneration)
      requires procs.Some? ==> ProcessList(procs.value)
      modifies this`kernel, this`queue, this`clock, this`past, this`history, this`mirror, this`commRules,
          this`dropFailed, this`installed
      ensures Traced() && Booked() && old(past.runs) <= read <= past.runs && (done ==> procs.Some?)
      ensures done && read == old(past.runs) && NoneCutOff(procs.value) ==>
                AllResolved(procs.value, mirror, newCheck, generation)
    {
      done, read := TraverseProcessTree(procs);
      CleanupInactiveCommRules();
    }

    /** What every switch promises. `read` is the number of kernel program runs up to the end
        of reading the kernel map in the traversal after it. */
    twostate predicate Switched(policy: KernelPolicy, newCheck: CheckFunc, listable: bool,
                                procs: Option<seq<ProcessInfo>>, new result: Option<U64>, traversed: bool, read: nat)
      reads this
    {
      // a failed switch has a reason and changes no decision
      && (result.None? ==>
            && (!listable || old(policyGeneration) == MAX_U64 || old(ledger.failures) < ledger.failures)
            && check == old(check) && generation == old(generation) && kernelPolicy == old(kernelPolicy)
            && active == old(active) && mirror == old(mirror))
      // a successful one installs a generation never reserved before
      && (result.Some? ==>
            && old(policyGeneration) < result.value == generation == policyGeneration
            && check == newCheck && kernelPolicy == policy && active == Cell(generation, policy.mode))
      // and, if the traversal succeeds and no kernel program runs between the activation and
      // the end of reading the kernel map, re-marks every listed process
      && (traversed ==> result.Some? && procs.Some? && ledger.runsAtActivation <= read <= past.runs)
      && (traversed && read == ledger.runsAtActivation && NoneCutOff(procs.value) ==>
            AllResolved(procs.value, mirror, newCheck, generation))
    }

    /** setKernelPolicyLocked. `listable` says whether procfs could be listed beforehand, and
        `procs` is what the traversal after the switch reads; a traversal error is only logged. */
    method SetKernelPolicyLocked(policy: KernelPolicy, newCheck: CheckFunc, listable: bool,
        procs: Option<seq<ProcessInfo>>)
      returns (result: Option<U64>, traversed: bool, ghost read: nat)
      requires Traced() && phase.Idle? && Booked() && Normal(policy)
      requires procs.Some? ==> ProcessList(procs.value)
      modifies this
      ensures Traced() && phase.Idle? && Booked() && tombTTL == old(tombTTL)
      ensures Switched(policy, newCheck, listable, procs, result, traversed, read)
      ensures old(policyGeneration) == MAX_U64 ==> result.None? && policyGeneration == old(policyGeneration)
    {
      result, traversed, read := None, false, 0;
      if listable {
        result, traversed, read := SwitchAndSettle(policy, newCheck, procs);
      }
    }

    method SwitchAndSettle(policy: KernelPolicy, newCheck: CheckFunc, procs: Option<seq<ProcessInfo>>)
      returns (result: Option<U64>, traversed: bool, ghost read: nat)
      requires Traced() && phase.Idle? && Booked() && Normal(policy)
      requires procs.Some? ==> ProcessList(procs.value)
      modifies this
      ensures Traced() && phase.Idle? && Booked() && tombTTL == old(tombTTL)
      ensures Switched(policy, newCheck, true, procs, result, traversed, read)
      ensures old(policyGeneration) == MAX_U64 ==> result.None? && policyGeneration == old(policyGeneration)
    {
      result, traversed, read := None, false, 0;
      var ok := SwitchPolicy(policy, newCheck);
      if ok {
        traversed, read := SettleSwitch(policy, newCheck, procs);
        result := Some(generation);
      }
    }

    /** setKernelPolicy: validates and normalizes first; without a checker the rules decide. */
    method SetKernelPolicy(policy: KernelPolicy, newCheck: Option<CheckFunc>, listable: bool,
        procs: Option<seq<ProcessInfo>>)
      returns (result: Option<U64>, traversed: bool, ghost read: nat, ghost normal: KernelPolicy,
          ghost checker: CheckFunc)
      requires Traced() && phase.Idle? && Booked()
      requires procs.Some? ==> ProcessList(procs.value)
      modifies this
      ensures Traced() && phase.Idle? && Booked()
      ensures !Acceptable(policy) ==> result.None? && !traversed && unchanged(this)
      ensures Acceptable(policy) ==>
                && Normal(normal) && normal.mode == policy.mode && SameDecisions(normal.commRules, policy.commRules)
                && Switched(normal, checker, listable, procs, result, traversed, read)
      ensures newCheck.Some? ==> checker == newCheck.value
      ensures newCheck.None? ==> forall info :: Ask(checker, info) == Scan(policy.commRules, info.comm)
    {
      result, traversed, read := None, false, 0;
      normal := policy;
      checker := if newCheck.Some? then newCheck.value else ExactCheck(policy.commRules);
      var normalized := ValidateAndNormalizeKernelPolicy(policy);
      if normalized.Some? {
        normal := normalized.value;
        var chosen := if newCheck.Some? then newCheck.value else ExactCheck(normalized.value.commRules);
        checker := chosen;
        result, traversed, read := SetKernelPolicyLocked(normalized.value, chosen, listable, procs);
      }
    }

    /** setChecker: the userspace-only policy with a new checker. */
    method SetChecker(newCheck: CheckFunc, listable: bool, procs: Option<seq<ProcessInfo>>)
      returns (result: Option<U64>, traversed: bool, ghost read: nat)
      requires Traced() && phase.Idle? && Booked()
      requires procs.Some? ==> ProcessList(procs.value)
      modifies this
      ensures Traced() && phase.Idle? && Booked()
      ensures Switched(KernelPolicy(USERSPACE_ONLY, []), newCheck, listable, procs, result, traversed, read)
    {
      ghost var normal, checker;
      result, traversed, read, normal, checker := SetKernelPolicy(KernelPolicy(USERSPACE_ONLY, []), Some(newCheck),
          listable, procs);
    }

    /** bumpGeneration: the same policy and checker under a new generation. */
    method BumpGeneration(listable: bool, procs: Option<seq<ProcessInfo>>)
      returns (result: Option<U64>, traversed: bool, ghost read: nat)
      requires Traced() && phase.Idle? && Booked()
      requires procs.Some? ==> ProcessList(procs.value)
      modifies this
      ensures Traced() && phase.Idle? && Booked()
      ensures Switched(old(kernelPolicy), old(check), listable, procs, result, traversed, read)
    {
      NormalPolicy();
      result, traversed, read := SetKernelPolicyLocked(kernelPolicy, check, listable, procs);
    }
  }

  /** exactCommCheck as a checker. */
  function ExactCheck(rules: seq<ExactCommRule>): CheckFunc {
    (info: ProcessInfo) => Scan(rules, info.comm)
  }

  /** With records only under the current generation, the table is small. */
  lemma RecordedSize(table: RuleTable, installed: map<U64, seq<RuleKey>>, pending: seq<RuleKey>, generation: U64)
    requires AllRecorded(table, installed, pending) && installed.Keys <= {generation}
    requires generation in installed ==> |installed[generation]| <= MAX_KERNEL_COMM_RULES
    ensures |table| <= MAX_KERNEL_COMM_RULES + |pending|
  {
    var current := if generation in installed then installed[generation] else [];
    MembersSize(current + pending);
    SubsetSize(table.Keys, Members(current + pending));
  }

  ghost function Members(s: seq<RuleKey>): set<RuleKey> {
    set k | k in s
  }

  lemma {:induction false} MembersSize(s: seq<RuleKey>)
    ensures |Members(s)| <= |s|
  {
    if s != [] {
      var n := |s| - 1;
      MembersSize(s[..n]);
      assert s == s[..n] + [s[n]];
      assert Members(s) == Members(s[..n]) + {s[n]};
    }
  }

  lemma Installed(table: RuleTable, installed: map<U64, seq<RuleKey>>, keys: seq<RuleKey>, before: U64,
      generation: U64)
    requires AllRecorded(table, installed, keys) && AllOf(generation, keys) && |keys| <= MAX_KERNEL_COMM_RULES
    requires generation !in installed && 1 <= generation && GoodRecords(installed, before, generation)
    ensures AllRecorded(table, installed[generation := keys], [])
    ensures GoodRecords(installed[generation := keys], generation, generation)
  {
  }

  lemma PopulateStep(table: RuleTable, g: U64, rules: seq<ExactCommRule>, i: nat)
    requires AllValid(rules) && i < |rules| && Slice(table, g) == TableOf(g, rules[..i])
    ensures Slice(table[RuleKey(g, Pad(rules[i].comm)) := RuleValue(rules[i].priority, rules[i].mark)], g)
            == TableOf(g, rules[..i + 1])
  {
    assert rules[..i + 1][..i] == rules[..i];
  }

  lemma RecordOneMore(table: RuleTable, installed: map<U64, seq<RuleKey>>, keys: seq<RuleKey>, key: RuleKey,
      rule: RuleValue)
    requires AllRecorded(table, installed, keys) && AllOf(key.generation, keys)
    ensures AllRecorded(table[key := rule], installed, keys + [key]) && AllOf(key.generation, keys + [key])
    ensures AllRecorded(table, installed, keys + [key])
  {
  }

  lemma RolledBack(before: RuleTable, after: RuleTable, installed: map<U64, seq<RuleKey>>, keys: seq<RuleKey>,
                   remaining: seq<RuleKey>, generation: U64, reserved: U64)
    requires AllRecorded(before, installed, keys) && GoodRecords(installed, generation, reserved)
    requires Dropped(before, after, keys, remaining) && AllOf(reserved, keys)
    requires reserved !in installed && reserved != generation && 1 <= reserved
    ensures var next := if remaining == [] then installed else installed[reserved := remaining];
            AllRecorded(after, next, []) && GoodRecords(next, generation, reserved)
  {
  }

  /** Every rule in the table is recorded under its generation, or pending in a transaction. */
  ghost predicate AllRecorded(table: RuleTable, installed: map<U64, seq<RuleKey>>, pending: seq<RuleKey>) {
    forall k :: k in table ==> (k.generation in installed && k in installed[k.generation]) || k in pending
  }

  ghost predicate AllOf(g: U64, keys: seq<RuleKey>) {
    forall k :: k in keys ==> k.generation == g
  }

  ghost predicate GoodRecords(installed: map<U64, seq<RuleKey>>, generation: U64, reserved: U64) {
    && (forall g :: g in installed ==> 1 <= g <= reserved && AllOf(g, installed[g]))
    && (generation in installed ==> |installed[generation]| <= MAX_KERNEL_COMM_RULES)
  }

  /** Deleting the rules recorded under one generation and recording what stays. */
  lemma Rerecord(before: RuleTable, after: RuleTable, installed: map<U64, seq<RuleKey>>, generation: U64,
      reserved: U64,
                 g: U64, remaining: seq<RuleKey>)
    requires AllRecorded(before, installed, []) && GoodRecords(installed, generation, reserved)
    requires g in installed && g != generation && Dropped(before, after, installed[g], remaining)
    ensures var next := if remaining == [] then installed - {g} else installed[g := remaining];
            AllRecorded(after, next, []) && GoodRecords(next, generation, reserved)
  {
  }

  /** The table after deleting `keys`, of which `remaining` could not be deleted. */
  ghost predicate Dropped(before: RuleTable, after: RuleTable, keys: seq<RuleKey>, remaining: seq<RuleKey>) {
    && (forall k :: k in remaining ==> k in keys)
    && (forall k :: k in after ==> k in before && after[k] == before[k] && (k in keys ==> k in remaining))
    && (forall k :: k in before && k !in keys ==> k in after)
  }

  lemma DroppedOne(before: RuleTable, was: RuleTable, keys: seq<RuleKey>, remaining: seq<RuleKey>, key: RuleKey,
      gone: bool)
    requires Dropped(before, was, keys, remaining)
    ensures var after, left := if gone then was - {key} else was, if gone then remaining else remaining + [key];
            Dropped(before, after, keys + [key], left)
  {
  }

  /** Every live entry belongs to a listed process. */
  ghost predicate AllListed(procs: seq<ProcessInfo>, m: ProcessMap) {
    forall k :: k in m && !m[k].tombstone ==> Listed(procs, k)
  }

  /** `w` is the tombstone of `v`, stamped no earlier than `since` and no earlier than `v`. */
  predicate EntombedSince(v: Value, w: Value, since: U64) {
    && w == Value(true, v.explicit, v.hasMark, v.priority, v.generation, v.mark, w.timestamp)
    && since <= w.timestamp && v.timestamp <= w.timestamp
  }

  /** `after` differs from `before` only in that the live entries without a process, except
      those still in `todo`, are tombstones stamped no earlier than `since`. */
  ghost predicate DeadEntombed(before: ProcessMap, after: ProcessMap, alive: Key -> bool, todo: set<Key>,
      since: U64)
  {
    && after.Keys == before.Keys
    && (forall k :: k in todo ==> k in before && !before[k].tombstone && !alive(k))
    && forall k :: k in before ==>
         if before[k].tombstone || alive(k) || k in todo then after[k] == before[k]
         else EntombedSince(before[k], after[k], since)
  }

  lemma CollectStep(m: ProcessMap, expired: set<Key>, keys: set<Key>, key: Key)
    requires key in keys && keys <= expired
    ensures m - (expired - keys) - {key} == m - (expired - (keys - {key}))
  {
  }

  lemma EntombStep(before: ProcessMap, was: ProcessMap, alive: Key -> bool, todo: set<Key>, key: Key, v: Value,
      since: U64)
    requires DeadEntombed(before, was, alive, todo, since) && key in todo && EntombedSince(before[key], v, since)
    ensures DeadEntombed(before, was[key := v], alive, todo - {key}, since)
  {
  }

  /** The tombstones from before the cutoff. */
  function Expired(m: ProcessMap, cutoff: U64): set<Key> {
    set k | k in m && m[k].tombstone && m[k].timestamp < cutoff
  }

  ghost predicate NoneExpired(m: ProcessMap, g: U64) {
    forall k :: k in m ==> Current(m, k, g)
  }

  /** No entry became live, and only `known` keys were added. */
  ghost predicate NoNewLive(before: ProcessMap, after: ProcessMap, known: set<Key>) {
    && (forall k :: k in after && !after[k].tombstone ==> k in before && !before[k].tombstone)
    && after.Keys <= before.Keys + known
  }

  /** Every entry has a key that was in one of the maps, or belongs to a listed process. */
  ghost predicate OnlyKnown(after: ProcessMap, mirror: ProcessMap, kernel: ProcessMap, procs: seq<ProcessInfo>) {
    forall k :: k in after ==> k in mirror || k in kernel || Listed(procs, k)
  }

  ghost predicate AllBelow(m: ProcessMap, g: U64) {
    forall k :: k in m ==> m[k].generation < g
  }

  /** A tombstone, or an entry that shows decision `d` at generation `g`. */
  predicate Resolved(m: ProcessMap, k: Key, d: Decision, g: U64) {
    (k in m && m[k].tombstone) || Shows(m, k, d, g)
  }

  /** Every listed process shows its nearest match, unless it is tombstoned. */
  ghost predicate AllResolved(procs: seq<ProcessInfo>, m: ProcessMap, check: CheckFunc, g: U64) {
    forall p :: p in procs ==> Resolved(m, p.key, Nearest(procs, check, p), g)
  }

  /** What a refresh followed by a walk leaves, if the refresh read a quiet kernel map. */
  lemma AfterTraversal(procs: seq<ProcessInfo>, kernel: ProcessMap, mirror: ProcessMap,
                       refreshed: ProcessMap, walked: ProcessMap, check: CheckFunc, g: U64)
    requires OneOf(refreshed, mirror, kernel)
    requires forall p :: p in procs ==> Current(walked, p.key, g)
    requires forall k :: !Listed(procs, k) ==> Get(walked, k) == Get(refreshed, k)
    ensures OnlyKnown(walked, mirror, kernel, procs)
    ensures AllBelow(kernel, g) && AllBelow(mirror, g) ==> AllStale(refreshed, procs, g)
    ensures AllNearest(procs, refreshed, walked, check, g) ==> AllResolved(procs, walked, check, g)
    ensures AllListed(procs, kernel) && AllListed(procs, mirror) ==> NoneExpired(walked, g)
  {
    forall k | k in walked && !Listed(procs, k) ensures k in refreshed && walked[k] == refreshed[k] {
      assert Get(walked, k) == Get(refreshed, k);
    }
  }

  /** Every entry of `a` is in `b` with at least its rank. */
  ghost predicate Raised(a: ProcessMap, b: ProcessMap) {
    forall k :: k in a ==> k in b && RankLeq(a[k], b[k])
  }

  /** Kernel entries already read are in the mirror, outranked or listed for repair. */
  ghost predicate Covered(kernel: ProcessMap, mirror: ProcessMap, repairs: seq<Key>, todo: set<Key>) {
    forall k :: k in kernel && k !in todo ==>
      k in mirror && RankLeq(kernel[k], mirror[k]) && (k in repairs || kernel[k] == mirror[k])
  }

  lemma CoveredOne(kernel: ProcessMap, first: ProcessMap, was: ProcessMap, now: ProcessMap,
                   repairs: seq<Key>, todo: set<Key>, key: Key)
    requires key in kernel && OneOf(was, first, kernel) && Covered(kernel, was, repairs, todo) && key in todo
    requires now == was[key := if key in was then Prefer(was[key], kernel[key]) else kernel[key]]
    ensures OneOf(now, first, kernel)
    ensures Covered(kernel, now, if now[key] != kernel[key] then repairs + [key] else repairs, todo - {key})
  {
  }

  ghost predicate Repaired(kernel: ProcessMap, before: ProcessMap, mirror: ProcessMap, repairs: seq<Key>) {
    && (forall k :: k in repairs ==> k in mirror)
    && (forall k :: k in kernel <==> k in before || k in repairs)
    && (forall k :: k in kernel ==> kernel[k] == if k in repairs then mirror[k] else before[k])
  }

  lemma RepairedOne(was: ProcessMap, before: ProcessMap, mirror: ProcessMap, repairs: seq<Key>, i: nat)
    requires i < |repairs| && Repaired(was, before, mirror, repairs[..i]) && repairs[i] in mirror
    ensures Repaired(was[repairs[i] := mirror[repairs[i]]], before, mirror, repairs[..i + 1])
  {
    assert repairs[..i + 1] == repairs[..i] + [repairs[i]];
  }

  /** Every entry of `m` comes from `a` or from `b`. */
  ghost predicate OneOf(m: ProcessMap, a: ProcessMap, b: ProcessMap) {
    forall k :: k in m ==> (k in a && m[k] == a[k]) || (k in b && m[k] == b[k])
  }

  lemma RaisedOne(first: ProcessMap, was: ProcessMap, now: ProcessMap, key: Key)
    requires Raised(first, was)
    requires key in now && now == was[key := now[key]] && (key in was ==> RankLeq(was[key], now[key]))
    ensures Raised(first, now)
  {
    if key in first {
      RankLeqTransitive(first[key], was[key], now[key]);
    }
  }
}
