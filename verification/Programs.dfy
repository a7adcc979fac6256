/** What one run of each kernel program does to the process map and reports to the daemon. */
module Programs {
  import opened Types
  import opened ExactRules
  import opened Protocol

  predicate HasMark(m: ProcessMap, k: Key) {
    k in m && !m[k].tombstone && m[k].hasMark
  }

  /** A run of a kernel program for a whole process. */
  predicate Program(s: State, a: Action) {
    IsKernel(a) && Enabled(s, a) && TaskOf(a).pid == TaskOf(a).tgid
  }

  predicate SameElsewhere(m: ProcessMap, n: ProcessMap, key: Key) {
    m - {key} == n - {key}
  }

  /** The step `a` queues `e`, if the ring buffer has room, and leaves the mirror alone. */
  predicate Sends(s: State, a: Action, e: Event)
    requires Program(s, a)
  {
    && Next(s, a).r.queue == s.r.queue + (if a.sent then [e] else [])
    && Next(s, a).r.mirror == s.r.mirror && Next(s, a).c == s.c
    && e.key == KeyOf(TaskOf(a)) && e.comm == TaskOf(a).comm
  }

  /** After a fork the child is marked in the kernel iff it was before, or had no entry, its
      parent is marked and the insertion succeeds; it then has its parent's mark, priority and
      generation, as an inherited mark of this moment. The event says whether it is marked,
      and with what. */
  lemma ForkInherits(s: State, fork: Action) returns (e: Event)
    requires Program(s, fork) && fork.KFork?
    ensures Sends(s, fork, e) && e.kind.Fork?
    ensures e.parentKey == KeyOf(fork.parent) && e.ppid == fork.parent.tgid
    ensures var child, parent, kernel, after :=
              KeyOf(fork.child), KeyOf(fork.parent), s.r.kernel, Next(s, fork).r.kernel;
            && SameElsewhere(kernel, after, child)
            && (HasMark(after, child) <==>
                  HasMark(kernel, child) || (child !in kernel && HasMark(kernel, parent) && fork.ok))
            && (child in kernel ==> after == kernel && e.value == kernel[child])
            && (child !in kernel && !HasMark(kernel, parent) ==> after == kernel && e.value == ZERO_VALUE)
            && (child !in kernel && HasMark(kernel, parent) ==>
                  && e.value == Value(false, false, true, kernel[parent].priority, kernel[parent].generation,
                                      kernel[parent].mark, fork.now)
                  && after == if fork.ok then kernel[child := e.value] else kernel)
            && (e.hasMark <==> HasMark(after, child))
  {
    e := ForkOutcome(s.r.kernel, fork.parent, fork.child, fork.now, fork.ok).event;
  }

  /** An exit turns an existing entry into a tombstone of this moment, everything else kept,
      and never adds one. The event carries the tombstone and says whether it was marked. */
  lemma ExitBuries(s: State, exit: Action) returns (e: Event)
    requires Program(s, exit) && exit.KExit?
    ensures Sends(s, exit, e) && e.kind.Exit?
    ensures var key, kernel, after := KeyOf(exit.task), s.r.kernel, Next(s, exit).r.kernel;
            && (key !in kernel ==> after == kernel && e.value == ZERO_VALUE)
            && (key in kernel ==>
                  var was := kernel[key];
                  && e.value == Value(true, was.explicit, was.hasMark, was.priority, was.generation, was.mark,
                                      exit.now)
                  && after == if exit.ok then kernel[key := e.value] else kernel)
            && (e.hasMark <==> HasMark(kernel, key))
  {
    e := ExitOutcome(s.r.kernel, exit.task, exit.now, exit.ok).event;
  }

  /** Whatever an exec does, the event reports the entry it leaves, and it never buries one. */
  lemma ExecTells(s: State, exec: Action) returns (e: Event)
    requires Program(s, exec) && exec.KExec?
    ensures Sends(s, exec, e) && e.kind.Exec?
    ensures var key, after := KeyOf(exec.task), Next(s, exec).r.kernel;
            && SameElsewhere(s.r.kernel, after, key)
            && e.value == (if key in after then after[key] else ZERO_VALUE)
            && (e.hasMark <==> HasMark(after, key))
            && (key in after && after[key].tombstone ==> after == s.r.kernel)
  {
    e := ExecOutcome(s.r.kernel, s.c.active, s.c.rules, exec.task, exec.now, exec.ok).event;
  }
}
