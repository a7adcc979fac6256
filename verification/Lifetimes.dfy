/** What whole runs guarantee about the entry of one process and about generations, under
    arbitrary write failures and lost events. */
module Lifetimes {
  import opened Types
  import opened Merge
  import opened Protocol
  import opened Invariants

  // ---------------------------------------------------------------- mirror monotonicity

  /** How one step may change a mirror entry: its rank never falls, and it disappears only
      when a tombstone is collected. */
  lemma MirrorStep(s: State, a: Action, k: Key)
    requires Enabled(s, a) && k in s.r.mirror
    ensures k in Next(s, a).r.mirror ==> RankLeq(s.r.mirror[k], Next(s, a).r.mirror[k])
    ensures k !in Next(s, a).r.mirror ==>
              && a.Collect? && a.key == k && s.r.mirror[k].tombstone
              && s.r.mirror[k].timestamp < Cutoff(a.now, a.ttl)
  {
    var r := if AdvancesClock(a) then s.r.(clock := a.now) else s.r;
    if IsPolicy(a) || IsKernel(a) {
    } else if a.HandleFirst? {
      FirstRaises(r.(queue := r.queue[1..]), r.queue[0], a.now, a.ok, k);
    } else if a.HandleSecond? || a.Collect? {
    } else {
      DaemonRaises(r, s.c, a, k);
    }
  }

  lemma FirstRaises(r: Replicas, e: Event, now: U64, ok: bool, k: Key)
    requires k in r.mirror
    ensures k in FirstEffect(r, e, now, ok).mirror && RankLeq(r.mirror[k], FirstEffect(r, e, now, ok).mirror[k])
  {
    match e.kind
    case Fork =>
    case Exit =>
    case Exec =>
  }

  lemma DaemonRaises(r: Replicas, c: Control, a: Action, k: Key)
    requires k in r.mirror && !a.Collect?
    requires a.Refresh? ==> a.key in r.kernel
    requires a.NoMark? || a.Repair? || a.Entomb? ==> a.key in r.mirror
    ensures k in NextDaemon(r, c, a).mirror && RankLeq(r.mirror[k], NextDaemon(r, c, a).mirror[k])
  {
  }

  /** While a process stays in the mirror its rank never falls: in particular a mirror
      tombstone is never replaced by a live value, nor a generation by an older one. */
  lemma {:induction false} MirrorMonotone(b: Run, i: nat, j: nat, k: Key)
    requires IsRun(b) && i <= j < |b.states|
    requires forall n :: i <= n <= j ==> k in b.states[n].r.mirror
    ensures RankLeq(b.states[i].r.mirror[k], b.states[j].r.mirror[k])
    ensures b.states[i].r.mirror[k].tombstone ==> b.states[j].r.mirror[k].tombstone
    decreases j
  {
    if i < j {
      MirrorMonotone(b, i, j - 1, k);
      MirrorStep(b.states[j - 1], b.actions[j - 1], k);
      RankLeqTransitive(b.states[i].r.mirror[k], b.states[j - 1].r.mirror[k], b.states[j].r.mirror[k]);
    }
  }

  /** With the boot clock past the TTL, only tombstones older than the TTL are removed. */
  lemma RemovalOnlyAfterTTL(s: State, a: Action, k: Key)
    requires Enabled(s, a) && k in s.r.mirror && k !in Next(s, a).r.mirror
    ensures a.Collect? && a.key == k && s.r.mirror[k].tombstone
    ensures a.ttl <= a.now ==> s.r.mirror[k].timestamp + a.ttl < a.now
  {
    MirrorStep(s, a, k);
  }

  predicate Collectable(timestamp: U64, now: U64, ttl: U64) {
    timestamp < Cutoff(now, ttl)
  }

  predicate OlderThan(timestamp: U64, now: U64, ttl: U64) {
    timestamp + ttl < now
  }

  /** The cutoff selects what is older than the TTL, and all of it, exactly when the clock is
      past the TTL: before that the unsigned subtraction wraps and a tombstone made this very
      moment is collectable. */
  lemma CutoffExact(now: U64, ttl: U64)
    ensures ttl <= now <==> forall t: U64 :: t <= now ==> (Collectable(t, now, ttl) <==> OlderThan(t, now, ttl))
  {
    if now < ttl {
      assert Collectable(now, now, ttl) && !OlderThan(now, now, ttl);
    }
  }

  // ---------------------------------------------------------------- no slot for the never-marked

  predicate MarkedAt(r: Replicas, k: Key) {
    (k in r.kernel && r.kernel[k].hasMark) || (k in r.mirror && r.mirror[k].hasMark)
  }

  /** Which parts of the state entitle a process to an entry. */
  ghost predicate Entitled(r: Replicas, k: Key) {
    || k in r.kernel || k in r.mirror
    || (r.phase.Decide? && r.phase.hasValue && r.phase.event.key == k)
    || exists e :: e in r.queue && e.key == k && Carries(e)
  }

  /** An event the daemon may turn into a mirror entry without asking the checker. */
  predicate Carries(e: Event) {
    if e.kind.Fork? then e.hasMark else e.value != ZERO_VALUE
  }

  lemma OutcomeEntitles(kernel: ProcessMap, c: Control, a: Action, k: Key)
    requires IsKernel(a)
    ensures var o := KernelOutcome(kernel, c, a);
            k in kernel || (k in o.kernel && o.kernel[k].hasMark) ||
            (k !in o.kernel && !(o.event.key == k && Carries(o.event)))
  {
  }

  lemma FirstEntitles(r: Replicas, e: Event, now: U64, ok: bool, k: Key)
    requires k !in r.kernel && k !in r.mirror
    ensures var t := FirstEffect(r, e, now, ok);
            k in t.kernel || k in t.mirror || (t.phase != r.phase && t.phase.hasValue && t.phase.event.key == k)
            ==> k == e.key && Carries(e)
  {
    match e.kind
    case Fork =>
    case Exit =>
    case Exec =>
  }

  lemma HandlingEntitles(r: Replicas, c: Control, a: Action, k: Key)
    requires (a.HandleFirst? && r.queue != []) || (a.HandleSecond? && r.phase.Decide?)
    requires Entitled(NextHandling(r, c, a), k)
    ensures Entitled(r, k) || MarkedAt(NextHandling(r, c, a), k)
  {
    if k !in r.mirror && k !in r.kernel {
      if a.HandleFirst? {
        var q, e := r.(queue := r.queue[1..]), r.queue[0];
        assert e in r.queue && forall x :: x in q.queue ==> x in r.queue;
        FirstEntitles(q, e, a.now, a.ok, k);
        FirstKeepsQueue(q, e, a.now, a.ok);
      } else {
        SecondEntitles(r, c, a, k);
      }
    }
  }

  lemma FirstKeepsQueue(r: Replicas, e: Event, now: U64, ok: bool)
    ensures FirstEffect(r, e, now, ok).queue == r.queue
    ensures var p := FirstEffect(r, e, now, ok).phase; p == r.phase || p.Decide?
  {
  }

  lemma SecondEntitles(r: Replicas, c: Control, a: Action, k: Key)
    requires a.HandleSecond? && r.phase.Decide? && k !in r.mirror && k !in r.kernel
    requires Entitled(NextHandling(r, c, a), k)
    ensures Entitled(r, k) || MarkedAt(NextHandling(r, c, a), k)
  {
    var t := NextHandling(r, c, a);
    assert t.queue == r.queue && t.phase.Idle?;
    if k in t.kernel || k in t.mirror {
      assert k == r.phase.event.key;
    }
  }

  lemma StepEntitles(s: State, a: Action, k: Key)
    requires Enabled(s, a) && Entitled(Next(s, a).r, k)
    ensures Entitled(s.r, k) || MarkedAt(Next(s, a).r, k)
  {
    var r := if AdvancesClock(a) then s.r.(clock := a.now) else s.r;
    assert Entitled(r, k) == Entitled(s.r, k);
    if IsKernel(a) {
      OutcomeEntitles(r.kernel, s.c, a, k);
    } else if a.HandleFirst? || a.HandleSecond? {
      HandlingEntitles(r, s.c, a, k);
    }
  }

  lemma {:induction false} EntitledWasMarked(b: Run, i: nat, k: Key) returns (n: nat)
    requires IsRun(b) && i < |b.states| && Entitled(b.states[i].r, k)
    ensures n <= i && MarkedAt(b.states[n].r, k)
  {
    assert i > 0;
    StepEntitles(b.states[i - 1], b.actions[i - 1], k);
    if MarkedAt(b.states[i].r, k) {
      n := i;
    } else {
      n := EntitledWasMarked(b, i - 1, k);
    }
  }

  /** Every process in the kernel map or the mirror once had a mark: exits of unknown
      processes, authoritative misses and unmarked forks and execs never take a slot. */
  lemma NoSlotForNeverMarked(b: Run, i: nat, k: Key)
    requires IsRun(b) && i < |b.states|
    ensures k in b.states[i].r.kernel || k in b.states[i].r.mirror ==>
              exists n :: 0 <= n <= i && MarkedAt(b.states[n].r, k)
  {
    if k in b.states[i].r.kernel || k in b.states[i].r.mirror {
      var n := EntitledWasMarked(b, i, k);
    }
  }

  // ---------------------------------------------------------------- generations

  lemma StepAdvances(s: State, a: Action)
    requires Enabled(s, a) && PolicyOk(s.c)
    ensures var d := Next(s, a).c;
            && s.c.reserved <= d.reserved && s.c.generation <= d.generation
            && (a.Reserve? ==> s.c.reserved < d.reserved)
            && (a.Activate? ==> s.c.generation < d.generation == d.active.generation)
  {
  }

  lemma {:induction false} GenerationsNeverFall(b: Run, i: nat, j: nat)
    requires IsRun(b) && i <= j < |b.states|
    ensures b.states[i].c.reserved <= b.states[j].c.reserved
    ensures b.states[i].c.generation <= b.states[j].c.generation
    decreases j
  {
    if i < j {
      GenerationsNeverFall(b, i, j - 1);
      ReachableOk(b, j - 1);
      StepAdvances(b.states[j - 1], b.actions[j - 1]);
    }
  }

  /** Generation freshness: over any run of successful and failed policy switches, no
      generation is reserved twice, none is 0, and active generations strictly increase. */
  lemma GenerationFreshness(b: Run, i: nat, j: nat)
    requires IsRun(b) && i < j < |b.actions|
    ensures b.actions[i].Reserve? && b.actions[j].Reserve? ==>
              0 < b.states[i + 1].c.reserved < b.states[j + 1].c.reserved
    ensures b.actions[i].Activate? && b.actions[j].Activate? ==>
              0 < b.states[i + 1].c.active.generation < b.states[j + 1].c.active.generation
  {
    ReachableOk(b, i);
    StepAdvances(b.states[i], b.actions[i]);
    GenerationsNeverFall(b, i + 1, j);
    ReachableOk(b, j);
    StepAdvances(b.states[j], b.actions[j]);
  }

  /** No value in either map or in the queue is ahead of the daemon's generation. */
  lemma ValuesNeverAhead(b: Run, i: nat)
    requires IsRun(b) && i < |b.states|
    ensures var s := b.states[i];
            && (forall k :: k in s.r.kernel ==> s.r.kernel[k].generation <= s.c.generation)
            && (forall k :: k in s.r.mirror ==> s.r.mirror[k].generation <= s.c.generation)
            && (forall e :: e in s.r.queue ==> e.value.generation <= s.c.generation)
  {
    ReachableOk(b, i);
  }

  /** Only insertions make the rule table grow: its size between two insertions is at most
      its size after the first. */
  lemma {:induction false} TableGrowsOnlyByPut(b: Run, i: nat, j: nat)
    requires IsRun(b) && i <= j < |b.states|
    requires forall n {:trigger b.actions[n]} :: i <= n < j ==> !b.actions[n].PutRule?
    ensures b.states[j].c.rules.Keys <= b.states[i].c.rules.Keys
    ensures |b.states[j].c.rules| <= |b.states[i].c.rules|
    decreases j
  {
    if i < j {
      TableGrowsOnlyByPut(b, i, j - 1);
      var a := b.actions[j - 1];
      assert b.states[j].c.rules.Keys <= b.states[j - 1].c.rules.Keys;
    }
    SubsetSize(b.states[j].c.rules.Keys, b.states[i].c.rules.Keys);
  }

  /** The recorded peak bounds the rule table in every state up to now. */
  lemma {:induction false} RulesWithinPeak(b: Run, i: nat, j: nat)
    requires IsRun(b) && i <= j < |b.states|
    ensures |b.states[i].c.rules| <= b.states[j].c.peak
    decreases j
  {
    if i < j {
      RulesWithinPeak(b, i, j - 1);
      PeakNeverFalls(b.states[j - 1], b.actions[j - 1]);
    } else if i > 0 {
      RulesWithinPeak(b, i - 1, i - 1);
      PeakCovers(b.states[i - 1], b.actions[i - 1]);
    }
  }

  lemma PeakNeverFalls(s: State, a: Action)
    requires Enabled(s, a)
    ensures s.c.peak <= Next(s, a).c.peak
  {
  }

  lemma PeakCovers(s: State, a: Action)
    requires Enabled(s, a) && |s.c.rules| <= s.c.peak
    ensures |Next(s, a).c.rules| <= Next(s, a).c.peak
  {
    if !a.PutRule? {
      SubsetSize(Next(s, a).c.rules.Keys, s.c.rules.Keys);
    }
  }
}
