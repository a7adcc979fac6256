/** What a traversal does to the mirror, as a function of the order and times of its visits,
    from any starting mirror. */
module Sweeps {
  import opened Types
  import opened Merge
  import opened Protocol
  import opened ProcessLists
  import opened Targets
  import opened VisitOrder

  // ---------------------------------------------------------------- one visit

  function Merged(m: ProcessMap, key: Key, next: Value): ProcessMap {
    m[key := if key in m then Prefer(m[key], next) else next]
  }

  /** The mirror after a visit that decides `d`: a mark is merged, and a miss takes the mark of
      a live entry. */
  function Reconciled(m: ProcessMap, key: Key, d: Decision, explicit: bool, g: U64, now: U64): ProcessMap {
    match d
    case Match(priority, mark) => Merged(m, key, NewValue(priority, mark, explicit, g, now))
    case Miss => if key in m && !m[key].tombstone then Merged(m, key, NewNoMark(m[key], g, now)) else m
  }

  lemma ReconciledOthers(m: ProcessMap, key: Key, d: Decision, explicit: bool, g: U64, now: U64, k: Key)
    requires k != key
    ensures Get(Reconciled(m, key, d, explicit, g, now), k) == Get(m, k)
  {
  }

  lemma ReconciledCurrent(m: ProcessMap, key: Key, d: Decision, explicit: bool, g: U64, now: U64)
    requires key in m ==> m[key].generation <= g
    ensures Current(Reconciled(m, key, d, explicit, g, now), key, g)
  {
  }

  lemma ReconciledSettles(m: ProcessMap, key: Key, d: Decision, explicit: bool, g: U64, now: U64)
    requires key in m && !m[key].tombstone ==> m[key].generation < g
    ensures Settled(m, Reconciled(m, key, d, explicit, g, now), key, d, g)
  {
  }

  // ---------------------------------------------------------------- all visits

  /** The visits so far, with the clock reading of each. */
  datatype Tour = Tour(order: seq<ProcessInfo>, times: seq<U64>)

  predicate Timed(t: Tour) {
    |t.order| == |t.times|
  }

  function Visit(t: Tour, p: ProcessInfo, now: U64): Tour {
    Tour(t.order + [p], t.times + [now])
  }

  /** The mirror after some visits, and what was decided about each visited PID. */
  datatype Swept = Swept(mirror: ProcessMap, decisions: map<U32, Decision>)

  /** What a walk from outside the visited processes starts with: the mark that the mirror
      holds for the listed parent, if it is of the current generation. */
  function Offer(m: ProcessMap, procs: seq<ProcessInfo>, ppid: U32, g: U64): Decision {
    var parent := Find(procs, ppid);
    if parent.Some? && parent.value.key in m
       && LiveMark(m[parent.value.key]) && m[parent.value.key].generation == g
    then Match(m[parent.value.key].priority, m[parent.value.key].mark)
    else Miss
  }

  /** The parent's part in a decision. */
  function Expected(s: Swept, procs: seq<ProcessInfo>, ppid: U32, g: U64): Decision {
    if ppid in s.decisions then s.decisions[ppid] else Offer(s.mirror, procs, ppid, g)
  }

  function Choose(own: Decision, expected: Decision): Decision {
    if own.Match? then own else expected
  }

  function SweepOne(s: Swept, procs: seq<ProcessInfo>, check: CheckFunc, g: U64, p: ProcessInfo, now: U64): Swept {
    var d := Choose(Ask(check, p), Expected(s, procs, p.ppid, g));
    Swept(Reconciled(s.mirror, p.key, d, Ask(check, p).Match?, g, now), s.decisions[p.key.tgid := d])
  }

  /** The effect of the first `n` visits. */
  function Sweep(procs: seq<ProcessInfo>, before: ProcessMap, check: CheckFunc, g: U64, t: Tour, n: nat): Swept
    requires Timed(t) && n <= |t.order|
    decreases n
  {
    if n == 0 then Swept(before, map[])
    else SweepOne(Sweep(procs, before, check, g, t, n - 1), procs, check, g, t.order[n - 1], t.times[n - 1])
  }

  /** Later visits change nothing about earlier ones. */
  lemma {:induction false} SweepVisit(
    procs: seq<ProcessInfo>, before: ProcessMap, check: CheckFunc, g: U64, t: Tour, p: ProcessInfo, now: U64, n: nat)
    requires Timed(t) && n <= |t.order|
    ensures Sweep(procs, before, check, g, Visit(t, p, now), n) == Sweep(procs, before, check, g, t, n)
    decreases n
  {
    if n > 0 {
      SweepVisit(procs, before, check, g, t, p, now, n - 1);
    }
  }

  lemma {:induction false} SweepDecisions(
    procs: seq<ProcessInfo>, before: ProcessMap, check: CheckFunc, g: U64, t: Tour, n: nat)
    requires Timed(t) && n <= |t.order|
    ensures Sweep(procs, before, check, g, t, n).decisions.Keys == Pids(t.order[..n])
    decreases n
  {
    if n > 0 {
      SweepDecisions(procs, before, check, g, t, n - 1);
      assert t.order[..n] == t.order[..n - 1] + [t.order[n - 1]];
    }
  }

  /** Processes that are not visited keep their entries. */
  lemma {:induction false} SweepOthers(
    procs: seq<ProcessInfo>, before: ProcessMap, check: CheckFunc, g: U64, t: Tour, n: nat, k: Key)
    requires Timed(t) && n <= |t.order| && forall i :: 0 <= i < n ==> t.order[i].key != k
    ensures Get(Sweep(procs, before, check, g, t, n).mirror, k) == Get(before, k)
    decreases n
  {
    if n > 0 {
      SweepOthers(procs, before, check, g, t, n - 1, k);
      StepOthers(procs, before, check, g, t, n - 1, k);
    }
  }

  lemma StepOthers(procs: seq<ProcessInfo>, before: ProcessMap, check: CheckFunc, g: U64, t: Tour, n: nat, k: Key)
    requires Timed(t) && n < |t.order| && t.order[n].key != k
    ensures Get(Sweep(procs, before, check, g, t, n + 1).mirror, k) ==
              Get(Sweep(procs, before, check, g, t, n).mirror, k)
  {
    SweepOneOthers(Sweep(procs, before, check, g, t, n), procs, check, g, t.order[n], t.times[n], k);
  }

  lemma SweepOneOthers(s: Swept, procs: seq<ProcessInfo>, check: CheckFunc, g: U64, p: ProcessInfo, now: U64, k: Key)
    requires p.key != k
    ensures Get(SweepOne(s, procs, check, g, p, now).mirror, k) == Get(s.mirror, k)
  {
    ReconciledOthers(s.mirror, p.key, Choose(Ask(check, p), Expected(s, procs, p.ppid, g)), Ask(check, p).Match?, g,
        now, k);
  }

  lemma SweepOneCurrent(
    s: Swept, procs: seq<ProcessInfo>, check: CheckFunc, g: U64, p: ProcessInfo, now: U64, before: ProcessMap)
    requires Get(s.mirror, p.key) == Get(before, p.key) && (p.key in before ==> before[p.key].generation <= g)
    ensures Current(SweepOne(s, procs, check, g, p, now).mirror, p.key, g)
  {
    ReconciledCurrent(s.mirror, p.key, Choose(Ask(check, p), Expected(s, procs, p.ppid, g)), Ask(check, p).Match?, g,
        now);
  }

  lemma SweepOneSettles(
    s: Swept, procs: seq<ProcessInfo>, check: CheckFunc, g: U64, p: ProcessInfo, now: U64, before: ProcessMap,
        d: Decision)
    requires Get(s.mirror, p.key) == Get(before, p.key)
    requires p.key in before && !before[p.key].tombstone ==> before[p.key].generation < g
    requires d == Choose(Ask(check, p), Expected(s, procs, p.ppid, g))
    ensures Settled(before, SweepOne(s, procs, check, g, p, now).mirror, p.key, d, g)
  {
    ReconciledSettles(s.mirror, p.key, d, Ask(check, p).Match?, g, now);
  }

  /** Visited processes keep no live entry of an old generation. */
  lemma {:induction false} SweepCurrent(
    procs: seq<ProcessInfo>, before: ProcessMap, check: CheckFunc, g: U64, t: Tour, n: nat, k: nat)
    requires Timed(t) && UniquePids(t.order) && k < n <= |t.order|
    requires forall key :: key in before ==> before[key].generation <= g
    ensures Current(Sweep(procs, before, check, g, t, n).mirror, t.order[k].key, g)
    decreases n
  {
    if k < n - 1 {
      SweepCurrent(procs, before, check, g, t, n - 1, k);
      StepOthers(procs, before, check, g, t, n - 1, t.order[k].key);
    } else {
      SweepOthers(procs, before, check, g, t, k, t.order[k].key);
      SweepOneCurrent(Sweep(procs, before, check, g, t, k), procs, check, g, t.order[k], t.times[k], before);
    }
  }

  // ---------------------------------------------------------------- from old generations

  /** The decisions made are those of the order of visits. */
  ghost predicate AsOrdered(s: Swept, order: seq<ProcessInfo>, check: CheckFunc, pid: U32) {
    pid in s.decisions ==> s.decisions[pid] == Decided(order, check, pid)
  }

  /** When all entries are stale the mirror offers nothing for unvisited parents. */
  lemma StaleExpects(procs: seq<ProcessInfo>, before: ProcessMap, check: CheckFunc, g: U64, t: Tour, n: nat,
      ppid: U32)
    requires Timed(t) && n <= |t.order| && AllStale(before, procs, g)
    requires AsOrdered(Sweep(procs, before, check, g, t, n), t.order[..n], check, ppid)
    ensures Expected(Sweep(procs, before, check, g, t, n), procs, ppid, g) == Decided(t.order[..n], check, ppid)
  {
    SweepDecisions(procs, before, check, g, t, n);
    if ppid !in Pids(t.order[..n]) {
      DecidedMissing(t.order[..n], check, ppid);
      if Find(procs, ppid).Some? {
        forall i | 0 <= i < n ensures t.order[i].key.tgid != ppid {
          assert t.order[..n][i] == t.order[i];
        }
        SweepOthers(procs, before, check, g, t, n, Find(procs, ppid).value.key);
      }
    }
  }

  /** When all entries are stale, the decisions are those of the order of visits. */
  lemma {:induction false} SweepDecides(
    procs: seq<ProcessInfo>, before: ProcessMap, check: CheckFunc, g: U64, t: Tour, n: nat, pid: U32)
    requires Timed(t) && n <= |t.order| && AllStale(before, procs, g)
    ensures AsOrdered(Sweep(procs, before, check, g, t, n), t.order[..n], check, pid)
    decreases n
  {
    if n > 0 {
      var last := t.order[n - 1];
      assert t.order[..n] == t.order[..n - 1] + [last];
      DecidedSnoc(t.order[..n - 1], check, last, pid);
      SweepDecides(procs, before, check, g, t, n - 1, if pid == last.key.tgid then last.ppid else pid);
      if pid == last.key.tgid {
        StaleExpects(procs, before, check, g, t, n - 1, last.ppid);
      }
    }
  }

  lemma DecisionAt(procs: seq<ProcessInfo>, before: ProcessMap, check: CheckFunc, g: U64, t: Tour, k: nat)
    requires Timed(t) && UniquePids(t.order) && AllStale(before, procs, g) && k < |t.order|
    ensures var p := t.order[k];
            Choose(Ask(check, p), Expected(Sweep(procs, before, check, g, t, k), procs, p.ppid, g)) ==
            Decided(t.order[..k + 1], check, p.key.tgid)
  {
    SweepDecides(procs, before, check, g, t, k, t.order[k].ppid);
    StaleExpects(procs, before, check, g, t, k, t.order[k].ppid);
    DecidedAt(t.order, k + 1, check, k);
  }

  lemma LastSettles(procs: seq<ProcessInfo>, before: ProcessMap, check: CheckFunc, g: U64, t: Tour, k: nat)
    requires Timed(t) && UniquePids(t.order) && AllStale(before, procs, g) && k < |t.order| && t.order[k] in procs
    ensures Settled(before, Sweep(procs, before, check, g, t, k + 1).mirror, t.order[k].key,
                    Decided(t.order[..k + 1], check, t.order[k].key.tgid), g)
  {
    DecisionAt(procs, before, check, g, t, k);
    SweepOthers(procs, before, check, g, t, k, t.order[k].key);
    SweepOneSettles(Sweep(procs, before, check, g, t, k), procs, check, g, t.order[k], t.times[k], before,
                    Decided(t.order[..k + 1], check, t.order[k].key.tgid));
  }

  /** A later visit leaves what an earlier process shows. */
  lemma SettledStays(procs: seq<ProcessInfo>, before: ProcessMap, check: CheckFunc, g: U64, t: Tour, n: nat, k: nat)
    requires Timed(t) && UniquePids(t.order) && k < n < |t.order|
    requires Settled(before, Sweep(procs, before, check, g, t, n).mirror, t.order[k].key,
                     Decided(t.order[..n], check, t.order[k].key.tgid), g)
    ensures Settled(before, Sweep(procs, before, check, g, t, n + 1).mirror, t.order[k].key,
                    Decided(t.order[..n + 1], check, t.order[k].key.tgid), g)
  {
    StepOthers(procs, before, check, g, t, n, t.order[k].key);
    DecidedStays(t.order, n, check, k);
  }

  /** When all entries are stale, every visited process shows what the order decides. */
  lemma {:induction false} SweepSettles(
    procs: seq<ProcessInfo>, before: ProcessMap, check: CheckFunc, g: U64, t: Tour, n: nat, k: nat)
    requires Timed(t) && UniquePids(t.order) && AllStale(before, procs, g) && k < n <= |t.order|
              && t.order[k] in procs
    ensures Settled(before, Sweep(procs, before, check, g, t, n).mirror, t.order[k].key,
                    Decided(t.order[..n], check, t.order[k].key.tgid), g)
    decreases n
  {
    if k < n - 1 {
      SweepSettles(procs, before, check, g, t, n - 1, k);
      SettledStays(procs, before, check, g, t, n - 1, k);
    } else {
      LastSettles(procs, before, check, g, t, k);
    }
  }

  /** The effect of a whole tour. */
  function SweepAll(procs: seq<ProcessInfo>, before: ProcessMap, check: CheckFunc, g: U64, t: Tour): Swept
    requires Timed(t)
  {
    Sweep(procs, before, check, g, t, |t.order|)
  }

  /** A complete traversal from old generations leaves every process as decided, and with its
      nearest match if no process of the list is cut off. */
  lemma TraversalSettles(procs: seq<ProcessInfo>, before: ProcessMap, check: CheckFunc, g: U64, t: Tour,
      p: ProcessInfo)
    requires Timed(t) && ProcessList(procs) && TraversalOrder(procs, t.order) && AllStale(before, procs, g)
              && p in procs
    ensures Settled(before, SweepAll(procs, before, check, g, t).mirror, p.key, Decided(t.order, check, p.key.tgid),
              g)
    ensures NoneCutOff(procs) ==>
              Settled(before, SweepAll(procs, before, check, g, t).mirror, p.key, Nearest(procs, check, p), g)
  {
    assert p in t.order;
    var k :| 0 <= k < |t.order| && t.order[k] == p;
    SweepSettles(procs, before, check, g, t, |t.order|, k);
    assert t.order[..|t.order|] == t.order;
    NearestIff(procs, t.order);
  }

  /** A traversal from old generations, in whatever order, leaves a process that is cut off
      without its parent's mark: with a checker that matches the parent only, the process does
      not show its nearest match. */
  lemma CutOffUnmarked(procs: seq<ProcessInfo>, before: ProcessMap, g: U64, t: Tour, p: ProcessInfo)
    requires Timed(t) && ProcessList(procs) && TraversalOrder(procs, t.order) && AllStale(before, procs, g)
    requires p in procs && CutOff(procs, p) && (p.key in before ==> !before[p.key].tombstone)
    ensures var check := MatchesOnly(Find(procs, p.ppid).value);
            && Nearest(procs, check, p) == Match(0, 0)
            && !Shows(SweepAll(procs, before, check, g, t).mirror, p.key, Match(0, 0), g)
  {
    CutOffMisses(procs, t.order, p);
    TraversalSettles(procs, before, MatchesOnly(Find(procs, p.ppid).value), g, t, p);
  }

  // ---------------------------------------------------------------- a walk in progress

  /** What a traversal starts from. */
  datatype Walk = Walk(procs: seq<ProcessInfo>, before: ProcessMap)

  ghost predicate OnTour(w: Walk, visited: set<U32>, t: Tour) {
    Legal(w.procs, t.order) && visited == Pids(t.order)
  }

  ghost predicate MayGo(w: Walk, visited: set<U32>, p: ProcessInfo) {
    p in w.procs && MayVisit(w.procs, visited, p)
  }

  /** Decisions already made stay. */
  ghost predicate Keeps(s: Swept, t: Swept) {
    forall pid :: pid in s.decisions ==> pid in t.decisions && t.decisions[pid] == s.decisions[pid]
  }

  lemma KeepsJoin(a: Swept, b: Swept, c: Swept)
    requires Keeps(a, b) && Keeps(b, c)
    ensures Keeps(a, c)
  {
  }

  lemma VisitSweeps(procs: seq<ProcessInfo>, before: ProcessMap, check: CheckFunc, g: U64, t: Tour, p: ProcessInfo,
      now: U64)
    requires Timed(t)
    ensures SweepAll(procs, before, check, g, Visit(t, p, now)) ==
            SweepOne(SweepAll(procs, before, check, g, t), procs, check, g, p, now)
  {
    SweepVisit(procs, before, check, g, t, p, now, |t.order|);
  }

  lemma StepKeeps(s: Swept, procs: seq<ProcessInfo>, check: CheckFunc, g: U64, p: ProcessInfo, now: U64)
    requires p.key.tgid !in s.decisions
    ensures Keeps(s, SweepOne(s, procs, check, g, p, now))
  {
  }

  lemma TourGoesOn(w: Walk, visited: set<U32>, t: Tour, p: ProcessInfo, now: U64)
    requires Timed(t) && OnTour(w, visited, t) && MayGo(w, visited, p) && p.key.tgid !in visited
    ensures OnTour(w, visited + {p.key.tgid}, Visit(t, p, now))
  {
    LegalVisit(w.procs, t.order, p);
  }

  /** A visit as the code makes it: `m` becomes `next`, and `d` is decided. */
  lemma VisitKeeps(w: Walk, visited: set<U32>, t: Tour, p: ProcessInfo, d: Decision, now: U64, check: CheckFunc,
      g: U64,
                   m: ProcessMap, next: ProcessMap)
    requires Timed(t) && OnTour(w, visited, t) && p.key.tgid !in visited
    requires m == SweepAll(w.procs, w.before, check, g, t).mirror
    requires d == Choose(Ask(check, p), Expected(SweepAll(w.procs, w.before, check, g, t), w.procs, p.ppid, g))
    requires next == Reconciled(m, p.key, d, Ask(check, p).Match?, g, now)
    ensures next == SweepAll(w.procs, w.before, check, g, Visit(t, p, now)).mirror
    ensures Get(SweepAll(w.procs, w.before, check, g, Visit(t, p, now)).decisions, p.key.tgid) == Some(d)
    ensures Keeps(SweepAll(w.procs, w.before, check, g, t), SweepAll(w.procs, w.before, check, g, Visit(t, p, now)))
  {
    VisitSweeps(w.procs, w.before, check, g, t, p, now);
    SweepDecisions(w.procs, w.before, check, g, t, |t.order|);
    assert t.order[..|t.order|] == t.order;
    StepKeeps(SweepAll(w.procs, w.before, check, g, t), w.procs, check, g, p, now);
  }

  /** Before its parent is visited, a process can only be offered what the mirror holds. */
  lemma RootExpects(w: Walk, visited: set<U32>, t: Tour, check: CheckFunc, g: U64, ppid: U32)
    requires Timed(t) && OnTour(w, visited, t) && ppid !in visited
    ensures Expected(SweepAll(w.procs, w.before, check, g, t), w.procs, ppid, g) ==
            Offer(SweepAll(w.procs, w.before, check, g, t).mirror, w.procs, ppid, g)
  {
    SweepDecisions(w.procs, w.before, check, g, t, |t.order|);
    assert t.order[..|t.order|] == t.order;
  }

  /** Roots have no listed parent. */
  lemma RootStart(w: Walk, visited: set<U32>, t: Tour, p: ProcessInfo)
    requires OnTour(w, visited, t) && p in w.procs && p.ppid == 0
    ensures MayGo(w, visited, p) && p.ppid !in visited && Find(w.procs, p.ppid).None?
  {
    LegalList(w.procs, t.order);
    LegalOnce(w.procs, t.order);
  }

  lemma FallbackStart(procs: seq<ProcessInfo>, seen: set<U32>, visited: set<U32>, i: nat)
    requires ClosedUnderChildren(procs, visited) && RootsVisited(procs, seen) && seen <= visited
    requires i < |procs| && FirstVisited(procs, i, visited)
    ensures procs[i] in procs && Start(procs, visited, procs[i])
  {
  }

  /** Every process is settled as the order decides. */
  ghost predicate AllSettled(
    procs: seq<ProcessInfo>, before: ProcessMap, m: ProcessMap, order: seq<ProcessInfo>, check: CheckFunc, g: U64)
  {
    forall p :: p in procs ==> Settled(before, m, p.key, Decided(order, check, p.key.tgid), g)
  }

  /** Every process is settled with its nearest match. */
  ghost predicate AllNearest(procs: seq<ProcessInfo>, before: ProcessMap, m: ProcessMap, check: CheckFunc, g: U64) {
    forall p :: p in procs ==> Settled(before, m, p.key, Nearest(procs, check, p), g)
  }

  /** What a tour of the whole list leaves. */
  lemma TourResult(w: Walk, visited: set<U32>, t: Tour, check: CheckFunc, g: U64)
    requires Timed(t) && OnTour(w, visited, t) && FirstVisited(w.procs, |w.procs|, visited)
    requires forall k :: k in w.before ==> w.before[k].generation <= g
    ensures TraversalOrder(w.procs, t.order)
    ensures var m := SweepAll(w.procs, w.before, check, g, t).mirror;
            && (forall p :: p in w.procs ==> Current(m, p.key, g))
            && (forall k :: !Listed(w.procs, k) ==> Get(m, k) == Get(w.before, k))
            && (AllStale(w.before, w.procs, g) ==> AllSettled(w.procs, w.before, m, t.order, check, g))
            && (AllStale(w.before, w.procs, g) && NoneCutOff(w.procs) ==> AllNearest(w.procs, w.before, m, check, g))
  {
    var m := SweepAll(w.procs, w.before, check, g, t).mirror;
    LegalTraversal(w.procs, t.order);
    LegalList(w.procs, t.order);
    forall p | p in w.procs ensures Current(m, p.key, g) {
      var k :| 0 <= k < |t.order| && t.order[k] == p;
      SweepCurrent(w.procs, w.before, check, g, t, |t.order|, k);
    }
    forall k | !Listed(w.procs, k) ensures Get(m, k) == Get(w.before, k) {
      forall i | 0 <= i < |t.order| ensures t.order[i].key != k {
        assert t.order[i] in t.order;
      }
      SweepOthers(w.procs, w.before, check, g, t, |t.order|, k);
    }
    if AllStale(w.before, w.procs, g) {
      forall p | p in w.procs
        ensures Settled(w.before, m, p.key, Decided(t.order, check, p.key.tgid), g)
        ensures NoneCutOff(w.procs) ==> Settled(w.before, m, p.key, Nearest(w.procs, check, p), g)
      {
        TraversalSettles(w.procs, w.before, check, g, t, p);
      }
    }
  }
}
