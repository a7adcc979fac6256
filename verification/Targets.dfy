/** What a process-tree traversal is meant to leave: each process carries the mark of its
    nearest ancestor-or-self that the checker matches. */
module Targets {
  import opened Types
  import opened Protocol
  import opened ProcessLists

  // ---------------------------------------------------------------- the nearest match

  /** The `n`-th listed ancestor. */
  ghost function Above(procs: seq<ProcessInfo>, p: ProcessInfo, n: nat): Option<ProcessInfo> {
    Up(PidMap(procs), p, n)
  }

  /** Going up from `p`, the `n`-th listed ancestor is the first process that matches. */
  ghost predicate FirstMatch(procs: seq<ProcessInfo>, check: CheckFunc, p: ProcessInfo, n: nat) {
    && Above(procs, p, n).Some? && Ask(check, Above(procs, p, n).value).Match?
    && forall m: nat :: m < n ==> Above(procs, p, m).Some? && Ask(check, Above(procs, p, m).value).Miss?
  }

  /** The decision of the nearest ancestor-or-self that matches, over any parent graph. */
  ghost function Nearest(procs: seq<ProcessInfo>, check: CheckFunc, p: ProcessInfo): Decision {
    if n: nat :| FirstMatch(procs, check, p, n) then Ask(check, Above(procs, p, n).value) else Miss
  }

  lemma FirstMatchUnique(procs: seq<ProcessInfo>, check: CheckFunc, p: ProcessInfo, m: nat, n: nat)
    requires FirstMatch(procs, check, p, m) && FirstMatch(procs, check, p, n)
    ensures m == n
  {
  }

  lemma FirstMatchAbove(procs: seq<ProcessInfo>, check: CheckFunc, p: ProcessInfo, n: nat)
    requires Find(procs, p.ppid).Some? && Ask(check, p).Miss?
    ensures FirstMatch(procs, check, p, n + 1) <==> FirstMatch(procs, check, Find(procs, p.ppid).value, n)
  {
    var parent := Find(procs, p.ppid).value;
    assert forall m: nat :: Above(procs, p, m + 1) == Above(procs, parent, m);
    if FirstMatch(procs, check, p, n + 1) {
      forall m: nat | m < n ensures Above(procs, parent, m).Some? && Ask(check, Above(procs, parent, m).value).Miss? {
        assert Above(procs, p, m + 1) == Above(procs, parent, m);
      }
    }
    if FirstMatch(procs, check, parent, n) {
      forall m: nat | m < n + 1 ensures Above(procs, p, m).Some? && Ask(check, Above(procs, p, m).value).Miss? {
        if m > 0 {
          assert Above(procs, p, (m - 1) + 1) == Above(procs, parent, m - 1);
        }
      }
    }
  }

  /** A process that does not match has its listed parent's nearest match, cycles included. */
  lemma NearestUnfold(procs: seq<ProcessInfo>, check: CheckFunc, p: ProcessInfo)
    ensures Nearest(procs, check, p) ==
            if Ask(check, p).Match? then Ask(check, p)
            else if Find(procs, p.ppid).Some? then Nearest(procs, check, Find(procs, p.ppid).value)
            else Miss
  {
    if Ask(check, p).Match? {
      assert FirstMatch(procs, check, p, 0);
      forall n: nat | FirstMatch(procs, check, p, n) ensures n == 0 {
        FirstMatchUnique(procs, check, p, 0, n);
      }
    } else if Find(procs, p.ppid).None? {
      forall n: nat ensures !FirstMatch(procs, check, p, n) {
        assert n > 0 ==> Above(procs, p, n).None?;
      }
    } else {
      NearestOfParent(procs, check, p);
    }
  }

  lemma NearestOfParent(procs: seq<ProcessInfo>, check: CheckFunc, p: ProcessInfo)
    requires Find(procs, p.ppid).Some? && Ask(check, p).Miss?
    ensures Nearest(procs, check, p) == Nearest(procs, check, Find(procs, p.ppid).value)
  {
    var parent := Find(procs, p.ppid).value;
    if n: nat :| FirstMatch(procs, check, p, n) {
      assert n > 0;
      FirstMatchAbove(procs, check, p, n - 1);
      forall m: nat | FirstMatch(procs, check, p, m) ensures m == n {
        FirstMatchUnique(procs, check, p, m, n);
      }
      forall m: nat | FirstMatch(procs, check, parent, m) ensures m == n - 1 {
        FirstMatchUnique(procs, check, parent, m, n - 1);
      }
      assert Above(procs, p, (n - 1) + 1) == Above(procs, parent, n - 1);
    } else {
      forall m: nat ensures !FirstMatch(procs, check, parent, m) {
        FirstMatchAbove(procs, check, p, m);
      }
    }
  }

  /** A process that is its own parent has no other ancestor. */
  lemma {:induction false} OwnParentAbove(procs: seq<ProcessInfo>, p: ProcessInfo, n: nat)
    requires UniquePids(procs) && p in procs && p.ppid == p.key.tgid
    ensures Above(procs, p, n) == Some(p)
    decreases n
  {
    if n > 0 {
      PidDeterminesProcess(procs, p, Find(procs, p.ppid).value);
      OwnParentAbove(procs, p, n - 1);
    }
  }

  lemma OwnParentMisses(procs: seq<ProcessInfo>, check: CheckFunc, p: ProcessInfo)
    requires UniquePids(procs) && p in procs && p.ppid == p.key.tgid && Ask(check, p).Miss?
    ensures Nearest(procs, check, p) == Miss
  {
    forall n: nat ensures !FirstMatch(procs, check, p, n) {
      OwnParentAbove(procs, p, n);
    }
  }

  // ---------------------------------------------------------------- showing a decision

  /** Whether a walk hands on a mark to the children, and which. */
  predicate Passes(v: Option<Value>, d: Decision, g: U64) {
    var inheritable := v.Some? && LiveMark(v.value) && v.value.generation == g;
    && (d.Match? <==> inheritable)
    && (d.Match? ==> v.value.priority == d.priority && v.value.mark == d.mark)
  }

  /** The entry of `k` shows decision `d` at generation `g`. */
  predicate Shows(m: ProcessMap, k: Key, d: Decision, g: U64) {
    match d
    case Match(priority, mark) =>
      k in m && LiveMark(m[k]) && m[k].priority == priority && m[k].mark == mark && m[k].generation == g
    case Miss =>
      k !in m || (!m[k].tombstone && !m[k].hasMark && m[k].generation == g)
  }

  /** A process tombstoned before the walk stays so; any other shows its decision. */
  predicate Settled(before: ProcessMap, m: ProcessMap, k: Key, d: Decision, g: U64) {
    if k in before && before[k].tombstone then k in m && m[k].tombstone
    else Shows(m, k, d, g)
  }

  /** No live entry of `k` is from an older generation. */
  predicate Current(m: ProcessMap, k: Key, g: U64) {
    k in m && !m[k].tombstone ==> m[k].generation == g
  }

  /** Every live entry of a listed process is from an older generation. */
  ghost predicate AllStale(m: ProcessMap, procs: seq<ProcessInfo>, g: U64) {
    forall p :: p in procs && p.key in m && !m[p.key].tombstone ==> m[p.key].generation < g
  }

  ghost predicate Listed(procs: seq<ProcessInfo>, k: Key) {
    exists p :: p in procs && p.key == k
  }
}
