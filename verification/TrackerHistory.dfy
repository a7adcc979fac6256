/** What the tracker knows after any sequence of process events, with PIDs and keys reused at
    will: the latest lifetime of a PID is the one seen last, and a process has the rules that
    matched it or its parent's lifetime at the time it was seen. */
module TrackerHistory {
  import opened Types
  import opened Tracker

  /** A process event: a process is observed, or a lifetime exits. */
  datatype Happening = Seen(info: ProcessInfo) | Gone(key: Key)

  ghost function After(x: Index, rules: map<U64, Rule>, h: Happening): Index {
    match h
    case Seen(info) => Applied(x, rules, info)
    case Gone(key) => Forgotten(x, key)
  }

  /** An empty tracker after the first `n` events. */
  ghost function Told(rules: map<U64, Rule>, hs: seq<Happening>, n: nat): Index
    requires n <= |hs|
    decreases n
  {
    if n == 0 then Index(map[], map[]) else After(Told(rules, hs, n - 1), rules, hs[n - 1])
  }

  // ---------------------------------------------------------------- what the events say

  /** The last sighting among the first `n` events with this PID, unless its lifetime exited. */
  ghost function LatestSeen(hs: seq<Happening>, n: nat, pid: U32): (r: Option<nat>)
    requires n <= |hs|
    ensures r.Some? ==> r.value < n && hs[r.value].Seen? && hs[r.value].info.key.tgid == pid
  {
    if n == 0 then None
    else
      var before, h := LatestSeen(hs, n - 1, pid), hs[n - 1];
      if h.Seen? && h.info.key.tgid == pid then Some(n - 1)
      else if h.Gone? && before.Some? && hs[before.value].info.key == h.key then None
      else before
  }

  /** The last sighting of this lifetime, unless it exited. */
  ghost function LastSeen(hs: seq<Happening>, n: nat, key: Key): (r: Option<nat>)
    requires n <= |hs|
    ensures r.Some? ==> r.value < n && hs[r.value].Seen? && hs[r.value].info.key == key
  {
    if n == 0 then None
    else if hs[n - 1].Seen? && hs[n - 1].info.key == key then Some(n - 1)
    else if hs[n - 1] == Gone(key) then None
    else LastSeen(hs, n - 1, key)
  }

  /** The rule matches sighting `i`, or that of its parent's latest lifetime at that moment. */
  ghost predicate Matched(rule: Rule, hs: seq<Happening>, i: nat)
    requires i < |hs| && hs[i].Seen?
    decreases i
  {
    var parent := LatestSeen(hs, i, hs[i].info.ppid);
    Holds(rule, hs[i].info) || (parent.Some? && Matched(rule, hs, parent.value))
  }

  ghost function KeySeen(hs: seq<Happening>, i: Option<nat>): Option<Key>
    requires i.Some? ==> i.value < |hs| && hs[i.value].Seen?
  {
    if i.Some? then Some(hs[i.value].info.key) else None
  }

  // ---------------------------------------------------------------- what the tracker holds

  /** After any events the tracker follows each PID to the lifetime last seen with it. */
  lemma {:induction false} LatestIsLastSeen(rules: map<U64, Rule>, hs: seq<Happening>, n: nat, pid: U32)
    requires n <= |hs|
    ensures Get(Told(rules, hs, n).latestPID, pid) == KeySeen(hs, LatestSeen(hs, n, pid))
    decreases n
  {
    if n > 0 {
      LatestIsLastSeen(rules, hs, n - 1, pid);
    }
  }

  /** The latest lifetime of a PID is still tracked, from its latest sighting. */
  lemma {:induction false} LatestIsTracked(hs: seq<Happening>, n: nat, pid: U32)
    requires n <= |hs| && LatestSeen(hs, n, pid).Some?
    ensures LastSeen(hs, n, hs[LatestSeen(hs, n, pid).value].info.key) == LatestSeen(hs, n, pid)
    decreases n
  {
    if LatestSeen(hs, n, pid).value < n - 1 {
      LatestIsTracked(hs, n - 1, pid);
    }
  }

  /** After any events the tracker holds exactly the lifetimes seen and not exited since, each
      as it was seen last, with the IDs of exactly the rules that matched then. */
  lemma {:induction false} TrackedAsSeen(rules: map<U64, Rule>, hs: seq<Happening>, n: nat, key: Key)
    requires n <= |hs|
    ensures var x, i := Told(rules, hs, n), LastSeen(hs, n, key);
            && (key in x.processes <==> i.Some?)
            && (i.Some? ==>
                  && x.processes[key].info == hs[i.value].info
                  && forall id :: id in x.processes[key].ids <==> id in rules && Matched(rules[id], hs, i.value))
    decreases 2 * n
  {
    if n > 0 {
      if hs[n - 1].Seen? && hs[n - 1].info.key == key {
        SeenNow(rules, hs, n - 1);
      } else {
        TrackedAsSeen(rules, hs, n - 1, key);
      }
    }
  }

  /** The IDs given at a sighting. */
  lemma {:induction false} SeenNow(rules: map<U64, Rule>, hs: seq<Happening>, n: nat)
    requires n < |hs| && hs[n].Seen?
    ensures var key, x := hs[n].info.key, Told(rules, hs, n + 1);
            && key in x.processes && x.processes[key].info == hs[n].info
            && forall id :: id in x.processes[key].ids <==> id in rules && Matched(rules[id], hs, n)
    decreases 2 * n + 1
  {
    var info, parent := hs[n].info, LatestSeen(hs, n, hs[n].info.ppid);
    LatestIsLastSeen(rules, hs, n, info.ppid);
    if parent.Some? {
      LatestIsTracked(hs, n, info.ppid);
      TrackedAsSeen(rules, hs, n, hs[parent.value].info.key);
    }
  }
}
