/** Registering a rule and observing processes commute. */
module TrackerOrder {
  import opened Types
  import opened Tracker

  /** Observation `i` has a new PID and is the parent of none before it, nor of itself. */
  ghost predicate FreshAt(obs: seq<ProcessInfo>, i: nat)
    requires i < |obs|
  {
    && obs[i].ppid != obs[i].key.tgid
    && forall j :: 0 <= j < i ==> obs[j].key.tgid != obs[i].key.tgid && obs[j].ppid != obs[i].key.tgid
  }

  /** Distinct PIDs, and every parent that is observed at all is observed first. */
  ghost predicate ParentsFirst(obs: seq<ProcessInfo>) {
    forall i :: 0 <= i < |obs| ==> FreshAt(obs, i)
  }

  /** The observation among the first `n` that has this PID. */
  ghost function FindPid(obs: seq<ProcessInfo>, n: nat, pid: U32): (r: Option<nat>)
    requires n <= |obs|
    ensures r.Some? ==> r.value < n && obs[r.value].key.tgid == pid
  {
    if n == 0 then None
    else if obs[n - 1].key.tgid == pid then Some(n - 1)
    else FindPid(obs, n - 1, pid)
  }

  ghost function ParentOf(obs: seq<ProcessInfo>, i: nat): (r: Option<nat>)
    requires i < |obs|
    ensures r.Some? ==> r.value < i
  {
    FindPid(obs, i, obs[i].ppid)
  }

  lemma {:induction false} ParentIsStable(obs: seq<ProcessInfo>, i: nat, n: nat)
    requires ParentsFirst(obs) && i <= n <= |obs| && i < |obs|
    ensures FindPid(obs, n, obs[i].ppid) == ParentOf(obs, i)
    decreases n
  {
    if i < n {
      assert FreshAt(obs, n - 1);
      ParentIsStable(obs, i, n - 1);
    }
  }

  /** The intended meaning: process `i` or an observed ancestor of it matches. */
  ghost predicate Member(rule: Rule, obs: seq<ProcessInfo>, i: nat)
    requires i < |obs|
    decreases i
  {
    Holds(rule, obs[i]) || (ParentOf(obs, i).Some? && Member(rule, obs, ParentOf(obs, i).value))
  }

  /** A tracker in state `x` at observation `m` that observes up to the `n`-th. */
  ghost function Observed(x: Index, rules: map<U64, Rule>, obs: seq<ProcessInfo>, m: nat, n: nat): Index
    requires m <= n <= |obs|
    decreases n
  {
    if m == n then x else Applied(Observed(x, rules, obs, m, n - 1), rules, obs[n - 1])
  }

  const EMPTY := Index(map[], map[])

  /** An empty tracker that makes the first `m` observations, registers `rule` under `id`, and
      makes the rest. */
  ghost function Outcome(rules: map<U64, Rule>, id: U64, rule: Rule, obs: seq<ProcessInfo>, m: nat): Index
    requires m <= |obs|
  {
    Observed(Registered(Observed(EMPTY, rules, obs, 0, m), id, rule), rules[id := rule], obs, m, |obs|)
  }

  // ---------------------------------------------------------------- what the tracker holds

  ghost function KeyAt(obs: seq<ProcessInfo>, i: Option<nat>): Option<Key>
    requires i.Some? ==> i.value < |obs|
  {
    if i.Some? then Some(obs[i.value].key) else None
  }

  /** The tracker holds the first `n` observations and follows no other PID. */
  ghost predicate Holding(x: Index, obs: seq<ProcessInfo>, n: nat)
    requires n <= |obs|
  {
    && (forall i :: 0 <= i < n ==> Tracks(x, obs[i]))
    && (forall pid :: Get(x.latestPID, pid) == KeyAt(obs, FindPid(obs, n, pid)))
  }

  predicate Tracks(x: Index, p: ProcessInfo) {
    p.key in x.processes && x.processes[p.key].info == p
  }

  lemma HoldingNext(x: Index, rules: map<U64, Rule>, obs: seq<ProcessInfo>, n: nat)
    requires ParentsFirst(obs) && n < |obs| && Holding(x, obs, n)
    ensures Holding(Applied(x, rules, obs[n]), obs, n + 1)
    ensures forall i :: 0 <= i < n ==> obs[i].key != obs[n].key
  {
    var y := Applied(x, rules, obs[n]);
    assert FreshAt(obs, n);
    forall pid ensures Get(y.latestPID, pid) == KeyAt(obs, FindPid(obs, n + 1, pid)) {
      assert Get(x.latestPID, pid) == KeyAt(obs, FindPid(obs, n, pid));
    }
  }

  /** The tracker follows each observation to its observed parent. */
  lemma FollowsParent(x: Index, obs: seq<ProcessInfo>, n: nat, i: nat)
    requires ParentsFirst(obs) && i <= n <= |obs| && i < |obs| && Holding(x, obs, n)
    ensures Get(x.latestPID, obs[i].ppid) == KeyAt(obs, ParentOf(obs, i))
  {
    ParentIsStable(obs, i, n);
    assert Get(x.latestPID, obs[i].ppid) == KeyAt(obs, FindPid(obs, n, obs[i].ppid));
  }

  // ---------------------------------------------------------------- before registration

  ghost predicate NoID(x: Index, id: U64) {
    forall k :: k in x.processes ==> id !in x.processes[k].ids
  }

  lemma {:induction false} HoldingAfter(x: Index, rules: map<U64, Rule>, obs: seq<ProcessInfo>, m: nat, n: nat)
    requires ParentsFirst(obs) && m <= n <= |obs| && Holding(x, obs, m)
    ensures Holding(Observed(x, rules, obs, m, n), obs, n)
    decreases n
  {
    if m < n {
      HoldingAfter(x, rules, obs, m, n - 1);
      HoldingNext(Observed(x, rules, obs, m, n - 1), rules, obs, n - 1);
    }
  }

  lemma {:induction false} NoIDBefore(rules: map<U64, Rule>, id: U64, obs: seq<ProcessInfo>, n: nat)
    requires n <= |obs| && id !in rules
    ensures NoID(Observed(EMPTY, rules, obs, 0, n), id)
    decreases n
  {
    if n > 0 {
      NoIDBefore(rules, id, obs, n - 1);
    }
  }

  lemma {:induction false} MatchedIsMember(x: Index, rule: Rule, obs: seq<ProcessInfo>, n: nat, i: nat, steps: nat)
    requires ParentsFirst(obs) && i < n <= |obs| && Holding(x, obs, n)
    requires MatchedWithin(x, rule, obs[i].key, steps)
    ensures Member(rule, obs, i)
    decreases i
  {
    assert Tracks(x, obs[i]);
    if !Holds(rule, obs[i]) {
      FollowsParent(x, obs, n, i);
      MatchedIsMember(x, rule, obs, n, ParentOf(obs, i).value, steps - 1);
    }
  }

  lemma {:induction false} MemberIsMatched(x: Index, rule: Rule, obs: seq<ProcessInfo>, n: nat, i: nat)
    requires ParentsFirst(obs) && i < n <= |obs| && Holding(x, obs, n) && Member(rule, obs, i)
    ensures MatchedWithin(x, rule, obs[i].key, i)
    decreases i
  {
    assert Tracks(x, obs[i]);
    if !Holds(rule, obs[i]) {
      var j := ParentOf(obs, i).value;
      FollowsParent(x, obs, n, i);
      MemberIsMatched(x, rule, obs, n, j);
      MatchedLonger(x, rule, obs[j].key, j, i - 1);
    }
  }

  lemma {:induction false} MatchedLonger(x: Index, rule: Rule, k: Key, n: nat, m: nat)
    requires MatchedWithin(x, rule, k, n) && n <= m
    ensures MatchedWithin(x, rule, k, m)
    decreases n
  {
    if !Holds(rule, x.processes[k].info) {
      MatchedLonger(x, rule, x.latestPID[x.processes[k].info.ppid], n - 1, m - 1);
    }
  }

  // ---------------------------------------------------------------- from registration on

  /** The ID is on the `i`th observation's entry iff it is a member. */
  ghost predicate MarkedRight(x: Index, id: U64, rule: Rule, obs: seq<ProcessInfo>, i: nat)
    requires i < |obs|
  {
    obs[i].key in x.processes && (id in x.processes[obs[i].key].ids <==> Member(rule, obs, i))
  }

  /** The ID marks exactly the members among the first `n` observations. */
  ghost predicate Marks(x: Index, id: U64, rule: Rule, obs: seq<ProcessInfo>, n: nat)
    requires n <= |obs|
  {
    Holding(x, obs, n) && forall i :: 0 <= i < n ==> MarkedRight(x, id, rule, obs, i)
  }

  lemma AtRegistration(x: Index, id: U64, rule: Rule, obs: seq<ProcessInfo>, n: nat)
    requires ParentsFirst(obs) && n <= |obs| && Holding(x, obs, n) && NoID(x, id)
    ensures Marks(Registered(x, id, rule), id, rule, obs, n)
  {
    var y := Registered(x, id, rule);
    assert Holding(y, obs, n) by {
      assert forall i :: 0 <= i < n ==> Tracks(x, obs[i]) && Tracks(y, obs[i]);
    }
    forall i | 0 <= i < n ensures MarkedRight(y, id, rule, obs, i) {
      assert Tracks(x, obs[i]);
      ReachedIffMember(x, rule, obs, n, i);
    }
  }

  lemma ReachedIffMember(x: Index, rule: Rule, obs: seq<ProcessInfo>, n: nat, i: nat)
    requires ParentsFirst(obs) && i < n <= |obs| && Holding(x, obs, n)
    ensures Reached(x, rule, obs[i].key) <==> Member(rule, obs, i)
  {
    if Reached(x, rule, obs[i].key) {
      var steps: nat :| MatchedWithin(x, rule, obs[i].key, steps);
      MatchedIsMember(x, rule, obs, n, i, steps);
    }
    if Member(rule, obs, i) {
      MemberIsMatched(x, rule, obs, n, i);
    }
  }

  lemma MarkedNext(x: Index, rules: map<U64, Rule>, id: U64, rule: Rule, obs: seq<ProcessInfo>, n: nat)
    requires ParentsFirst(obs) && n < |obs| && Holding(x, obs, n) && id in rules && rules[id] == rule
    requires ParentOf(obs, n).Some? ==> MarkedRight(x, id, rule, obs, ParentOf(obs, n).value)
    ensures MarkedRight(Applied(x, rules, obs[n]), id, rule, obs, n)
  {
    FollowsParent(x, obs, n, n);
  }

  lemma MarkedStays(x: Index, rules: map<U64, Rule>, id: U64, rule: Rule, obs: seq<ProcessInfo>, n: nat, i: nat)
    requires ParentsFirst(obs) && i < n < |obs| && MarkedRight(x, id, rule, obs, i)
    ensures MarkedRight(Applied(x, rules, obs[n]), id, rule, obs, i)
  {
    assert FreshAt(obs, n);
  }

  lemma {:induction false} AfterRegistration(
    x: Index, rules: map<U64, Rule>, id: U64, rule: Rule, obs: seq<ProcessInfo>, m: nat, n: nat, i: nat)
    requires ParentsFirst(obs) && m <= n <= |obs| && Marks(x, id, rule, obs, m) && i < n
    requires id in rules && rules[id] == rule
    ensures MarkedRight(Observed(x, rules, obs, m, n), id, rule, obs, i)
    decreases n
  {
    if m < n {
      var y := Observed(x, rules, obs, m, n - 1);
      if i < n - 1 {
        AfterRegistration(x, rules, id, rule, obs, m, n - 1, i);
        MarkedStays(y, rules, id, rule, obs, n - 1, i);
      } else {
        HoldingAfter(x, rules, obs, m, i);
        if ParentOf(obs, i).Some? {
          AfterRegistration(x, rules, id, rule, obs, m, i, ParentOf(obs, i).value);
        }
        MarkedNext(y, rules, id, rule, obs, i);
      }
    }
  }

  /** Wherever the rule is registered among the observations, every process ends up with the
      same membership: it has the ID iff it or an observed ancestor matches. */
  lemma RegisterObserveCommute(rules: map<U64, Rule>, id: U64, rule: Rule, obs: seq<ProcessInfo>, m: nat, i: nat)
    requires ParentsFirst(obs) && m <= |obs| && id !in rules && i < |obs|
    ensures obs[i].key in Outcome(rules, id, rule, obs, m).processes
    ensures id in Outcome(rules, id, rule, obs, m).processes[obs[i].key].ids <==> Member(rule, obs, i)
  {
    var x := Observed(EMPTY, rules, obs, 0, m);
    HoldingAfter(EMPTY, rules, obs, 0, m);
    NoIDBefore(rules, id, obs, m);
    AtRegistration(x, id, rule, obs, m);
    AfterRegistration(Registered(x, id, rule), rules[id := rule], id, rule, obs, m, |obs|, i);
  }
}
