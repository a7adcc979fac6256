/** The order in which a traversal visits the processes of a list, what it decides about each,
    and for which lists the decisions are the nearest matches. */
module VisitOrder {
  import opened Types
  import opened ProcessLists
  import opened Targets

  // ---------------------------------------------------------------- closed sets of PIDs

  ghost predicate ClosedUnderChildren(procs: seq<ProcessInfo>, visited: set<U32>) {
    ClosedAbove(procs, {}, visited)
  }

  /** Every child of a PID visited since `before` is visited. */
  ghost predicate ClosedAbove(procs: seq<ProcessInfo>, before: set<U32>, visited: set<U32>) {
    forall c :: c in procs && c.ppid in visited && c.ppid !in before ==> c.key.tgid in visited
  }

  lemma ClosedJoin(procs: seq<ProcessInfo>, a: set<U32>, b: set<U32>, c: set<U32>)
    requires ClosedAbove(procs, a, b) && ClosedAbove(procs, b, c) && b <= c
    ensures ClosedAbove(procs, a, c)
  {
  }

  ghost predicate FirstVisited(s: seq<ProcessInfo>, n: nat, visited: set<U32>)
    requires n <= |s|
  {
    forall j :: 0 <= j < n ==> s[j].key.tgid in visited
  }

  lemma NextVisited(s: seq<ProcessInfo>, n: nat, before: set<U32>, visited: set<U32>)
    requires n < |s| && FirstVisited(s, n, before) && before <= visited && s[n].key.tgid in visited
    ensures FirstVisited(s, n + 1, visited)
  {
  }

  lemma ClosedFinish(procs: seq<ProcessInfo>, a: set<U32>, pid: U32, byParent: ByParent, c: set<U32>)
    requires ClosedAbove(procs, a + {pid}, c) && Grouped(procs, byParent)
    requires FirstVisited(Children(byParent, pid), |Children(byParent, pid)|, c)
    ensures ClosedAbove(procs, a, c)
  {
    var children := Children(byParent, pid);
    assert IsChildren(procs, pid, children);
    forall q | q in procs && q.ppid in c && q.ppid !in a ensures q.key.tgid in c {
      if q.ppid == pid {
        assert q in children;
      }
    }
  }

  /** A closed set that holds an ancestor holds the process. */
  lemma {:induction false} ClosedDown(procs: seq<ProcessInfo>, visited: set<U32>, p: ProcessInfo, n: nat)
    requires ClosedUnderChildren(procs, visited) && p in procs
    requires Above(procs, p, n).Some? && Above(procs, p, n).value.key.tgid in visited
    ensures p.key.tgid in visited
    decreases n
  {
    if n > 0 {
      ClosedDown(procs, visited, Find(procs, p.ppid).value, n - 1);
    }
  }

  // ---------------------------------------------------------------- legal orders

  ghost predicate RootsVisited(procs: seq<ProcessInfo>, visited: set<U32>) {
    forall q :: q in procs && q.ppid == 0 ==> q.key.tgid in visited
  }

  /** A walk may start at `p` outside the roots: everything below what is visited is visited,
      so are all roots, and `p` is the first of the list that is not. */
  ghost predicate Start(procs: seq<ProcessInfo>, visited: set<U32>, p: ProcessInfo) {
    && ClosedUnderChildren(procs, visited) && RootsVisited(procs, visited)
    && exists i :: 0 <= i < |procs| && procs[i] == p && FirstVisited(procs, i, visited)
  }

  /** Why a process is visited next: it is a root, its parent is visited, or a walk starts. */
  ghost predicate MayVisit(procs: seq<ProcessInfo>, visited: set<U32>, p: ProcessInfo) {
    p.ppid == 0 || p.ppid in visited || Start(procs, visited, p)
  }

  /** Visits of processes of the list, each once, and each for a reason. */
  ghost predicate Legal(procs: seq<ProcessInfo>, order: seq<ProcessInfo>) {
    if order == [] then ProcessList(procs)
    else
      var front, last := order[..|order| - 1], order[|order| - 1];
      && Legal(procs, front) && last in procs && last.key.tgid !in Pids(front)
      && MayVisit(procs, Pids(front), last)
  }

  lemma LegalVisit(procs: seq<ProcessInfo>, order: seq<ProcessInfo>, p: ProcessInfo)
    requires Legal(procs, order) && p in procs && p.key.tgid !in Pids(order) && MayVisit(procs, Pids(order), p)
    ensures Legal(procs, order + [p]) && Pids(order + [p]) == Pids(order) + {p.key.tgid}
  {
    assert (order + [p])[..|order|] == order;
  }

  lemma {:induction false} LegalList(procs: seq<ProcessInfo>, order: seq<ProcessInfo>)
    requires Legal(procs, order)
    ensures ProcessList(procs)
    decreases |order|
  {
    if order != [] {
      LegalList(procs, order[..|order| - 1]);
    }
  }

  lemma {:induction false} LegalAt(procs: seq<ProcessInfo>, order: seq<ProcessInfo>, k: nat)
    requires Legal(procs, order) && k < |order|
    ensures order[k] in procs && order[k].key.tgid !in Pids(order[..k]) && MayVisit(procs, Pids(order[..k]), order[k])
    decreases |order|
  {
    var n := |order| - 1;
    if k < n {
      LegalAt(procs, order[..n], k);
      assert order[..n][..k] == order[..k];
    }
  }

  lemma LegalOnce(procs: seq<ProcessInfo>, order: seq<ProcessInfo>)
    requires Legal(procs, order)
    ensures UniquePids(order) && forall p :: p in order ==> p in procs
  {
    forall i, j | 0 <= i < j < |order| ensures order[i].key.tgid != order[j].key.tgid {
      LegalAt(procs, order, j);
      assert order[..j][i] == order[i] && order[i] in order[..j];
    }
    forall p | p in order ensures p in procs {
      var k :| 0 <= k < |order| && order[k] == p;
      LegalAt(procs, order, k);
    }
  }

  /** A complete traversal: every process of the list once, each for a reason. */
  ghost predicate TraversalOrder(procs: seq<ProcessInfo>, order: seq<ProcessInfo>) {
    && UniquePids(order) && (forall p :: p in order <==> p in procs)
    && forall k :: 0 <= k < |order| ==> MayVisit(procs, Pids(order[..k]), order[k])
  }

  lemma LegalTraversal(procs: seq<ProcessInfo>, order: seq<ProcessInfo>)
    requires Legal(procs, order) && FirstVisited(procs, |procs|, Pids(order))
    ensures TraversalOrder(procs, order)
  {
    LegalOnce(procs, order);
    LegalList(procs, order);
    forall p | p in procs ensures p in order {
      var q :| q in order && q.key.tgid == p.key.tgid;
      PidDeterminesProcess(procs, p, q);
    }
    forall k | 0 <= k < |order| ensures MayVisit(procs, Pids(order[..k]), order[k]) {
      LegalAt(procs, order, k);
    }
  }

  // ---------------------------------------------------------------- before its parent

  ghost predicate Ancestor(procs: seq<ProcessInfo>, a: ProcessInfo, p: ProcessInfo) {
    exists n: nat :: Above(procs, p, n) == Some(a)
  }

  /** The parent chain of `p` ends at PPID 0 inside the list. */
  ghost predicate Ends(procs: seq<ProcessInfo>, p: ProcessInfo) {
    exists n: nat :: Above(procs, p, n).Some? && Above(procs, p, n).value.ppid == 0
  }

  ghost predicate Precedes(procs: seq<ProcessInfo>, p: ProcessInfo, q: ProcessInfo) {
    exists i, j :: 0 <= i < j < |procs| && procs[i] == p && procs[j] == q
  }

  /** The chain of `p` does not end, and `p` comes before all its other ancestors in the list. */
  ghost predicate Early(procs: seq<ProcessInfo>, p: ProcessInfo) {
    !Ends(procs, p) && forall a :: Ancestor(procs, a, p) && a != p ==> Precedes(procs, p, a)
  }

  lemma AncestorUp(procs: seq<ProcessInfo>, a: ProcessInfo, p: ProcessInfo)
    requires Ancestor(procs, a, p)
    ensures Find(procs, a.ppid).Some? ==> Ancestor(procs, Find(procs, a.ppid).value, p)
    ensures a.ppid == 0 ==> Ends(procs, p)
  {
    var n: nat :| Above(procs, p, n) == Some(a);
    if Find(procs, a.ppid).Some? {
      UpAdd(PidMap(procs), p, n, 1);
      assert Above(procs, a, 1) == Above(procs, Find(procs, a.ppid).value, 0);
      assert Above(procs, p, n + 1) == Some(Find(procs, a.ppid).value);
    }
  }

  lemma PrefixOnce(order: seq<ProcessInfo>, n: nat, k: nat)
    requires UniquePids(order) && n <= k < |order|
    ensures order[k].key.tgid !in Pids(order[..n])
  {
  }

  /** Whatever comes before `p` in the list is visited when a walk starts after it. */
  lemma StartAfter(procs: seq<ProcessInfo>, visited: set<U32>, a: ProcessInfo, p: ProcessInfo)
    requires UniquePids(procs) && Start(procs, visited, a) && Precedes(procs, p, a)
    ensures p.key.tgid in visited
  {
    var i :| 0 <= i < |procs| && procs[i] == a && FirstVisited(procs, i, visited);
    var m, n :| 0 <= m < n < |procs| && procs[m] == p && procs[n] == a;
    assert n == i;
  }

  /** No other ancestor is visited before an early process. */
  lemma {:induction false} NoAncestorBefore(procs: seq<ProcessInfo>, order: seq<ProcessInfo>, k: nat, j: nat)
    requires ProcessList(procs) && TraversalOrder(procs, order) && j < k < |order| && Early(procs, order[k])
    ensures !Ancestor(procs, order[j], order[k])
    decreases j
  {
    var a, p, before := order[j], order[k], Pids(order[..j]);
    if Ancestor(procs, a, p) {
      AncestorUp(procs, a, p);
      assert MayVisit(procs, before, a);
      if a.ppid in before {
        var i := ParentIndex(procs, order, j, a.ppid);
        NoAncestorBefore(procs, order, k, i);
      } else {
        StartAfter(procs, before, a, p);
        PrefixOnce(order, j, k);
      }
    }
  }

  lemma ParentIndex(procs: seq<ProcessInfo>, order: seq<ProcessInfo>, n: nat, pid: U32) returns (i: nat)
    requires ProcessList(procs) && TraversalOrder(procs, order) && n <= |order| && pid in Pids(order[..n])
    ensures i < n && order[i].key.tgid == pid && Find(procs, pid) == Some(order[i])
  {
    var q :| q in order[..n] && q.key.tgid == pid;
    i :| 0 <= i < n && order[..n][i] == q;
    assert q in order;
    PidDeterminesProcess(procs, q, Find(procs, pid).value);
  }

  /** A walk that starts at `p` starts at an early process. */
  lemma StartIsEarly(procs: seq<ProcessInfo>, visited: set<U32>, p: ProcessInfo)
    requires ProcessList(procs) && p in procs && Start(procs, visited, p) && p.key.tgid !in visited
    ensures Early(procs, p)
  {
    if n: nat :| Above(procs, p, n).Some? && Above(procs, p, n).value.ppid == 0 {
      AboveListed(procs, p, n);
      ClosedDown(procs, visited, p, n);
    }
    forall a | Ancestor(procs, a, p) && a != p ensures Precedes(procs, p, a) {
      var n: nat :| Above(procs, p, n) == Some(a);
      AboveListed(procs, p, n);
      if a.key.tgid in visited {
        ClosedDown(procs, visited, p, n);
      }
      var i :| 0 <= i < |procs| && procs[i] == p && FirstVisited(procs, i, visited);
      var j :| 0 <= j < |procs| && procs[j] == a;
    }
  }

  lemma {:induction false} AboveListed(procs: seq<ProcessInfo>, p: ProcessInfo, n: nat)
    requires p in procs && Above(procs, p, n).Some?
    ensures Above(procs, p, n).value in procs
    decreases n
  {
    if n > 0 {
      AboveListed(procs, Find(procs, p.ppid).value, n - 1);
    }
  }

  /** The list alone tells which processes other than roots are visited before their parent. */
  lemma BeforeParentIff(procs: seq<ProcessInfo>, order: seq<ProcessInfo>, k: nat)
    requires ProcessList(procs) && TraversalOrder(procs, order) && k < |order| && order[k].ppid != 0
    ensures order[k].ppid !in Pids(order[..k]) <==> Early(procs, order[k])
  {
    var p, before := order[k], Pids(order[..k]);
    assert p in order;
    assert MayVisit(procs, before, p);
    PrefixOnce(order, k, k);
    if p.ppid !in before {
      StartIsEarly(procs, before, p);
    } else if Early(procs, p) {
      var i := ParentIndex(procs, order, k, p.ppid);
      assert Above(procs, p, 0) == Some(p);
      AncestorUp(procs, p, p);
      NoAncestorBefore(procs, order, k, i);
    }
  }

  // ---------------------------------------------------------------- decisions

  /** What the process with this PID is decided to be, given the order of visits: its own
      match, else the decision of its parent if that was visited before it. */
  ghost function Decided(order: seq<ProcessInfo>, check: CheckFunc, pid: U32): Decision {
    if order == [] then Miss
    else
      var before, last := order[..|order| - 1], order[|order| - 1];
      if last.key.tgid != pid then Decided(before, check, pid)
      else if Ask(check, last).Match? then Ask(check, last)
      else Decided(before, check, last.ppid)
  }

  lemma DecidedSnoc(order: seq<ProcessInfo>, check: CheckFunc, p: ProcessInfo, pid: U32)
    ensures Decided(order + [p], check, pid) ==
            if p.key.tgid != pid then Decided(order, check, pid)
            else if Ask(check, p).Match? then Ask(check, p)
            else Decided(order, check, p.ppid)
  {
    assert (order + [p])[..|order|] == order;
  }

  lemma {:induction false} DecidedMissing(order: seq<ProcessInfo>, check: CheckFunc, pid: U32)
    requires pid !in Pids(order)
    ensures Decided(order, check, pid) == Miss
  {
    if order != [] {
      var n := |order| - 1;
      assert order == order[..n] + [order[n]];
      assert order[n] in order;
      DecidedMissing(order[..n], check, pid);
    }
  }

  /** The decision on the `k`-th process is made from the visits before it and then stays. */
  lemma {:induction false} DecidedAt(order: seq<ProcessInfo>, n: nat, check: CheckFunc, k: nat)
    requires UniquePids(order) && k < n <= |order|
    ensures Decided(order[..n], check, order[k].key.tgid) ==
            if Ask(check, order[k]).Match? then Ask(check, order[k])
            else Decided(order[..k], check, order[k].ppid)
    decreases n
  {
    assert order[..n] == order[..n - 1] + [order[n - 1]];
    DecidedSnoc(order[..n - 1], check, order[n - 1], order[k].key.tgid);
    if k < n - 1 {
      DecidedAt(order, n - 1, check, k);
    }
  }

  lemma DecidedStays(order: seq<ProcessInfo>, n: nat, check: CheckFunc, k: nat)
    requires UniquePids(order) && k < n < |order|
    ensures Decided(order[..n + 1], check, order[k].key.tgid) == Decided(order[..n], check, order[k].key.tgid)
  {
    assert order[..n + 1] == order[..n] + [order[n]];
    DecidedSnoc(order[..n], check, order[n], order[k].key.tgid);
  }

  /** `p` is visited before a listed parent other than itself. */
  ghost predicate CutOff(procs: seq<ProcessInfo>, p: ProcessInfo) {
    Early(procs, p) && Find(procs, p.ppid).Some? && p.ppid != p.key.tgid
  }

  ghost predicate NoneCutOff(procs: seq<ProcessInfo>) {
    forall p :: p in procs ==> !CutOff(procs, p)
  }

  lemma {:induction false} DecidedIsNearest(
    procs: seq<ProcessInfo>, order: seq<ProcessInfo>, n: nat, check: CheckFunc, k: nat)
    requires ProcessList(procs) && TraversalOrder(procs, order) && NoneCutOff(procs) && k < n <= |order|
    ensures Decided(order[..n], check, order[k].key.tgid) == Nearest(procs, check, order[k])
    decreases n
  {
    DecidedAt(order, n, check, k);
    if order[k].ppid in Pids(order[..k]) {
      var i := ParentIndex(procs, order, k, order[k].ppid);
      DecidedIsNearest(procs, order, k, check, i);
      NearestUnfold(procs, check, order[k]);
    } else {
      DecidedMissing(order[..k], check, order[k].ppid);
      NoParentMisses(procs, order, check, k);
    }
  }

  lemma NoParentMisses(procs: seq<ProcessInfo>, order: seq<ProcessInfo>, check: CheckFunc, k: nat)
    requires ProcessList(procs) && TraversalOrder(procs, order) && k < |order|
    requires NoneCutOff(procs) && order[k].ppid !in Pids(order[..k])
    ensures Nearest(procs, check, order[k]) == Ask(check, order[k])
  {
    var p := order[k];
    assert p in order;
    NearestUnfold(procs, check, p);
    if p.ppid != 0 {
      BeforeParentIff(procs, order, k);
      if p.ppid == p.key.tgid && Ask(check, p).Miss? {
        OwnParentMisses(procs, check, p);
      }
    }
  }

  /** A checker that matches one process. */
  function MatchesOnly(q: ProcessInfo): CheckFunc {
    (info: ProcessInfo) => if info == q then Match(0, 0) else Miss
  }

  /** A process that is cut off misses its parent's mark, whatever the order. */
  lemma CutOffMisses(procs: seq<ProcessInfo>, order: seq<ProcessInfo>, p: ProcessInfo)
    requires ProcessList(procs) && TraversalOrder(procs, order) && p in procs && CutOff(procs, p)
    ensures var check := MatchesOnly(Find(procs, p.ppid).value);
            Decided(order, check, p.key.tgid) == Miss && Nearest(procs, check, p) == Match(0, 0)
  {
    var parent := Find(procs, p.ppid).value;
    var check := MatchesOnly(parent);
    assert p in order;
    var k :| 0 <= k < |order| && order[k] == p;
    assert Ask(check, parent) == Match(0, 0) && Ask(check, p) == Miss;
    BeforeParentIff(procs, order, k);
    DecidedAt(order, |order|, check, k);
    assert order[..|order|] == order;
    DecidedMissing(order[..k], check, p.ppid);
    NearestUnfold(procs, check, p);
    NearestUnfold(procs, check, parent);
  }

  /** Every checker gives every process its nearest match. */
  ghost predicate NearestEverywhere(procs: seq<ProcessInfo>, order: seq<ProcessInfo>) {
    forall check: CheckFunc, p :: p in procs ==> Decided(order, check, p.key.tgid) == Nearest(procs, check, p)
  }

  /** The exact condition on the list: none of its processes is cut off from its parent. */
  lemma NearestIff(procs: seq<ProcessInfo>, order: seq<ProcessInfo>)
    requires ProcessList(procs) && TraversalOrder(procs, order)
    ensures NearestEverywhere(procs, order) <==> NoneCutOff(procs)
  {
    if NoneCutOff(procs) {
      forall check: CheckFunc, p | p in procs
        ensures Decided(order, check, p.key.tgid) == Nearest(procs, check, p)
      {
        assert p in order;
        var k :| 0 <= k < |order| && order[k] == p;
        DecidedIsNearest(procs, order, |order|, check, k);
        assert order[..|order|] == order;
      }
    }
    if p :| p in procs && CutOff(procs, p) {
      CutOffMisses(procs, order, p);
    }
  }

  /** Lists whose parent chains all end meet the condition. */
  lemma EndingListsInherit(procs: seq<ProcessInfo>)
    requires forall p :: p in procs ==> Ends(procs, p)
    ensures NoneCutOff(procs)
  {
  }

  /** A parent whose own parent is not listed must be listed before its child: the same two
      processes are decided differently in the two list orders, whatever the order of visits. */
  lemma ListOrderMatters(parent: ProcessInfo, child: ProcessInfo, a: seq<ProcessInfo>, b: seq<ProcessInfo>)
    requires ProcessList([parent, child]) && child.ppid == parent.key.tgid
    requires parent.ppid !in {0, parent.key.tgid, child.key.tgid}
    requires TraversalOrder([parent, child], a) && TraversalOrder([child, parent], b)
    ensures NearestEverywhere([parent, child], a) && !NearestEverywhere([child, parent], b)
    ensures Decided(a, MatchesOnly(parent), child.key.tgid) == Match(0, 0)
    ensures Decided(b, MatchesOnly(parent), child.key.tgid) == Miss
  {
    TwoNotCutOff(parent, child);
    TwoCutOff(parent, child);
    NearestIff([parent, child], a);
    NearestIff([child, parent], b);
    CutOffMisses([child, parent], b, child);
    NearestUnfold([parent, child], MatchesOnly(parent), child);
    NearestUnfold([parent, child], MatchesOnly(parent), parent);
  }

  lemma TwoNotCutOff(parent: ProcessInfo, child: ProcessInfo)
    requires ProcessList([parent, child]) && child.ppid == parent.key.tgid
    requires parent.ppid !in {0, parent.key.tgid, child.key.tgid}
    ensures NoneCutOff([parent, child]) && Find([parent, child], child.ppid) == Some(parent)
  {
    var procs := [parent, child];
    TwoChain(procs, parent, child);
    assert procs[0] == parent && procs[1] == child;
    assert Above(procs, child, 1) == Some(parent) && Ancestor(procs, parent, child);
    assert !Precedes(procs, child, parent);
  }

  lemma TwoCutOff(parent: ProcessInfo, child: ProcessInfo)
    requires ProcessList([parent, child]) && child.ppid == parent.key.tgid
    requires parent.ppid !in {0, parent.key.tgid, child.key.tgid}
    ensures ProcessList([child, parent]) && CutOff([child, parent], child)
    ensures Find([child, parent], child.ppid) == Some(parent)
  {
    var procs := [child, parent];
    assert procs[0] == child && procs[1] == parent && [parent, child][0] == parent && [parent, child][1] == child;
    TwoChain(procs, parent, child);
    assert Precedes(procs, child, parent);
  }

  lemma TwoChain(procs: seq<ProcessInfo>, parent: ProcessInfo, child: ProcessInfo)
    requires ProcessList(procs) && |procs| == 2 && parent in procs && child in procs && child.ppid == parent.key.tgid
    requires parent.ppid !in {0, parent.key.tgid, child.key.tgid}
    ensures Find(procs, parent.ppid).None? && Find(procs, child.ppid) == Some(parent)
    ensures forall n: nat ::
              Above(procs, child, n) == if n == 0 then Some(child) else if n == 1 then Some(parent) else None
  {
    assert parent != child;
    assert forall q :: q in procs ==> q == parent || q == child;
    PidDeterminesProcess(procs, parent, Find(procs, child.ppid).value);
    forall n: nat
      ensures Above(procs, child, n) == if n == 0 then Some(child) else if n == 1 then Some(parent) else None
    {
      assert n >= 1 ==> Above(procs, child, n) == Above(procs, parent, n - 1);
      assert n >= 2 ==> Above(procs, parent, n - 1) == None;
    }
  }
}
