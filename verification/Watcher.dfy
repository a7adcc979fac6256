/** The watcher's process tree: the marked processes of a snapshot, printed as a forest over
    their nearest marked ancestors. Parent links may be missing or cyclic. */
module Watcher {
  import opened Types
  import opened ProcessLists

  datatype Snapshot = Snapshot(entries: map<Key, Value>, procs: seq<ProcessInfo>)

  /** The indexes tree printing works on. */
  datatype View = View(procs: seq<ProcessInfo>, byPid: ByPid, byParent: ByParent, active: map<Key, Value>)

  /** One printed line: its indentation, the process, and the value shown for it. */
  datatype Line = Line(depth: nat, proc: ProcessInfo, value: Value)

  ghost predicate Indexes(v: View) {
    ProcessList(v.procs) && PidIndexed(v.procs, v.byPid) && Grouped(v.procs, v.byParent)
  }

  predicate Active(v: View, p: ProcessInfo) {
    p.key in v.active
  }

  // ---------------------------------------------------------------- ancestry

  ghost predicate ActiveAncestor(v: View, p: ProcessInfo) {
    exists n: nat :: n >= 1 && Up(v.byPid, p, n).Some? && Active(v, Up(v.byPid, p, n).value)
  }

  ghost predicate IsRoot(v: View, p: ProcessInfo) {
    p in v.procs && Active(v, p) && !ActiveAncestor(v, p)
  }

  /** `c` reaches `p` upwards through unmarked processes only; for a marked `p` this says that
      `p` is its nearest marked ancestor. */
  ghost predicate Via(v: View, p: ProcessInfo, c: ProcessInfo, n: nat) {
    && n >= 1 && Up(v.byPid, c, n) == Some(p)
    && forall m: nat :: 1 <= m < n ==> Up(v.byPid, c, m).Some? && !Active(v, Up(v.byPid, c, m).value)
  }

  ghost predicate Beneath(v: View, p: ProcessInfo, c: ProcessInfo) {
    c in v.procs && Active(v, c) && exists n: nat :: Via(v, p, c, n)
  }

  /** The marked processes at or anywhere below `p`. */
  ghost predicate Within(v: View, p: ProcessInfo, q: ProcessInfo) {
    q in v.procs && Active(v, q) && exists n: nat :: Up(v.byPid, q, n) == Some(p)
  }

  lemma {:induction false} UpListed(v: View, p: ProcessInfo, n: nat)
    requires Indexes(v) && p in v.procs && Up(v.byPid, p, n).Some?
    ensures Up(v.byPid, p, n).value in v.procs
    decreases n
  {
    if n > 0 {
      UpListed(v, v.byPid[p.ppid], n - 1);
    }
  }

  lemma UpOne(v: View, p: ProcessInfo, k: ProcessInfo)
    requires Indexes(v) && p in v.procs
    ensures k in Children(v.byParent, p.key.tgid) <==> k in v.procs && Up(v.byPid, k, 1) == Some(p)
  {
    assert IsChildren(v.procs, p.key.tgid, Children(v.byParent, p.key.tgid));
    if k.ppid in v.byPid {
      assert Up(v.byPid, k, 1) == Up(v.byPid, v.byPid[k.ppid], 0);
    }
  }

  lemma RootNotAbove(v: View, root: ProcessInfo, p: ProcessInfo, d: nat, e: nat)
    requires IsRoot(v, root) && Up(v.byPid, p, d) == Some(root) && Up(v.byPid, p, d + e).Some?
    requires Active(v, Up(v.byPid, p, d + e).value)
    ensures e == 0
  {
    UpAdd(v.byPid, p, d, e);
  }

  /** Below a root, distances to the root are unique: a cycle would make it its own ancestor. */
  lemma DistanceUnique(v: View, root: ProcessInfo, p: ProcessInfo, d: nat, e: nat)
    requires IsRoot(v, root) && Up(v.byPid, p, d) == Some(root) && Up(v.byPid, p, e) == Some(root)
    ensures d == e
  {
    RootNotAbove(v, root, p, if d < e then d else e, if d < e then e - d else d - e);
  }

  // ---------------------------------------------------------------- finding roots

  /** The unmarked processes `seen` are all the ancestors there are. */
  lemma {:induction false} NoneActive(v: View, seen: set<U32>, p: ProcessInfo, n: nat)
    requires forall pid :: pid in seen && pid in v.byPid ==>
               !Active(v, v.byPid[pid]) && (v.byPid[pid].ppid in v.byPid ==> v.byPid[pid].ppid in seen)
    requires p.ppid in v.byPid ==> p.ppid in seen
    requires n >= 1 && Up(v.byPid, p, n).Some?
    ensures !Active(v, Up(v.byPid, p, n).value)
    decreases n
  {
    if n > 1 {
      NoneActive(v, seen, v.byPid[p.ppid], n - 1);
    } else {
      assert Up(v.byPid, p, 1) == Up(v.byPid, v.byPid[p.ppid], 0);
    }
  }

  method HasActiveAncestor(v: View, proc: ProcessInfo) returns (r: bool)
    requires Indexes(v)
    ensures r <==> ActiveAncestor(v, proc)
  {
    var seen: set<U32>, ppid := {}, proc.ppid;
    ghost var n: nat, at := 0, proc;
    while ppid != 0
      invariant Up(v.byPid, proc, n) == Some(at) && at.ppid == ppid
      invariant proc.ppid in seen || proc.ppid == ppid
      invariant forall pid :: pid in seen ==>
                  && pid in v.byPid && !Active(v, v.byPid[pid])
                  && (v.byPid[pid].ppid in seen || v.byPid[pid].ppid == ppid)
      decreases v.byPid.Keys - seen
    {
      if ppid in seen || ppid !in v.byPid {
        break;
      }
      var parent := v.byPid[ppid];
      UpAdd(v.byPid, proc, n, 1);
      assert Up(v.byPid, at, 1) == Up(v.byPid, parent, 0);
      if Active(v, parent) {
        return true;
      }
      seen, n, at := seen + {ppid}, n + 1, parent;
      ppid := parent.ppid;
    }
    forall m: nat | m >= 1 && Up(v.byPid, proc, m).Some? ensures !Active(v, Up(v.byPid, proc, m).value) {
      NoneActive(v, seen, proc, m);
    }
    return false;
  }

  method FindRoots(v: View) returns (roots: seq<ProcessInfo>)
    requires Indexes(v)
    ensures Ascending(roots) && forall p :: p in roots <==> IsRoot(v, p)
  {
    roots := [];
    var rest := v.active.Keys;
    while rest != {}
      invariant rest <= v.active.Keys && Ascending(roots)
      invariant forall p :: p in roots <==> IsRoot(v, p) && p.key !in rest
    {
      var key :| key in rest;
      rest := rest - {key};
      if key.tgid in v.byPid && v.byPid[key.tgid].key.startTime == key.startTime {
        var proc := v.byPid[key.tgid];
        assert proc.key == key;
        forall p | p in v.procs && p.key == key ensures p == proc {
          PidDeterminesProcess(v.procs, p, proc);
        }
        var skip := HasActiveAncestor(v, proc);
        if !skip {
          forall i | 0 <= i < |roots| ensures roots[i].key.tgid != proc.key.tgid {
            assert roots[i] in roots;
            if roots[i].key.tgid == proc.key.tgid {
              PidDeterminesProcess(v.procs, roots[i], proc);
            }
          }
          InsertInOrder(roots, proc);
          forall p ensures p in Insert(roots, proc) <==> p in roots || p == proc {
            SpliceMembers(roots, Position(roots, proc.key.tgid), proc, p);
          }
          roots := Insert(roots, proc);
        }
      }
    }
  }

  // ---------------------------------------------------------------- marked children

  /** What walking into child `k` finds: `k` itself if marked, else whatever lies beneath it. */
  ghost predicate Yields(v: View, k: ProcessInfo, c: ProcessInfo) {
    if Active(v, k) then c == k else Beneath(v, k, c)
  }

  lemma ViaParent(v: View, p: ProcessInfo, c: ProcessInfo, n: nat) returns (k: ProcessInfo)
    requires Indexes(v) && p in v.procs && c in v.procs && Active(v, c) && Via(v, p, c, n)
    ensures k in Children(v.byParent, p.key.tgid) && Yields(v, k, c)
  {
    k := if n == 1 then c else Up(v.byPid, c, n - 1).value;
    if n > 1 {
      UpAdd(v.byPid, c, n - 1, 1);
      UpListed(v, c, n - 1);
      assert Via(v, k, c, n - 1);
    }
    UpOne(v, p, k);
  }

  lemma YieldsBeneath(v: View, p: ProcessInfo, k: ProcessInfo, c: ProcessInfo)
    requires Indexes(v) && p in v.procs && k in Children(v.byParent, p.key.tgid) && Yields(v, k, c)
    ensures Beneath(v, p, c)
  {
    UpOne(v, p, k);
    if Active(v, k) {
      assert Via(v, p, c, 1);
    } else {
      var n: nat :| Via(v, k, c, n);
      UpAdd(v.byPid, c, n, 1);
      assert Via(v, p, c, n + 1);
    }
  }

  lemma BeneathUnfold(v: View, p: ProcessInfo, c: ProcessInfo)
    requires Indexes(v) && p in v.procs
    ensures Beneath(v, p, c) <==> exists k :: k in Children(v.byParent, p.key.tgid) && Yields(v, k, c)
  {
    if Beneath(v, p, c) {
      var n: nat :| Via(v, p, c, n);
      var k := ViaParent(v, p, c, n);
    }
    if k :| k in Children(v.byParent, p.key.tgid) && Yields(v, k, c) {
      YieldsBeneath(v, p, k, c);
    }
  }

  /** `p` lies `d` steps below `root`. */
  ghost predicate At(v: View, root: ProcessInfo, p: ProcessInfo, d: nat) {
    p in v.procs && Up(v.byPid, p, d) == Some(root)
  }

  lemma Lower(v: View, root: ProcessInfo, p: ProcessInfo, d: nat, c: ProcessInfo, n: nat)
    requires At(v, root, p, d) && c in v.procs && Up(v.byPid, c, n) == Some(p)
    ensures At(v, root, c, n + d)
  {
    UpAdd(v.byPid, c, n, d);
  }

  /** Siblings below a root yield different processes. */
  lemma YieldsDisjoint(v: View, root: ProcessInfo, d: nat, a: ProcessInfo, b: ProcessInfo, c: ProcessInfo)
    requires IsRoot(v, root) && At(v, root, a, d) && At(v, root, b, d) && Yields(v, a, c) && Yields(v, b, c)
    ensures a == b
  {
    var m := YieldDistance(v, a, c);
    var n := YieldDistance(v, b, c);
    UpAdd(v.byPid, c, m, d);
    UpAdd(v.byPid, c, n, d);
    DistanceUnique(v, root, c, m + d, n + d);
  }

  lemma YieldDistance(v: View, k: ProcessInfo, c: ProcessInfo) returns (n: nat)
    requires Yields(v, k, c)
    ensures Up(v.byPid, c, n) == Some(k)
  {
    if Active(v, k) {
      n := 0;
    } else {
      n :| Via(v, k, c, n);
    }
  }

  /** The processes passed on the way down from the root, all nearer to it than distance `d`. */
  ghost predicate Passed(v: View, root: ProcessInfo, d: nat, path: set<U32>) {
    forall pid :: pid in path ==> pid in v.byPid && exists e: nat :: e < d && At(v, root, v.byPid[pid], e)
  }

  lemma PathGrows(v: View, root: ProcessInfo, p: ProcessInfo, d: nat, n: nat, path: set<U32>)
    requires Indexes(v) && IsRoot(v, root) && At(v, root, p, d) && Passed(v, root, d, path) && n >= 1
    ensures p.key.tgid !in path && Passed(v, root, n + d, path + {p.key.tgid})
  {
    if p.key.tgid in path {
      var e: nat :| e < d && At(v, root, p, e);
      DistanceUnique(v, root, p, d, e);
    }
    forall pid | pid in path + {p.key.tgid}
      ensures pid in v.byPid && exists e: nat :: e < n + d && At(v, root, v.byPid[pid], e)
    {
      if pid == p.key.tgid {
        assert At(v, root, v.byPid[pid], d);
      } else {
        var e: nat :| e < d && At(v, root, v.byPid[pid], e);
        assert e < n + d;
      }
    }
  }

  predicate NoRepeats<T(==)>(s: seq<T>) {
    forall i, j :: 0 <= i < j < |s| ==> s[i] != s[j]
  }

  lemma NoRepeatsConcat<T>(a: seq<T>, b: seq<T>)
    requires NoRepeats(a) && NoRepeats(b) && forall x :: x in a ==> x !in b
    ensures NoRepeats(a + b)
  {
    forall i, j | 0 <= i < j < |a + b| ensures (a + b)[i] != (a + b)[j] {
      if i < |a| <= j {
        assert a[i] in a && b[j - |a|] in b;
      }
    }
  }

  /** `a` and `b` are siblings below `root`, `a` with the smaller PID. */
  ghost predicate SiblingsInOrder(v: View, root: ProcessInfo, a: ProcessInfo, b: ProcessInfo) {
    a.ppid == b.ppid && a.key.tgid < b.key.tgid && exists e: nat :: e >= 1 && At(v, root, a, e)
  }

  /** Where the ways up from `x` and `y` meet, `x` comes from the child with the smaller PID. */
  ghost predicate LeftOf(v: View, root: ProcessInfo, x: ProcessInfo, y: ProcessInfo) {
    exists m: nat, n: nat ::
      Up(v.byPid, x, m).Some? && Up(v.byPid, y, n).Some?
          && SiblingsInOrder(v, root, Up(v.byPid, x, m).value, Up(v.byPid, y, n).value)
  }

  lemma LeftOfDown(v: View, root: ProcessInfo, a: ProcessInfo, b: ProcessInfo, x: ProcessInfo, i: nat,
      y: ProcessInfo, j: nat)
    requires LeftOf(v, root, a, b) && Up(v.byPid, x, i) == Some(a) && Up(v.byPid, y, j) == Some(b)
    ensures LeftOf(v, root, x, y)
  {
    var m: nat, n: nat :|
      Up(v.byPid, a, m).Some? && Up(v.byPid, b, n).Some?
          && SiblingsInOrder(v, root, Up(v.byPid, a, m).value, Up(v.byPid, b, n).value);
    UpAdd(v.byPid, x, i, m);
    UpAdd(v.byPid, y, j, n);
  }

  ghost predicate LeftToRight(v: View, root: ProcessInfo, s: seq<ProcessInfo>) {
    forall i, j :: 0 <= i < j < |s| ==> LeftOf(v, root, s[i], s[j])
  }

  lemma LeftToRightConcat(v: View, root: ProcessInfo, a: seq<ProcessInfo>, b: seq<ProcessInfo>)
    requires LeftToRight(v, root, a) && LeftToRight(v, root, b)
    requires forall x, y :: x in a && y in b ==> LeftOf(v, root, x, y)
    ensures LeftToRight(v, root, a + b)
  {
    forall i, j | 0 <= i < j < |a + b| ensures LeftOf(v, root, (a + b)[i], (a + b)[j]) {
      if i < |a| <= j {
        assert a[i] in a && b[j - |a|] in b;
      }
    }
  }

  /** Only marked processes have been printed. */
  ghost predicate Tidy(v: View, seen: set<U32>) {
    forall q :: q in v.procs && q.key.tgid in seen ==> Active(v, q)
  }

  ghost predicate NoneSeenBeneath(v: View, p: ProcessInfo, seen: set<U32>) {
    forall c :: Beneath(v, p, c) ==> c.key.tgid !in seen
  }

  lemma ChildrenUnseen(v: View, p: ProcessInfo, seen: set<U32>, k: ProcessInfo)
    requires Indexes(v) && p in v.procs && Tidy(v, seen) && NoneSeenBeneath(v, p, seen)
    requires k in Children(v.byParent, p.key.tgid)
    ensures k.key.tgid !in seen && (!Active(v, k) ==> NoneSeenBeneath(v, k, seen))
  {
    UpOne(v, p, k);
    if Active(v, k) {
      YieldsBeneath(v, p, k, k);
    } else {
      forall c | Beneath(v, k, c) ensures c.key.tgid !in seen {
        YieldsBeneath(v, p, k, c);
      }
    }
  }

  /** The marked processes found by walking into unseen children. */
  ghost predicate Found(v: View, kids: seq<ProcessInfo>, seen: set<U32>, c: ProcessInfo) {
    exists j :: 0 <= j < |kids| && kids[j].key.tgid !in seen && Yields(v, kids[j], c)
  }

  lemma FoundOneMore(v: View, kids: seq<ProcessInfo>, seen: set<U32>, i: nat, c: ProcessInfo)
    requires i < |kids|
    ensures Found(v, kids[..i + 1], seen, c) <==>
              Found(v, kids[..i], seen, c) || (kids[i].key.tgid !in seen && Yields(v, kids[i], c))
  {
    if Found(v, kids[..i], seen, c) {
      var j :| 0 <= j < i && kids[..i][j].key.tgid !in seen && Yields(v, kids[..i][j], c);
      assert kids[..i + 1][j] == kids[j];
    }
    assert kids[..i + 1][i] == kids[i];
  }

  lemma FoundBefore(v: View, root: ProcessInfo, p: ProcessInfo, d: nat, kids: seq<ProcessInfo>, seen: set<U32>,
      i: nat, c: ProcessInfo)
    requires Indexes(v) && IsRoot(v, root) && At(v, root, p, d)
    requires kids == Children(v.byParent, p.key.tgid) && i < |kids| && Yields(v, kids[i], c)
    ensures !Found(v, kids[..i], seen, c)
  {
    assert IsChildren(v.procs, p.key.tgid, kids);
    if Found(v, kids[..i], seen, c) {
      var j :| 0 <= j < i && kids[..i][j].key.tgid !in seen && Yields(v, kids[..i][j], c);
      assert kids[j] in kids && kids[i] in kids;
      UpOne(v, p, kids[i]);
      UpOne(v, p, kids[j]);
      Lower(v, root, p, d, kids[i], 1);
      Lower(v, root, p, d, kids[j], 1);
      YieldsDisjoint(v, root, 1 + d, kids[j], kids[i], c);
    }
  }

  lemma FoundLeft(
    v: View, root: ProcessInfo, p: ProcessInfo, d: nat, kids: seq<ProcessInfo>, seen: set<U32>, i: nat,
    x: ProcessInfo, y: ProcessInfo)
    requires Indexes(v) && At(v, root, p, d) && kids == Children(v.byParent, p.key.tgid) && i < |kids|
    requires Found(v, kids[..i], seen, x) && Yields(v, kids[i], y)
    ensures LeftOf(v, root, x, y)
  {
    assert IsChildren(v.procs, p.key.tgid, kids);
    var j :| 0 <= j < i && kids[..i][j].key.tgid !in seen && Yields(v, kids[..i][j], x);
    var a, b := kids[j], kids[i];
    assert a in kids && b in kids;
    UpOne(v, p, a);
    Lower(v, root, p, d, a, 1);
    assert SiblingsInOrder(v, root, a, b);
    var m := YieldDistance(v, a, x);
    var n := YieldDistance(v, b, y);
  }

  /** Lists, each once and from left to right, the marked processes below `parent` with only
      unmarked ones between. It ends on every snapshot: below a root nothing repeats. */
  method ActiveWatcherChildren(v: View, parent: ProcessInfo, seen: set<U32>, ghost root: ProcessInfo, ghost d: nat,
      ghost path: set<U32>)
    returns (children: seq<ProcessInfo>)
    requires Indexes(v) && IsRoot(v, root) && At(v, root, parent, d) && Passed(v, root, d, path)
    requires Tidy(v, seen) && NoneSeenBeneath(v, parent, seen)
    ensures forall c :: c in children <==> Beneath(v, parent, c)
    ensures NoRepeats(children) && LeftToRight(v, root, children)
    decreases v.byPid.Keys - path
  {
    children := [];
    var kids := Children(v.byParent, parent.key.tgid);
    PathGrows(v, root, parent, d, 1, path);
    for i := 0 to |kids|
      invariant forall c :: c in children <==> Found(v, kids[..i], seen, c)
      invariant NoRepeats(children) && LeftToRight(v, root, children)
    {
      var child := kids[i];
      forall c ensures Found(v, kids[..i + 1], seen, c) <==>
                         Found(v, kids[..i], seen, c) || (child.key.tgid !in seen && Yields(v, child, c))
      {
        FoundOneMore(v, kids, seen, i, c);
      }
      if child.key.tgid in seen {
        continue;
      }
      var more := [child];
      if !Active(v, child) {
        UpOne(v, parent, child);
        Lower(v, root, parent, d, child, 1);
        ChildrenUnseen(v, parent, seen, child);
        more := ActiveWatcherChildren(v, child, seen, root, 1 + d, path + {parent.key.tgid});
      }
      forall c | c in children ensures c !in more {
        if c in more {
          FoundBefore(v, root, parent, d, kids, seen, i, c);
        }
      }
      forall x, y | x in children && y in more ensures LeftOf(v, root, x, y) {
        FoundLeft(v, root, parent, d, kids, seen, i, x, y);
      }
      NoRepeatsConcat(children, more);
      LeftToRightConcat(v, root, children, more);
      children := children + more;
    }
    assert kids[..|kids|] == kids;
    forall c ensures Found(v, kids, seen, c) <==> Beneath(v, parent, c) {
      BeneathUnfold(v, parent, c);
      forall k | k in kids ensures k.key.tgid !in seen {
        ChildrenUnseen(v, parent, seen, k);
      }
    }
  }

  // ---------------------------------------------------------------- the tree below a root

  /** Line `i` is one deeper than an earlier line, that of its nearest marked ancestor, and
      belongs to the subtree drawn under that line. */
  ghost predicate Under(v: View, lines: seq<Line>, i: int) {
    exists j :: 0 <= j < i < |lines| && lines[j].depth + 1 == lines[i].depth
                && Beneath(v, lines[j].proc, lines[i].proc)
                && forall k :: j < k < i ==> lines[k].depth >= lines[i].depth
  }

  ghost predicate Nested(v: View, lines: seq<Line>) {
    && |lines| > 0
    && forall i :: 1 <= i < |lines| ==> lines[i].depth > lines[0].depth && Under(v, lines, i)
  }

  predicate ShowsValues(v: View, lines: seq<Line>) {
    forall i :: 0 <= i < |lines| ==> Active(v, lines[i].proc) && lines[i].value == v.active[lines[i].proc.key]
  }

  function Procs(lines: seq<Line>): seq<ProcessInfo> {
    seq(|lines|, i requires 0 <= i < |lines| => lines[i].proc)
  }

  lemma ProcsConcat(a: seq<Line>, b: seq<Line>)
    ensures Procs(a + b) == Procs(a) + Procs(b)
  {
  }

  lemma UnderAfter(v: View, a: seq<Line>, b: seq<Line>, i: int)
    requires Under(v, b, i)
    ensures Under(v, a + b, |a| + i)
  {
    var j :| 0 <= j < i && b[j].depth + 1 == b[i].depth && Beneath(v, b[j].proc, b[i].proc)
             && forall k :: j < k < i ==> b[k].depth >= b[i].depth;
    var all, n := a + b, |a|;
    assert all[n + j] == b[j] && all[n + i] == b[i];
    assert forall k :: n + j < k < n + i ==> all[k] == b[k - n];
  }

  lemma UnderBefore(v: View, a: seq<Line>, b: seq<Line>, i: int)
    requires Under(v, a, i)
    ensures Under(v, a + b, i)
  {
    var j :| 0 <= j < i && a[j].depth + 1 == a[i].depth && Beneath(v, a[j].proc, a[i].proc)
             && forall k :: j < k < i ==> a[k].depth >= a[i].depth;
    var all := a + b;
    assert all[j] == a[j] && all[i] == a[i];
    assert forall k :: j < k < i ==> all[k] == a[k];
  }

  /** The first line of a subtree lies under the line it is drawn below. */
  lemma UnderJoint(v: View, a: seq<Line>, b: seq<Line>)
    requires Nested(v, a) && |b| > 0
    requires b[0].depth == a[0].depth + 1 && Beneath(v, a[0].proc, b[0].proc)
    ensures Under(v, a + b, |a|)
  {
    var all := a + b;
    assert all[0] == a[0] && all[|a|] == b[0];
    assert forall k :: 0 < k < |a| ==> all[k] == a[k];
  }

  /** Drawing one more subtree below the first line keeps the nesting. */
  lemma Graft(v: View, lines: seq<Line>, sub: seq<Line>)
    requires Nested(v, lines) && Nested(v, sub)
    requires sub[0].depth == lines[0].depth + 1 && Beneath(v, lines[0].proc, sub[0].proc)
    ensures Nested(v, lines + sub)
  {
    var all, n := lines + sub, |lines|;
    forall i | 1 <= i < |all| ensures all[i].depth > all[0].depth && Under(v, all, i) {
      if i < n {
        assert all[i] == lines[i];
        UnderBefore(v, lines, sub, i);
      } else if i == n {
        UnderJoint(v, lines, sub);
      } else {
        assert all[i] == sub[i - n];
        UnderAfter(v, lines, sub, i - n);
      }
    }
  }

  lemma TopActive(v: View, p: ProcessInfo, q: ProcessInfo, n: nat) returns (c: ProcessInfo)
    requires Indexes(v) && q in v.procs && Active(v, q) && n >= 1 && Up(v.byPid, q, n) == Some(p)
    ensures Beneath(v, p, c) && Within(v, c, q)
    decreases n
  {
    if m: nat :| 1 <= m < n && (Up(v.byPid, q, m).None? || Active(v, Up(v.byPid, q, m).value)) {
      UpSome(v.byPid, q, m, n);
      var above := Up(v.byPid, q, m).value;
      UpAdd(v.byPid, q, m, n - m);
      UpListed(v, q, m);
      c := TopActive(v, p, above, n - m);
      var k: nat :| Up(v.byPid, above, k) == Some(c);
      UpAdd(v.byPid, q, m, k);
    } else {
      c := q;
      assert Via(v, p, q, n);
      assert Up(v.byPid, q, 0) == Some(c);
    }
  }

  /** What is marked at or below a marked process: itself, or at or below a marked child. */
  lemma WithinUnfold(v: View, p: ProcessInfo, q: ProcessInfo)
    requires Indexes(v) && p in v.procs && Active(v, p)
    ensures Within(v, p, q) <==> q == p || exists c :: Beneath(v, p, c) && Within(v, c, q)
  {
    if Within(v, p, q) && q != p {
      var n: nat :| Up(v.byPid, q, n) == Some(p);
      var c := TopActive(v, p, q, n);
    }
    assert Up(v.byPid, p, 0) == Some(p);
    if c :| Beneath(v, p, c) && Within(v, c, q) {
      var m: nat :| Up(v.byPid, q, m) == Some(c);
      var n: nat :| Via(v, p, c, n);
      UpAdd(v.byPid, q, m, n);
    }
  }

  /** Subtrees of different marked children share nothing, nor do they contain their parent. */
  lemma SubtreesDisjoint(v: View, root: ProcessInfo, p: ProcessInfo, d: nat, a: ProcessInfo, b: ProcessInfo,
      q: ProcessInfo)
    requires IsRoot(v, root) && At(v, root, p, d) && Beneath(v, p, a) && Within(v, a, q)
    ensures q != p
    ensures Beneath(v, p, b) && Within(v, b, q) ==> a == b
  {
    var m: nat :| Up(v.byPid, q, m) == Some(a);
    var k: nat :| Via(v, p, a, k);
    Lower(v, root, p, d, a, k);
    Lower(v, root, a, k + d, q, m);
    if q == p {
      DistanceUnique(v, root, q, d, m + k + d);
    }
    if Beneath(v, p, b) && Within(v, b, q) {
      var n: nat :| Up(v.byPid, q, n) == Some(b);
      if m <= n {
        NotPastParent(v, root, p, d, q, a, m, b, n);
      } else {
        NotPastParent(v, root, p, d, q, b, n, a, m);
      }
    }
  }

  /** Going up from one marked child, its parent comes before any other marked child. */
  lemma NotPastParent(
    v: View, root: ProcessInfo, p: ProcessInfo, d: nat, q: ProcessInfo,
    a: ProcessInfo, m: nat, b: ProcessInfo, n: nat)
    requires IsRoot(v, root) && At(v, root, p, d) && Beneath(v, p, a) && Beneath(v, p, b)
    requires m <= n && Up(v.byPid, q, m) == Some(a) && Up(v.byPid, q, n) == Some(b)
    ensures a == b
  {
    var k: nat :| Via(v, p, a, k);
    var l: nat :| Via(v, p, b, l);
    UpAdd(v.byPid, q, m, n - m);
    Lower(v, root, p, d, b, l);
    if n - m >= k {
      UpAdd(v.byPid, a, k, n - m - k);
      UpAdd(v.byPid, p, n - m - k, l + d);
      DistanceUnique(v, root, p, d, n - m - k + l + d);
    }
  }

  /** Ancestors first, and otherwise from left to right. */
  ghost predicate Preorder(v: View, root: ProcessInfo, s: seq<ProcessInfo>) {
    forall i, j :: 0 <= i < j < |s| ==> Within(v, s[i], s[j]) || LeftOf(v, root, s[i], s[j])
  }

  lemma PreorderConcat(v: View, root: ProcessInfo, a: seq<ProcessInfo>, b: seq<ProcessInfo>)
    requires Preorder(v, root, a) && Preorder(v, root, b)
    requires forall x, y :: x in a && y in b ==> Within(v, x, y) || LeftOf(v, root, x, y)
    ensures Preorder(v, root, a + b)
  {
    forall i, j | 0 <= i < j < |a + b|
      ensures Within(v, (a + b)[i], (a + b)[j]) || LeftOf(v, root, (a + b)[i], (a + b)[j])
    {
      if i < |a| <= j {
        assert a[i] in a && b[j - |a|] in b;
      }
    }
  }

  /** The lines printed for `proc`: every marked process at or below it, once, in preorder. */
  ghost predicate Subtree(v: View, root: ProcessInfo, proc: ProcessInfo, depth: nat, lines: seq<Line>) {
    && Nested(v, lines) && lines[0].proc == proc && lines[0].depth == depth
    && ShowsValues(v, lines) && NoRepeats(Procs(lines)) && Preorder(v, root, Procs(lines))
    && forall q :: q in Procs(lines) <==> Within(v, proc, q)
  }

  ghost predicate InSubtrees(v: View, children: seq<ProcessInfo>, q: ProcessInfo) {
    exists j :: 0 <= j < |children| && Within(v, children[j], q)
  }

  lemma InOneMore(v: View, children: seq<ProcessInfo>, i: nat, q: ProcessInfo)
    requires i < |children|
    ensures InSubtrees(v, children[..i + 1], q) <==> InSubtrees(v, children[..i], q) || Within(v, children[i], q)
  {
    if InSubtrees(v, children[..i], q) {
      var j :| 0 <= j < i && Within(v, children[..i][j], q);
      assert children[..i + 1][j] == children[j];
    }
    assert children[..i + 1][i] == children[i];
  }

  /** Between two children: the subtrees of `children` are drawn and marked as seen. */
  ghost predicate Drawn(v: View, root: ProcessInfo, proc: ProcessInfo, depth: nat, children: seq<ProcessInfo>,
      lines: seq<Line>, before: set<U32>, seen: set<U32>) {
    && Nested(v, lines) && lines[0].proc == proc && lines[0].depth == depth
    && ShowsValues(v, lines) && NoRepeats(Procs(lines)) && Preorder(v, root, Procs(lines))
    && (forall q :: q in Procs(lines) <==> q == proc || InSubtrees(v, children, q))
    && Tidy(v, seen)
    && forall q :: q in v.procs ==>
         (q.key.tgid in seen <==> q.key.tgid in before || q == proc || InSubtrees(v, children, q))
  }

  lemma DrawOneMore(
    v: View, root: ProcessInfo, proc: ProcessInfo, d: nat, depth: nat, children: seq<ProcessInfo>, i: nat,
    lines: seq<Line>, sub: seq<Line>, before: set<U32>, seen: set<U32>, seen': set<U32>)
    requires Indexes(v) && IsRoot(v, root) && At(v, root, proc, d) && i < |children|
    requires NoRepeats(children) && LeftToRight(v, root, children) && Active(v, proc)
    requires forall c :: c in children ==> Beneath(v, proc, c)
    requires Drawn(v, root, proc, depth, children[..i], lines, before, seen)
    requires Subtree(v, root, children[i], depth + 1, sub) && Tidy(v, seen')
    requires forall q :: q in v.procs ==> (q.key.tgid in seen' <==> q.key.tgid in seen || Within(v, children[i], q))
    ensures Drawn(v, root, proc, depth, children[..i + 1], lines + sub, before, seen')
  {
    assert children[i] in children;
    Graft(v, lines, sub);
    ProcsConcat(lines, sub);
    forall q ensures InSubtrees(v, children[..i + 1], q) <==>
        InSubtrees(v, children[..i], q) || Within(v, children[i], q) {
      InOneMore(v, children, i, q);
    }
    forall q | q in Procs(lines) ensures q !in Procs(sub) {
      if q in Procs(sub) {
        SubtreeIsNew(v, root, proc, d, children, i, q);
      }
    }
    NoRepeatsConcat(Procs(lines), Procs(sub));
    forall x, y | x in Procs(lines) && y in Procs(sub) ensures Within(v, x, y) || LeftOf(v, root, x, y) {
      DrawnLeft(v, root, proc, children, i, x, y);
    }
    PreorderConcat(v, root, Procs(lines), Procs(sub));
  }

  lemma DrawnLeft(v: View, root: ProcessInfo, proc: ProcessInfo, children: seq<ProcessInfo>, i: nat, x: ProcessInfo,
      y: ProcessInfo)
    requires Indexes(v) && proc in v.procs && Active(v, proc) && i < |children| && LeftToRight(v, root, children)
    requires x == proc || InSubtrees(v, children[..i], x)
    requires Beneath(v, proc, children[i]) && Within(v, children[i], y)
    ensures Within(v, x, y) || LeftOf(v, root, x, y)
  {
    if x == proc {
      WithinUnfold(v, proc, y);
    } else {
      var j :| 0 <= j < i && Within(v, children[..i][j], x);
      var m: nat :| Up(v.byPid, x, m) == Some(children[j]);
      var n: nat :| Up(v.byPid, y, n) == Some(children[i]);
      LeftOfDown(v, root, children[j], children[i], x, m, y, n);
    }
  }

  lemma SubtreeIsNew(v: View, root: ProcessInfo, proc: ProcessInfo, d: nat, children: seq<ProcessInfo>, i: nat,
      q: ProcessInfo)
    requires IsRoot(v, root) && At(v, root, proc, d) && i < |children|
    requires NoRepeats(children) && forall c :: c in children ==> Beneath(v, proc, c)
    requires Within(v, children[i], q)
    ensures q != proc && !InSubtrees(v, children[..i], q)
  {
    assert children[i] in children;
    SubtreesDisjoint(v, root, proc, d, children[i], children[i], q);
    if InSubtrees(v, children[..i], q) {
      var j :| 0 <= j < i && Within(v, children[..i][j], q);
      assert children[j] in children;
      SubtreesDisjoint(v, root, proc, d, children[i], children[j], q);
    }
  }

  ghost predicate NoneSeenWithin(v: View, p: ProcessInfo, seen: set<U32>) {
    forall q :: Within(v, p, q) && q != p ==> q.key.tgid !in seen
  }

  /** While children are drawn, the next one and all below it are still unseen. */
  lemma NextUnseen(
    v: View, root: ProcessInfo, proc: ProcessInfo, d: nat, depth: nat, children: seq<ProcessInfo>, i: nat,
    lines: seq<Line>, before: set<U32>, seen: set<U32>)
    requires Indexes(v) && IsRoot(v, root) && At(v, root, proc, d) && Active(v, proc) && i < |children|
    requires NoRepeats(children) && forall c :: c in children ==> Beneath(v, proc, c)
    requires NoneSeenWithin(v, proc, before) && Drawn(v, root, proc, depth, children[..i], lines, before, seen)
    ensures children[i].key.tgid !in seen && NoneSeenWithin(v, children[i], seen)
  {
    var child := children[i];
    assert child in children && Up(v.byPid, child, 0) == Some(child);
    forall q | Within(v, child, q) ensures q.key.tgid !in seen {
      SubtreeIsNew(v, root, proc, d, children, i, q);
      WithinUnfold(v, proc, q);
    }
    assert Within(v, child, child);
  }

  method PrintWatcherNode(v: View, proc: ProcessInfo, depth: nat, before: set<U32>, ghost root: ProcessInfo,
      ghost d: nat, ghost path: set<U32>)
    returns (lines: seq<Line>, seen: set<U32>)
    requires Indexes(v) && IsRoot(v, root) && At(v, root, proc, d) && Passed(v, root, d, path)
    requires Active(v, proc) && Tidy(v, before) && NoneSeenWithin(v, proc, before)
    ensures Tidy(v, seen)
    ensures proc.key.tgid in before ==> lines == [] && seen == before
    ensures proc.key.tgid !in before ==>
              && Subtree(v, root, proc, depth, lines)
              && forall q :: q in v.procs ==> (q.key.tgid in seen <==> q.key.tgid in before || Within(v, proc, q))
    decreases v.byPid.Keys - path
  {
    lines, seen := [], before;
    if proc.key.tgid in before {
      return;
    }
    seen := seen + {proc.key.tgid};
    lines := [Line(depth, proc, v.active[proc.key])];
    StartNode(v, root, proc, d, depth, lines, before);
    var children := ActiveWatcherChildren(v, proc, seen, root, d, path);
    for i := 0 to |children|
      invariant Drawn(v, root, proc, depth, children[..i], lines, before, seen)
    {
      var child := children[i];
      assert child in children && Beneath(v, proc, child);
      NextUnseen(v, root, proc, d, depth, children, i, lines, before, seen);
      ghost var n: nat :| Via(v, proc, child, n);
      Lower(v, root, proc, d, child, n);
      PathGrows(v, root, proc, d, n, path);
      var sub, seen' := PrintWatcherNode(v, child, depth + 1, seen, root, n + d, path + {proc.key.tgid});
      DrawOneMore(v, root, proc, d, depth, children, i, lines, sub, before, seen, seen');
      lines, seen := lines + sub, seen';
    }
    assert children[..|children|] == children;
    forall q ensures Within(v, proc, q) <==> q == proc || InSubtrees(v, children, q) {
      WithinUnfold(v, proc, q);
    }
  }

  lemma StartNode(v: View, root: ProcessInfo, proc: ProcessInfo, d: nat, depth: nat, lines: seq<Line>,
      before: set<U32>)
    requires Indexes(v) && IsRoot(v, root) && At(v, root, proc, d) && Active(v, proc)
    requires Tidy(v, before) && NoneSeenWithin(v, proc, before)
    requires lines == [Line(depth, proc, v.active[proc.key])]
    ensures Drawn(v, root, proc, depth, [], lines, before, before + {proc.key.tgid})
    ensures NoneSeenBeneath(v, proc, before + {proc.key.tgid})
  {
    forall q | q in v.procs && q.key.tgid == proc.key.tgid ensures q == proc {
      PidDeterminesProcess(v.procs, q, proc);
    }
    assert Procs(lines) == [proc];
    forall c | Beneath(v, proc, c) ensures c.key.tgid !in before + {proc.key.tgid} {
      assert Up(v.byPid, c, 0) == Some(c);
      SubtreesDisjoint(v, root, proc, d, c, c, c);
      WithinUnfold(v, proc, c);
    }
  }

  // ---------------------------------------------------------------- the whole tree

  predicate LiveMarked(value: Value) {
    !value.tombstone && value.hasMark
  }

  function ActiveEntries(entries: map<Key, Value>): map<Key, Value> {
    map k | k in entries && LiveMarked(entries[k]) :: entries[k]
  }

  /** Every line is that of a root, unindented, or lies under that of its nearest marked ancestor. */
  ghost predicate Forest(v: View, lines: seq<Line>) {
    forall i :: 0 <= i < |lines| ==> (lines[i].depth == 0 && IsRoot(v, lines[i].proc)) || Under(v, lines, i)
  }

  /** `x` and `y` lie under different roots, that of `x` with the smaller PID. */
  ghost predicate RootsInOrder(v: View, x: ProcessInfo, y: ProcessInfo) {
    exists a, b :: IsRoot(v, a) && IsRoot(v, b) && Within(v, a, x) && Within(v, b, y) && a.key.tgid < b.key.tgid
  }

  /** Under the same root, `x` comes before `y` in preorder. */
  ghost predicate TreeInOrder(v: View, x: ProcessInfo, y: ProcessInfo) {
    exists root :: IsRoot(v, root) && Within(v, root, x) && Within(v, root, y)
                   && (Within(v, x, y) || LeftOf(v, root, x, y))
  }

  /** Tree after tree by the PID of the root, each in preorder. */
  ghost predicate InPrintOrder(v: View, s: seq<ProcessInfo>) {
    forall i, j :: 0 <= i < j < |s| ==> RootsInOrder(v, s[i], s[j]) || TreeInOrder(v, s[i], s[j])
  }

  lemma RootsDisjoint(v: View, a: ProcessInfo, b: ProcessInfo, q: ProcessInfo)
    requires IsRoot(v, a) && IsRoot(v, b) && Within(v, a, q) && Within(v, b, q)
    ensures a == b
  {
    var m: nat :| Up(v.byPid, q, m) == Some(a);
    var n: nat :| Up(v.byPid, q, n) == Some(b);
    if m <= n {
      RootNotAbove(v, a, q, m, n - m);
    } else {
      RootNotAbove(v, b, q, n, m - n);
    }
  }

  ghost predicate Printed(v: View, roots: seq<ProcessInfo>, lines: seq<Line>) {
    && Forest(v, lines) && ShowsValues(v, lines) && NoRepeats(Procs(lines)) && InPrintOrder(v, Procs(lines))
    && forall q :: q in Procs(lines) <==> InSubtrees(v, roots, q)
  }

  lemma ForestConcat(v: View, lines: seq<Line>, sub: seq<Line>)
    requires Forest(v, lines) && Nested(v, sub) && sub[0].depth == 0 && IsRoot(v, sub[0].proc)
    ensures Forest(v, lines + sub)
  {
    var all, n := lines + sub, |lines|;
    forall k | 0 <= k < |all| ensures (all[k].depth == 0 && IsRoot(v, all[k].proc)) || Under(v, all, k) {
      if k < n {
        if Under(v, lines, k) {
          UnderBefore(v, lines, sub, k);
        }
      } else if k > n {
        UnderAfter(v, lines, sub, k - n);
      }
    }
  }

  lemma PrintOrderConcat(v: View, roots: seq<ProcessInfo>, i: nat, a: seq<ProcessInfo>, b: seq<ProcessInfo>)
    requires Ascending(roots) && (forall p :: p in roots ==> IsRoot(v, p)) && i < |roots|
    requires InPrintOrder(v, a) && Preorder(v, roots[i], b)
    requires forall q :: q in a ==> InSubtrees(v, roots[..i], q)
    requires forall q :: q in b ==> Within(v, roots[i], q)
    ensures InPrintOrder(v, a + b)
  {
    var all, n := a + b, |a|;
    assert roots[i] in roots;
    forall k, l | 0 <= k < l < |all| ensures RootsInOrder(v, all[k], all[l]) || TreeInOrder(v, all[k], all[l]) {
      if n <= k {
        assert b[k - n] in b && b[l - n] in b;
      } else if n <= l {
        assert a[k] in a && b[l - n] in b;
        var j :| 0 <= j < i && Within(v, roots[..i][j], all[k]);
        assert roots[j] in roots && roots[j].key.tgid < roots[i].key.tgid;
      }
    }
  }

  lemma PlantOneMore(v: View, roots: seq<ProcessInfo>, i: nat, lines: seq<Line>, sub: seq<Line>)
    requires Ascending(roots) && (forall p :: p in roots ==> IsRoot(v, p)) && i < |roots|
    requires Printed(v, roots[..i], lines) && Subtree(v, roots[i], roots[i], 0, sub)
    ensures Printed(v, roots[..i + 1], lines + sub)
  {
    assert roots[i] in roots;
    ForestConcat(v, lines, sub);
    ProcsConcat(lines, sub);
    PrintOrderConcat(v, roots, i, Procs(lines), Procs(sub));
    forall q ensures InSubtrees(v, roots[..i + 1], q) <==> InSubtrees(v, roots[..i], q) || Within(v, roots[i], q) {
      InOneMore(v, roots, i, q);
    }
    forall q | q in Procs(lines) ensures q !in Procs(sub) {
      if q in Procs(sub) {
        var j :| 0 <= j < i && Within(v, roots[..i][j], q);
        assert roots[j] in roots;
        RootsDisjoint(v, roots[j], roots[i], q);
      }
    }
    NoRepeatsConcat(Procs(lines), Procs(sub));
  }

  /** Prints, for every snapshot with unique PIDs, exactly the marked processes at or below a
      root, each once. */
  method PrintWatcherTree(snapshot: Snapshot) returns (lines: seq<Line>, shown: bool, ghost v: View)
    requires ProcessList(snapshot.procs)
    ensures Indexes(v) && v.procs == snapshot.procs && v.active == ActiveEntries(snapshot.entries)
    ensures forall p: ProcessInfo :: Active(v, p) <==>
              p.key in snapshot.entries && !snapshot.entries[p.key].tombstone && snapshot.entries[p.key].hasMark
    ensures Forest(v, lines) && ShowsValues(v, lines) && NoRepeats(Procs(lines)) && InPrintOrder(v, Procs(lines))
    ensures forall q :: q in Procs(lines) <==> exists root :: IsRoot(v, root) && Within(v, root, q)
    ensures shown <==> exists root :: IsRoot(v, root)
  {
    var byPid, byParent := IndexProcesses(snapshot.procs);
    var view := View(snapshot.procs, byPid, byParent, ActiveEntries(snapshot.entries));
    v := view;
    var roots := FindRoots(view);
    lines := [];
    for i := 0 to |roots|
      invariant Printed(v, roots[..i], lines)
    {
      assert roots[i] in roots && Up(v.byPid, roots[i], 0) == Some(roots[i]);
      var sub, _ := PrintWatcherNode(view, roots[i], 0, {}, roots[i], 0, {});
      PlantOneMore(v, roots, i, lines, sub);
      lines := lines + sub;
    }
    assert roots[..|roots|] == roots;
    shown := |roots| > 0;
    assert shown ==> roots[0] in roots;
    forall q ensures InSubtrees(v, roots, q) <==> exists root :: IsRoot(v, root) && Within(v, root, q) {
      if root :| IsRoot(v, root) && Within(v, root, q) {
        assert root in roots;
      }
      if InSubtrees(v, roots, q) {
        var j :| 0 <= j < |roots| && Within(v, roots[j], q);
        assert roots[j] in roots;
      }
    }
  }

  // ---------------------------------------------------------------- what is printed

  ghost predicate OwnAncestor(v: View, p: ProcessInfo) {
    exists m: nat :: m >= 1 && Up(v.byPid, p, m) == Some(p)
  }

  /** Some marked process at or above `p` is its own ancestor. */
  ghost predicate BelowMarkedCycle(v: View, p: ProcessInfo) {
    exists n: nat :: Up(v.byPid, p, n).Some? && Active(v, Up(v.byPid, p, n).value)
        && OwnAncestor(v, Up(v.byPid, p, n).value)
  }

  lemma {:induction false} Around(v: View, p: ProcessInfo, m: nat, times: nat)
    requires Up(v.byPid, p, m) == Some(p)
    ensures Up(v.byPid, p, m * times) == Some(p)
    decreases times
  {
    if times > 0 {
      Around(v, p, m, times - 1);
      UpAdd(v.byPid, p, m * (times - 1), m);
    }
  }

  /** Going round a marked cycle that passes a root would put a marked process above it. */
  lemma RootExcludesCycle(v: View, root: ProcessInfo, p: ProcessInfo)
    requires IsRoot(v, root) && Within(v, root, p)
    ensures !BelowMarkedCycle(v, p)
  {
    if BelowMarkedCycle(v, p) {
      var n: nat :| Up(v.byPid, p, n).Some? && Active(v, Up(v.byPid, p, n).value)
          && OwnAncestor(v, Up(v.byPid, p, n).value);
      var a := Up(v.byPid, p, n).value;
      var m: nat :| m >= 1 && Up(v.byPid, a, m) == Some(a);
      var k: nat :| Up(v.byPid, p, k) == Some(root);
      var far := m * (k + 1);
      Around(v, a, m, k + 1);
      assert far > k;
      UpAdd(v.byPid, p, n, far);
      RootNotAbove(v, root, p, k, n + far - k);
    }
  }

  /** `pid` is the PID of a descendant of `p`. */
  ghost predicate Descends(v: View, pid: U32, p: ProcessInfo) {
    pid in v.byPid && exists e: nat :: e >= 1 && Up(v.byPid, v.byPid[pid], e) == Some(p)
  }

  lemma ReachRoot(v: View, p: ProcessInfo, path: set<U32>) returns (root: ProcessInfo)
    requires Indexes(v) && p in v.procs && Active(v, p) && !BelowMarkedCycle(v, p)
    requires forall pid :: pid in path ==> Descends(v, pid, p)
    ensures IsRoot(v, root) && exists n: nat :: Up(v.byPid, p, n) == Some(root)
    decreases v.byPid.Keys - path
  {
    assert Up(v.byPid, p, 0) == Some(p);
    assert p.key.tgid !in path by {
      assert !OwnAncestor(v, p);
    }
    root := p;
    if ActiveAncestor(v, p) {
      var n: nat :| n >= 1 && Up(v.byPid, p, n).Some? && Active(v, Up(v.byPid, p, n).value);
      var a := Up(v.byPid, p, n).value;
      UpListed(v, p, n);
      StillOffCycles(v, p, n);
      forall pid | pid in path + {p.key.tgid} ensures Descends(v, pid, a) {
        if pid in path {
          var e: nat :| e >= 1 && Up(v.byPid, v.byPid[pid], e) == Some(p);
          UpAdd(v.byPid, v.byPid[pid], e, n);
          assert e + n >= 1;
        }
      }
      root := ReachRoot(v, a, path + {p.key.tgid});
      var k: nat :| Up(v.byPid, a, k) == Some(root);
      UpAdd(v.byPid, p, n, k);
    }
  }

  lemma StillOffCycles(v: View, p: ProcessInfo, n: nat)
    requires !BelowMarkedCycle(v, p) && Up(v.byPid, p, n).Some?
    ensures !BelowMarkedCycle(v, Up(v.byPid, p, n).value)
  {
    var a := Up(v.byPid, p, n).value;
    forall k: nat | Up(v.byPid, a, k).Some?
      ensures !(Active(v, Up(v.byPid, a, k).value) && OwnAncestor(v, Up(v.byPid, a, k).value))
    {
      UpAdd(v.byPid, p, n, k);
    }
  }

  /** A live marked process of the list is printed exactly when no marked process at or above
      it is its own ancestor. */
  lemma PrintedIff(v: View, p: ProcessInfo)
    requires Indexes(v) && p in v.procs && Active(v, p)
    ensures (exists root :: IsRoot(v, root) && Within(v, root, p)) <==> !BelowMarkedCycle(v, p)
  {
    if root :| IsRoot(v, root) && Within(v, root, p) {
      RootExcludesCycle(v, root, p);
    }
    if !BelowMarkedCycle(v, p) {
      var root := ReachRoot(v, p, {});
      assert Within(v, root, p);
    }
  }

  /** When parent links form a forest, every live marked process of the list is printed. */
  lemma ForestPrintsAll(v: View, p: ProcessInfo)
    requires Indexes(v) && (forall q :: q in v.procs ==> !OwnAncestor(v, q))
    requires p in v.procs && Active(v, p)
    ensures exists root :: IsRoot(v, root) && Within(v, root, p)
  {
    forall n: nat | Up(v.byPid, p, n).Some? ensures !OwnAncestor(v, Up(v.byPid, p, n).value) {
      UpListed(v, p, n);
    }
    PrintedIff(v, p);
  }

  // ---------------------------------------------------------------- a cyclic snapshot

  const FIRST := ProcessInfo(Key(1, 0), 2, [], [], [])
  const SECOND := ProcessInfo(Key(2, 0), 1, [], [], [])
  const MARKED := Value(false, true, true, 0, 1, 7, 0)

  /** Two processes that are each other's parent, the first one marked. */
  const CYCLE := Snapshot(map[Key(1, 0) := MARKED], [FIRST, SECOND])

  /** The marked process of that snapshot is in no tree. */
  lemma MarkedCycleHidden(v: View)
    requires Indexes(v) && v.procs == CYCLE.procs && v.active == ActiveEntries(CYCLE.entries)
    ensures FIRST in v.procs && Active(v, FIRST)
    ensures !exists root :: IsRoot(v, root) && Within(v, root, FIRST)
  {
    assert v.procs[0] == FIRST && v.procs[1] == SECOND;
    assert Up(v.byPid, SECOND, 1) == Up(v.byPid, FIRST, 0);
    assert Up(v.byPid, FIRST, 2) == Up(v.byPid, SECOND, 1) == Some(FIRST);
    assert OwnAncestor(v, FIRST);
    assert Up(v.byPid, FIRST, 0) == Some(FIRST);
    PrintedIff(v, FIRST);
  }
}
