/** Process lists as read from procfs, and the indexes the daemon and the watcher build. */
module ProcessLists {
  import opened Types

  type ByParent = map<U32, seq<ProcessInfo>>
  type ByPid = map<U32, ProcessInfo>

  predicate UniquePids(procs: seq<ProcessInfo>) {
    forall i, j :: 0 <= i < j < |procs| ==> procs[i].key.tgid != procs[j].key.tgid
  }

  /** procfs lists each process once, and no process 0. */
  predicate ProcessList(procs: seq<ProcessInfo>) {
    UniquePids(procs) && forall p :: p in procs ==> p.key.tgid != 0
  }

  function Pids(procs: seq<ProcessInfo>): set<U32> {
    set p | p in procs :: p.key.tgid
  }

  lemma PidDeterminesProcess(procs: seq<ProcessInfo>, p: ProcessInfo, q: ProcessInfo)
    requires UniquePids(procs) && p in procs && q in procs && p.key.tgid == q.key.tgid
    ensures p == q
  {
    var i :| 0 <= i < |procs| && procs[i] == p;
    var j :| 0 <= j < |procs| && procs[j] == q;
    if i < j {
      assert false;
    } else if j < i {
      assert false;
    }
  }

  // ---------------------------------------------------------------- ancestry

  function Find(procs: seq<ProcessInfo>, pid: U32): (r: Option<ProcessInfo>)
    ensures r.Some? ==> r.value in procs && r.value.key.tgid == pid
    ensures r.None? ==> forall p :: p in procs ==> p.key.tgid != pid
  {
    if procs == [] then None
    else if procs[0].key.tgid == pid then Some(procs[0])
    else Find(procs[1..], pid)
  }

  /** The PID index of a list. */
  ghost function PidMap(procs: seq<ProcessInfo>): ByPid {
    map pid | pid in Pids(procs) :: Find(procs, pid).value
  }

  /** The `n`-th ancestor within an index, the 0-th being the process itself. */
  ghost function Up(byPid: ByPid, p: ProcessInfo, n: nat): Option<ProcessInfo>
    decreases n
  {
    if n == 0 then Some(p)
    else if p.ppid in byPid then Up(byPid, byPid[p.ppid], n - 1)
    else None
  }

  lemma {:induction false} UpAdd(byPid: ByPid, p: ProcessInfo, m: nat, n: nat)
    requires Up(byPid, p, m).Some?
    ensures Up(byPid, p, m + n) == Up(byPid, Up(byPid, p, m).value, n)
    decreases m
  {
    if m > 0 {
      UpAdd(byPid, byPid[p.ppid], m - 1, n);
    }
  }

  lemma {:induction false} UpSome(byPid: ByPid, p: ProcessInfo, m: nat, n: nat)
    requires m <= n && Up(byPid, p, n).Some?
    ensures Up(byPid, p, m).Some?
    decreases m
  {
    if m > 0 {
      UpSome(byPid, byPid[p.ppid], m - 1, n - 1);
    }
  }

  // ---------------------------------------------------------------- indexes

  /** In PID order, each PID once. */
  predicate Ascending(s: seq<ProcessInfo>) {
    forall i, j :: 0 <= i < j < |s| ==> s[i].key.tgid < s[j].key.tgid
  }

  function Position(s: seq<ProcessInfo>, pid: U32): (k: nat)
    requires Ascending(s)
    ensures k <= |s|
    ensures forall i :: 0 <= i < k ==> s[i].key.tgid <= pid
    ensures forall i :: k <= i < |s| ==> pid < s[i].key.tgid
  {
    if s == [] || s[|s| - 1].key.tgid <= pid then |s| else Position(s[..|s| - 1], pid)
  }

  /** Insertion of a new process into a list in PID order. */
  function Insert(s: seq<ProcessInfo>, p: ProcessInfo): seq<ProcessInfo>
    requires Ascending(s)
  {
    var k := Position(s, p.key.tgid);
    s[..k] + [p] + s[k..]
  }

  lemma SpliceMembers<T>(s: seq<T>, k: nat, p: T, q: T)
    requires k <= |s|
    ensures q in s[..k] + [p] + s[k..] <==> q in s || q == p
  {
    assert s == s[..k] + s[k..];
    assert q in s <==> q in s[..k] || q in s[k..];
  }

  lemma InsertInOrder(s: seq<ProcessInfo>, p: ProcessInfo)
    requires Ascending(s) && forall i :: 0 <= i < |s| ==> s[i].key.tgid != p.key.tgid
    ensures Ascending(Insert(s, p))
  {
    var k, r := Position(s, p.key.tgid), Insert(s, p);
    forall i, j | 0 <= i < j < |r| ensures r[i].key.tgid < r[j].key.tgid {
      assert r[i] == if i < k then s[i] else if i == k then p else s[i - 1];
      assert r[j] == if j < k then s[j] else if j == k then p else s[j - 1];
    }
  }

  /** `children` lists, in PID order and each once, the children of `ppid`. */
  ghost predicate IsChildren(procs: seq<ProcessInfo>, ppid: U32, children: seq<ProcessInfo>) {
    Ascending(children) && forall p :: p in children <==> p in procs && p.ppid == ppid
  }

  function Children(byParent: ByParent, ppid: U32): seq<ProcessInfo> {
    if ppid in byParent then byParent[ppid] else []
  }

  ghost predicate Grouped(procs: seq<ProcessInfo>, byParent: ByParent) {
    forall ppid :: IsChildren(procs, ppid, Children(byParent, ppid))
  }

  ghost predicate PidIndexed(procs: seq<ProcessInfo>, byPid: ByPid) {
    && (forall p :: p in procs ==> p.key.tgid in byPid && byPid[p.key.tgid] == p)
    && (forall pid :: pid in byPid ==> byPid[pid] in procs && byPid[pid].key.tgid == pid)
  }

  lemma GroupStep(procs: seq<ProcessInfo>, byParent: ByParent, p: ProcessInfo)
    requires Grouped(procs, byParent) && forall q :: q in procs ==> q.key.tgid != p.key.tgid
    ensures IsChildren(procs, p.ppid, Children(byParent, p.ppid))
    ensures forall i :: 0 <= i < |Children(byParent, p.ppid)| ==> Children(byParent, p.ppid)[i].key.tgid != p.key.tgid
    ensures Grouped(procs + [p], byParent[p.ppid := Insert(Children(byParent, p.ppid), p)])
  {
    var siblings := Children(byParent, p.ppid);
    assert IsChildren(procs, p.ppid, siblings);
    assert forall i :: 0 <= i < |siblings| ==> siblings[i] in procs;
    InsertInOrder(siblings, p);
    var next := byParent[p.ppid := Insert(siblings, p)];
    forall ppid ensures IsChildren(procs + [p], ppid, Children(next, ppid)) {
      assert IsChildren(procs, ppid, Children(byParent, ppid));
      forall q ensures q in Insert(siblings, p) <==> q in siblings || q == p {
        SpliceMembers(siblings, Position(siblings, p.key.tgid), p, q);
      }
    }
  }

  method IndexProcesses(procs: seq<ProcessInfo>) returns (byPid: ByPid, byParent: ByParent)
    requires UniquePids(procs)
    ensures PidIndexed(procs, byPid) && Grouped(procs, byParent)
  {
    byPid, byParent := map[], map[];
    for i := 0 to |procs|
      invariant PidIndexed(procs[..i], byPid) && Grouped(procs[..i], byParent)
    {
      var p := procs[i];
      assert procs[..i + 1] == procs[..i] + [p];
      assert forall q :: q in procs[..i] ==> q.key.tgid != p.key.tgid;
      byPid := byPid[p.key.tgid := p];
      GroupStep(procs[..i], byParent, p);
      byParent := byParent[p.ppid := Insert(Children(byParent, p.ppid), p)];
    }
    assert procs[..|procs|] == procs;
  }
}
