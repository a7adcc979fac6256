/** The multi-rule tracker: which registered rules each process matches, directly or through
    its parents. */
module Tracker {
  import opened Types

  type Rule = ProcessInfo -> bool

  predicate Holds(rule: Rule, info: ProcessInfo) {
    rule(info)
  }

  datatype Entry = Entry(info: ProcessInfo, ids: set<U64>)
  type Processes = map<Key, Entry>
  type LatestPid = map<U32, Key>

  /** What the tracker knows about processes. */
  datatype Index = Index(processes: Processes, latestPID: LatestPid)

  ghost predicate IndexOk(x: Index, rules: set<U64>) {
    && (forall k :: k in x.processes ==> x.processes[k].info.key == k && x.processes[k].ids <= rules)
    && (forall pid :: pid in x.latestPID ==> x.latestPID[pid] in x.processes && x.latestPID[pid].tgid == pid)
  }

  /** `c`'s latest known parent is `p`. */
  predicate IsChild(x: Index, p: Key, c: Key) {
    && c in x.processes && x.processes[c].info.ppid in x.latestPID
    && x.latestPID[x.processes[c].info.ppid] == p
  }

  /** The rule matches `k` or an ancestor at most `n` latest-parent steps up. */
  ghost predicate MatchedWithin(x: Index, rule: Rule, k: Key, n: nat)
    decreases n
  {
    && k in x.processes
    && (|| Holds(rule, x.processes[k].info)
        || (n > 0 && x.processes[k].info.ppid in x.latestPID &&
            MatchedWithin(x, rule, x.latestPID[x.processes[k].info.ppid], n - 1)))
  }

  /** Reachable from a direct match along latest-parent edges, cycles allowed. */
  ghost predicate Reached(x: Index, rule: Rule, k: Key) {
    exists n: nat :: MatchedWithin(x, rule, k, n)
  }

  lemma ReachedChild(x: Index, rule: Rule, p: Key, c: Key)
    requires Reached(x, rule, p) && IsChild(x, p, c)
    ensures Reached(x, rule, c)
  {
    var n: nat :| MatchedWithin(x, rule, p, n);
    assert MatchedWithin(x, rule, c, n + 1);
  }

  /** Adds an ID to the entries of a set of processes. */
  function Tag(processes: Processes, id: U64, tagged: set<Key>): Processes {
    map k | k in processes :: if k in tagged then Entry(processes[k].info, processes[k].ids + {id}) else processes[k]
  }

  /** A set of processes that holds every direct match and every child of its members holds
      everything reached. */
  lemma {:induction false} ClosedHoldsReached(x: Index, rule: Rule, tagged: set<Key>, k: Key, n: nat)
    requires forall q :: q in x.processes && Holds(rule, x.processes[q].info) ==> q in tagged
    requires forall p, c :: p in tagged && IsChild(x, p, c) ==> c in tagged
    requires MatchedWithin(x, rule, k, n)
    ensures k in tagged
    decreases n
  {
    if !Holds(rule, x.processes[k].info) {
      var p := x.latestPID[x.processes[k].info.ppid];
      ClosedHoldsReached(x, rule, tagged, p, n - 1);
      assert IsChild(x, p, k);
    }
  }

  // ---------------------------------------------------------------- specifications

  ghost function AllReached(x: Index, rule: Rule): set<Key> {
    set k | k in x.processes && Reached(x, rule, k)
  }

  /** Registration: the new ID goes to exactly the processes reached from a direct match. */
  ghost function Registered(x: Index, id: U64, rule: Rule): Index {
    Index(Tag(x.processes, id, AllReached(x, rule)), x.latestPID)
  }

  function DirectIDs(rules: map<U64, Rule>, info: ProcessInfo): set<U64> {
    set id | id in rules && Holds(rules[id], info)
  }

  function InheritedIDs(x: Index, ppid: U32): set<U64> {
    if ppid in x.latestPID && x.latestPID[ppid] in x.processes then x.processes[x.latestPID[ppid]].ids else {}
  }

  /** Observation: the latest parent's IDs and the direct matches. */
  function Applied(x: Index, rules: map<U64, Rule>, info: ProcessInfo): Index {
    Index(x.processes[info.key := Entry(info, InheritedIDs(x, info.ppid) + DirectIDs(rules, info))],
          x.latestPID[info.key.tgid := info.key])
  }

  /** An exit forgets the lifetime, and its PID if this was the latest lifetime. */
  function Forgotten(x: Index, key: Key): Index {
    Index(x.processes - {key},
          if key.tgid in x.latestPID && x.latestPID[key.tgid] == key then x.latestPID - {key.tgid} else x.latestPID)
  }

  function SetOf(s: seq<Key>): set<Key> {
    set k | k in s
  }

  function Kids(children: map<Key, seq<Key>>, p: Key): seq<Key> {
    if p in children then children[p] else []
  }

  ghost predicate ChildrenOk(x: Index, children: map<Key, seq<Key>>) {
    forall p, c :: c in Kids(children, p) <==> IsChild(x, p, c)
  }

  /** Position of an ID after `start` in the cycle 1, 2, ..., 2^64 - 1, 1, ... */
  function Offset(start: U64, id: U64): int {
    if id >= start then id - start else id - start + MAX_U64
  }

  class Tracker {
    var nextID: U64
    var rules: map<U64, Rule>
    var processes: Processes
    var latestPID: LatestPid

    ghost function View(): Index
      reads this
    {
      Index(processes, latestPID)
    }

    /** IDs are nonzero and registered, and PIDs point at tracked processes with that PID. */
    ghost predicate Valid()
      reads this
    {
      1 <= nextID && 0 !in rules && IndexOk(View(), rules.Keys)
    }

    constructor ()
      ensures Valid() && rules == map[] && View() == Index(map[], map[])
    {
      nextID, rules, processes, latestPID := 1, map[], map[], map[];
    }

    /** Takes the next ID and steps past it, wrapping from the largest to 1. */
    method TakeID() returns (id: U64)
      requires 1 <= nextID
      modifies this`nextID
      ensures id == old(nextID) && nextID == if id == MAX_U64 then 1 else id + 1
    {
      id := nextID;
      nextID := if nextID == MAX_U64 then 0 else nextID + 1;
      if nextID == 0 {
        nextID := 1;
      }
    }

    /** The wrapping scan for a free ID ends: the IDs it passes over are distinct and
        registered, and fewer than 2^64 - 1 are. It takes the first free ID from `nextID` on,
        and the next scan starts after it. */
    method AllocateID() returns (id: U64)
      requires 1 <= nextID && |rules| < MAX_U64
      modifies this`nextID
      ensures 1 <= id && id !in rules && nextID == if id == MAX_U64 then 1 else id + 1
      ensures forall x: U64 :: 1 <= x && Offset(old(nextID), x) < Offset(old(nextID), id) ==> x in rules
    {
      id := TakeID();
      ghost var start := id;
      ghost var passed: set<U64> := {};
      while id in rules
        invariant 1 <= id && nextID == if id == MAX_U64 then 1 else id + 1
        invariant passed <= rules.Keys && |passed| == Offset(start, id) <= |rules|
        invariant start == old(nextID)
        invariant forall x: U64 :: x in passed <==> 1 <= x && Offset(start, x) < Offset(start, id)
        decreases |rules| - |passed|
      {
        assert id !in passed;
        passed := passed + {id};
        SubsetSize(passed, rules.Keys);
        id := TakeID();
      }
    }

    /** Gives `id` to every direct match and returns them. */
    method TagDirect(id: U64, rule: Rule) returns (roots: seq<Key>)
      modifies this`processes
      ensures processes == Tag(old(processes), id, set k | k in old(processes) && Holds(rule, old(processes)[k].info))
      ensures forall k :: k in roots <==> k in old(processes) && Holds(rule, old(processes)[k].info)
    {
      roots := [];
      var todo := processes.Keys;
      ghost var tagged: set<Key> := {};
      while todo != {}
        invariant todo <= old(processes).Keys && processes == Tag(old(processes), id, tagged)
        invariant forall k :: k in tagged <==>
                    k in old(processes) && k !in todo && Holds(rule, old(processes)[k].info)
        invariant forall k :: k in roots <==> k in tagged
      {
        var key :| key in todo;
        todo := todo - {key};
        var entry := processes[key];
        if Holds(rule, entry.info) {
          TagOneMore(old(processes), id, tagged, key);
          processes := processes[key := Entry(entry.info, entry.ids + {id})];
          tagged := tagged + {key};
          roots := roots + [key];
        }
      }
      assert tagged == set k | k in old(processes) && Holds(rule, old(processes)[k].info);
    }

    method ChildrenByParent() returns (children: map<Key, seq<Key>>)
      ensures ChildrenOk(View(), children)
    {
      children := map[];
      var todo := processes.Keys;
      while todo != {}
        invariant todo <= processes.Keys
        invariant forall p, c :: c in Kids(children, p) <==> IsChild(View(), p, c) && c !in todo
      {
        var key :| key in todo;
        todo := todo - {key};
        if processes[key].info.ppid in latestPID {
          var parentKey := latestPID[processes[key].info.ppid];
          children := children[parentKey := Kids(children, parentKey) + [key]];
        }
      }
    }

    /** Tags the children of one process. */
    method TagChildren(id: U64, kids: seq<Key>)
      requires forall c :: c in kids ==> c in processes
      modifies this`processes
      ensures processes == Tag(old(processes), id, SetOf(kids))
    {
      for i := 0 to |kids|
        invariant processes == Tag(old(processes), id, SetOf(kids[..i]))
      {
        TagOneMore(old(processes), id, SetOf(kids[..i]), kids[i]);
        assert SetOf(kids[..i + 1]) == SetOf(kids[..i]) + {kids[i]};
        var entry := processes[kids[i]];
        processes := processes[kids[i] := Entry(entry.info, entry.ids + {id})];
      }
      assert kids[..|kids|] == kids;
    }

    /** The worklist: ends for any parent graph, with exactly the reached processes tagged. */
    method PropagateToDescendants(id: U64, ghost rule: Rule, roots: seq<Key>, children: map<Key, seq<Key>>,
        ghost x: Index)
      requires latestPID == x.latestPID && ChildrenOk(x, children)
      requires IndexOk(x, rules.Keys)
      requires forall k :: k in roots <==> k in x.processes && Holds(rule, x.processes[k].info)
      requires processes == Tag(x.processes, id, SetOf(roots))
      modifies this`processes
      ensures processes == Tag(x.processes, id, AllReached(x, rule))
    {
      var seen: set<Key> := {};
      var stack := roots;
      ghost var tagged := SetOf(roots);
      assert forall k :: k in roots ==> MatchedWithin(x, rule, k, 0);
      while stack != []
        invariant processes == Tag(x.processes, id, tagged) && seen <= x.processes.Keys
        invariant Working(x, rule, SetOf(roots), seen, stack, tagged)
        decreases x.processes.Keys - seen, |stack|
      {
        var key := stack[|stack| - 1];
        ghost var before := stack;
        stack := stack[..|stack| - 1];
        assert before == stack + [key];
        if key in seen {
          WorkSkips(x, rule, SetOf(roots), seen, stack, key, tagged);
        } else {
          var kids := Kids(children, key);
          WorkVisits(x, rule, SetOf(roots), seen, stack, key, children, tagged);
          seen := seen + {key};
          TagTwice(x.processes, id, tagged, SetOf(kids));
          TagChildren(id, kids);
          tagged := tagged + SetOf(kids);
          stack := stack + kids;
        }
      }
      WorkDone(x, rule, SetOf(roots), seen, tagged);
    }

    /** Registration: a fresh ID goes to the rule and to exactly what is reached from its direct
        matches. */
    method Register(rule: Rule) returns (id: U64)
      requires Valid() && |rules| < MAX_U64
      modifies this
      ensures Valid() && id != 0 && id !in old(rules) && rules == old(rules)[id := rule]
      ensures View() == Registered(old(View()), id, rule)
    {
      id := AllocateID();
      rules := rules[id := rule];
      ghost var x := View();
      var children := ChildrenByParent();
      var roots := TagDirect(id, rule);
      assert SetOf(roots) == set k | k in x.processes && Holds(rule, x.processes[k].info);
      PropagateToDescendants(id, rule, roots, children, x);
      RegisteredKeeps(x, id, rule, rules.Keys - {id});
    }

    /** RegisterRule; a missing rule never matches. */
    method RegisterRule(given: Option<Rule>) returns (id: U64)
      requires Valid() && |rules| < MAX_U64
      modifies this
      ensures Valid() && id != 0 && id !in old(rules) && id in rules && rules - {id} == old(rules)
      ensures if given.Some? then rules[id] == given.value else forall info :: !Holds(rules[id], info)
      ensures processes.Keys == old(processes).Keys && latestPID == old(latestPID)
      ensures forall k :: k in processes ==>
                processes[k].info == old(processes)[k].info && processes[k].ids - {id} == old(processes)[k].ids
      ensures forall k :: k in processes ==>
                (id in processes[k].ids <==> given.Some? && Reached(old(View()), given.value, k))
    {
      ghost var x, before := View(), rules;
      id := Register(RuleOf(given));
      RegistrationMeans(x, given, id, before.Keys);
      assert rules - {id} == before;
    }

    /** UnregisterRule: the ID disappears from the rules and from every process. */
    method UnregisterRule(id: U64) returns (removed: bool)
      requires Valid()
      modifies this`rules, this`processes
      ensures Valid() && (removed <==> id in old(rules))
      ensures rules == old(rules) - {id} && processes.Keys == old(processes).Keys
      ensures forall k :: k in processes ==>
                processes[k] == Entry(old(processes)[k].info, old(processes)[k].ids - {id})
    {
      removed := id in rules;
      if !removed {
        assert rules - {id} == rules;
        return;
      }
      rules := rules - {id};
      var todo := processes.Keys;
      while todo != {}
        modifies this`processes
        invariant todo <= processes.Keys == old(processes).Keys
        invariant forall k :: k in processes ==>
                    processes[k] == if k in todo then old(processes)[k]
                        else Entry(old(processes)[k].info, old(processes)[k].ids - {id})
      {
        var key :| key in todo;
        todo := todo - {key};
        processes := processes[key := Entry(processes[key].info, processes[key].ids - {id})];
      }
    }

    /** applyProcess: the process gets the IDs of its parent's latest lifetime and those of the
        rules it matches, and becomes the latest lifetime of its PID. */
    method ApplyProcess(info: ProcessInfo)
      requires Valid()
      modifies this`processes, this`latestPID
      ensures Valid() && View() == Applied(old(View()), rules, info)
      ensures latestPID == old(latestPID)[info.key.tgid := info.key]
      ensures processes.Keys == old(processes).Keys + {info.key}
      ensures forall k :: k in old(processes) && k != info.key ==> processes[k] == old(processes)[k]
      ensures processes[info.key].info == info
      ensures forall id :: id in processes[info.key].ids <==>
                || (id in rules && Holds(rules[id], info))
                || (info.ppid in old(latestPID) && id in old(processes)[old(latestPID)[info.ppid]].ids)
    {
      var ids: set<U64> := {};
      if info.ppid in latestPID {
        ids := processes[latestPID[info.ppid]].ids;
      }
      ghost var inherited := ids;
      var todo := rules.Keys;
      while todo != {}
        invariant todo <= rules.Keys
        invariant ids == inherited + set id | id in rules && id !in todo && Holds(rules[id], info)
      {
        var id :| id in todo;
        todo := todo - {id};
        if Holds(rules[id], info) {
          ids := ids + {id};
        }
      }
      assert ids == InheritedIDs(View(), info.ppid) + DirectIDs(rules, info);
      processes := processes[info.key := Entry(info, ids)];
      latestPID := latestPID[info.key.tgid := info.key];
    }

    /** ApplyProcessEvent: exits forget the process lifetime, other events observe it. */
    method ApplyProcessEvent(exit: bool, key: Key, info: ProcessInfo)
      requires Valid()
      modifies this`processes, this`latestPID
      ensures Valid()
      ensures exit ==>
                && processes == old(processes) - {key}
                && latestPID == if key.tgid in old(latestPID) && old(latestPID)[key.tgid] == key
                                then old(latestPID) - {key.tgid} else old(latestPID)
      ensures exit ==> View() == Forgotten(old(View()), key)
      ensures !exit ==> View() == if info.key == ZERO_KEY then old(View()) else Applied(old(View()), rules, info)
    {
      if !exit {
        if info.key != ZERO_KEY {
          ApplyProcess(info);
        }
        return;
      }
      processes := processes - {key};
      if key.tgid in latestPID && latestPID[key.tgid] == key {
        latestPID := latestPID - {key.tgid};
      }
    }
  }

  /** The worklist in progress: what is tagged is reached, and what is tagged but not seen is
      still on the stack. */
  ghost predicate Working(x: Index, rule: Rule, roots: set<Key>, seen: set<Key>, stack: seq<Key>, tagged: set<Key>) {
    && roots <= tagged <= AllReached(x, rule) && SetOf(stack) <= tagged && seen <= tagged <= seen + SetOf(stack)
    && ChildrenTagged(x, seen, tagged)
  }

  ghost predicate ChildrenTagged(x: Index, seen: set<Key>, tagged: set<Key>) {
    forall p, c :: p in seen && IsChild(x, p, c) ==> c in tagged
  }

  lemma SetOfConcat(a: seq<Key>, b: seq<Key>)
    ensures SetOf(a + b) == SetOf(a) + SetOf(b)
  {
  }

  lemma WorkSkips(x: Index, rule: Rule, roots: set<Key>, seen: set<Key>, stack: seq<Key>, key: Key, tagged: set<Key>)
    requires Working(x, rule, roots, seen, stack + [key], tagged) && key in seen
    ensures Working(x, rule, roots, seen, stack, tagged)
  {
    SetOfConcat(stack, [key]);
  }

  lemma WorkVisits(x: Index, rule: Rule, roots: set<Key>, seen: set<Key>, stack: seq<Key>, key: Key,
                   children: map<Key, seq<Key>>, tagged: set<Key>)
    requires Working(x, rule, roots, seen, stack + [key], tagged) && ChildrenOk(x, children)
    ensures key in x.processes && forall c :: c in Kids(children, key) ==> c in x.processes
    ensures Working(x, rule, roots, seen + {key}, stack + Kids(children, key), tagged + SetOf(Kids(children, key)))
  {
    var kids := Kids(children, key);
    SetOfConcat(stack, [key]);
    SetOfConcat(stack, kids);
    assert key in SetOf([key]) && key in AllReached(x, rule);
    forall c | c in kids ensures c in AllReached(x, rule) {
      assert IsChild(x, key, c);
      ReachedChild(x, rule, key, c);
    }
  }

  /** An empty stack means that everything reached is tagged. */
  lemma WorkDone(x: Index, rule: Rule, roots: set<Key>, seen: set<Key>, tagged: set<Key>)
    requires Working(x, rule, roots, seen, [], tagged)
    requires forall k :: k in x.processes && Holds(rule, x.processes[k].info) ==> k in roots
    ensures tagged == AllReached(x, rule)
  {
    forall k | k in AllReached(x, rule) ensures k in tagged {
      var n: nat :| MatchedWithin(x, rule, k, n);
      ClosedHoldsReached(x, rule, tagged, k, n);
    }
  }

  /** Registration adds one ID and nothing else. */
  lemma RegisteredKeeps(x: Index, id: U64, rule: Rule, rules: set<U64>)
    requires IndexOk(x, rules) && id !in rules
    ensures IndexOk(Registered(x, id, rule), rules + {id})
    ensures Registered(x, id, rule).processes.Keys == x.processes.Keys
    ensures forall k :: k in x.processes ==> Registered(x, id, rule).processes[k].ids - {id} == x.processes[k].ids
    ensures forall k :: k in x.processes ==>
              (id in Registered(x, id, rule).processes[k].ids <==> Reached(x, rule, k))
  {
  }

  function RuleOf(given: Option<Rule>): Rule {
    if given.Some? then given.value else _ => false
  }

  /** Registration adds one ID to what the given rule reaches, and nothing else. */
  lemma RegistrationMeans(x: Index, given: Option<Rule>, id: U64, rules: set<U64>)
    requires IndexOk(x, rules) && id !in rules
    ensures var y := Registered(x, id, RuleOf(given));
            && y.processes.Keys == x.processes.Keys && y.latestPID == x.latestPID
            && forall k :: k in x.processes ==>
                 && y.processes[k].info == x.processes[k].info && y.processes[k].ids - {id} == x.processes[k].ids
                 && (id in y.processes[k].ids <==> given.Some? && Reached(x, given.value, k))
  {
    RegisteredKeeps(x, id, RuleOf(given), rules);
    if given.None? {
      NothingReached(x, RuleOf(given));
    }
  }

  lemma {:induction false} NotMatched(x: Index, rule: Rule, k: Key, n: nat)
    requires forall info :: !Holds(rule, info)
    ensures !MatchedWithin(x, rule, k, n)
    decreases n
  {
    if n > 0 && k in x.processes && x.processes[k].info.ppid in x.latestPID {
      NotMatched(x, rule, x.latestPID[x.processes[k].info.ppid], n - 1);
    }
  }

  /** A rule that never matches reaches nothing. */
  lemma NothingReached(x: Index, rule: Rule)
    requires forall info :: !Holds(rule, info)
    ensures forall k :: !Reached(x, rule, k)
  {
    forall k ensures !Reached(x, rule, k) {
      forall n: nat ensures !MatchedWithin(x, rule, k, n) {
        NotMatched(x, rule, k, n);
      }
    }
  }

  lemma TagOneMore(processes: Processes, id: U64, tagged: set<Key>, key: Key)
    requires key in processes
    ensures var was := Tag(processes, id, tagged);
            Tag(processes, id, tagged + {key}) == was[key := Entry(was[key].info, was[key].ids + {id})]
  {
    var was := Tag(processes, id, tagged);
    assert was[key].ids + {id} == processes[key].ids + {id};
  }

  lemma TagTwice(processes: Processes, id: U64, a: set<Key>, b: set<Key>)
    ensures Tag(Tag(processes, id, a), id, b) == Tag(processes, id, a + b)
  {
    var x, y := Tag(Tag(processes, id, a), id, b), Tag(processes, id, a + b);
    forall k | k in x ensures x[k] == y[k] {
      assert x[k].ids == y[k].ids;
    }
  }
}
