/** Exact comm rules: their validation, normalization, linear scan in the daemon, and the
    generation-qualified hash table the exec program looks them up in. */
module ExactRules {
  import opened Types

  const TASK_COMM_LEN: nat := 16
  const MAX_KERNEL_COMM_RULES: nat := 1024

  const USERSPACE_ONLY: U8 := 0
  const POSITIVE_ONLY: U8 := 1
  const AUTHORITATIVE: U8 := 2

  /** A raw task comm buffer. */
  type Comm = s: seq<Int8> | |s| == 16
    witness [0, 0, 0, 0, 0, 0, 0, 0, 0, 0, 0, 0, 0, 0, 0, 0]

  datatype ExactCommRule = ExactCommRule(comm: Bytes, priority: Int8, mark: U64)
  datatype KernelPolicy = KernelPolicy(mode: U8, commRules: seq<ExactCommRule>)
  datatype RuleKey = RuleKey(generation: U64, comm: Comm)
  datatype RuleValue = RuleValue(priority: Int8, mark: U64)
  type RuleTable = map<RuleKey, RuleValue>

  // ---------------------------------------------------------------- comm buffers

  function ToInt8(b: U8): Int8 { if b < 128 then b else b - 256 }
  function ToByte(i: Int8): U8 { if i >= 0 then i else i + 256 }

  predicate ValidComm(comm: Bytes) {
    0 !in comm && |comm| <= TASK_COMM_LEN - 1
  }

  /** The 16-byte, zero-padded form of a comm. */
  function Pad(comm: Bytes): Comm
    requires ValidComm(comm)
  {
    seq(16, i => if 0 <= i < |comm| then ToInt8(comm[i]) else 0)
  }

  /** The bytes of a raw buffer up to its first NUL. */
  function Unpad(raw: seq<Int8>): (r: Bytes)
    ensures |r| <= |raw| && 0 !in r
    ensures forall i :: 0 <= i < |r| ==> r[i] == ToByte(raw[i])
    ensures |r| < |raw| ==> raw[|r|] == 0
  {
    if raw == [] || raw[0] == 0 then [] else [ToByte(raw[0])] + Unpad(raw[1..])
  }

  method MakeCommRuleKey(generation: U64, comm: Bytes) returns (r: Option<RuleKey>)
    ensures r == if ValidComm(comm) then Some(RuleKey(generation, Pad(comm))) else None
  {
    if 0 in comm || |comm| > TASK_COMM_LEN - 1 {
      return None;
    }
    var buffer: Comm := seq(16, _ => 0);
    for index := 0 to |comm|
      invariant forall i :: 0 <= i < 16 ==> buffer[i] == if i < index then ToInt8(comm[i]) else 0
    {
      buffer := buffer[index := ToInt8(comm[index])];
    }
    assert buffer == Pad(comm);
    return Some(RuleKey(generation, buffer));
  }

  /** What `Unpad` returns: the bytes before the first NUL. */
  lemma {:induction false} UnpadIs(raw: seq<Int8>, r: Bytes)
    requires |r| <= |raw| && (|r| < |raw| ==> raw[|r|] == 0)
    requires forall j :: 0 <= j < |r| ==> raw[j] != 0 && r[j] == ToByte(raw[j])
    ensures Unpad(raw) == r
  {
    if r != [] {
      UnpadIs(raw[1..], r[1..]);
      assert r == [r[0]] + r[1..];
    }
  }

  method Int8String(raw: Comm) returns (r: Bytes)
    ensures r == Unpad(raw)
  {
    r := [];
    for i := 0 to |raw|
      invariant |r| == i && forall j :: 0 <= j < i ==> raw[j] != 0 && r[j] == ToByte(raw[j])
    {
      if raw[i] == 0 {
        UnpadIs(raw, r);
        return;
      }
      r := r + [ToByte(raw[i])];
    }
    UnpadIs(raw, r);
  }

  /** Kernel comm buffers hold a NUL-terminated name followed by zeros. */
  predicate ZeroPadded(raw: Comm) {
    raw[15] == 0 && forall i, j :: 0 <= i < j < 16 && raw[i] == 0 ==> raw[j] == 0
  }

  /** Encoding a comm loses nothing, bytes 128 and above included, so it is injective. */
  lemma CommRoundTrip(comm: Bytes)
    requires ValidComm(comm)
    ensures Unpad(Pad(comm)) == comm && ZeroPadded(Pad(comm))
  {
    var raw := Pad(comm);
    assert forall i :: 0 <= i < |comm| ==> comm[i] in comm && raw[i] != 0;
    assert forall i :: |comm| <= i < 16 ==> raw[i] == 0;
    UnpadIsPrefix(raw, comm);
  }

  lemma UnpadIsPrefix(raw: Comm, comm: Bytes)
    requires |comm| < 16 && raw[|comm|] == 0
    requires forall i :: 0 <= i < |comm| ==> raw[i] == ToInt8(comm[i]) != 0
    ensures Unpad(raw) == comm
  {
    UnpadIs(raw, comm);
  }

  lemma BufferRoundTrip(raw: Comm)
    requires ZeroPadded(raw)
    ensures ValidComm(Unpad(raw)) && Pad(Unpad(raw)) == raw
  {
    var r := Unpad(raw);
    assert forall i :: 0 <= i < |r| ==> r[i] in r && raw[i] != 0;
    assert forall i :: |r| < i < 16 ==> raw[i] == 0;
    assert Pad(r) == raw;
  }

  // ---------------------------------------------------------------- linear scan

  /** What the userspace matcher decides after looking at all rules in order. */
  function Scan(rules: seq<ExactCommRule>, comm: Bytes): Decision {
    if rules == [] then Miss
    else
      var before, rule := Scan(rules[..|rules| - 1], comm), rules[|rules| - 1];
      if rule.comm == comm && (before.Miss? || rule.priority > before.priority)
      then Match(rule.priority, rule.mark)
      else before
  }

  /** Rule `i` is the first one of highest priority among those naming `comm`. */
  ghost predicate FirstOfHighest(rules: seq<ExactCommRule>, comm: Bytes, i: int) {
    && 0 <= i < |rules| && rules[i].comm == comm
    && (forall j :: 0 <= j < |rules| && rules[j].comm == comm ==> rules[j].priority <= rules[i].priority)
    && (forall j :: 0 <= j < i && rules[j].comm == comm ==> rules[j].priority < rules[i].priority)
  }

  /** The scan finds exactly the first rule of highest priority, or misses if none names `comm`. */
  lemma {:induction false} ScanFindsFirstOfHighest(rules: seq<ExactCommRule>, comm: Bytes) returns (i: int)
    ensures Scan(rules, comm).Miss? <==> forall j :: 0 <= j < |rules| ==> rules[j].comm != comm
    ensures Scan(rules, comm).Match? ==>
              && FirstOfHighest(rules, comm, i)
              && Scan(rules, comm) == Match(rules[i].priority, rules[i].mark)
  {
    i := -1;
    if rules != [] {
      var n := |rules| - 1;
      i := ScanFindsFirstOfHighest(rules[..n], comm);
      assert forall j :: 0 <= j < n ==> rules[..n][j] == rules[j];
      var before := Scan(rules[..n], comm);
      if rules[n].comm == comm && (before.Miss? || rules[n].priority > before.priority) {
        i := n;
      }
    }
  }

  method ExactCommCheck(rules: seq<ExactCommRule>, comm: Bytes) returns (r: Decision)
    ensures r == Scan(rules, comm)
  {
    var matched, priority: Int8, mark: U64 := false, 0, 0;
    for i := 0 to |rules|
      invariant Scan(rules[..i], comm) == if matched then Match(priority, mark) else Miss
    {
      assert rules[..i + 1][..i] == rules[..i];
      var rule := rules[i];
      if rule.comm == comm && (!matched || rule.priority > priority) {
        matched, priority, mark := true, rule.priority, rule.mark;
      }
    }
    assert rules[..|rules|] == rules;
    r := if matched then Match(priority, mark) else Miss;
  }

  // ---------------------------------------------------------------- normalization

  predicate Acceptable(policy: KernelPolicy) {
    && policy.mode <= AUTHORITATIVE
    && !(policy.mode == USERSPACE_ONLY && policy.commRules != [])
    && |policy.commRules| <= MAX_KERNEL_COMM_RULES
    && forall i :: 0 <= i < |policy.commRules| ==> ValidComm(policy.commRules[i].comm)
  }

  predicate Distinct(rules: seq<ExactCommRule>) {
    forall i, j :: 0 <= i < j < |rules| ==> rules[i].comm != rules[j].comm
  }

  predicate Normal(policy: KernelPolicy) {
    Acceptable(policy) && Distinct(policy.commRules)
  }

  ghost predicate SameDecisions(a: seq<ExactCommRule>, b: seq<ExactCommRule>) {
    forall comm :: Scan(a, comm) == Scan(b, comm)
  }

  /** Decisions read off a list of distinct rules through its index. */
  function Indexed(rules: seq<ExactCommRule>, indices: map<Bytes, nat>, comm: Bytes): Decision
    requires forall c :: c in indices ==> indices[c] < |rules|
  {
    if comm in indices then Match(rules[indices[comm]].priority, rules[indices[comm]].mark) else Miss
  }

  ghost predicate IndexOf(rules: seq<ExactCommRule>, indices: map<Bytes, nat>) {
    && (forall c :: c in indices ==> indices[c] < |rules| && rules[indices[c]].comm == c)
    && (forall i :: 0 <= i < |rules| ==> rules[i].comm in indices && indices[rules[i].comm] == i)
  }

  lemma ScanSnoc(all: seq<ExactCommRule>, rule: ExactCommRule, comm: Bytes)
    ensures var before := Scan(all, comm);
            Scan(all + [rule], comm) ==
            if rule.comm == comm && (before.Miss? || rule.priority > before.priority)
            then Match(rule.priority, rule.mark) else before
  {
    assert (all + [rule])[..|all|] == all;
  }

  /** `rules`, read through `indices`, decides every comm as `all` does. */
  ghost predicate Represents(rules: seq<ExactCommRule>, indices: map<Bytes, nat>, all: seq<ExactCommRule>) {
    && IndexOf(rules, indices)
    && (forall rule :: rule in rules ==> rule in all)
    && (forall comm :: Indexed(rules, indices, comm) == Scan(all, comm))
  }

  lemma ReplaceRule(rules: seq<ExactCommRule>, indices: map<Bytes, nat>, all: seq<ExactCommRule>, rule: ExactCommRule)
    requires Represents(rules, indices, all) && rule.comm in indices
    ensures var i := indices[rule.comm];
            Represents(if rule.priority > rules[i].priority then rules[i := rule] else rules, indices, all + [rule])
  {
    var i := indices[rule.comm];
    var next := if rule.priority > rules[i].priority then rules[i := rule] else rules;
    assert IndexOf(next, indices);
    forall r | r in next ensures r in all + [rule] {
      assert r == rule || r in rules;
    }
    forall comm ensures Indexed(next, indices, comm) == Scan(all + [rule], comm) {
      ScanSnoc(all, rule, comm);
    }
  }

  lemma AppendRule(rules: seq<ExactCommRule>, indices: map<Bytes, nat>, all: seq<ExactCommRule>, rule: ExactCommRule)
    requires Represents(rules, indices, all) && rule.comm !in indices
    ensures Represents(rules + [rule], indices[rule.comm := |rules|], all + [rule])
  {
    var next := indices[rule.comm := |rules|];
    assert IndexOf(rules + [rule], next);
    forall comm ensures Indexed(rules + [rule], next, comm) == Scan(all + [rule], comm) {
      ScanSnoc(all, rule, comm);
    }
  }

  lemma IndexedScan(rules: seq<ExactCommRule>, indices: map<Bytes, nat>, comm: Bytes)
    requires IndexOf(rules, indices)
    ensures Indexed(rules, indices, comm) == Scan(rules, comm)
  {
    var i := ScanFindsFirstOfHighest(rules, comm);
    if comm in indices {
      assert rules[indices[comm]].comm == comm;
    }
  }

  lemma RepresentsSameDecisions(rules: seq<ExactCommRule>, indices: map<Bytes, nat>, all: seq<ExactCommRule>)
    requires Represents(rules, indices, all)
    ensures SameDecisions(rules, all) && Distinct(rules)
  {
    forall comm ensures Scan(rules, comm) == Scan(all, comm) {
      IndexedScan(rules, indices, comm);
    }
  }

  /** One rule more: it replaces an earlier one for its comm if its priority is higher. */
  method NormalizeRule(
    normalized: seq<ExactCommRule>, indices: map<Bytes, nat>, ghost all: seq<ExactCommRule>, rule: ExactCommRule)
    returns (normalized': seq<ExactCommRule>, indices': map<Bytes, nat>)
    requires Represents(normalized, indices, all)
    ensures Represents(normalized', indices', all + [rule]) && |normalized'| <= |normalized| + 1
  {
    normalized', indices' := normalized, indices;
    if rule.comm in indices {
      ReplaceRule(normalized, indices, all, rule);
      var existing := indices[rule.comm];
      if rule.priority > normalized[existing].priority {
        normalized' := normalized[existing := rule];
      }
    } else {
      AppendRule(normalized, indices, all, rule);
      indices' := indices[rule.comm := |normalized|];
      normalized' := normalized + [rule];
    }
  }

  /** Accepts exactly the acceptable policies; the result has one rule per comm and decides
      every comm as the input list does. */
  method ValidateAndNormalizeKernelPolicy(policy: KernelPolicy) returns (r: Option<KernelPolicy>)
    ensures r.Some? <==> Acceptable(policy)
    ensures r.Some? ==>
              && Normal(r.value) && r.value.mode == policy.mode
              && SameDecisions(r.value.commRules, policy.commRules)
              && |r.value.commRules| <= |policy.commRules|
              && (forall rule :: rule in r.value.commRules ==> rule in policy.commRules)
  {
    if policy.mode > AUTHORITATIVE
       || (policy.mode == USERSPACE_ONLY && |policy.commRules| != 0)
       || |policy.commRules| > MAX_KERNEL_COMM_RULES {
      return None;
    }
    var rules := policy.commRules;
    var normalized: seq<ExactCommRule>, indices: map<Bytes, nat> := [], map[];
    for index := 0 to |rules|
      invariant forall i :: 0 <= i < index ==> ValidComm(rules[i].comm)
      invariant |normalized| <= index && Represents(normalized, indices, rules[..index])
    {
      var rule := rules[index];
      if 0 in rule.comm || |rule.comm| > TASK_COMM_LEN - 1 {
        return None;
      }
      assert rules[..index + 1] == rules[..index] + [rule];
      normalized, indices := NormalizeRule(normalized, indices, rules[..index], rule);
    }
    assert rules[..|rules|] == rules;
    RepresentsSameDecisions(normalized, indices, rules);
    assert forall i :: 0 <= i < |normalized| ==> normalized[i] in rules;
    return Some(KernelPolicy(policy.mode, normalized));
  }

  // ---------------------------------------------------------------- the rule table

  predicate AllValid(rules: seq<ExactCommRule>) {
    forall i :: 0 <= i < |rules| ==> ValidComm(rules[i].comm)
  }

  /** The table entries written for a rule list under one generation. */
  function TableOf(generation: U64, rules: seq<ExactCommRule>): (t: RuleTable)
    requires AllValid(rules)
    ensures forall k :: k in t ==> k.generation == generation
  {
    if rules == [] then map[]
    else
      var rule := rules[|rules| - 1];
      var key, value := RuleKey(generation, Pad(rule.comm)), RuleValue(rule.priority, rule.mark);
      TableOf(generation, rules[..|rules| - 1])[key := value]
  }

  /** The entries of a table under one generation. */
  function Slice(table: RuleTable, generation: U64): (t: RuleTable)
    ensures forall k :: k in t <==> k in table && k.generation == generation
    ensures forall k :: k in t ==> t[k] == table[k]
  {
    map k | k in table && k.generation == generation :: table[k]
  }

  /** The exec program's hash lookup. */
  function Lookup(table: RuleTable, generation: U64, comm: Comm): Decision {
    var key := RuleKey(generation, comm);
    if key in table then Match(table[key].priority, table[key].mark) else Miss
  }

  lemma {:induction false} TableLookupIsScan(generation: U64, rules: seq<ExactCommRule>, raw: Comm)
    requires AllValid(rules) && Distinct(rules) && ZeroPadded(raw)
    ensures Lookup(TableOf(generation, rules), generation, raw) == Scan(rules, Unpad(raw))
  {
    if rules != [] {
      var n := |rules| - 1;
      TableLookupIsScan(generation, rules[..n], raw);
      var comm := rules[n].comm;
      CommRoundTrip(comm);
      BufferRoundTrip(raw);
      if comm == Unpad(raw) {
        var _ := ScanFindsFirstOfHighest(rules[..n], comm);
        assert forall j :: 0 <= j < n ==> rules[..n][j].comm != comm;
      }
    }
  }

  /** For every acceptable policy, one hash lookup of a task's comm buffer over the
      normalized rules decides what the linear scan over the original rules decides. */
  lemma ExactRuleRefinement(policy: KernelPolicy, normal: KernelPolicy, generation: U64, raw: Comm)
    requires Normal(normal) && SameDecisions(normal.commRules, policy.commRules) && ZeroPadded(raw)
    ensures Lookup(TableOf(generation, normal.commRules), generation, raw) == Scan(policy.commRules, Unpad(raw))
  {
    TableLookupIsScan(generation, normal.commRules, raw);
    assert Scan(normal.commRules, Unpad(raw)) == Scan(policy.commRules, Unpad(raw));
  }
}
