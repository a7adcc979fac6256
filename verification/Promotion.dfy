/** The default checker built from rule lists, and its compilation into a kernel policy. */
module Promotion {
  import opened Types
  import opened ExactRules
  import opened Regexps

  /** The items of the four rule lists, each with its parse; `None` is an item that does not parse. */
  datatype CheckRules = CheckRules(
    comm: seq<Option<Re>>,
    cmd: seq<Option<Re>>,
    exe: seq<Option<Re>>,
    ppid: seq<Option<U32>>)

  datatype Matcher = Matcher(comm: seq<Re>, cmd: seq<Re>, exe: seq<Re>, ppid: set<U32>)

  /** Library behaviour the checker depends on: case folding, and the base name of a path. */
  datatype Library = Library(folds: Folding, base: Bytes -> Bytes)

  datatype Fallback = CommItem(re: Re) | CmdItem(re: Re) | ExeItem(re: Re) | PpidItem(pid: U32)

  datatype Compilation =
    | Compiled(policy: KernelPolicy, matcher: Matcher, promoted: seq<Re>, fallback: seq<Fallback>)
    | BadItem
    | TooManyRules(count: nat)

  // ---------------------------------------------------------------- the checker

  predicate HasRules(m: Matcher) {
    |m.comm| > 0 || |m.cmd| > 0 || |m.exe| > 0 || |m.ppid| > 0
  }

  /** Empty values match nothing. */
  ghost predicate AnyRegexpMatches(lib: Library, res: seq<Re>, value: Bytes) {
    value != [] && exists re :: re in res && MatchString(lib.folds, re, Decode(value))
  }

  /** Some rule other than the comm rules matches. */
  ghost predicate MatchesOtherwise(lib: Library, m: Matcher, info: ProcessInfo) {
    || info.ppid in m.ppid
    || AnyRegexpMatches(lib, m.cmd, info.cmdline)
    || AnyRegexpMatches(lib, m.exe, info.exe)
    || AnyRegexpMatches(lib, m.exe, lib.base(info.exe))
  }

  ghost predicate MatchesInfo(lib: Library, m: Matcher, info: ProcessInfo) {
    AnyRegexpMatches(lib, m.comm, info.comm) || MatchesOtherwise(lib, m, info)
  }

  ghost function DefaultCheck(lib: Library, m: Matcher, priority: Int8, mark: U64): CheckFunc {
    (info: ProcessInfo) =>
      if HasRules(m) && MatchesInfo(lib, m, info) then Match(priority, mark) else Miss
  }

  // ---------------------------------------------------------------- compilation

  ghost predicate Parsed<T(!new)>(items: seq<Option<T>>, parsed: seq<T>) {
    |items| == |parsed| && forall i :: 0 <= i < |items| ==> items[i] == Some(parsed[i])
  }

  ghost predicate Parses(rules: CheckRules) {
    None !in rules.comm && None !in rules.cmd && None !in rules.exe && None !in rules.ppid
  }

  ghost predicate MatcherOf(rules: CheckRules, m: Matcher) {
    && Parsed(rules.comm, m.comm) && Parsed(rules.cmd, m.cmd) && Parsed(rules.exe, m.exe)
    && forall pid :: pid in m.ppid <==> Some(pid) in rules.ppid
  }

  method CompileRegexpList(items: seq<Option<Re>>) returns (r: Option<seq<Re>>)
    ensures r.Some? <==> None !in items
    ensures r.Some? ==> Parsed(items, r.value)
  {
    var out: seq<Re> := [];
    for i := 0 to |items|
      invariant Parsed(items[..i], out)
    {
      if items[i].None? {
        return None;
      }
      out := out + [items[i].value];
    }
    assert items[..|items|] == items;
    return Some(out);
  }

  method CompileDefaultCheckRules(rules: CheckRules) returns (r: Option<Matcher>)
    ensures r.Some? <==> Parses(rules)
    ensures r.Some? ==> MatcherOf(rules, r.value)
  {
    var comm := CompileRegexpList(rules.comm);
    var cmd := CompileRegexpList(rules.cmd);
    var exe := CompileRegexpList(rules.exe);
    if comm.None? || cmd.None? || exe.None? {
      return None;
    }
    var ppid: set<U32> := {};
    for i := 0 to |rules.ppid|
      invariant None !in rules.ppid[..i]
      invariant forall pid :: pid in ppid <==> Some(pid) in rules.ppid[..i]
    {
      if rules.ppid[i].None? {
        return None;
      }
      ppid := ppid + {rules.ppid[i].value};
    }
    assert rules.ppid[..|rules.ppid|] == rules.ppid;
    return Some(Matcher(comm.value, cmd.value, exe.value, ppid));
  }

  /** The comm expressions that stand for one exact comm, and those that do not. */
  function Promotable(res: seq<Re>): seq<Re> {
    if res == [] then []
    else
      var n := |res| - 1;
      Promotable(res[..n]) + if ExactComm(res[n]).Some? then [res[n]] else []
  }

  function Unpromotable(res: seq<Re>): seq<Fallback> {
    if res == [] then []
    else
      var n := |res| - 1;
      Unpromotable(res[..n]) + if ExactComm(res[n]).None? then [CommItem(res[n])] else []
  }

  lemma {:induction false} PromotableMembers(res: seq<Re>, re: Re)
    ensures re in Promotable(res) <==> re in res && ExactComm(re).Some?
  {
    if res != [] {
      var n := |res| - 1;
      assert res == res[..n] + [res[n]];
      PromotableMembers(res[..n], re);
    }
  }

  lemma {:induction false} UnpromotableMembers(res: seq<Re>, item: Fallback)
    ensures item in Unpromotable(res) <==> item.CommItem? && item.re in res && ExactComm(item.re).None?
  {
    if res != [] {
      var n := |res| - 1;
      assert res == res[..n] + [res[n]];
      UnpromotableMembers(res[..n], item);
    }
  }

  /** Rule `i` names the comm of expression `i`, with the one priority and mark. */
  ghost predicate RulesFor(rules: seq<ExactCommRule>, res: seq<Re>, priority: Int8, mark: U64) {
    && |rules| == |res|
    && forall i :: 0 <= i < |res| ==>
         ExactComm(res[i]).Some? && rules[i] == ExactCommRule(ExactComm(res[i]).value, priority, mark)
  }

  /** Every remaining item of the other three lists. */
  function OtherItems(rules: CheckRules): seq<Fallback>
    requires None !in rules.cmd && None !in rules.exe && None !in rules.ppid
  {
    seq(|rules.cmd|, i requires 0 <= i < |rules.cmd| => assert rules.cmd[i] in rules.cmd; CmdItem(rules.cmd[i].value)) +
    seq(|rules.exe|, i requires 0 <= i < |rules.exe| => assert rules.exe[i] in rules.exe; ExeItem(rules.exe[i].value)) +
    seq(|rules.ppid|,
        i requires 0 <= i < |rules.ppid| => assert rules.ppid[i] in rules.ppid; PpidItem(rules.ppid[i].value))
  }

  function ModeFor(fallback: bool, promoted: bool): U8 {
    if !fallback then AUTHORITATIVE else if promoted then POSITIVE_ONLY else USERSPACE_ONLY
  }

  /** What a successful compilation is, given the rule lists it came from. */
  ghost predicate CompiledFrom(c: Compilation, rules: CheckRules, priority: Int8, mark: U64) {
    && c.Compiled? && Parses(rules) && MatcherOf(rules, c.matcher)
    && c.promoted == Promotable(c.matcher.comm)
    && c.fallback == Unpromotable(c.matcher.comm) + OtherItems(rules)
    && RulesFor(c.policy.commRules, c.promoted, priority, mark)
    && c.policy.mode == ModeFor(c.fallback != [], c.promoted != [])
    && |c.promoted| <= MAX_KERNEL_COMM_RULES
  }

  /** Every rule is an exact comm rule: nothing is left to the checker. */
  ghost predicate AllExact(m: Matcher, rules: CheckRules) {
    && (forall re :: re in m.comm ==> ExactComm(re).Some?)
    && rules.cmd == [] && rules.exe == [] && rules.ppid == []
  }

  ghost predicate SomeExact(m: Matcher) {
    exists re :: re in m.comm && ExactComm(re).Some?
  }

  /** The mode by the rule lists alone: authoritative iff every rule is an exact comm rule, else
      positive-only iff some rule is, else userspace-only. */
  lemma ModeByRules(c: Compilation, rules: CheckRules, priority: Int8, mark: U64)
    requires CompiledFrom(c, rules, priority, mark)
    ensures c.policy.mode == if AllExact(c.matcher, rules) then AUTHORITATIVE
                             else if SomeExact(c.matcher) then POSITIVE_ONLY else USERSPACE_ONLY
  {
    forall re ensures re in c.promoted <==> re in c.matcher.comm && ExactComm(re).Some? {
      PromotableMembers(c.matcher.comm, re);
    }
    if SomeExact(c.matcher) {
      var re :| re in c.matcher.comm && ExactComm(re).Some?;
      assert re in c.promoted;
    } else if c.promoted != [] {
      assert c.promoted[0] in c.promoted;
    }
    if Unpromotable(c.matcher.comm) != [] {
      UnpromotableMembers(c.matcher.comm, Unpromotable(c.matcher.comm)[0]);
    } else {
      forall re | re in c.matcher.comm ensures ExactComm(re).Some? {
        UnpromotableMembers(c.matcher.comm, CommItem(re));
      }
    }
  }

  method PromoteCommRules(res: seq<Re>, priority: Int8, mark: U64)
    returns (rules: seq<ExactCommRule>, promoted: seq<Re>, fallback: seq<Fallback>)
    ensures promoted == Promotable(res) && fallback == Unpromotable(res)
    ensures RulesFor(rules, promoted, priority, mark)
  {
    rules, promoted, fallback := [], [], [];
    for i := 0 to |res|
      invariant promoted == Promotable(res[..i]) && fallback == Unpromotable(res[..i])
      invariant RulesFor(rules, promoted, priority, mark)
    {
      assert res[..i + 1][..i] == res[..i];
      var comm := ExactCommFromRegexp(res[i]);
      if comm.None? {
        fallback := fallback + [CommItem(res[i])];
      } else {
        rules := rules + [ExactCommRule(comm.value, priority, mark)];
        promoted := promoted + [res[i]];
      }
    }
    assert res[..|res|] == res;
  }

  method CompileDefaultKernelPolicy(rules: CheckRules, priority: Int8, mark: U64) returns (c: Compilation)
    ensures c.BadItem? <==> !Parses(rules)
    ensures c.Compiled? ==> CompiledFrom(c, rules, priority, mark) && Acceptable(c.policy)
    ensures c.TooManyRules? ==>
              exists m :: MatcherOf(rules, m) && c.count == |Promotable(m.comm)| > MAX_KERNEL_COMM_RULES
  {
    var matcher := CompileDefaultCheckRules(rules);
    if matcher.None? {
      return BadItem;
    }
    var m := matcher.value;
    var commRules, promoted, fallback := PromoteCommRules(m.comm, priority, mark);
    fallback := fallback + OtherItems(rules);
    var mode: U8;
    if |fallback| == 0 {
      mode := AUTHORITATIVE;
    } else if |commRules| != 0 {
      mode := POSITIVE_ONLY;
    } else {
      mode := USERSPACE_ONLY;
    }
    if |commRules| > MAX_KERNEL_COMM_RULES {
      return TooManyRules(|commRules|);
    }
    return Compiled(KernelPolicy(mode, commRules), m, promoted, fallback);
  }

  // ---------------------------------------------------------------- what promotion preserves

  /** Some promoted expression stands for `comm`. */
  ghost predicate Promotes(c: Compilation, comm: Bytes)
    requires c.Compiled?
  {
    exists re :: re in c.promoted && ExactComm(re) == Some(comm)
  }

  /** Rule `i` is that of a promoted expression. */
  lemma RuleIsPromoted(c: Compilation, rules: CheckRules, priority: Int8, mark: U64, i: nat)
    requires CompiledFrom(c, rules, priority, mark) && i < |c.policy.commRules|
    ensures c.policy.commRules[i].priority == priority && c.policy.commRules[i].mark == mark
    ensures Promotes(c, c.policy.commRules[i].comm)
  {
    assert c.promoted[i] in c.promoted;
  }

  /** A promoted expression has its rule. */
  lemma PromotedHasRule(c: Compilation, rules: CheckRules, priority: Int8, mark: U64, comm: Bytes) returns (j: nat)
    requires CompiledFrom(c, rules, priority, mark) && Promotes(c, comm)
    ensures j < |c.policy.commRules| && c.policy.commRules[j].comm == comm
  {
    var re :| re in c.promoted && ExactComm(re) == Some(comm);
    j :| 0 <= j < |c.promoted| && c.promoted[j] == re;
  }

  lemma UniformScan(c: Compilation, rules: CheckRules, priority: Int8, mark: U64, comm: Bytes)
    requires CompiledFrom(c, rules, priority, mark)
    ensures Scan(c.policy.commRules, comm) == if Promotes(c, comm) then Match(priority, mark) else Miss
  {
    var i := ScanFindsFirstOfHighest(c.policy.commRules, comm);
    if Scan(c.policy.commRules, comm).Match? {
      RuleIsPromoted(c, rules, priority, mark, i);
    } else if Promotes(c, comm) {
      var j := PromotedHasRule(c, rules, priority, mark, comm);
    }
  }

  /** A promoted expression finds a match in exactly the values seen as its comm. */
  lemma PromotedMatches(lib: Library, c: Compilation, rules: CheckRules, priority: Int8, mark: U64, value: Bytes)
    requires CompiledFrom(c, rules, priority, mark)
    ensures AnyRegexpMatches(lib, c.promoted, value) <==> value != [] && Promotes(c, Seen(value))
  {
    forall re | re in c.promoted
      ensures MatchString(lib.folds, re, Decode(value)) <==> ExactComm(re) == Some(Seen(value))
    {
      PromotableMembers(c.matcher.comm, re);
      ExactCommMeansEquality(lib.folds, re, Decode(value));
    }
  }

  /** Promoted comms are well-formed, so they are seen as they are. */
  lemma PromotedSeen(c: Compilation, rules: CheckRules, priority: Int8, mark: U64, comm: Bytes)
    requires CompiledFrom(c, rules, priority, mark) && Promotes(c, comm)
    ensures Seen(comm) == comm
  {
    var re :| re in c.promoted && ExactComm(re) == Some(comm);
    DecodeUtf8(Joined(Middle(re)));
  }

  lemma NoFallback(lib: Library, c: Compilation, rules: CheckRules, priority: Int8, mark: U64, info: ProcessInfo)
    requires CompiledFrom(c, rules, priority, mark) && c.policy.mode == AUTHORITATIVE
    ensures !MatchesOtherwise(lib, c.matcher, info)
    ensures forall re :: re in c.promoted <==> re in c.matcher.comm
  {
    assert c.fallback == [];
    assert rules.cmd == [] && rules.exe == [] && rules.ppid == [];
    forall re ensures re in c.promoted <==> re in c.matcher.comm {
      PromotableMembers(c.matcher.comm, re);
      if re in c.matcher.comm {
        UnpromotableMembers(c.matcher.comm, CommItem(re));
      }
    }
  }

  /** Authoritative policies decide as the checker does, except for an empty comm that a rule
      names and a malformed comm that reads as one that a rule names. */
  lemma AuthoritativeExactIff(lib: Library, c: Compilation, rules: CheckRules, priority: Int8, mark: U64,
      info: ProcessInfo)
    requires CompiledFrom(c, rules, priority, mark) && c.policy.mode == AUTHORITATIVE
    ensures Scan(c.policy.commRules, info.comm) == Ask(DefaultCheck(lib, c.matcher, priority, mark), info) <==>
              && (info.comm == [] ==> !Promotes(c, []))
              && (Seen(info.comm) != info.comm ==> !Promotes(c, Seen(info.comm)))
  {
    NoFallback(lib, c, rules, priority, mark, info);
    UniformScan(c, rules, priority, mark, info.comm);
    PromotedMatches(lib, c, rules, priority, mark, info.comm);
    assert AnyRegexpMatches(lib, c.promoted, info.comm) == AnyRegexpMatches(lib, c.matcher.comm, info.comm);
    if Promotes(c, info.comm) {
      PromotedSeen(c, rules, priority, mark, info.comm);
    }
  }

  /** In every mode, a rule match is a checker match with the same priority and mark, except
      for an empty comm that a rule names and nothing but the comm could match. */
  lemma RuleMatchSoundIff(lib: Library, c: Compilation, rules: CheckRules, priority: Int8, mark: U64,
      info: ProcessInfo)
    requires CompiledFrom(c, rules, priority, mark)
    ensures (Scan(c.policy.commRules, info.comm).Match? ==>
               Scan(c.policy.commRules, info.comm) == Ask(DefaultCheck(lib, c.matcher, priority, mark), info)) <==>
            (info.comm == [] ==> !Promotes(c, []) || MatchesOtherwise(lib, c.matcher, info))
  {
    UniformScan(c, rules, priority, mark, info.comm);
    PromotedMatches(lib, c, rules, priority, mark, info.comm);
    forall re ensures re in c.promoted ==> re in c.matcher.comm {
      PromotableMembers(c.matcher.comm, re);
    }
    if Promotes(c, info.comm) {
      PromotedSeen(c, rules, priority, mark, info.comm);
      assert |c.matcher.comm| > 0;
    }
  }

  /** End to end: once the compiled policy is normalized and installed, the exec program's
      lookup decides as the checker does on every process with a non-empty, well-formed comm. */
  lemma KernelDecidesAsChecker(
    lib: Library, c: Compilation, rules: CheckRules, priority: Int8, mark: U64,
    normal: KernelPolicy, generation: U64, raw: Comm, info: ProcessInfo)
    requires CompiledFrom(c, rules, priority, mark) && c.policy.mode == AUTHORITATIVE
    requires Normal(normal) && SameDecisions(normal.commRules, c.policy.commRules)
    requires ZeroPadded(raw) && info.comm == Unpad(raw)
    requires info.comm != [] && Seen(info.comm) == info.comm
    ensures Lookup(TableOf(generation, normal.commRules), generation, raw) ==
            Ask(DefaultCheck(lib, c.matcher, priority, mark), info)
  {
    ExactRuleRefinement(c.policy, normal, generation, raw);
    AuthoritativeExactIff(lib, c, rules, priority, mark, info);
  }

  function Parts(text: seq<Rune>): seq<Re> {
    if text == [] then [] else [Literal(text, false)]
  }

  /** The parse of `^text$`. */
  function Anchor(text: seq<Rune>): Re {
    Concat([BeginText] + Parts(text) + [EndText])
  }

  lemma AnchorIsExact(text: seq<Rune>)
    requires ValidComm(Utf8(text))
    ensures ExactComm(Anchor(text)) == Some(Utf8(text))
  {
    assert Middle(Anchor(text)) == Parts(text);
    assert Joined(Parts(text)) == text + [] == text;
  }

  /** The compilation of the single comm rule `re`. */
  function OneRule(re: Re, comm: Bytes, priority: Int8, mark: U64): Compilation {
    Compiled(KernelPolicy(AUTHORITATIVE, [ExactCommRule(comm, priority, mark)]), Matcher([re], [], [], {}), [re], [])
  }

  function OneItem(re: Re): CheckRules {
    CheckRules([Some(re)], [], [], [])
  }

  lemma OneItemParses(re: Re)
    ensures Parses(OneItem(re)) && MatcherOf(OneItem(re), Matcher([re], [], [], {})) && OtherItems(OneItem(re)) == []
  {
  }

  lemma OnePromotable(re: Re)
    requires ExactComm(re).Some?
    ensures Promotable([re]) == [re] && Unpromotable([re]) == []
  {
    assert [re][..0] == [];
  }

  lemma OneRuleCompiles(re: Re, comm: Bytes, priority: Int8, mark: U64)
    requires ExactComm(re) == Some(comm)
    ensures CompiledFrom(OneRule(re, comm, priority, mark), OneItem(re), priority, mark)
    ensures Promotes(OneRule(re, comm, priority, mark), comm)
  {
    var c := OneRule(re, comm, priority, mark);
    OneItemParses(re);
    OnePromotable(re);
    assert c.promoted[0] == re;
  }

  /** With the rule `^$`, the kernel marks a process with an empty comm and the checker does not. */
  lemma EmptyCommDiffers(lib: Library, priority: Int8, mark: U64, info: ProcessInfo)
    requires info.comm == []
    ensures var c := OneRule(Anchor([]), [], priority, mark);
            && CompiledFrom(c, OneItem(Anchor([])), priority, mark)
            && Scan(c.policy.commRules, info.comm) == Match(priority, mark)
            && Ask(DefaultCheck(lib, c.matcher, priority, mark), info) == Miss
  {
    var re := Anchor([]);
    var c := OneRule(re, [], priority, mark);
    AnchorIsExact([]);
    OneRuleCompiles(re, [], priority, mark);
    UniformScan(c, OneItem(re), priority, mark, []);
    AuthoritativeExactIff(lib, c, OneItem(re), priority, mark, info);
  }

  const FFFD: Bytes := [0xEF, 0xBF, 0xBD]

  /** A byte that starts no encoding is seen as U+FFFD. */
  lemma MalformedSeen()
    ensures Utf8([REPLACEMENT]) == FFFD && Seen([0xFF]) == FFFD
  {
    assert Utf8([REPLACEMENT]) == Encode(REPLACEMENT) + Utf8([]) == FFFD;
    forall r: Rune ensures !(Encode(r) <= [0xFF]) {
      EncodeLength(r);
    }
    assert Decode([0xFF]) == [REPLACEMENT] + Decode([]);
  }

  /** With the rule `^\uFFFD$`, the checker marks a process whose comm is the byte 0xFF and
      the kernel does not. */
  lemma MalformedCommDiffers(lib: Library, priority: Int8, mark: U64, info: ProcessInfo)
    requires info.comm == [0xFF]
    ensures var c := OneRule(Anchor([REPLACEMENT]), FFFD, priority, mark);
            && CompiledFrom(c, OneItem(Anchor([REPLACEMENT])), priority, mark)
            && Scan(c.policy.commRules, info.comm) == Miss
            && Ask(DefaultCheck(lib, c.matcher, priority, mark), info) == Match(priority, mark)
  {
    var re := Anchor([REPLACEMENT]);
    var c := OneRule(re, FFFD, priority, mark);
    MalformedSeen();
    AnchorIsExact([REPLACEMENT]);
    OneRuleCompiles(re, FFFD, priority, mark);
    UniformScan(c, OneItem(re), priority, mark, info.comm);
    if Promotes(c, info.comm) {
      PromotedSeen(c, OneItem(re), priority, mark, info.comm);
    }
    AuthoritativeExactIff(lib, c, OneItem(re), priority, mark, info);
  }
}
