/** Data shared by the kernel programs and the daemon: fixed-width integers, process
    identities, the per-process value of the pinned process map, and checkers. */
module Types {

  const MAX_U64: int := 0xFFFF_FFFF_FFFF_FFFF

  type U8 = x: int | 0 <= x <= 0xFF
  type U32 = x: int | 0 <= x <= 0xFFFF_FFFF
  type U64 = x: int | 0 <= x <= 0xFFFF_FFFF_FFFF_FFFF
  type Int8 = x: int | -128 <= x <= 127

  datatype Option<+T> = None | Some(value: T)

  /** A process lifetime: thread-group ID plus procfs start time in clock ticks. */
  datatype Key = Key(tgid: U32, startTime: U64)

  const ZERO_KEY := Key(0, 0)

  /** The value of the process map. `explicit` is the field the source calls
      `inheritance`: true for a mark chosen by a checker, false for an inherited one. */
  datatype Value = Value(
    tombstone: bool,
    explicit: bool,
    hasMark: bool,
    priority: Int8,
    generation: U64,
    mark: U64,
    timestamp: U64)

  const ZERO_VALUE := Value(false, false, false, 0, 0, 0, 0)

  /** The mark a value stands for: missing, live no-mark and tombstone are all "unmarked". */
  datatype Effective = Unmarked | Marked(mark: U64)

  function EffectiveOf(v: Option<Value>): Effective {
    if v.Some? && !v.value.tombstone && v.value.hasMark then Marked(v.value.mark) else Unmarked
  }

  function Get<K, V>(m: map<K, V>, k: K): Option<V> {
    if k in m then Some(m[k]) else None
  }

  type Bytes = seq<U8>

  datatype ProcessInfo = ProcessInfo(key: Key, ppid: U32, comm: Bytes, cmdline: Bytes, exe: Bytes)

  /** The result of a checker: its (priority, mark, ok) triple. */
  datatype Decision = Miss | Match(priority: Int8, mark: U64)

  /** Checkers are pure functions of the process description. */
  type CheckFunc = ProcessInfo -> Decision

  /** What a checker decides about a process. */
  function Ask(check: CheckFunc, info: ProcessInfo): Decision {
    check(info)
  }

  lemma SubsetSize<T>(a: set<T>, b: set<T>)
    requires a <= b
    ensures |a| <= |b|
  {
    assert b == a + (b - a);
  }

  function Max(a: U64, b: U64): U64 {
    if a > b then a else b
  }
}
