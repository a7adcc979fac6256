/** The order in which competing values for one process are merged. The kernel programs
    and the daemon each have their own transcription of it. */
module Merge {
  import opened Types

  /** The daemon's merge (preferProcessValue). */
  function Prefer(prev: Value, next: Value): (r: Value)
    ensures r == prev || r == next
    ensures RankLeq(prev, r) && RankLeq(next, r)
  {
    if prev.tombstone != next.tombstone then
      if prev.tombstone then prev else next
    else if prev.generation != next.generation then
      if prev.generation > next.generation then prev else next
    else if prev.priority != next.priority then
      if prev.priority > next.priority then prev else next
    else if prev.explicit != next.explicit then
      if prev.explicit then prev else next
    else if prev.timestamp > next.timestamp then prev
    else next
  }

  /** The kernel's merge (next_process_value_wins). */
  predicate NextWins(prev: Value, next: Value) {
    if prev.tombstone != next.tombstone then next.tombstone
    else if prev.generation != next.generation then next.generation > prev.generation
    else if prev.priority != next.priority then next.priority > prev.priority
    else if prev.explicit != next.explicit then next.explicit
    else next.timestamp >= prev.timestamp
  }

  /** The reference order: the fields that decide a merge, most significant first. */
  function Rank(v: Value): seq<int> {
    [if v.tombstone then 1 else 0, v.generation, v.priority, if v.explicit then 1 else 0, v.timestamp]
  }

  predicate LexLeq(a: seq<int>, b: seq<int>)
    requires |a| == |b|
  {
    a == [] || a[0] < b[0] || (a[0] == b[0] && LexLeq(a[1..], b[1..]))
  }

  predicate RankLeq(a: Value, b: Value) {
    || (!a.tombstone && b.tombstone)
    || (a.tombstone == b.tombstone &&
        (|| a.generation < b.generation
         || (a.generation == b.generation &&
             (|| a.priority < b.priority
              || (a.priority == b.priority &&
                  (|| (!a.explicit && b.explicit)
                   || (a.explicit == b.explicit && a.timestamp <= b.timestamp)))))))
  }

  /** RankLeq is the lexicographic order of Rank. */
  lemma {:induction false} RankLeqIsLexicographic(a: Value, b: Value)
    ensures RankLeq(a, b) <==> LexLeq(Rank(a), Rank(b))
  {
    var x, y := Rank(a), Rank(b);
    LexLeqUnfold(x, y);
    LexLeqUnfold(x[1..], y[1..]);
    LexLeqUnfold(x[1..][1..], y[1..][1..]);
    LexLeqUnfold(x[1..][1..][1..], y[1..][1..][1..]);
    LexLeqUnfold(x[1..][1..][1..][1..], y[1..][1..][1..][1..]);
  }

  lemma {:induction false} LexLeqUnfold(a: seq<int>, b: seq<int>)
    requires |a| == |b| > 0
    ensures LexLeq(a, b) <==> a[0] < b[0] || (a[0] == b[0] && LexLeq(a[1..], b[1..]))
  {
  }

  predicate SameRank(a: Value, b: Value) {
    RankLeq(a, b) && RankLeq(b, a)
  }

  lemma RankLeqTransitive(a: Value, b: Value, c: Value)
    requires RankLeq(a, b) && RankLeq(b, c)
    ensures RankLeq(a, c)
  {
  }

  /** Kernel and daemon choose the same winner; the merge is associative and idempotent,
      and commutative whenever the two ranks differ. */
  lemma MergeAlgebra(a: Value, b: Value, c: Value)
    ensures (if NextWins(a, b) then b else a) == Prefer(a, b)
    ensures NextWins(a, b) <==> RankLeq(a, b)
    ensures Prefer(Prefer(a, b), c) == Prefer(a, Prefer(b, c))
    ensures Prefer(a, a) == a
    ensures SameRank(a, b) || Prefer(a, b) == Prefer(b, a)
    ensures SameRank(a, b) ==> Prefer(a, b) == b
  {
  }

  /** What a replica holds after merging `vs` in order. */
  function Fold(vs: seq<Value>): Value
    requires vs != []
  {
    if |vs| == 1 then vs[0] else Prefer(Fold(vs[..|vs| - 1]), vs[|vs| - 1])
  }

  lemma {:induction false} FoldIsMaximum(vs: seq<Value>)
    requires vs != []
    ensures Fold(vs) in vs
    ensures forall v :: v in vs ==> RankLeq(v, Fold(vs))
  {
    if |vs| > 1 {
      var front, last := vs[..|vs| - 1], vs[|vs| - 1];
      FoldIsMaximum(front);
      forall v | v in vs ensures RankLeq(v, Fold(vs)) {
        if v in front {
          RankLeqTransitive(v, Fold(front), Fold(vs));
        } else {
          assert v == last;
        }
      }
    }
  }

  /** The delivery order of a set of updates does not matter: every order ends in the same
      rank, and in the same value when distinct updates never tie. */
  lemma FoldOrderIrrelevant(xs: seq<Value>, ys: seq<Value>)
    requires xs != [] && multiset(xs) == multiset(ys)
    ensures ys != []
    ensures SameRank(Fold(xs), Fold(ys))
    ensures (forall a, b :: a in xs && b in xs && SameRank(a, b) ==> a == b) ==> Fold(xs) == Fold(ys)
  {
    assert xs[0] in multiset(ys);
    FoldIsMaximum(xs);
    FoldIsMaximum(ys);
    assert Fold(xs) in multiset(ys);
    assert Fold(ys) in multiset(xs);
    assert Fold(ys) in xs;
  }
}
