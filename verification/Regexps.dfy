/** Parsed regular expressions with unanchored-search semantics, and the subset of them that
    stands for one exact comm. */
module Regexps {
  import opened Types
  import opened ExactRules

  // ---------------------------------------------------------------- UTF-8

  /** A Unicode scalar value. */
  type Rune = r: int | 0 <= r < 0xD800 || 0xE000 <= r <= 0x10FFFF

  const REPLACEMENT: Rune := 0xFFFD

  function Encode(r: Rune): Bytes {
    if r < 0x80 then [r]
    else if r < 0x800 then [0xC0 + r / 64, 0x80 + r % 64]
    else if r < 0x10000 then [0xE0 + r / 4096, 0x80 + r / 64 % 64, 0x80 + r % 64]
    else [0xF0 + r / 262144, 0x80 + r / 4096 % 64, 0x80 + r / 64 % 64, 0x80 + r % 64]
  }

  function Utf8(text: seq<Rune>): Bytes {
    if text == [] then [] else Encode(text[0]) + Utf8(text[1..])
  }

  /** The lead byte fixes the length, and the bytes fix the rune. */
  lemma EncodeLength(r: Rune)
    ensures var e := Encode(r);
            && |e| > 0
            && |e| == if e[0] < 0x80 then 1 else if e[0] < 0xE0 then 2 else if e[0] < 0xF0 then 3 else 4
  {
  }

  /** The rune spelled by the bytes of one encoding. */
  function Decoded(e: seq<int>): int {
    if |e| == 1 then e[0]
    else if |e| == 2 then (e[0] - 0xC0) * 64 + (e[1] - 0x80)
    else if |e| == 3 then (e[0] - 0xE0) * 4096 + (e[1] - 0x80) * 64 + (e[2] - 0x80)
    else if |e| == 4 then (e[0] - 0xF0) * 262144 + (e[1] - 0x80) * 4096 + (e[2] - 0x80) * 64 + (e[3] - 0x80)
    else 0
  }

  lemma DecodedEncode(r: Rune)
    ensures Decoded(Encode(r)) == r
  {
    if 0x800 <= r < 0x10000 {
      var top := r / 64;
      assert top / 64 == r / 4096;
    } else if 0x10000 <= r {
      var top := r / 64;
      assert top / 64 == r / 4096 && top / 64 / 64 == r / 262144;
    }
  }

  /** Encodings are prefix-free. */
  lemma PrefixFree(a: Rune, b: Rune, bytes: Bytes)
    requires Encode(a) <= bytes && Encode(b) <= bytes
    ensures a == b
  {
    EncodeLength(a);
    EncodeLength(b);
    DecodedEncode(a);
    DecodedEncode(b);
    assert Encode(a)[0] == bytes[0] == Encode(b)[0];
    assert Encode(a) == bytes[..|Encode(a)|] == Encode(b);
  }

  /** The text the matcher steps through: each byte that starts no encoding reads as U+FFFD. */
  ghost function Decode(bytes: Bytes): seq<Rune>
    decreases |bytes|
  {
    if bytes == [] then []
    else if r: Rune :| Encode(r) <= bytes then (EncodeLength(r); [r] + Decode(bytes[|Encode(r)|..]))
    else [REPLACEMENT] + Decode(bytes[1..])
  }

  /** Well-formed text reads back as itself. */
  lemma {:induction false} DecodeUtf8(text: seq<Rune>)
    ensures Decode(Utf8(text)) == text
  {
    if text != [] {
      var u, e := Utf8(text), Encode(text[0]);
      EncodeLength(text[0]);
      assert e <= u && u[|e|..] == Utf8(text[1..]);
      forall r: Rune | Encode(r) <= u ensures r == text[0] {
        PrefixFree(r, text[0], u);
      }
      DecodeUtf8(text[1..]);
    }
  }

  /** A comm as the matcher sees it; well-formed UTF-8 is seen unchanged. */
  ghost function Seen(bytes: Bytes): Bytes {
    Utf8(Decode(bytes))
  }

  lemma {:induction false} Utf8Concat(a: seq<Rune>, b: seq<Rune>)
    ensures Utf8(a + b) == Utf8(a) + Utf8(b)
  {
    if a == [] {
      assert a + b == b;
    } else {
      assert (a + b)[1..] == a[1..] + b;
      Utf8Concat(a[1..], b);
    }
  }

  // ---------------------------------------------------------------- syntax and semantics

  /** A parsed expression. A folding literal matches up to the relation `folds`. */
  datatype Re =
    | NoMatch | EmptyMatch
    | Literal(runes: seq<Rune>, fold: bool)
    | CharClass(members: set<Rune>)
    | AnyChar | AnyCharNotNL
    | BeginLine | EndLine | BeginText | EndText | WordBoundary | NoWordBoundary
    | Capture(sub: Re) | Star(sub: Re) | Plus(sub: Re) | Quest(sub: Re)
    | Repeat(sub: Re, min: nat, max: Option<nat>)
    | Concat(subs: seq<Re>) | Alternate(subs: seq<Re>)

  type Folding = (Rune, Rune) -> bool

  const NEWLINE: Rune := 10

  ghost predicate SameUpTo(folds: Folding, a: seq<Rune>, b: seq<Rune>) {
    |a| == |b| && forall i :: 0 <= i < |a| ==> folds(a[i], b[i])
  }

  /** An ASCII word character at position `i`. */
  predicate WordAt(t: seq<Rune>, i: int) {
    0 <= i < |t| && (48 <= t[i] <= 57 || 65 <= t[i] <= 90 || t[i] == 95 || 97 <= t[i] <= 122)
  }

  /** `re` matches `t[i..j]`. */
  ghost predicate Matches(folds: Folding, re: Re, t: seq<Rune>, i: int, j: int)
    requires 0 <= i <= j <= |t|
    decreases re, 0
  {
    match re
    case NoMatch => false
    case EmptyMatch => i == j
    case Literal(runes, fold) => if fold then SameUpTo(folds, runes, t[i..j]) else runes == t[i..j]
    case CharClass(members) => j == i + 1 && t[i] in members
    case AnyChar => j == i + 1
    case AnyCharNotNL => j == i + 1 && t[i] != NEWLINE
    case BeginLine => i == j && (i == 0 || t[i - 1] == NEWLINE)
    case EndLine => i == j && (i == |t| || t[i] == NEWLINE)
    case BeginText => i == j == 0
    case EndText => i == j == |t|
    case WordBoundary => i == j && WordAt(t, i - 1) != WordAt(t, i)
    case NoWordBoundary => i == j && WordAt(t, i - 1) == WordAt(t, i)
    case Capture(sub) => Matches(folds, sub, t, i, j)
    case Quest(sub) => i == j || Matches(folds, sub, t, i, j)
    case Star(sub) => exists n: nat :: MatchesTimes(folds, sub, n, t, i, j)
    case Plus(sub) => exists n: nat :: n >= 1 && MatchesTimes(folds, sub, n, t, i, j)
    case Repeat(sub, min, max) =>
      exists n: nat :: n >= min && (max.None? || n <= max.value) && MatchesTimes(folds, sub, n, t, i, j)
    case Concat(subs) => MatchesAll(folds, subs, t, i, j)
    case Alternate(subs) => exists s :: s in subs && Matches(folds, s, t, i, j)
  }

  ghost predicate MatchesAll(folds: Folding, res: seq<Re>, t: seq<Rune>, i: int, j: int)
    requires 0 <= i <= j <= |t|
    decreases res
  {
    if res == [] then i == j
    else exists k :: i <= k <= j && Matches(folds, res[0], t, i, k) && MatchesAll(folds, res[1..], t, k, j)
  }

  /** `n` matches of `re` in a row. */
  ghost predicate MatchesTimes(folds: Folding, re: Re, n: nat, t: seq<Rune>, i: int, j: int)
    requires 0 <= i <= j <= |t|
    decreases re, 1, n
  {
    if n == 0 then i == j
    else exists k :: i <= k <= j && Matches(folds, re, t, i, k) && MatchesTimes(folds, re, n - 1, t, k, j)
  }

  /** Unanchored search. */
  ghost predicate MatchString(folds: Folding, re: Re, t: seq<Rune>) {
    exists i, j :: 0 <= i <= j <= |t| && Matches(folds, re, t, i, j)
  }

  // ---------------------------------------------------------------- the exact subset

  predicate PlainLiterals(res: seq<Re>) {
    forall i :: 0 <= i < |res| ==> res[i].Literal? && !res[i].fold
  }

  function Joined(res: seq<Re>): seq<Rune>
    requires PlainLiterals(res)
  {
    if res == [] then [] else res[0].runes + Joined(res[1..])
  }

  predicate Anchored(re: Re) {
    re.Concat? && |re.subs| >= 2 && re.subs[0].BeginText? && re.subs[|re.subs| - 1].EndText?
  }

  function Middle(re: Re): seq<Re>
    requires Anchored(re)
  {
    re.subs[1..|re.subs| - 1]
  }

  /** The comm an expression stands for: anchored plain literals whose bytes fit a comm. */
  function ExactComm(re: Re): Option<Bytes> {
    if Anchored(re) && PlainLiterals(Middle(re)) && ValidComm(Utf8(Joined(Middle(re))))
    then Some(Utf8(Joined(Middle(re)))) else None
  }

  method ExactCommFromRegexp(re: Re) returns (r: Option<Bytes>)
    ensures r == ExactComm(re)
    ensures r.Some? <==> Anchored(re) && PlainLiterals(Middle(re)) && ValidComm(Utf8(Joined(Middle(re))))
    ensures r.Some? ==> r.value == Utf8(Joined(Middle(re)))
  {
    if !re.Concat? || |re.subs| < 2 || !re.subs[0].BeginText? || !re.subs[|re.subs| - 1].EndText? {
      return None;
    }
    var parts := re.subs[1..|re.subs| - 1];
    var comm: Bytes := [];
    for i := 0 to |parts|
      invariant PlainLiterals(parts[..i]) && comm == Utf8(Joined(parts[..i]))
    {
      if !parts[i].Literal? || parts[i].fold {
        assert !PlainLiterals(parts);
        return None;
      }
      assert parts[..i + 1] == parts[..i] + [parts[i]];
      JoinedSnoc(parts[..i], parts[i]);
      Utf8Concat(Joined(parts[..i]), parts[i].runes);
      comm := comm + Utf8(parts[i].runes);
    }
    assert parts[..|parts|] == parts;
    if 0 in comm || |comm| > TASK_COMM_LEN - 1 {
      return None;
    }
    return Some(comm);
  }

  lemma {:induction false} JoinedSnoc(res: seq<Re>, re: Re)
    requires PlainLiterals(res) && re.Literal? && !re.fold
    ensures PlainLiterals(res + [re]) && Joined(res + [re]) == Joined(res) + re.runes
  {
    if res == [] {
      assert res + [re] == [re];
    } else {
      JoinedSnoc(res[1..], re);
      assert (res + [re])[1..] == res[1..] + [re];
    }
  }

  /** Where the first part of a matched sequence ends. */
  lemma FirstEnds(folds: Folding, res: seq<Re>, t: seq<Rune>, i: int, j: int) returns (k: int)
    requires 0 <= i <= j <= |t| && res != [] && MatchesAll(folds, res, t, i, j)
    ensures i <= k <= j && Matches(folds, res[0], t, i, k) && MatchesAll(folds, res[1..], t, k, j)
  {
    k :| i <= k <= j && Matches(folds, res[0], t, i, k) && MatchesAll(folds, res[1..], t, k, j);
  }

  lemma LiteralFirst(folds: Folding, res: seq<Re>, t: seq<Rune>, i: int)
    requires res != [] && res[0].Literal? && !res[0].fold && 0 <= i <= |t|
    ensures MatchesAll(folds, res, t, i, |t|) <==>
              && res[0].runes <= t[i..]
              && MatchesAll(folds, res[1..], t, i + |res[0].runes|, |t|)
  {
    var k := i + |res[0].runes|;
    if MatchesAll(folds, res, t, i, |t|) {
      var m := FirstEnds(folds, res, t, i, |t|);
      assert t[i..m] == t[i..][..m - i];
    }
    if res[0].runes <= t[i..] {
      assert t[i..k] == t[i..][..k - i];
      assert Matches(folds, res[0], t, i, k);
    }
  }

  lemma EndOnly(folds: Folding, res: seq<Re>, t: seq<Rune>, i: int)
    requires res == [EndText] && 0 <= i <= |t|
    ensures MatchesAll(folds, res, t, i, |t|) <==> i == |t|
  {
    if i == |t| {
      assert Matches(folds, res[0], t, i, |t|) && MatchesAll(folds, res[1..], t, |t|, |t|);
    }
  }

  lemma MatchStep(folds: Folding, res: seq<Re>, t: seq<Rune>, i: int)
    requires PlainLiterals(res) && res != [] && 0 <= i <= |t|
    ensures MatchesAll(folds, res + [EndText], t, i, |t|) <==>
              && res[0].runes <= t[i..]
              && MatchesAll(folds, res[1..] + [EndText], t, i + |res[0].runes|, |t|)
  {
    assert (res + [EndText])[1..] == res[1..] + [EndText];
    LiteralFirst(folds, res + [EndText], t, i);
  }

  /** `s` is the literals one after the other. */
  ghost predicate Spelled(res: seq<Re>, s: seq<Rune>)
    requires PlainLiterals(res)
  {
    if res == [] then s == []
    else res[0].runes <= s && Spelled(res[1..], s[|res[0].runes|..])
  }

  lemma {:induction false} SpelledIsJoined(res: seq<Re>, s: seq<Rune>)
    requires PlainLiterals(res)
    ensures Spelled(res, s) <==> s == Joined(res)
  {
    if res != [] {
      var runes, rest := res[0].runes, Joined(res[1..]);
      if runes <= s {
        assert s == runes + s[|runes|..];
        SpelledIsJoined(res[1..], s[|runes|..]);
      }
      assert (runes + rest)[|runes|..] == rest;
    }
  }

  lemma {:induction false} MatchIsSpelled(folds: Folding, res: seq<Re>, t: seq<Rune>, i: int)
    requires PlainLiterals(res) && 0 <= i <= |t|
    ensures MatchesAll(folds, res + [EndText], t, i, |t|) <==> Spelled(res, t[i..])
    decreases |res|
  {
    if res == [] {
      EndOnly(folds, res + [EndText], t, i);
    } else {
      var k := i + |res[0].runes|;
      MatchStep(folds, res, t, i);
      if res[0].runes <= t[i..] {
        assert t[i..][k - i..] == t[k..];
        MatchIsSpelled(folds, res[1..], t, k);
      }
    }
  }

  lemma LiteralsMatchJoined(folds: Folding, res: seq<Re>, t: seq<Rune>)
    requires PlainLiterals(res)
    ensures MatchesAll(folds, res + [EndText], t, 0, |t|) <==> t == Joined(res)
  {
    assert t[0..] == t;
    MatchIsSpelled(folds, res, t, 0);
    SpelledIsJoined(res, t);
  }

  /** An expression with an exact comm finds a match in exactly the text of that comm. */
  lemma ExactCommMeansEquality(folds: Folding, re: Re, t: seq<Rune>)
    requires ExactComm(re).Some?
    ensures MatchString(folds, re, t) <==> Utf8(t) == ExactComm(re).value
  {
    var subs, rest := re.subs, Middle(re) + [EndText];
    assert subs[1..] == rest;
    LiteralsMatchJoined(folds, Middle(re), t);
    if MatchString(folds, re, t) {
      var i, j :| 0 <= i <= j <= |t| && Matches(folds, re, t, i, j);
      var k := FirstEnds(folds, subs, t, i, j);
      MatchEndsAtText(folds, Middle(re), t, k, j);
    }
    if Utf8(t) == ExactComm(re).value {
      DecodeUtf8(t);
      DecodeUtf8(Joined(Middle(re)));
      assert Matches(folds, subs[0], t, 0, 0) && MatchesAll(folds, subs[1..], t, 0, |t|);
      assert Matches(folds, re, t, 0, |t|);
    }
  }

  lemma {:induction false} MatchEndsAtText(folds: Folding, res: seq<Re>, t: seq<Rune>, i: int, j: int)
    requires 0 <= i <= j <= |t| && MatchesAll(folds, res + [EndText], t, i, j)
    ensures j == |t|
    decreases |res|
  {
    var all := res + [EndText];
    var k := FirstEnds(folds, all, t, i, j);
    if res == [] {
      assert all[1..] == [];
    } else {
      assert all[1..] == res[1..] + [EndText];
      MatchEndsAtText(folds, res[1..], t, k, j);
    }
  }
}
