/** Option, the "maybe" type every recogniser returns. */
module Wrappers {
  datatype Option<+T> = None | Some(value: T)
}

/** The 64-bit unsigned words (`uint64_t`, `size_t`, `uintptr_t`) of the C code on x86-64. */
module Words {
  const WORD: nat := 0x1_0000_0000_0000_0000
  type u64 = x: int | 0 <= x < 0x1_0000_0000_0000_0000

  /** `a + b` in unsigned 64-bit arithmetic. */
  function Add(a: u64, b: u64): (r: u64)
    ensures a + b < WORD ==> r == a + b
    ensures a + b >= WORD ==> r == a + b - WORD
  {
    (a + b) % WORD
  }

  /** `a - b` in unsigned 64-bit arithmetic. */
  function Sub(a: u64, b: u64): (r: u64)
    ensures b <= a ==> r == a - b
    ensures b > a ==> r == WORD + a - b
  {
    (a - b) % WORD
  }
}

/**
 * Character classes, runs and the few Python string operations the trace
 * analyser relies on (`str.rstrip`, `str.split`, `str.replace`, `", ".join`,
 * `int(s)`, `int(s, 16)`, `str(n)`, `float(s)`).
 */
module Text {
  import opened Wrappers

  /** `[0-9]`, which is also `\d` under `re.ASCII`. */
  predicate IsDigit(c: char) { '0' <= c <= '9' }

  /** `[0-9a-f]`. */
  predicate IsLowerHex(c: char) { IsDigit(c) || 'a' <= c <= 'f' }

  /** `\s` under `re.ASCII`: space, tab, newline, vertical tab, form feed, carriage return. */
  predicate IsRegexSpace(c: char) { c == ' ' || '\t' <= c <= '\r' }

  /** Python's `str.isspace`, used by `str.rstrip()` and `str.split()`. */
  predicate IsPySpace(c: char) {
    || '\t' <= c <= '\r'
    || '\U{1C}' <= c <= ' '
    || c == '\U{85}' || c == '\U{A0}' || c == '\U{1680}'
    || '\U{2000}' <= c <= '\U{200A}'
    || c == '\U{2028}' || c == '\U{2029}' || c == '\U{202F}' || c == '\U{205F}' || c == '\U{3000}'
  }

  /** The character classes the patterns are built from. */
  datatype Class = Digit | LowerHex | RegexSpace | PySpace | NotPySpace | NotNewline

  predicate In(c: char, p: Class)
  {
    match p
    case Digit => IsDigit(c)
    case LowerHex => IsLowerHex(c)
    case RegexSpace => IsRegexSpace(c)
    case PySpace => IsPySpace(c)
    case NotPySpace => !IsPySpace(c)
    case NotNewline => c != '\n'
  }

  predicate All(s: string, p: Class) {
    forall k {:trigger In(s[k], p)} :: 0 <= k < |s| ==> In(s[k], p)
  }

  predicate NoNewline(s: string) { All(s, NotNewline) }

  /** Every character of `s[i..j]` is in `p`, said of `s` itself. */
  predicate Span(s: string, i: nat, j: nat, p: Class) {
    j <= |s| && forall k {:trigger In(s[k], p)} :: i <= k < j ==> In(s[k], p)
  }

  lemma SpanSlice(s: string, i: nat, j: nat, p: Class)
    requires i <= j && Span(s, i, j, p)
    ensures All(s[i..j], p)
  {
    forall k | 0 <= k < j - i ensures In(s[i..j][k], p) { assert s[i..j][k] == s[i + k]; }
  }

  lemma AllConcat(a: string, b: string, p: Class)
    ensures All(a + b, p) <==> All(a, p) && All(b, p)
  {
    if All(a, p) && All(b, p) {
      forall k | 0 <= k < |a + b| ensures In((a + b)[k], p) {
        if k < |a| { assert (a + b)[k] == a[k]; } else { assert (a + b)[k] == b[k - |a|]; }
      }
    }
    if All(a + b, p) {
      forall k | 0 <= k < |a| ensures In(a[k], p) { assert (a + b)[k] == a[k]; }
      forall k | 0 <= k < |b| ensures In(b[k], p) { assert (a + b)[|a| + k] == b[k]; }
    }
  }

  /** Length of the longest run of characters satisfying `p` that starts at `i` (a greedy `p*`). */
  function Run(s: string, i: nat, p: Class): (n: nat)
    requires i <= |s|
    ensures i + n <= |s|
    ensures i + n == |s| || !In(s[i + n], p)
    decreases |s| - i
  {
    if i < |s| && In(s[i], p) then 1 + Run(s, i + 1, p) else 0
  }

  /** Every character of a run is in its class. */
  lemma {:induction false} RunSpan(s: string, i: nat, p: Class)
    requires i <= |s|
    ensures Span(s, i, i + Run(s, i, p), p)
    decreases |s| - i
  {
    if i < |s| && In(s[i], p) {
      RunSpan(s, i + 1, p);
    }
  }

  /** A run is determined by where it starts and what stops it. */
  lemma {:induction false} RunIsUnique(s: string, i: nat, p: Class, n: nat)
    requires Span(s, i, i + n, p)
    requires i + n == |s| || !In(s[i + n], p)
    ensures Run(s, i, p) == n
    decreases n
  {
    if n > 0 {
      assert In(s[i], p);
      RunIsUnique(s, i + 1, p, n - 1);
    }
  }

  /** The largest `k` in `[lo, hi)` with `p(k)`: the choice a greedy quantifier makes. */
  function LastWhere(lo: nat, hi: nat, p: nat -> bool): (r: Option<nat>)
    requires lo <= hi
    ensures r.Some? ==> lo <= r.value < hi && p(r.value)
    decreases hi - lo
  {
    if lo == hi then None
    else if p(hi - 1) then Some(hi - 1)
    else LastWhere(lo, hi - 1, p)
  }

  /** Nothing after the choice of LastWhere satisfies `p`, and nothing at all when it finds none. */
  lemma {:induction false} LastWhereIsLast(lo: nat, hi: nat, p: nat -> bool)
    requires lo <= hi
    ensures forall k :: lo <= k < hi && (LastWhere(lo, hi, p).None? || LastWhere(lo, hi, p).value < k) ==> !p(k)
    decreases hi - lo
  {
    if lo < hi && !p(hi - 1) {
      LastWhereIsLast(lo, hi - 1, p);
    }
  }

  /** A `k` after which nothing satisfies `p` is the choice of LastWhere. */
  lemma LastWhereFinds(lo: nat, hi: nat, p: nat -> bool, k: nat)
    requires lo <= k < hi && p(k)
    requires forall m :: k < m < hi ==> !p(m)
    ensures LastWhere(lo, hi, p) == Some(k)
    decreases hi - lo
  {
    if !p(hi - 1) {
      LastWhereFinds(lo, hi - 1, p, k);
    }
  }

  /** The smallest `k` in `[lo, hi)` with `p(k)`: the choice a lazy quantifier makes. */
  function FirstWhere(lo: nat, hi: nat, p: nat -> bool): (r: Option<nat>)
    requires lo <= hi
    ensures r.Some? ==> lo <= r.value < hi && p(r.value)
    decreases hi - lo
  {
    if lo == hi then None
    else if p(lo) then Some(lo)
    else FirstWhere(lo + 1, hi, p)
  }

  /** Nothing before the choice of FirstWhere satisfies `p`, and nothing at all when it finds none. */
  lemma {:induction false} FirstWhereIsFirst(lo: nat, hi: nat, p: nat -> bool)
    requires lo <= hi
    ensures forall k :: lo <= k < hi && (FirstWhere(lo, hi, p).None? || k < FirstWhere(lo, hi, p).value) ==> !p(k)
    decreases hi - lo
  {
    if lo < hi && !p(lo) {
      FirstWhereIsFirst(lo + 1, hi, p);
    }
  }

  /** A `k` before which nothing satisfies `p` is the choice of FirstWhere. */
  lemma FirstWhereFinds(lo: nat, hi: nat, p: nat -> bool, k: nat)
    requires lo <= k < hi && p(k)
    requires forall m :: lo <= m < k ==> !p(m)
    ensures FirstWhere(lo, hi, p) == Some(k)
    decreases hi - lo
  {
    if !p(lo) {
      FirstWhereFinds(lo + 1, hi, p, k);
    }
  }

  /** `s[m]`, as a term that only the lemmas about Placed mention. */
  function CharAt(s: string, m: nat): char
    requires m < |s|
  {
    s[m]
  }

  /** `piece` sits in `s` from position `k`. */
  predicate Placed(s: string, k: nat, piece: string)
  {
    k + |piece| <= |s| && forall m {:trigger CharAt(piece, m)} :: 0 <= m < |piece| ==> s[k + m] == CharAt(piece, m)
  }

  lemma SlicePlaced(s: string, lo: nat, hi: nat)
    requires lo <= hi <= |s|
    ensures Placed(s, lo, s[lo..hi])
  {
    forall m | 0 <= m < hi - lo ensures s[lo + m] == CharAt(s[lo..hi], m) { }
  }

  lemma PlacedSlice(s: string, k: nat, piece: string)
    requires Placed(s, k, piece)
    ensures s[k..k + |piece|] == piece
  {
    forall m | 0 <= m < |piece| ensures s[k..k + |piece|][m] == piece[m] { assert s[k + m] == CharAt(piece, m); }
  }

  /** A placed piece, said the way SpanSame and OccursSame take agreement. */
  lemma PlacedSame(s: string, k: nat, piece: string)
    requires Placed(s, k, piece)
    ensures forall m {:trigger piece[m]} :: 0 <= m < |piece| ==> piece[m] == s[m + k]
  {
    forall m | 0 <= m < |piece| ensures piece[m] == s[m + k] { assert s[k + m] == CharAt(piece, m); }
  }

  lemma PlacedSpan(s: string, k: nat, piece: string, p: Class)
    requires Placed(s, k, piece)
    ensures Span(s, k, k + |piece|, p) <==> All(piece, p)
  {
    if All(piece, p) {
      forall i | k <= i < k + |piece| ensures In(s[i], p) { assert s[k + (i - k)] == CharAt(piece, i - k); }
    }
    if Span(s, k, k + |piece|, p) {
      forall m | 0 <= m < |piece| ensures In(piece[m], p) { assert s[k + m] == CharAt(piece, m); }
    }
  }

  /** Some character of `s[i..j]` is `c`, said of `s` itself. */
  predicate Occurs(s: string, i: nat, j: nat, c: char)
    decreases j - i
  {
    i < j <= |s| && (s[i] == c || Occurs(s, i + 1, j, c))
  }

  /** Some `c` in `s[i..j]` has a `d` after it in that stretch: the regular expression `.*c.*d.*`. */
  predicate Precedes(s: string, i: nat, j: nat, c: char, d: char)
    decreases j - i
  {
    i < j <= |s| && (if s[i] == c then Occurs(s, i + 1, j, d) else Precedes(s, i + 1, j, c, d))
  }

  /** An occurrence at a known place. */
  lemma {:induction false} OccursAt(s: string, i: nat, j: nat, k: nat, c: char)
    requires i <= k < j <= |s| && s[k] == c
    ensures Occurs(s, i, j, c)
    decreases k - i
  {
    if s[i] != c { OccursAt(s, i + 1, j, k, c); }
  }

  /** An occurrence is found somewhere. */
  lemma {:induction false} OccursWhere(s: string, i: nat, j: nat, c: char) returns (k: nat)
    requires Occurs(s, i, j, c)
    ensures i <= k < j && s[k] == c
    decreases j - i
  {
    if s[i] == c { k := i; } else { k := OccursWhere(s, i + 1, j, c); }
  }

  /** A `c` before a `d`, both at known places. */
  lemma {:induction false} PrecedesAt(s: string, i: nat, j: nat, k: nat, m: nat, c: char, d: char)
    requires i <= k < m < j <= |s| && s[k] == c && s[m] == d
    ensures Precedes(s, i, j, c, d)
    decreases k - i
  {
    if s[i] == c { OccursAt(s, i + 1, j, m, d); } else { PrecedesAt(s, i + 1, j, k, m, c, d); }
  }

  /** Two strings that agree on a stretch agree on what occurs and precedes there. */
  lemma {:induction false} OccursSame(s: string, t: string, i: nat, j: nat, d: int, c: char, e: char)
    requires i <= j <= |s| && 0 <= i + d && j + d <= |t|
    requires forall k {:trigger s[k]} :: i <= k < j ==> s[k] == t[k + d]
    ensures Occurs(s, i, j, c) <==> Occurs(t, i + d, j + d, c)
    ensures Precedes(s, i, j, c, e) <==> Precedes(t, i + d, j + d, c, e)
    decreases j - i
  {
    if i < j {
      assert s[i] == t[i + d];
      OccursSame(s, t, i + 1, j, d, c, e);
      OccursSame(s, t, i + 1, j, d, e, e);
    }
  }

  /** Two strings that agree on a stretch agree on the spans there. */
  lemma SpanSame(s: string, t: string, i: nat, j: nat, d: int, p: Class)
    requires i <= j <= |s| && 0 <= i + d && j + d <= |t|
    requires forall k {:trigger s[k]} :: i <= k < j ==> s[k] == t[k + d]
    ensures Span(s, i, j, p) <==> Span(t, i + d, j + d, p)
  {
    if Span(t, i + d, j + d, p) {
      forall k | i <= k < j ensures In(s[k], p) { assert t[k + d] == s[k]; }
    }
    if Span(s, i, j, p) {
      forall k | i + d <= k < j + d ensures In(t[k], p) { assert s[k - d] == t[k]; }
    }
  }

  /** Two strings that agree from `i` to their ends have the same runs there. */
  lemma RunSame(s: string, t: string, i: nat, d: int, p: Class)
    requires i <= |s| && 0 <= i + d && |t| == |s| + d
    requires forall k {:trigger s[k]} :: i <= k < |s| ==> s[k] == t[k + d]
    ensures Run(t, i + d, p) == Run(s, i, p)
  {
    var n := Run(s, i, p);
    RunSpan(s, i, p);
    SpanSame(s, t, i, i + n, d, p);
    if i + n < |s| { assert s[i + n] == t[i + n + d]; }
    RunIsUnique(t, i + d, p, n);
  }

  /** `str.rstrip()`: drop trailing whitespace. */
  function RStrip(s: string): (r: string)
    ensures r <= s
    ensures All(s[|r|..], PySpace)
    ensures r == [] || !IsPySpace(r[|r| - 1])
  {
    if s != [] && IsPySpace(s[|s| - 1]) then
      var r := RStrip(s[..|s| - 1]);
      assert s[|r|..] == s[..|s| - 1][|r|..] + [s[|s| - 1]];
      AllConcat(s[..|s| - 1][|r|..], [s[|s| - 1]], PySpace);
      r
    else s
  }

  /** `str.split()` with no separator: the maximal runs of non-whitespace, in order. */
  function Split(s: string): (r: seq<string>)
    ensures forall w :: w in r ==> w != [] && All(w, NotPySpace)
    ensures All(s, PySpace) <==> r == []
    decreases |s|
  {
    var i := Run(s, 0, PySpace);
    RunSpan(s, 0, PySpace);
    if i == |s| then
      SpanSlice(s, 0, i, PySpace);
      assert s[0..i] == s;
      []
    else
      var j := Run(s, i, NotPySpace);
      RunSpan(s, i, NotPySpace);
      SpanSlice(s, i, i + j, NotPySpace);
      [s[i..i + j]] + Split(s[i + j..])
  }

  /**
   * The words of whitespace, a word and a rest that is empty or starts with
   * whitespace are that word and then the words of the rest. With the
   * all-whitespace case of Split itself, this pins `str.split()` down: the
   * maximal runs of non-whitespace, in order.
   */
  lemma {:induction false} SplitWord(ws: string, w: string, rest: string)
    requires All(ws, PySpace) && w != [] && All(w, NotPySpace) && (rest == [] || IsPySpace(rest[0]))
    ensures Split(ws + w + rest) == [w] + Split(rest)
  {
    var s := ws + w + rest;
    forall k | 0 <= k < |ws| ensures In(s[k], PySpace) { assert s[k] == ws[k]; }
    assert s[|ws|] == w[0] && !In(w[0], PySpace) by { assert In(w[0], NotPySpace); }
    RunIsUnique(s, 0, PySpace, |ws|);
    forall k | |ws| <= k < |ws| + |w| ensures In(s[k], NotPySpace) { assert s[k] == w[k - |ws|]; }
    if rest != [] { assert s[|ws| + |w|] == rest[0]; }
    RunIsUnique(s, |ws|, NotPySpace, |w|);
    assert s[|ws|..|ws| + |w|] == w;
    assert s[|ws| + |w|..] == rest;
  }

  /** One step of Split: the first word, then the words of what follows it. */
  lemma {:induction false} SplitStep(s: string)
    requires Run(s, 0, PySpace) < |s|
    ensures var i := Run(s, 0, PySpace); var j := Run(s, i, NotPySpace);
      j > 0 && Split(s) == [s[i..i + j]] + Split(s[i + j..])
  {
    var i := Run(s, 0, PySpace);
    var j := Run(s, i, NotPySpace);
    SplitPieces(s, i, j);
    SplitWord(s[0..i], s[i..i + j], s[i + j..]);
  }

  /** The pieces of one step of Split: leading whitespace, a word, and a rest that starts with whitespace. */
  lemma {:induction false} SplitPieces(s: string, i: nat, j: nat)
    requires i == Run(s, 0, PySpace) < |s| && j == Run(s, i, NotPySpace)
    ensures All(s[0..i], PySpace) && s[i..i + j] != [] && All(s[i..i + j], NotPySpace)
    ensures s[i + j..] == [] || IsPySpace(s[i + j..][0])
    ensures s == s[0..i] + s[i..i + j] + s[i + j..]
  {
    RunSpan(s, 0, PySpace);
    SpanSlice(s, 0, i, PySpace);
    RunSpan(s, i, NotPySpace);
    SpanSlice(s, i, i + j, NotPySpace);
    if i + j < |s| { assert s[i + j..][0] == s[i + j]; }
  }

  lemma {:induction false} SliceAvoids(s: string, lo: nat, hi: nat, c: char)
    requires lo <= hi <= |s| && c !in s
    ensures c !in s[lo..hi]
  {
    forall k | 0 <= k < hi - lo ensures s[lo..hi][k] != c {
      assert s[lo..hi][k] == s[lo + k];
    }
  }

  /** The words hold only characters of the string. */
  lemma {:induction false} SplitAvoids(s: string, c: char)
    requires c !in s
    ensures forall k :: 0 <= k < |Split(s)| ==> c !in Split(s)[k]
    decreases |s|
  {
    var i := Run(s, 0, PySpace);
    if i == |s| {
      assert Split(s) == [];
    } else {
      var j := Run(s, i, NotPySpace);
      var w, rest := s[i..i + j], s[i + j..];
      assert j > 0 && Split(s) == [w] + Split(rest) by { SplitStep(s); }
      PiecesAvoid(s, i, i + j, c);
      SplitAvoids(rest, c);
      WordsAvoid(w, Split(rest), c);
    }
  }

  /** A slice and a suffix of a string hold only characters of the string. */
  lemma {:induction false} PiecesAvoid(s: string, lo: nat, hi: nat, c: char)
    requires lo <= hi <= |s| && c !in s
    ensures c !in s[lo..hi] && c !in s[hi..]
  {
    SliceAvoids(s, lo, hi, c);
    SliceAvoids(s, hi, |s|, c);
    assert s[hi..] == s[hi..|s|];
  }

  /** A word and a list of words free of a character, put together, are free of it. */
  lemma {:induction false} WordsAvoid(w: string, words: seq<string>, c: char)
    requires c !in w && forall k :: 0 <= k < |words| ==> c !in words[k]
    ensures forall k :: 0 <= k < |[w] + words| ==> c !in ([w] + words)[k]
  {
    forall k | 0 <= k < |[w] + words| ensures c !in ([w] + words)[k] {
      if k > 0 { assert ([w] + words)[k] == words[k - 1]; }
    }
  }

  /** `s.replace(c, t)` for a one-character `c`. */
  function Replace(s: string, c: char, t: string): (r: string)
    ensures c !in s ==> r == s
    ensures |s| == 1 ==> r == if s[0] == c then t else s
    ensures forall x :: x in r ==> x in t || (x in s && x != c)
  {
    if s == [] then []
    else (if s[0] == c then t else [s[0]]) + Replace(s[1..], c, t)
  }

  /**
   * Replacing in a concatenation replaces in each part; with the one-character
   * case above, `s.replace(c, t)` is the concatenation of every character of
   * `s` replaced on its own.
   */
  lemma {:induction false} ReplaceAppend(a: string, b: string, c: char, t: string)
    ensures Replace(a + b, c, t) == Replace(a, c, t) + Replace(b, c, t)
    decreases |a|
  {
    if a == [] {
      assert a + b == b;
    } else {
      assert (a + b)[1..] == a[1..] + b;
      ReplaceAppend(a[1..], b, c, t);
    }
  }

  /** `sep.join(parts)`. */
  function Join(parts: seq<string>, sep: string): string
  {
    if parts == [] then []
    else if |parts| == 1 then parts[0]
    else parts[0] + sep + Join(parts[1..], sep)
  }

  /** `s.split(c)` for a one-character `c`: the pieces between the occurrences of `c`, empty ones included. */
  function SplitOn(s: string, c: char): (r: seq<string>)
    ensures |r| >= 1 && forall k :: 0 <= k < |r| ==> c !in r[k]
    decreases |s|
  {
    if s == [] then [[]]
    else
      var rest := SplitOn(s[1..], c);
      if s[0] == c then [[]] + rest else [[s[0]] + rest[0]] + rest[1..]
  }

  /** Putting `c` back between the pieces gives the string again. */
  lemma {:induction false} SplitOnJoin(s: string, c: char)
    ensures Join(SplitOn(s, c), [c]) == s
    decreases |s|
  {
    if s != [] {
      var rest := SplitOn(s[1..], c);
      SplitOnJoin(s[1..], c);
      if s[0] == c {
        assert ([[]] + rest)[1..] == rest;
      } else {
        JoinCons(s[0], rest[0], rest[1..], [c]);
        assert [rest[0]] + rest[1..] == rest;
      }
    }
  }

  /** Python's own description of `replace`: `t.join(s.split(c))`. */
  lemma {:induction false} ReplaceIsJoinOfSplit(s: string, c: char, t: string)
    ensures Replace(s, c, t) == Join(SplitOn(s, c), t)
    decreases |s|
  {
    if s != [] {
      var rest := SplitOn(s[1..], c);
      ReplaceIsJoinOfSplit(s[1..], c, t);
      if s[0] == c {
        assert ([[]] + rest)[1..] == rest;
      } else {
        JoinCons(s[0], rest[0], rest[1..], t);
        assert [rest[0]] + rest[1..] == rest;
      }
    }
  }

  /** A character put in front of the first part goes in front of the joined string. */
  lemma JoinCons(x: char, p: string, q: seq<string>, sep: string)
    ensures Join([[x] + p] + q, sep) == [x] + Join([p] + q, sep)
  {
    var a := [[x] + p] + q;
    var b := [p] + q;
    if q != [] {
      assert a[1..] == q && b[1..] == q;
    }
  }

  /** A character that no part contains and the separator lacks is not in the joined string. */
  lemma {:induction false} JoinAvoids(parts: seq<string>, sep: string, c: char)
    requires forall k :: 0 <= k < |parts| ==> c !in parts[k]
    requires c !in sep
    ensures c !in Join(parts, sep)
    decreases |parts|
  {
    if |parts| > 1 {
      JoinAvoids(parts[1..], sep, c);
    }
  }

  /** Each word preceded by `sep`, all run together. */
  function Prefixed(words: seq<string>, sep: string): (r: string)
    ensures |r| >= |words| * |sep|
    ensures words != [] ==> r[..|sep|] == sep
  {
    if words == [] then [] else sep + words[0] + Prefixed(words[1..], sep)
  }

  /** Joining puts the separator before every part but the first. */
  lemma {:induction false} JoinPrefixed(x: string, ys: seq<string>, sep: string)
    ensures Join([x] + ys, sep) == x + Prefixed(ys, sep)
    decreases |ys|
  {
    var parts := [x] + ys;
    if ys != [] {
      assert parts[1..] == ys && parts[0] == x;
      assert ys == [ys[0]] + ys[1..];
      JoinPrefixed(ys[0], ys[1..], sep);
      AppendAssoc(x, sep, Join(ys, sep));
      AppendAssoc(sep, ys[0], Prefixed(ys[1..], sep));
      AppendAssoc(x + sep, ys[0], Prefixed(ys[1..], sep));
    }
  }

  lemma AppendAssoc(a: string, b: string, c: string)
    ensures a + (b + c) == a + b + c
  {
  }

  /** A word of `str.split()`: not empty and without whitespace. */
  predicate Word(w: string) { w != [] && All(w, NotPySpace) }

  /** `str.split()` takes words run together, each after a blank, apart again. */
  lemma {:induction false} SplitPrefixed(words: seq<string>)
    requires forall k :: 0 <= k < |words| ==> Word(words[k])
    ensures Split(Prefixed(words, " ")) == words
    decreases |words|
  {
    if words != [] {
      var rest := Prefixed(words[1..], " ");
      SplitPrefixed(words[1..]);
      assert In(' ', PySpace);
      assert rest == [] || IsPySpace(rest[0]) by {
        if words[1..] != [] { assert rest[..1] == " "; assert rest[0] == ' '; }
      }
      SplitWord(" ", words[0], rest);
      assert words == [words[0]] + words[1..];
    }
  }

  /** `str.split()` undoes joining words with blanks. */
  lemma {:induction false} SplitJoin(words: seq<string>)
    requires forall k :: 0 <= k < |words| ==> Word(words[k])
    ensures Split(Join(words, " ")) == words
  {
    if words != [] {
      var rest := Prefixed(words[1..], " ");
      JoinPrefixed(words[0], words[1..], " ");
      assert [words[0]] + words[1..] == words;
      SplitPrefixed(words[1..]);
      SplitFirst(words[0], rest, words[1..]);
    }
  }

  lemma {:induction false} SplitFirst(w: string, rest: string, tail: seq<string>)
    requires Word(w) && Split(rest) == tail
    requires tail != [] ==> rest[..1] == " "
    ensures Split(w + rest) == [w] + tail
  {
    assert rest == [] || IsPySpace(rest[0]) by {
      if rest != [] {
        if tail == [] {
          assert All(rest, PySpace);
          assert In(rest[0], PySpace);
        } else {
          assert rest[0] == rest[..1][0];
        }
      }
    }
    SplitLeading(w, rest);
  }

  /** A word followed by nothing or by whitespace is the first word. */
  lemma {:induction false} SplitLeading(w: string, rest: string)
    requires Word(w) && (rest == [] || IsPySpace(rest[0]))
    ensures Split(w + rest) == [w] + Split(rest)
  {
    var ws: string := [];
    assert ws + w + rest == w + rest;
    SplitWord(ws, w, rest);
  }

  lemma NoNewlineAvoids(s: string)
    ensures NoNewline(s) <==> '\n' !in s
  {
    if NoNewline(s) {
      forall k | 0 <= k < |s| ensures s[k] != '\n' { assert In(s[k], NotNewline); }
    }
  }

  function DigitValue(c: char): (v: nat)
    requires IsDigit(c)
    ensures v < 10
  {
    (c as int - '0' as int) as nat
  }

  function HexDigitValue(c: char): (v: nat)
    requires IsLowerHex(c)
    ensures v < 16
  {
    if IsDigit(c) then DigitValue(c) else (c as int - 'a' as int + 10) as nat
  }

  /** `int(s)` for a string of decimal digits. */
  function DecimalValue(s: string): nat
    requires All(s, Digit)
  {
    if s == [] then 0
    else
      assert In(s[|s| - 1], Digit);
      DecimalValue(s[..|s| - 1]) * 10 + DigitValue(s[|s| - 1])
  }

  /** `int(s, 16)` for a string of lower-case hexadecimal digits. */
  function HexValue(s: string): nat
    requires All(s, LowerHex)
  {
    if s == [] then 0
    else
      assert In(s[|s| - 1], LowerHex);
      HexValue(s[..|s| - 1]) * 16 + HexDigitValue(s[|s| - 1])
  }

  function DigitChar(d: nat): (c: char)
    requires d < 10
    ensures IsDigit(c) && DigitValue(c) == d
  {
    ('0' as int + d) as char
  }

  /** `str(n)`: the canonical decimal spelling of `n`. */
  function Decimal(n: nat): (s: string)
    ensures s != [] && All(s, Digit)
    ensures DecimalValue(s) == n
  {
    if n < 10 then [DigitChar(n)]
    else
      var s := Decimal(n / 10) + [DigitChar(n % 10)];
      assert s[..|s| - 1] == Decimal(n / 10);
      s
  }

  function Pow10(n: nat): (p: nat)
    ensures p >= 1
  {
    if n == 0 then 1 else 10 * Pow10(n - 1)
  }

  /** `float(i + "." + f)` for digit strings `i` and `f`, as an exact real. */
  function DecimalReal(i: string, f: string): real
    requires All(i, Digit) && All(f, Digit)
  {
    DecimalValue(i) as real + DecimalValue(f) as real / Pow10(|f|) as real
  }
}
