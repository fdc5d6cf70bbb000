/**
 * The operations of Python's `str` that the scraper relies on: `isspace`,
 * `strip()`, `split(sep)`, `sep.join(...)` and the substring test `needle in hay`.
 * Strings are sequences of characters.
 */
module Text {

  /** `str.isspace` for a single character (the Unicode White_Space set Python uses). */
  predicate IsSpace(c: char) {
    var n := c as int;
    || n == 0x20
    || 0x09 <= n <= 0x0D
    || 0x1C <= n <= 0x1F
    || n == 0x85
    || n == 0xA0
    || n == 0x1680
    || 0x2000 <= n <= 0x200A
    || n == 0x2028
    || n == 0x2029
    || n == 0x202F
    || n == 0x205F
    || n == 0x3000
  }

  /** A string with no white space at either end: what `strip()` returns. */
  predicate IsStripped(s: string) {
    s == [] || (!IsSpace(s[0]) && !IsSpace(s[|s| - 1]))
  }

  /** The first offset at or after `i` that does not hold white space (`|s|` if there is none). */
  function SkipLeading(s: string, i: nat): (n: nat)
    requires i <= |s|
    ensures i <= n <= |s|
    ensures forall k :: i <= k < n ==> IsSpace(s[k])
    ensures n < |s| ==> !IsSpace(s[n])
    decreases |s| - i
  {
    if i < |s| && IsSpace(s[i]) then SkipLeading(s, i + 1) else i
  }

  /** The offset just after the last character before `j` that is not white space (`0` if there is none). */
  function SkipTrailing(s: string, j: nat): (n: nat)
    requires j <= |s|
    ensures n <= j
    ensures forall k :: n <= k < j ==> IsSpace(s[k])
    ensures n > 0 ==> !IsSpace(s[n - 1])
    decreases j
  {
    if j > 0 && IsSpace(s[j - 1]) then SkipTrailing(s, j - 1) else j
  }

  /**
   * `r` is `s` with the white space before offset `i` and the white space
   * after `r` cut off.
   */
  predicate StrippedAt(s: string, i: nat, r: string) {
    && i + |r| <= |s|
    && (forall k :: 0 <= k < |r| ==> r[k] == s[i + k])
    && (forall k :: 0 <= k < i ==> IsSpace(s[k]))
    && (forall k :: i + |r| <= k < |s| ==> IsSpace(s[k]))
  }

  /**
   * `strip()`: `s` without its leading and trailing white space. The result
   * is what is left of `s` once white space is cut off at both ends, and it
   * has white space at neither end; so only characters of `s` survive, a
   * string that is already stripped comes back unchanged, and only an
   * all-blank string becomes empty.
   */
  function Strip(s: string): (r: string)
    ensures IsStripped(r)
    ensures forall c :: c in r ==> c in s
    ensures IsStripped(s) ==> r == s
    ensures r == [] <==> forall i :: 0 <= i < |s| ==> IsSpace(s[i])
  {
    var i := SkipLeading(s, 0);
    var j := SkipTrailing(s, |s|);
    var r := Between(s, i, j);
    assert StrippedAt(s, i, r);
    assert IsStripped(s) && s != [] ==> i == 0 && j == |s|;
    r
  }

  /**
   * What `strip()` returns is `s` with white space cut off at both ends and
   * nothing else removed; with `StrippedAtUnique` this fixes the result.
   */
  lemma StripCutsBlanks(s: string)
    ensures exists i :: StrippedAt(s, i, Strip(s))
  {
    assert StrippedAt(s, SkipLeading(s, 0), Strip(s));
  }

  /** The characters of `s` from offset `i` up to offset `j`, none when `j <= i`. */
  function Between(s: string, i: nat, j: int): string
    requires i <= |s| && j <= |s|
  {
    if j <= i then [] else s[i..j]
  }

  /**
   * At most one stripped string is left of `s` once white space is cut off
   * at both ends: the contract of `Strip` fixes its result.
   */
  lemma StrippedAtUnique(s: string, i1: nat, r1: string, i2: nat, r2: string)
    requires StrippedAt(s, i1, r1) && IsStripped(r1)
    requires StrippedAt(s, i2, r2) && IsStripped(r2)
    ensures r1 == r2
  {
    if r1 != [] && r2 != [] {
      assert r1[0] == s[i1] && r2[0] == s[i2];
      assert i1 == i2;
      assert r1[|r1| - 1] == s[i1 + |r1| - 1] && r2[|r2| - 1] == s[i2 + |r2| - 1];
      assert |r1| == |r2|;
    }
  }

  /** A space put in front of `s` joins the white space cut off before `r`. */
  lemma StrippedAtSpacePrefix(s: string, i: nat, r: string)
    requires StrippedAt(s, i, r)
    ensures StrippedAt(" " + s, i + 1, r)
  {
    var p := " " + s;
    forall k | 0 <= k < |r| ensures r[k] == p[i + 1 + k] {
      assert p[i + 1 + k] == s[i + k];
    }
    forall k | 0 <= k < i + 1 ensures IsSpace(p[k]) {
      if k > 0 {
        assert p[k] == s[k - 1];
      }
    }
    forall k | i + 1 + |r| <= k < |p| ensures IsSpace(p[k]) {
      assert p[k] == s[k - 1];
    }
  }

  /** Leading white space does not survive `strip()`. */
  lemma StripSpacePrefix(s: string)
    ensures Strip(" " + s) == Strip(s)
  {
    var r := Strip(s);
    StripCutsBlanks(s);
    var i: nat :| StrippedAt(s, i, r);
    StrippedAtSpacePrefix(s, i, r);
    var q := Strip(" " + s);
    StripCutsBlanks(" " + s);
    var j: nat :| StrippedAt(" " + s, j, q);
    StrippedAtUnique(" " + s, i + 1, r, j, q);
  }

  /** `s.count(c)` for a single character. */
  function Count(s: string, c: char): (n: nat)
    ensures n <= |s|
    ensures n == 0 <==> c !in s
    decreases |s|
  {
    if s == [] then 0
    else (if s[0] == c then 1 else 0) + Count(s[1..], c)
  }

  /**
   * `sep.join(xs)`: the pieces of `xs` in order with `sep` between each
   * neighbouring pair (the empty list joins to the empty string).
   */
  function Join(xs: seq<string>, sep: string): (r: string)
    decreases |xs|
  {
    if xs == [] then []
    else if |xs| == 1 then xs[0]
    else xs[0] + sep + Join(xs[1..], sep)
  }

  /**
   * `s.split(sep)` for a one-character separator: the maximal pieces of `s`
   * free of `sep`, in order. There is one piece more than there are
   * separators (so the empty string gives one empty piece), and joining the
   * pieces with `sep` gives `s` back.
   */
  function Split(s: string, sep: char): (r: seq<string>)
    ensures |r| == Count(s, sep) + 1
    ensures forall i :: 0 <= i < |r| ==> sep !in r[i]
    ensures Join(r, [sep]) == s
    decreases |s|
  {
    if s == [] then [[]]
    else
      var rest := Split(s[1..], sep);
      assert s == [s[0]] + s[1..];
      if s[0] == sep then
        JoinEmptyFirst(rest, [sep]);
        [[]] + rest
      else
        JoinExtendFirst(s[0], rest, [sep]);
        [[s[0]] + rest[0]] + rest[1..]
  }

  /** An empty first piece leaves only the separator in front of the rest. */
  lemma JoinEmptyFirst(xs: seq<string>, sep: string)
    requires |xs| >= 1
    ensures Join([[]] + xs, sep) == sep + Join(xs, sep)
  {
    assert ([[]] + xs)[1..] == xs;
  }

  /** A character put in front of the first piece comes first in the join. */
  lemma JoinExtendFirst(c: char, xs: seq<string>, sep: string)
    requires |xs| >= 1
    ensures Join([[c] + xs[0]] + xs[1..], sep) == [c] + Join(xs, sep)
  {
    var ys := [[c] + xs[0]] + xs[1..];
    assert ys[1..] == xs[1..];
  }

  /** A leading space that is not the separator joins the first piece. */
  lemma SplitSpacePrefix(t: string, sep: char)
    requires sep != ' '
    ensures Split(" " + t, sep) == [" " + Split(t, sep)[0]] + Split(t, sep)[1..]
  {
    assert (" " + t)[0] == ' ' && (" " + t)[1..] == t;
  }

  /** A string with no separator is a single piece. */
  lemma {:induction false} SplitWithoutSeparator(x: string, sep: char)
    requires sep !in x
    ensures Split(x, sep) == [x]
    decreases |x|
  {
    if x != [] {
      SplitWithoutSeparator(x[1..], sep);
    }
  }

  /** The piece before the first separator comes off the front of the split. */
  lemma {:induction false} SplitAfterPiece(x: string, t: string, sep: char)
    requires sep !in x
    ensures Split(x + [sep] + t, sep) == [x] + Split(t, sep)
    decreases |x|
  {
    var s := x + [sep] + t;
    if x == [] {
      assert s[1..] == t;
    } else {
      assert s[0] == x[0] && s[1..] == x[1..] + [sep] + t;
      SplitAfterPiece(x[1..], t, sep);
      SplitOtherFirst(s, sep);
      assert [x[0]] + x[1..] == x;
    }
  }

  /** A first character other than the separator starts the first piece. */
  lemma SplitOtherFirst(s: string, sep: char)
    requires s != [] && s[0] != sep
    ensures Split(s, sep) == [[s[0]] + Split(s[1..], sep)[0]] + Split(s[1..], sep)[1..]
  {
  }

  /** Splitting undoes joining, when no piece holds the separator. */
  lemma {:induction false} SplitJoin(xs: seq<string>, sep: char)
    requires |xs| >= 1
    requires forall i :: 0 <= i < |xs| ==> sep !in xs[i]
    ensures Split(Join(xs, [sep]), sep) == xs
    decreases |xs|
  {
    if |xs| == 1 {
      SplitWithoutSeparator(xs[0], sep);
    } else {
      SplitJoin(xs[1..], sep);
      SplitAfterPiece(xs[0], Join(xs[1..], [sep]), sep);
      assert xs == [xs[0]] + xs[1..];
    }
  }

  /** `[f(x) for x in xs]`: `f` applied to each element, in order. */
  function Map<T, U>(xs: seq<T>, f: T -> U): (r: seq<U>)
    ensures |r| == |xs|
    ensures forall i :: 0 <= i < |xs| ==> r[i] == f(xs[i])
    decreases |xs|
  {
    if xs == [] then [] else [f(xs[0])] + Map(xs[1..], f)
  }

  /** `"".join(f(x) for x in xs)`: the strings `f` gives for the elements of `xs`, end to end, in order. */
  function ConcatMap<T>(xs: seq<T>, f: T -> string): string
    decreases |xs|
  {
    if xs == [] then []
    else ConcatMap(xs[..|xs| - 1], f) + f(xs[|xs| - 1])
  }

  /** The concatenation over two lists joined is the concatenation over the first followed by that over the second. */
  lemma {:induction false} ConcatMapAppend<T>(a: seq<T>, b: seq<T>, f: T -> string)
    ensures ConcatMap(a + b, f) == ConcatMap(a, f) + ConcatMap(b, f)
    decreases |b|
  {
    if b == [] {
      assert a + b == a;
    } else {
      var front, last := b[..|b| - 1], b[|b| - 1];
      calc {
        ConcatMap(a + b, f);
        { assert (a + b)[..|a + b| - 1] == a + front && (a + b)[|a + b| - 1] == last; }
        ConcatMap(a + front, f) + f(last);
        { ConcatMapAppend(a, front, f); }
        (ConcatMap(a, f) + ConcatMap(front, f)) + f(last);
        ConcatMap(a, f) + (ConcatMap(front, f) + f(last));
      }
    }
  }

  /** Adding an element at the end adds its piece at the end. */
  lemma ConcatMapSnoc<T>(xs: seq<T>, x: T, f: T -> string)
    ensures ConcatMap(xs + [x], f) == ConcatMap(xs, f) + f(x)
  {
    assert (xs + [x])[..|xs|] == xs;
  }

  /** The piece of one element sits between those of the elements before and after it. */
  lemma ConcatMapAround<T>(front: seq<T>, x: T, back: seq<T>, f: T -> string)
    ensures ConcatMap(front + [x] + back, f) == ConcatMap(front, f) + f(x) + ConcatMap(back, f)
  {
    ConcatMapAppend(front + [x], back, f);
    ConcatMapSnoc(front, x, f);
  }

  /** `s.startswith(prefix)`: `s` begins with `prefix`. */
  predicate StartsWith(s: string, prefix: string) {
    |prefix| <= |s| && s[..|prefix|] == prefix
  }

  /** The substring test `needle in hay`. */
  predicate ContainsText(hay: string, needle: string)
    decreases |hay|
  {
    StartsWith(hay, needle) || (hay != [] && ContainsText(hay[1..], needle))
  }

  /** `needle` occurs in `hay` at offset `i`. */
  predicate OccursAt(hay: string, needle: string, i: nat) {
    i + |needle| <= |hay| && hay[i..i + |needle|] == needle
  }

  /** An occurrence of `needle` at any offset of `hay` makes the test succeed. */
  lemma {:induction false} ContainsTextAt(hay: string, needle: string, i: nat)
    requires OccursAt(hay, needle, i)
    ensures ContainsText(hay, needle)
    decreases i
  {
    if i > 0 {
      assert hay[1..][i - 1..i - 1 + |needle|] == hay[i..i + |needle|];
      ContainsTextAt(hay[1..], needle, i - 1);
    }
  }

  /** The test succeeds only where `needle` occurs: a successful test has an offset. */
  lemma {:induction false} ContainsTextHasOffset(hay: string, needle: string) returns (i: nat)
    requires ContainsText(hay, needle)
    ensures OccursAt(hay, needle, i)
    decreases |hay|
  {
    if StartsWith(hay, needle) {
      i := 0;
    } else {
      var j := ContainsTextHasOffset(hay[1..], needle);
      assert hay[1..][j..j + |needle|] == hay[j + 1..j + 1 + |needle|];
      i := j + 1;
    }
  }

  /** The substring test holds exactly when `needle` occurs at some offset of `hay`. */
  lemma ContainsTextIffOccurs(hay: string, needle: string)
    ensures ContainsText(hay, needle) <==> exists i: nat :: OccursAt(hay, needle, i)
  {
    if ContainsText(hay, needle) {
      var i := ContainsTextHasOffset(hay, needle);
    }
    if exists i: nat :: OccursAt(hay, needle, i) {
      var i: nat :| OccursAt(hay, needle, i);
      ContainsTextAt(hay, needle, i);
    }
  }
}
