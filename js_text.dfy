/** The few JavaScript string and number primitives the solvers are built from:
    `indexOf`, `slice` (with its negative indices), `trim`, `toLowerCase`,
    substring search and `parseInt` with radix 10. */
module JsText {

  /** A JavaScript number as `parseInt` produces it: an integer, or NaN when
      no digit could be read. */
  datatype Num = Int(value: int) | NaN

  predicate IsDigit(c: char) { '0' <= c <= '9' }

  predicate AllDigits(s: string) { forall i | 0 <= i < |s| :: IsDigit(s[i]) }

  /** The white space and line terminators that `trim` and `parseInt` skip:
      among the ASCII characters, the space and tab, line feed, vertical tab,
      form feed and carriage return; beyond them, those of `IsWideSpace`. */
  predicate IsSpace(c: char)
  {
    if c < '\U{80}' then c == ' ' || '\t' <= c <= '\r' else IsWideSpace(c)
  }

  /** The space separators of Unicode category Zs above ASCII, the line and
      paragraph separators, and the byte order mark. */
  predicate IsWideSpace(c: char)
  {
    c == '\U{A0}' || c == '\U{1680}' || '\U{2000}' <= c <= '\U{200A}'
    || c == '\U{2028}' || c == '\U{2029}' || c == '\U{202F}' || c == '\U{205F}'
    || c == '\U{3000}' || c == '\U{FEFF}'
  }

  /** `s.indexOf(c, from)`: the first position at or after `from` holding `c`,
      or -1. */
  function IndexOfFrom(s: string, c: char, from: nat): (r: int)
    ensures r == -1 || (from <= r < |s| && s[r] == c)
    ensures forall i | from <= i < |s| && (r == -1 || i < r) :: s[i] != c
    decreases |s| - from
  {
    if from >= |s| then -1
    else if s[from] == c then from
    else IndexOfFrom(s, c, from + 1)
  }

  /** `s.indexOf(c)`. */
  function IndexOf(s: string, c: char): int
  {
    IndexOfFrom(s, c, 0)
  }

  /** A position satisfying the two halves of the `IndexOfFrom` contract is
      the one it returns. */
  lemma IndexOfFromIs(s: string, c: char, from: nat, k: nat)
    requires from <= k < |s| && s[k] == c
    requires forall i | from <= i < k :: s[i] != c
    ensures IndexOfFrom(s, c, from) == k
  {
  }

  lemma IndexOfFromAbsent(s: string, c: char, from: nat)
    requires forall i | from <= i < |s| :: s[i] != c
    ensures IndexOfFrom(s, c, from) == -1
  {
  }

  /** How `slice` reads an index: negative counts back from the end, and the
      result is clamped to the string. */
  function SliceIndex(i: int, len: nat): (r: nat)
    ensures r <= len
    ensures 0 <= i <= len ==> r == i
  {
    if i < 0 then (if len + i < 0 then 0 else len + i)
    else if i > len then len
    else i
  }

  /** `s.slice(start, end)`. */
  function Slice(s: string, start: int, end: int): (r: string)
    ensures 0 <= start <= end <= |s| ==> r == s[start..end]
    ensures end == -1 && 0 <= start < |s| ==> r == s[start..|s| - 1]
    ensures |r| <= |s|
  {
    var from, to := SliceIndex(start, |s|), SliceIndex(end, |s|);
    if from < to then s[from..to] else []
  }

  /** The white space at the front of `s` removed. */
  function TrimStart(s: string): (r: string)
    ensures |r| <= |s| && r == s[|s| - |r|..]
    ensures r == [] || !IsSpace(r[0])
    ensures forall i | 0 <= i < |s| - |r| :: IsSpace(s[i])
  {
    if s != [] && IsSpace(s[0]) then TrimStart(s[1..]) else s
  }

  /** The white space at the back of `s` removed. */
  function TrimEnd(s: string): (r: string)
    ensures |r| <= |s| && r == s[..|r|]
    ensures r == [] || !IsSpace(r[|r| - 1])
    ensures forall i | |r| <= i < |s| :: IsSpace(s[i])
  {
    if s != [] && IsSpace(s[|s| - 1]) then TrimEnd(s[..|s| - 1]) else s
  }

  /** `s.trim()`. */
  function Trim(s: string): string
  {
    TrimEnd(TrimStart(s))
  }

  function LowerChar(c: char): (r: char)
  {
    if 'A' <= c <= 'Z' then (c as int + 32) as char else c
  }

  /** `s.toLowerCase()` on the ASCII letters. */
  function ToLower(s: string): (r: string)
    ensures |r| == |s| && forall i | 0 <= i < |s| :: r[i] == LowerChar(s[i])
  {
    seq(|s|, i requires 0 <= i < |s| => LowerChar(s[i]))
  }

  lemma ToLowerIdempotent(s: string)
    ensures ToLower(ToLower(s)) == ToLower(s)
  {
  }

  lemma ToLowerConcat(a: string, b: string)
    ensures ToLower(a + b) == ToLower(a) + ToLower(b)
  {
  }

  /** Digits, punctuation and lower-case letters are left as they are. */
  lemma ToLowerKeeps(s: string)
    requires forall i | 0 <= i < |s| :: !('A' <= s[i] <= 'Z')
    ensures ToLower(s) == s
  {
  }

  /** `w` occurs in `s` starting at position `i`. */
  predicate OccursAt(s: string, w: string, i: int)
  {
    0 <= i && i + |w| <= |s| && s[i..i + |w|] == w
  }

  /** `s.indexOf(w) > -1`. */
  function Contains(s: string, w: string): (b: bool)
    ensures b <==> exists i :: OccursAt(s, w, i)
    decreases |s|
  {
    if |s| < |w| then false
    else if s[..|w|] == w then assert OccursAt(s, w, 0); true
    else
      var rest := Contains(s[1..], w);
      assert forall i :: OccursAt(s[1..], w, i) <==> OccursAt(s, w, i + 1) by {
        forall i ensures OccursAt(s[1..], w, i) <==> OccursAt(s, w, i + 1) {
          if 0 <= i && i + 1 + |w| <= |s| { assert s[1..][i..i + |w|] == s[i + 1..i + 1 + |w|]; }
        }
      }
      assert (exists i :: OccursAt(s, w, i)) ==> exists i :: OccursAt(s[1..], w, i) by {
        if exists i :: OccursAt(s, w, i) {
          var i :| OccursAt(s, w, i);
          assert i != 0;
          assert OccursAt(s[1..], w, i - 1);
        }
      }
      rest
  }

  /** The longest run of digits at the front of `s`. */
  function DigitPrefix(s: string): (d: string)
    ensures d <= s && AllDigits(d)
    ensures |d| == |s| || !IsDigit(s[|d|])
  {
    if s != [] && IsDigit(s[0]) then [s[0]] + DigitPrefix(s[1..]) else []
  }

  /** The decimal value of a string of digits. */
  function DigitsValue(d: string): nat
    requires AllDigits(d)
  {
    if d == [] then 0 else DigitsValue(d[..|d| - 1]) * 10 + (d[|d| - 1] as int - '0' as int)
  }

  /** `parseInt(s, 10)`: leading white space, an optional sign, then the
      longest run of decimal digits; NaN when there is no digit. */
  function ParseInt(s: string): Num
  {
    var t := TrimStart(s);
    var signed := t != [] && (t[0] == '-' || t[0] == '+');
    var d := DigitPrefix(if signed then t[1..] else t);
    if d == [] then NaN
    else if signed && t[0] == '-' then Int(-(DigitsValue(d) as int))
    else Int(DigitsValue(d))
  }

  lemma DigitPrefixOf(d: string, rest: string)
    requires AllDigits(d)
    requires rest == [] || !IsDigit(rest[0])
    ensures DigitPrefix(d + rest) == d
  {
    var s := d + rest;
    if d != [] {
      assert s[0] == d[0] && IsDigit(d[0]);
      assert s[1..] == d[1..] + rest;
      DigitPrefixOf(d[1..], rest);
      assert DigitPrefix(s) == [d[0]] + DigitPrefix(s[1..]);
      assert [d[0]] + d[1..] == d;
    } else {
      assert s == rest;
    }
  }

  /** White space, then a non-empty run of digits, then something that is not
      a digit: `parseInt` reads exactly the digits. */
  lemma {:induction false} ParseIntDigits(ws: string, d: string, rest: string)
    requires forall i | 0 <= i < |ws| :: IsSpace(ws[i])
    requires d != [] && AllDigits(d)
    requires rest == [] || !IsDigit(rest[0])
    ensures ParseInt(ws + d + rest) == Int(DigitsValue(d))
  {
    var t := d + rest;
    assert ws + d + rest == ws + t;
    assert !IsSpace(t[0]) by { assert t[0] == d[0]; }
    TrimStartOf(ws, t);
    DigitPrefixOf(d, rest);
    ParseIntUnsigned(ws + t, t, d);
  }

  /** A bare run of digits reads as its value. */
  lemma ParseIntOfDigits(d: string)
    requires d != [] && AllDigits(d)
    ensures ParseInt(d) == Int(DigitsValue(d))
  {
    ParseIntDigits([], d, []);
    assert [] + d + [] == d;
  }

  /** Digits followed by a space read as the digits' value. */
  lemma ParseIntBeforeSpace(d: string)
    requires d != [] && AllDigits(d)
    ensures ParseInt(d + " ") == Int(DigitsValue(d))
  {
    var s := d + " ";
    assert s[0] == d[0] && [] + s == s;
    TrimStartOf([], s);
    DigitPrefixOf(d, " ");
    ParseIntUnsigned(s, s, d);
  }

  lemma ParseIntUnsigned(s: string, t: string, d: string)
    requires TrimStart(s) == t && t != [] && IsDigit(t[0])
    requires DigitPrefix(t) == d && d != []
    ensures ParseInt(s) == Int(DigitsValue(d))
  {
  }

  /** A text starting with neither white space, a sign nor a digit reads as
      NaN. */
  lemma ParseIntNoDigit(s: string)
    requires s != [] && !IsSpace(s[0]) && !IsDigit(s[0]) && s[0] != '-' && s[0] != '+'
    ensures ParseInt(s) == NaN
  {
    assert TrimStart(s) == s;
  }

  lemma {:induction false} TrimStartOf(ws: string, s: string)
    requires forall i | 0 <= i < |ws| :: IsSpace(ws[i])
    requires s == [] || !IsSpace(s[0])
    ensures TrimStart(ws + s) == s
    decreases |ws|
  {
    if ws == [] {
      assert ws + s == s;
    } else {
      assert (ws + s)[1..] == ws[1..] + s;
      TrimStartOf(ws[1..], s);
    }
  }

  /** In `pre + [c] + post` with no `c` in `pre` from position `from` on,
      `indexOf(c, from)` finds the `c` after `pre`. */
  lemma IndexOfFromSplit(pre: string, c: char, post: string, from: nat)
    requires from <= |pre| && c !in pre[from..]
    ensures IndexOfFrom(pre + [c] + post, c, from) == |pre|
  {
    var s := pre + [c] + post;
    forall i | from <= i < |pre| ensures s[i] != c {
      assert s[i] == pre[from..][i - from];
    }
    IndexOfFromIs(s, c, from, |pre|);
  }

  lemma IndexOfSplit(pre: string, c: char, post: string)
    requires c !in pre
    ensures IndexOf(pre + [c] + post, c) == |pre|
  {
    assert pre[0..] == pre;
    IndexOfFromSplit(pre, c, post, 0);
  }

  lemma IndexOfNone(s: string, c: char)
    requires c !in s
    ensures IndexOf(s, c) == -1
  {
    IndexOfFromAbsent(s, c, 0);
  }

  /** Slicing out the middle part of a concatenation. */
  lemma SliceSplit(pre: string, mid: string, post: string)
    ensures Slice(pre + mid + post, |pre|, |pre| + |mid|) == mid
  {
    var s := pre + mid + post;
    assert s[|pre|..|pre| + |mid|] == mid;
  }

  /** Digits are none of the punctuation the parsers look for. */
  lemma DigitsExclude(d: string, c: char)
    requires AllDigits(d) && !IsDigit(c)
    ensures c !in d
  {
  }

  /** In `pre + [c1] + mid + [c2] + post`, with neither mark earlier, the two
      `indexOf` calls find the marks and the slice between them is `mid`. */
  lemma Between(t: string, pre: string, c1: char, mid: string, c2: char, post: string)
    requires t == pre + [c1] + mid + [c2] + post
    requires c1 !in pre && c2 !in pre && c2 != c1 && c2 !in mid
    ensures IndexOf(t, c1) == |pre|
    ensures IndexOf(t, c2) == |pre| + 1 + |mid|
    ensures Slice(t, |pre| + 1, |pre| + 1 + |mid|) == mid
  {
    IndexOfSplit(pre, c1, mid + [c2] + post);
    assert t == pre + [c1] + (mid + [c2] + post);
    IndexOfSplit(pre + [c1] + mid, c2, post);
    SliceSplit(pre + [c1], mid, [c2] + post);
    assert t == (pre + [c1]) + mid + ([c2] + post);
  }

  /** The same for the last mark: the slice runs to the end. */
  lemma AfterLast(t: string, pre: string, c: char, rest: string)
    requires t == pre + [c] + rest && c !in pre
    ensures IndexOf(t, c) == |pre|
    ensures Slice(t, |pre| + 1, |t|) == rest
  {
    IndexOfSplit(pre, c, rest);
    SliceSplit(pre + [c], rest, []);
    assert t == (pre + [c]) + rest + [];
  }

  /** `Between` with the first mark found by `indexOf(c1, from)`. */
  lemma BetweenFrom(t: string, pre: string, c1: char, mid: string, c2: char, post: string, from: nat)
    requires t == pre + [c1] + mid + [c2] + post
    requires from <= |pre| && c1 !in pre[from..] && c2 !in pre && c2 != c1 && c2 !in mid
    ensures IndexOfFrom(t, c1, from) == |pre|
    ensures IndexOf(t, c2) == |pre| + 1 + |mid|
    ensures Slice(t, |pre| + 1, |pre| + 1 + |mid|) == mid
  {
    IndexOfFromSplit(pre, c1, mid + [c2] + post, from);
    assert t == pre + [c1] + (mid + [c2] + post);
    IndexOfSplit(pre + [c1] + mid, c2, post);
    SliceSplit(pre + [c1], mid, [c2] + post);
    assert t == (pre + [c1]) + mid + ([c2] + post);
  }

  /** Two occurrences of the same mark: searching on from just after the
      first finds the second, and the slice between them is `mid`. */
  lemma BetweenSame(t: string, q: string, c: char, mid: string, post: string)
    requires t == q + mid + [c] + post && c !in mid
    ensures IndexOfFrom(t, c, |q|) == |q| + |mid|
    ensures Slice(t, |q|, |q| + |mid|) == mid
  {
    SecondMark(q, mid, c, post);
    SliceSplit(q, mid, [c] + post);
    assert t == q + mid + ([c] + post);
  }

  lemma SecondMark(q: string, mid: string, c: char, post: string)
    requires c !in mid
    ensures IndexOfFrom(q + mid + [c] + post, c, |q|) == |q| + |mid|
  {
    var s := q + mid + [c] + post;
    forall i | |q| <= i < |q| + |mid| ensures s[i] != c {
      assert s[i] == mid[i - |q|];
    }
    IndexOfFromIs(s, c, |q|, |q| + |mid|);
  }

  /** A word with a character that `s` lacks does not occur in `s`. */
  lemma NotContains(s: string, w: string, k: nat)
    requires k < |w| && w[k] !in s
    ensures !Contains(s, w)
  {
  }
}
