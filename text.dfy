/**
 * String helpers with the meaning of the Python `str` operations the library
 * relies on: `split` on a one-character separator, `join`, `replace`,
 * `rstrip`, `lower`, `*` (repetition) and `str()` of an integer.
 */
module Text {

  // ---------------------------------------------------------------------------
  // split / join
  // ---------------------------------------------------------------------------

  /** `s.split(c)`: the segments of `s` between occurrences of `c`, in order. */
  function Split(s: string, c: char): (r: seq<string>)
    ensures |r| >= 1
    decreases |s|
  {
    if s == [] then [""]
    else
      var rest := Split(s[1..], c);
      if s[0] == c then [""] + rest else [[s[0]] + rest[0]] + rest[1..]
  }

  /** `sep.join(segs)`. */
  function Join(segs: seq<string>, sep: string): string
    decreases |segs|
  {
    if |segs| == 0 then ""
    else if |segs| == 1 then segs[0]
    else segs[0] + sep + Join(segs[1..], sep)
  }

  /** Joining the segments back with the separator gives the original string. */
  lemma {:induction false} JoinSplit(s: string, c: char)
    ensures Join(Split(s, c), [c]) == s
    decreases |s|
  {
    if s != [] {
      var rest := Split(s[1..], c);
      JoinSplit(s[1..], c);
      if s[0] == c {
        assert Split(s, c) == [""] + rest;
      } else {
        assert Split(s, c) == [[s[0]] + rest[0]] + rest[1..];
        if |rest| == 1 {
          assert Join(Split(s, c), [c]) == [s[0]] + rest[0];
        } else {
          assert Join(rest, [c]) == rest[0] + [c] + Join(rest[1..], [c]);
          assert ([[s[0]] + rest[0]] + rest[1..])[1..] == rest[1..];
        }
      }
      assert s == [s[0]] + s[1..];
    }
  }

  /** No segment contains the separator. */
  lemma {:induction false} SplitSegmentsFree(s: string, c: char)
    ensures forall i :: 0 <= i < |Split(s, c)| ==> c !in Split(s, c)[i]
    decreases |s|
  {
    if s != [] {
      SplitSegmentsFree(s[1..], c);
    }
  }

  /** There are at least two segments exactly when the separator occurs. */
  lemma {:induction false} SplitMany(s: string, c: char)
    ensures c in s <==> |Split(s, c)| >= 2
    decreases |s|
  {
    if s != [] {
      SplitMany(s[1..], c);
      assert c in s <==> s[0] == c || c in s[1..] by {
        assert s == [s[0]] + s[1..];
      }
    }
  }

  /** A separator-free prefix is the first segment, and splitting resumes after it. */
  lemma {:induction false} SplitAfterFirst(a: string, c: char, b: string)
    requires c !in a
    ensures Split(a + [c] + b, c) == [a] + Split(b, c)
    decreases |a|
  {
    if a == [] {
      assert a + [c] + b == [c] + b;
      assert ([c] + b)[1..] == b;
    } else {
      SplitAfterFirst(a[1..], c, b);
      assert (a + [c] + b)[1..] == a[1..] + [c] + b;
      assert [a[0]] + a[1..] == a;
    }
  }

  /** A string without the separator is a single segment. */
  lemma {:induction false} SplitNone(a: string, c: char)
    requires c !in a
    ensures Split(a, c) == [a]
    decreases |a|
  {
    if a != [] {
      SplitNone(a[1..], c);
      assert [a[0]] + a[1..] == a;
    }
  }

  /** Splitting a join of separator-free segments gives the segments back. */
  lemma {:induction false} SplitJoin(segs: seq<string>, c: char)
    requires |segs| >= 1
    requires forall i :: 0 <= i < |segs| ==> c !in segs[i]
    ensures Split(Join(segs, [c]), c) == segs
    decreases |segs|
  {
    if |segs| == 1 {
      SplitNone(segs[0], c);
    } else {
      SplitJoin(segs[1..], c);
      SplitAfterFirst(segs[0], c, Join(segs[1..], [c]));
      assert [segs[0]] + segs[1..] == segs;
    }
  }

  // ---------------------------------------------------------------------------
  // text before and after the first occurrence of a separator
  // ---------------------------------------------------------------------------

  /** `s.partition(c)` when `c` occurs: the text before and after the first `c`. */
  function SplitFirst(s: string, c: char): (r: Option<(string, string)>)
    ensures r.Some? <==> c in s
    ensures r.Some? ==> s == r.value.0 + [c] + r.value.1 && c !in r.value.0
    decreases |s|
  {
    if s == [] then None
    else if s[0] == c then
      assert s == [] + [c] + s[1..];
      Some(("", s[1..]))
    else
      match SplitFirst(s[1..], c)
      case None =>
        assert s == [s[0]] + s[1..];
        None
      case Some(p) =>
        assert s == [s[0]] + s[1..];
        Some(([s[0]] + p.0, p.1))
  }

  datatype Option<T> = None | Some(value: T)

  /** A separator-free prefix followed by the separator is what `SplitFirst` finds. */
  lemma {:induction false} SplitFirstAt(a: string, c: char, b: string)
    requires c !in a
    ensures SplitFirst(a + [c] + b, c) == Some((a, b))
    decreases |a|
  {
    if a == [] {
      assert a + [c] + b == [c] + b;
      assert ([c] + b)[1..] == b;
    } else {
      SplitFirstAt(a[1..], c, b);
      assert (a + [c] + b)[1..] == a[1..] + [c] + b;
      assert [a[0]] + a[1..] == a;
    }
  }

  // ---------------------------------------------------------------------------
  // replace
  // ---------------------------------------------------------------------------

  /** `s.replace(pat, rep)`: every non-overlapping occurrence, scanned left to right. */
  function ReplaceAll(s: string, pat: string, rep: string): string
    requires |pat| > 0
    decreases |s|
  {
    if |s| < |pat| then s
    else if s[..|pat|] == pat then rep + ReplaceAll(s[|pat|..], pat, rep)
    else [s[0]] + ReplaceAll(s[1..], pat, rep)
  }

  /** A string in which `pat` does not occur is left as it is. */
  lemma {:induction false} ReplaceAbsent(s: string, pat: string, rep: string)
    requires |pat| > 0 && pat[0] !in s
    ensures ReplaceAll(s, pat, rep) == s
    decreases |s|
  {
    if |s| >= |pat| {
      assert s[..|pat|][0] == s[0];
      ReplaceAbsent(s[1..], pat, rep);
      assert [s[0]] + s[1..] == s;
    }
  }

  /** Text free of the first character of `pat` passes through unchanged. */
  lemma {:induction false} ReplaceSkipsPrefix(t: string, x: string, pat: string, rep: string)
    requires |pat| > 0 && pat[0] !in t
    ensures ReplaceAll(t + x, pat, rep) == t + ReplaceAll(x, pat, rep)
    decreases |t|
  {
    if t == [] {
      assert t + x == x;
    } else {
      var s := t + x;
      if |s| < |pat| {
        assert ReplaceAll(x, pat, rep) == x;
      } else {
        assert s[..|pat|][0] == t[0] != pat[0];
        assert s[1..] == t[1..] + x;
        assert pat[0] !in t[1..];
        ReplaceSkipsPrefix(t[1..], x, pat, rep);
        calc {
          ReplaceAll(s, pat, rep);
          [t[0]] + ReplaceAll(t[1..] + x, pat, rep);
          [t[0]] + (t[1..] + ReplaceAll(x, pat, rep));
          { assert [t[0]] + t[1..] == t; }
          t + ReplaceAll(x, pat, rep);
        }
      }
    }
  }

  /** An occurrence at the front is replaced, and scanning resumes after it. */
  lemma ReplaceAtFront(x: string, pat: string, rep: string)
    requires |pat| > 0
    ensures ReplaceAll(pat + x, pat, rep) == rep + ReplaceAll(x, pat, rep)
  {
    assert (pat + x)[..|pat|] == pat;
    assert (pat + x)[|pat|..] == x;
  }

  // ---------------------------------------------------------------------------
  // repetition, rstrip, lower, str(int)
  // ---------------------------------------------------------------------------

  /** `s * k`: empty when `k <= 0`. */
  function Repeat(s: string, k: int): (r: string)
    ensures k >= 0 ==> |r| == |s| * k
    ensures k <= 0 ==> r == ""
    decreases k
  {
    if k <= 0 then "" else s + Repeat(s, k - 1)
  }

  /** `s.rstrip(chars)`: drops trailing characters that belong to `chars`. */
  function RStrip(s: string, chars: set<char>): (r: string)
    ensures r <= s
    ensures r == [] || r[|r| - 1] !in chars
    ensures forall i :: |r| <= i < |s| ==> s[i] in chars
    decreases |s|
  {
    if |s| > 0 && s[|s| - 1] in chars then RStrip(s[..|s| - 1], chars) else s
  }

  /** `str.lower` restricted to ASCII letters. */
  function LowerChar(ch: char): char
  {
    if 'A' <= ch <= 'Z' then (ch as int - 'A' as int + 'a' as int) as char else ch
  }

  function Lower(s: string): (r: string)
    ensures |r| == |s|
    ensures forall i :: 0 <= i < |s| ==> !('A' <= r[i] <= 'Z')
    ensures forall i :: 0 <= i < |s| ==> (r[i] == s[i] || 'A' <= s[i] <= 'Z')
  {
    seq(|s|, i requires 0 <= i < |s| => LowerChar(s[i]))
  }

  /** Each text lower-cased: the column labels of a new table or of a query's result. */
  function Lowered(names: seq<string>): (r: seq<string>)
    ensures |r| == |names|
  {
    seq(|names|, i requires 0 <= i < |names| => Lower(names[i]))
  }

  /** Lower-casing twice is lower-casing once. */
  lemma LowerIdempotent(s: string)
    ensures Lower(Lower(s)) == Lower(s)
  {
  }

  /** `str(n)` for a non-negative integer. */
  function NatDecimal(n: nat): (r: string)
    ensures r != ""
    ensures forall i :: 0 <= i < |r| ==> '0' <= r[i] <= '9'
    decreases n
  {
    var d := ((n % 10) + '0' as int) as char;
    if n < 10 then [d] else NatDecimal(n / 10) + [d]
  }

  /** `str(n)` for any integer: digits, led by `-` when negative. */
  function Decimal(n: int): (r: string)
    ensures r != ""
    ensures forall i :: 0 <= i < |r| ==> r[i] == '-' || '0' <= r[i] <= '9'
  {
    if n < 0 then "-" + NatDecimal(-n) else NatDecimal(n)
  }
}
