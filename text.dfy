/**
 * Python string operations the row-annotation engine relies on: substring
 * membership (`p in s`), `sep.join(xs)`, `s.replace(p, "")`, `int(s)` and
 * `str(n)` / f-string formatting of an integer.
 */
module Text {
  import opened Wrappers

  /** `p` occurs in `s` starting at offset `i`. */
  ghost predicate OccursAt(s: string, p: string, i: nat) {
    i + |p| <= |s| && s[i..i + |p|] == p
  }

  lemma OccursShift(s: string, p: string, i: nat)
    requires |s| > 0
    ensures OccursAt(s[1..], p, i) <==> OccursAt(s, p, i + 1)
  {
    if i + |p| <= |s[1..]| {
      assert s[1..][i..i + |p|] == s[i + 1..i + 1 + |p|];
    }
  }

  /** An occurrence inside a part of `s` is an occurrence in `s`. */
  lemma OccursWithin(s: string, a: string, p: string, i: nat, j: nat)
    requires OccursAt(s, a, i) && OccursAt(a, p, j)
    ensures OccursAt(s, p, i + j)
  {
    assert a == s[i..i + |a|];
    forall k | 0 <= k < |p| ensures s[i + j..i + j + |p|][k] == p[k] {
      assert p[k] == a[j + k] == s[i + j + k];
    }
  }

  lemma OccursInPrefix(a: string, b: string, p: string, j: nat)
    requires OccursAt(a, p, j)
    ensures OccursAt(a + b, p, j)
  {
    assert (a + b)[j..j + |p|] == a[j..j + |p|];
  }

  lemma OccursInSuffix(a: string, b: string, p: string, j: nat)
    requires OccursAt(b, p, j)
    ensures OccursAt(a + b, p, |a| + j)
  {
    assert (a + b)[|a| + j..|a| + j + |p|] == b[j..j + |p|];
  }

  /** Python's `p in s`. */
  function Contains(s: string, p: string): (r: bool)
    ensures r <==> exists i: nat :: OccursAt(s, p, i)
    decreases |s|
  {
    if |p| > |s| then false
    else if s[..|p|] == p then assert OccursAt(s, p, 0); true
    else
      assert !OccursAt(s, p, 0);
      forall i: nat ensures OccursAt(s[1..], p, i) <==> OccursAt(s, p, i + 1) {
        OccursShift(s, p, i);
      }
      assert forall i: nat :: OccursAt(s, p, i) ==> i > 0 && OccursAt(s[1..], p, i - 1);
      Contains(s[1..], p)
  }

  /**
   * A prefix none of whose characters starts `p` creates no occurrence of
   * `p` in front of a text that has none.
   */
  lemma PrefixAddsNoOccurrence(a: string, t: string, p: string)
    requires |p| > 0 && !Contains(t, p)
    requires forall k :: 0 <= k < |a| ==> a[k] != p[0]
    ensures !Contains(a + t, p)
  {
    var s := a + t;
    forall i: nat ensures !OccursAt(s, p, i) {
      if i < |a| {
        if i + |p| <= |s| {
          assert s[i..i + |p|][0] == a[i];
        }
      } else if i + |p| <= |s| {
        assert s[i..i + |p|] == t[i - |a|..i - |a| + |p|];
        assert !OccursAt(t, p, i - |a|);
      }
    }
  }

  /** A pattern is never found in a string shorter than itself. */
  lemma ContainsNeedsRoom(s: string, p: string)
    requires Contains(s, p)
    ensures |p| <= |s|
  {
    var i: nat :| OccursAt(s, p, i);
  }

  /** Python's `sep.join(xs)`. */
  function Join(xs: seq<string>, sep: string): string
    decreases |xs|
  {
    if |xs| == 0 then ""
    else if |xs| == 1 then xs[0]
    else xs[0] + sep + Join(xs[1..], sep)
  }

  /** Every element of `xs` appears in `sep.join(xs)`. */
  lemma {:induction false} JoinHasElement(xs: seq<string>, sep: string, k: nat)
    requires k < |xs|
    ensures exists off: nat :: OccursAt(Join(xs, sep), xs[k], off)
  {
    if |xs| == 1 {
      assert OccursAt(Join(xs, sep), xs[k], 0);
    } else if k == 0 {
      assert Join(xs, sep) == xs[0] + (sep + Join(xs[1..], sep));
      assert OccursAt(xs[0], xs[0], 0);
      OccursInPrefix(xs[0], sep + Join(xs[1..], sep), xs[0], 0);
    } else {
      JoinHasElement(xs[1..], sep, k - 1);
      var off: nat :| OccursAt(Join(xs[1..], sep), xs[1..][k - 1], off);
      assert Join(xs, sep) == (xs[0] + sep) + Join(xs[1..], sep);
      OccursInSuffix(xs[0] + sep, Join(xs[1..], sep), xs[k], off);
    }
  }

  /** A pattern found in one element is found in the joined text. */
  lemma ContainsInJoin(xs: seq<string>, sep: string, k: nat, p: string)
    requires k < |xs| && Contains(xs[k], p)
    ensures Contains(Join(xs, sep), p)
  {
    JoinHasElement(xs, sep, k);
    var off: nat :| OccursAt(Join(xs, sep), xs[k], off);
    var j: nat :| OccursAt(xs[k], p, j);
    OccursWithin(Join(xs, sep), xs[k], p, off, j);
  }

  /**
   * Python's `s.replace(p, "")`: scanning left to right, every
   * non-overlapping occurrence of `p` is deleted and nothing else changes.
   */
  function Remove(s: string, p: string): (r: string)
    requires |p| > 0
    ensures |r| <= |s|
    decreases |s|
  {
    if |s| < |p| then s
    else if s[..|p|] == p then Remove(s[|p|..], p)
    else [s[0]] + Remove(s[1..], p)
  }

  /** A text without `p` is left unchanged. */
  lemma {:induction false} RemoveWithout(s: string, p: string)
    requires |p| > 0 && !Contains(s, p)
    ensures Remove(s, p) == s
    decreases |s|
  {
    if |s| >= |p| {
      assert !OccursAt(s, p, 0);
      assert s[0..|p|] == s[..|p|];
      forall i: nat ensures !OccursAt(s[1..], p, i) {
        OccursShift(s, p, i);
      }
      RemoveWithout(s[1..], p);
      assert s == [s[0]] + s[1..];
    }
  }

  /**
   * `replace` deletes the first occurrence of `p` and keeps everything before
   * it: when no occurrence starts inside `u`, the `p` after `u` is removed and
   * the scan goes on after it.
   */
  lemma {:induction false} RemoveAtFirst(u: string, p: string, v: string)
    requires |p| > 0
    requires forall i: nat :: i < |u| ==> !OccursAt(u + p + v, p, i)
    ensures Remove(u + p + v, p) == u + Remove(v, p)
    decreases |u|
  {
    var s := u + p + v;
    if |u| == 0 {
      assert s == p + v && s[..|p|] == p && s[|p|..] == v;
    } else {
      var t := u[1..] + p + v;
      assert s[1..] == t;
      assert s[0] == u[0];
      assert !OccursAt(s, p, 0);
      assert s[0..|p|] == s[..|p|];
      assert Remove(s, p) == [s[0]] + Remove(t, p);
      forall i: nat | i < |u[1..]| ensures !OccursAt(t, p, i) {
        OccursShift(s, p, i);
      }
      RemoveAtFirst(u[1..], p, v);
      var rest := Remove(v, p);
      assert u == [u[0]] + u[1..];
      assert [u[0]] + (u[1..] + rest) == ([u[0]] + u[1..]) + rest;
    }
  }

  /** The whitespace Python's `int()` skips around a literal. */
  predicate IsSpace(c: char) {
    c == ' ' || c == '\t' || c == '\n' || c == '\r' || c == '\U{000B}' || c == '\U{000C}'
    || c == '\U{001C}' || c == '\U{001D}' || c == '\U{001E}' || c == '\U{001F}'
  }

  function TrimStart(s: string): string
    decreases |s|
  {
    if |s| > 0 && IsSpace(s[0]) then TrimStart(s[1..]) else s
  }

  function TrimEnd(s: string): string
    decreases |s|
  {
    if |s| > 0 && IsSpace(s[|s| - 1]) then TrimEnd(s[..|s| - 1]) else s
  }

  function Strip(s: string): string {
    TrimEnd(TrimStart(s))
  }

  predicate IsDigit(c: char) {
    '0' <= c <= '9'
  }

  function DigitValue(c: char): nat
    requires IsDigit(c)
  {
    (c as int) - ('0' as int)
  }

  function DigitChar(d: nat): (c: char)
    requires d < 10
    ensures IsDigit(c) && DigitValue(c) == d
  {
    (('0' as int) + d) as char
  }

  /** The body of a base-10 literal `int()` accepts: digits, with single underscores between digits. */
  predicate IsDigitLiteral(t: string) {
    && |t| > 0
    && IsDigit(t[0])
    && IsDigit(t[|t| - 1])
    && (forall k :: 0 <= k < |t| ==> IsDigit(t[k]) || t[k] == '_')
    && (forall k :: 0 <= k < |t| - 1 ==> t[k] == '_' ==> t[k + 1] != '_')
  }

  /** The number the digits of a literal denote, underscores ignored. */
  function LiteralValue(t: string): nat
    decreases |t|
  {
    if |t| == 0 then 0
    else if IsDigit(t[|t| - 1]) then 10 * LiteralValue(t[..|t| - 1]) + DigitValue(t[|t| - 1])
    else LiteralValue(t[..|t| - 1])
  }

  /** Python's `int(s)`: `None` stands for the `ValueError` it raises. */
  function ParseInt(s: string): Option<int> {
    var t := Strip(s);
    if |t| > 0 && (t[0] == '+' || t[0] == '-') then
      if IsDigitLiteral(t[1..]) then
        var v: int := LiteralValue(t[1..]);
        Some(if t[0] == '-' then -v else v)
      else None
    else if IsDigitLiteral(t) then Some(LiteralValue(t))
    else None
  }

  /** Python's `str(n)` for a non-negative integer. */
  function NatToString(n: nat): (r: string)
    ensures |r| > 0 && forall k :: 0 <= k < |r| ==> IsDigit(r[k])
    decreases n
  {
    if n < 10 then [DigitChar(n)] else NatToString(n / 10) + [DigitChar(n % 10)]
  }

  /** Python's `str(n)` (and `f"{n}"`) for an integer. */
  function IntToString(n: int): string {
    if n < 0 then "-" + NatToString(-n) else NatToString(n)
  }

  lemma {:induction false} NatToStringValue(n: nat)
    ensures LiteralValue(NatToString(n)) == n
    decreases n
  {
    var r := NatToString(n);
    if n >= 10 {
      NatToStringValue(n / 10);
      assert r[..|r| - 1] == NatToString(n / 10);
    }
  }

  lemma StripUnchanged(t: string)
    requires |t| > 0 && !IsSpace(t[0]) && !IsSpace(t[|t| - 1])
    ensures Strip(t) == t
  {
  }

  /** `int(str(n)) == n`: formatting an integer and reading it back is the identity. */
  lemma IntRoundTrip(n: int)
    ensures ParseInt(IntToString(n)) == Some(n)
  {
    var s := IntToString(n);
    var d := NatToString(if n < 0 then -n else n);
    NatToStringValue(if n < 0 then -n else n);
    StripUnchanged(s);
    if n < 0 {
      assert s[1..] == d;
    }
  }

  /** A run of ASCII digits is accepted by `int()` and denotes its decimal value. */
  lemma ParseDigits(t: string)
    requires |t| > 0 && forall k :: 0 <= k < |t| ==> IsDigit(t[k])
    ensures ParseInt(t) == Some(LiteralValue(t))
  {
    StripUnchanged(t);
  }

  /** `int("---")` raises. */
  lemma ParseDashesFails()
    ensures ParseInt("---") == None
  {
    StripUnchanged("---");
  }
}
