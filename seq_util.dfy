/** Sequence and decimal-digit helpers used by several modules. */
module SeqUtil {
  import opened Wrappers

  /** `n` copies of `x`. */
  function Repeat<T>(x: T, n: nat): (r: seq<T>)
    ensures |r| == n
    ensures forall i :: 0 <= i < n ==> r[i] == x
  {
    if n == 0 then [] else Repeat(x, n - 1) + [x]
  }

  /** `s` extended with copies of `fill` up to length `n`; never shortened. */
  function PadTo<T>(s: seq<T>, fill: T, n: int): (r: seq<T>)
    ensures |r| == if n > |s| then n else |s|
    ensures r[..|s|] == s
    ensures forall i :: |s| <= i < |r| ==> r[i] == fill
  {
    if n > |s| then s + Repeat(fill, n - |s|) else s
  }

  predicate IsDigit(c: char) {
    '0' <= c <= '9'
  }

  predicate AllDigits(s: string) {
    forall i :: 0 <= i < |s| ==> IsDigit(s[i])
  }

  function DigitValue(c: char): (d: nat)
    requires IsDigit(c)
    ensures d < 10
  {
    c as int - '0' as int
  }

  /** The value of a string of decimal digits, most significant first. */
  function DigitsValue(s: string): nat
    requires AllDigits(s)
  {
    if s == [] then 0 else 10 * DigitsValue(s[..|s| - 1]) + DigitValue(s[|s| - 1])
  }

  function Sum(s: seq<real>): real {
    if s == [] then 0.0 else Sum(s[..|s| - 1]) + s[|s| - 1]
  }

  /** The elements of `s` that satisfy `keep`, in their original order. */
  function Filter(s: string, keep: char -> bool): (r: string)
    ensures |r| <= |s|
    ensures forall i :: 0 <= i < |r| ==> keep(r[i])
    ensures forall c :: c in r ==> c in s
  {
    if s == [] then [] else
      var rest := Filter(s[..|s| - 1], keep);
      if keep(s[|s| - 1]) then rest + [s[|s| - 1]] else rest
  }

  /** `sub` can be obtained from `s` by deleting characters. */
  predicate IsSubsequence(sub: string, s: string)
    decreases |s|
  {
    if sub == [] then true
    else if s == [] then false
    else if sub[|sub| - 1] == s[|s| - 1] then IsSubsequence(sub[..|sub| - 1], s[..|s| - 1])
    else IsSubsequence(sub, s[..|s| - 1])
  }

  /** Index of the first occurrence of `c` in `s`, if any. */
  function IndexOf(s: string, c: char): (r: Option<nat>)
    ensures r.None? <==> c !in s
    ensures r.Some? ==> r.value < |s| && s[r.value] == c && c !in s[..r.value]
  {
    if s == [] then None
    else if s[0] == c then Some(0)
    else match IndexOf(s[1..], c)
      case None => None
      case Some(k) => Some(k + 1)
  }

  /** JavaScript's `String.prototype.split` with a one-character separator:
      the fields between separators, always at least one. */
  function Split(s: string, sep: char): (r: seq<string>)
    ensures |r| >= 1
    ensures forall k :: 0 <= k < |r| ==> sep !in r[k]
    ensures sep in s ==> |r| >= 2
    decreases |s|
  {
    if s == [] then [""]
    else
      var rest := Split(s[1..], sep);
      if s[0] == sep then [""] + rest else [[s[0]] + rest[0]] + rest[1..]
  }

  /** JavaScript's `Array.prototype.join`. */
  function Join(parts: seq<string>, sep: char): string
    decreases |parts|
  {
    if parts == [] then ""
    else if |parts| == 1 then parts[0]
    else parts[0] + [sep] + Join(parts[1..], sep)
  }

  /** Splitting and joining again with the same separator gives back the
      original string. */
  lemma {:induction false} JoinSplit(s: string, sep: char)
    ensures Join(Split(s, sep), sep) == s
    decreases |s|
  {
    if s != [] {
      JoinSplit(s[1..], sep);
      var rest := Split(s[1..], sep);
      if s[0] == sep {
        assert Join([""] + rest, sep) == "" + [sep] + Join(rest, sep);
      } else {
        var r := [[s[0]] + rest[0]] + rest[1..];
        if |rest| == 1 {
          assert Join(r, sep) == [s[0]] + rest[0];
        } else {
          assert Join(rest, sep) == rest[0] + [sep] + Join(rest[1..], sep);
          assert r[1..] == rest[1..];
          assert Join(r, sep) == [s[0]] + rest[0] + [sep] + Join(rest[1..], sep);
        }
        assert s == [s[0]] + s[1..];
      }
    }
  }

  function Reverse<T>(s: seq<T>): (r: seq<T>)
    ensures |r| == |s|
    ensures forall i :: 0 <= i < |s| ==> r[i] == s[|s| - 1 - i]
  {
    if s == [] then [] else Reverse(s[1..]) + [s[0]]
  }

  function Max(a: int, b: int): int {
    if a >= b then a else b
  }

  /** A string without the separator is a single field. */
  lemma {:induction false} SplitNoSeparator(s: string, sep: char)
    requires sep !in s
    ensures Split(s, sep) == [s]
    decreases |s|
  {
    if s != [] {
      assert sep !in s[1..];
      SplitNoSeparator(s[1..], sep);
      assert [s[0]] + s[1..] == s;
    }
  }

  /** A separator after a separator-free prefix ends the first field. */
  lemma {:induction false} SplitAtSeparator(a: string, b: string, sep: char)
    requires sep !in a
    ensures Split(a + [sep] + b, sep) == [a] + Split(b, sep)
    decreases |a|
  {
    if a == [] {
      assert [sep] + b == [sep] + b;
      assert ([sep] + b)[1..] == b;
    } else {
      var s := a + [sep] + b;
      assert s[1..] == a[1..] + [sep] + b;
      assert sep !in a[1..];
      SplitAtSeparator(a[1..], b, sep);
      assert [a[0]] + a[1..] == a;
    }
  }

  /** The longest prefix of `s` whose characters satisfy `p`. */
  function LeadingRun(s: string, p: char -> bool): (r: string)
    ensures |r| <= |s| && r == s[..|r|]
    ensures forall i :: 0 <= i < |r| ==> p(r[i])
    ensures |r| < |s| ==> !p(s[|r|])
  {
    if s != [] && p(s[0]) then [s[0]] + LeadingRun(s[1..], p) else []
  }

  /** Filtering distributes over concatenation. */
  lemma {:induction false} FilterConcat(a: string, b: string, keep: char -> bool)
    ensures Filter(a + b, keep) == Filter(a, keep) + Filter(b, keep)
    decreases |b|
  {
    if b == [] {
      assert a + b == a;
    } else {
      var init := b[..|b| - 1];
      assert (a + b)[..|a + b| - 1] == a + init;
      assert (a + b)[|a + b| - 1] == b[|b| - 1];
      FilterConcat(a, init, keep);
    }
  }

  /** A string whose characters are all kept is its own filtering. */
  lemma {:induction false} FilterKeepsAll(s: string, keep: char -> bool)
    requires forall i :: 0 <= i < |s| ==> keep(s[i])
    ensures Filter(s, keep) == s
    decreases |s|
  {
    if s != [] {
      var init := s[..|s| - 1];
      assert forall i :: 0 <= i < |init| ==> init[i] == s[i];
      FilterKeepsAll(init, keep);
    }
  }

  /** Filtering leaves nothing exactly when no character is kept. */
  lemma {:induction false} FilterEmpty(s: string, keep: char -> bool)
    ensures Filter(s, keep) == [] <==> forall i :: 0 <= i < |s| ==> !keep(s[i])
    decreases |s|
  {
    if s != [] {
      var init := s[..|s| - 1];
      assert forall i :: 0 <= i < |init| ==> init[i] == s[i];
      FilterEmpty(init, keep);
    }
  }

  /** Two filters in a row keep what both keep. */
  lemma {:induction false} FilterFilter(s: string, p: char -> bool, q: char -> bool, both: char -> bool)
    requires forall c :: both(c) == (p(c) && q(c))
    ensures Filter(Filter(s, p), q) == Filter(s, both)
    decreases |s|
  {
    if s != [] {
      var init, c := s[..|s| - 1], s[|s| - 1];
      FilterFilter(init, p, q, both);
      var fp := Filter(s, p);
      if p(c) {
        assert fp == Filter(init, p) + [c];
        assert fp[..|fp| - 1] == Filter(init, p);
      }
    }
  }

  /** Filters that agree on the characters of `s` filter it alike. */
  lemma {:induction false} FilterAgree(s: string, p: char -> bool, q: char -> bool)
    requires forall i :: 0 <= i < |s| ==> p(s[i]) == q(s[i])
    ensures Filter(s, p) == Filter(s, q)
    decreases |s|
  {
    if s != [] {
      var init := s[..|s| - 1];
      assert forall i :: 0 <= i < |init| ==> init[i] == s[i];
      FilterAgree(init, p, q);
    }
  }

  /** Deleting the last character of a subsequence keeps it a subsequence. */
  lemma {:induction false} SubsequenceDropLast(sub: string, s: string)
    requires sub != [] && IsSubsequence(sub, s)
    ensures IsSubsequence(sub[..|sub| - 1], s)
    decreases |s|, 1
  {
    var init := s[..|s| - 1];
    if sub[|sub| - 1] != s[|s| - 1] {
      SubsequenceDropLast(sub, init);
      SubsequenceExtend(sub[..|sub| - 1], s);
    } else if sub[..|sub| - 1] != [] {
      SubsequenceExtend(sub[..|sub| - 1], s);
    }
  }

  /** A subsequence of `s` without its last character is one of `s`. */
  lemma {:induction false} SubsequenceExtend(sub: string, s: string)
    requires s != [] && IsSubsequence(sub, s[..|s| - 1])
    ensures IsSubsequence(sub, s)
    decreases |s|, 0
  {
    if sub != [] && sub[|sub| - 1] == s[|s| - 1] {
      SubsequenceDropLast(sub, s[..|s| - 1]);
    }
  }

  /** A subsequence stays one when characters are appended to `s`. */
  lemma {:induction false} SubsequenceAppend(sub: string, s: string, t: string)
    requires IsSubsequence(sub, s)
    ensures IsSubsequence(sub, s + t)
    decreases |t|
  {
    if t == [] {
      assert s + t == s;
    } else {
      var init := t[..|t| - 1];
      SubsequenceAppend(sub, s, init);
      assert (s + t)[..|s + t| - 1] == s + init;
      SubsequenceExtend(sub, s + t);
    }
  }

  /** Subsequences of two strings concatenate to one of their concatenation. */
  lemma {:induction false} SubsequenceConcat(a: string, s: string, b: string, t: string)
    requires IsSubsequence(a, s) && IsSubsequence(b, t)
    ensures IsSubsequence(a + b, s + t)
    decreases |t|
  {
    if b == [] {
      assert a + b == a;
      SubsequenceAppend(a, s, t);
    } else {
      var tInit := t[..|t| - 1];
      var st := s + t;
      assert st[..|st| - 1] == s + tInit;
      assert st[|st| - 1] == t[|t| - 1];
      var ab := a + b;
      assert ab[|ab| - 1] == b[|b| - 1];
      if b[|b| - 1] == t[|t| - 1] {
        SubsequenceConcat(a, s, b[..|b| - 1], tInit);
        assert ab[..|ab| - 1] == a + b[..|b| - 1];
      } else {
        SubsequenceConcat(a, s, b, tInit);
        SubsequenceExtend(ab, st);
      }
    }
  }

  /** Subsequence is transitive. */
  lemma {:induction false} SubsequenceTrans(a: string, b: string, c: string)
    requires IsSubsequence(a, b) && IsSubsequence(b, c)
    ensures IsSubsequence(a, c)
    decreases |c|
  {
    if a != [] {
      var cInit := c[..|c| - 1];
      if b[|b| - 1] == c[|c| - 1] {
        if a[|a| - 1] == b[|b| - 1] {
          SubsequenceTrans(a[..|a| - 1], b[..|b| - 1], cInit);
        } else {
          SubsequenceTrans(a, b[..|b| - 1], cInit);
          SubsequenceExtend(a, c);
        }
      } else {
        SubsequenceTrans(a, b, cInit);
        SubsequenceExtend(a, c);
      }
    }
  }

  /** Every string is a subsequence of itself. */
  lemma {:induction false} SubsequenceRefl(s: string)
    ensures IsSubsequence(s, s)
    decreases |s|
  {
    if s != [] {
      SubsequenceRefl(s[..|s| - 1]);
    }
  }

  /** A prefix is a subsequence. */
  lemma {:induction false} PrefixSubsequence(s: string, n: nat)
    requires n <= |s|
    ensures IsSubsequence(s[..n], s)
    decreases |s|
  {
    if n == |s| {
      assert s[..n] == s;
      SubsequenceRefl(s);
    } else {
      var init := s[..|s| - 1];
      assert s[..n] == init[..n];
      PrefixSubsequence(init, n);
      SubsequenceExtend(s[..n], s);
    }
  }

  /** Filtering keeps the order of the kept characters. */
  lemma {:induction false} FilterSubsequence(s: string, keep: char -> bool)
    ensures IsSubsequence(Filter(s, keep), s)
    decreases |s|
  {
    if s != [] {
      var init := s[..|s| - 1];
      FilterSubsequence(init, keep);
      if keep(s[|s| - 1]) {
        var f := Filter(s, keep);
        assert f[..|f| - 1] == Filter(init, keep);
      } else {
        SubsequenceExtend(Filter(init, keep), s);
      }
    }
  }
}
