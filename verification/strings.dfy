/**
 * Text helpers shared by the modules: decimal printing and reading of
 * naturals, substring occurrence, JavaScript's `String.prototype.replace`
 * with a string pattern (first occurrence only), global replacement with a
 * literal regular expression, and `split` on a single character.
 */
module Strings {

  import opened Base

  // ---------------------------------------------------------------------
  // Decimal digits
  // ---------------------------------------------------------------------

  predicate IsDigit(c: char)
  {
    '0' <= c <= '9'
  }

  predicate AllDigits(s: string)
  {
    forall i :: 0 <= i < |s| ==> IsDigit(s[i])
  }

  function DigitValue(c: char): nat
    requires IsDigit(c)
  {
    (c as int - '0' as int) as nat
  }

  function DigitChar(d: nat): (c: char)
    requires d < 10
    ensures IsDigit(c) && DigitValue(c) == d
  {
    ('0' as int + d) as char
  }

  /** The shortest decimal spelling of `n`, as JavaScript's `String(n)` prints an integer. */
  function NatToString(n: nat): (s: string)
    ensures |s| >= 1 && AllDigits(s)
    ensures s[0] == '0' ==> n == 0 && |s| == 1
    decreases n
  {
    if n < 10 then [DigitChar(n)] else NatToString(n / 10) + [DigitChar(n % 10)]
  }

  /** The number a non-empty run of decimal digits denotes (leading zeros allowed). */
  function DecimalValue(s: string): nat
    requires AllDigits(s)
    decreases |s|
  {
    if |s| == 0 then 0 else DecimalValue(s[..|s| - 1]) * 10 + DigitValue(s[|s| - 1])
  }

  /** Reading back a printed natural yields that natural. */
  lemma {:induction false} DecimalOfNatToString(n: nat)
    ensures DecimalValue(NatToString(n)) == n
    decreases n
  {
    if n >= 10 {
      var s := NatToString(n);
      assert s[..|s| - 1] == NatToString(n / 10);
      DecimalOfNatToString(n / 10);
    }
  }

  /** Distinct naturals print differently. */
  lemma NatToStringInjective(a: nat, b: nat)
    requires NatToString(a) == NatToString(b)
    ensures a == b
  {
    DecimalOfNatToString(a);
    DecimalOfNatToString(b);
  }

  /** A digit string without a superfluous leading zero is the printing of its value. */
  lemma {:induction false} NatToStringOfDecimal(s: string)
    requires |s| >= 1 && AllDigits(s)
    requires s[0] == '0' ==> |s| == 1
    ensures NatToString(DecimalValue(s)) == s
    decreases |s|
  {
    if |s| > 1 {
      var init := s[..|s| - 1];
      NatToStringOfDecimal(init);
      assert DecimalValue(init) >= 1 by {
        LeadingDigitBound(init);
      }
    }
  }

  /** A digit string that does not start with '0' denotes a positive number. */
  lemma {:induction false} LeadingDigitBound(s: string)
    requires |s| >= 1 && AllDigits(s) && s[0] != '0'
    ensures DecimalValue(s) >= 1
    decreases |s|
  {
    if |s| > 1 {
      LeadingDigitBound(s[..|s| - 1]);
    }
  }

  /** JavaScript's `String(i)` for an integer value. */
  function IntToString(i: int): (s: string)
    ensures |s| >= 1
    ensures i >= 0 ==> s == NatToString(i)
    ensures i < 0 ==> s == "-" + NatToString(-i)
  {
    if i < 0 then "-" + NatToString(-i) else NatToString(i)
  }

  // ---------------------------------------------------------------------
  // Occurrences
  // ---------------------------------------------------------------------

  predicate StartsWith(s: string, p: string)
  {
    |p| <= |s| && s[..|p|] == p
  }

  /** `q` occurs in `s` starting at index `k`. */
  predicate OccursAt(s: string, q: string, k: int)
  {
    0 <= k && k + |q| <= |s| && s[k..k + |q|] == q
  }

  /** `q` is a contiguous substring of `s` (JavaScript's `s.includes(q)`). */
  predicate Contains(s: string, q: string)
  {
    exists k :: 0 <= k <= |s| - |q| && OccursAt(s, q, k)
  }

  lemma OccursAtShift(s: string, q: string, d: nat, k: int)
    requires d <= |s| && OccursAt(s[d..], q, k)
    ensures OccursAt(s, q, k + d)
  {
    assert s[k + d..k + d + |q|] == s[d..][k..k + |q|];
  }

  lemma ContainsSuffix(s: string, q: string, d: nat)
    requires d <= |s| && Contains(s[d..], q)
    ensures Contains(s, q)
  {
    var k :| OccursAt(s[d..], q, k);
    OccursAtShift(s, q, d, k);
  }

  lemma OccursAtConcat(a: string, b: string, q: string, k: int)
    requires k >= |a|
    ensures OccursAt(a + b, q, k) <==> OccursAt(b, q, k - |a|)
  {
    if k + |q| <= |a + b| {
      assert (a + b)[k..k + |q|] == b[k - |a|..k - |a| + |q|];
    }
  }

  lemma StartsWithCons(c: char, r: string, x: string)
    requires |x| >= 1
    ensures StartsWith([c] + r, x) <==> c == x[0] && StartsWith(r, x[1..])
  {
    if |x| <= |r| + 1 {
      assert ([c] + r)[..|x|] == [c] + r[..|x| - 1];
      assert x == [x[0]] + x[1..];
    }
  }

  /** The index of the first occurrence of `q` in `s` at or after `from`. */
  function FindFrom(s: string, q: string, from: nat): (r: Option<nat>)
    ensures r.Some? ==> from <= r.value && OccursAt(s, q, r.value)
    ensures r.Some? ==> forall j :: from <= j < r.value ==> !OccursAt(s, q, j)
    ensures r.None? ==> forall j :: from <= j ==> !OccursAt(s, q, j)
    decreases |s| - from
  {
    if from + |q| > |s| then None
    else if s[from..from + |q|] == q then Some(from)
    else FindFrom(s, q, from + 1)
  }

  /** The index of the first occurrence of `q` in `s`, as `s.indexOf(q)` when it is not -1. */
  function IndexOf(s: string, q: string): (r: Option<nat>)
    ensures r.None? <==> !Contains(s, q)
    ensures r.Some? ==> OccursAt(s, q, r.value) && forall j :: 0 <= j < r.value ==> !OccursAt(s, q, j)
  {
    FindFrom(s, q, 0)
  }

  // ---------------------------------------------------------------------
  // Replacement
  // ---------------------------------------------------------------------

  /** `rep` is free of `$`, so JavaScript's replacement patterns (`$&`, `$$`, ...) play no part. */
  predicate NoDollar(rep: string)
  {
    forall i :: 0 <= i < |rep| ==> rep[i] != '$'
  }

  /**
   * JavaScript's `s.replace(pat, rep)` with a string pattern: only the first
   * occurrence is replaced.
   */
  function ReplaceFirst(s: string, pat: string, rep: string): (r: string)
    requires NoDollar(rep)
    ensures !Contains(s, pat) ==> r == s
    ensures Contains(s, pat) ==>
      exists k :: OccursAt(s, pat, k) && (forall j :: 0 <= j < k ==> !OccursAt(s, pat, j))
                  && r == s[..k] + rep + s[k + |pat|..]
  {
    match IndexOf(s, pat)
    case None => s
    case Some(k) => s[..k] + rep + s[k + |pat|..]
  }

  /**
   * JavaScript's `s.replace(/pat/g, rep)` for a literal, non-empty pattern:
   * occurrences are found left to right, and the search resumes after each
   * replaced occurrence.
   */
  function ReplaceAll(s: string, pat: string, rep: string): string
    requires |pat| > 0 && NoDollar(rep)
    decreases |s|
  {
    if |s| < |pat| then s
    else if s[..|pat|] == pat then rep + ReplaceAll(s[|pat|..], pat, rep)
    else [s[0]] + ReplaceAll(s[1..], pat, rep)
  }

  /** A text without the pattern comes back unchanged. */
  lemma {:induction false} ReplaceAllAbsent(s: string, pat: string, rep: string)
    requires |pat| > 0 && NoDollar(rep)
    requires !Contains(s, pat)
    ensures ReplaceAll(s, pat, rep) == s
    decreases |s|
  {
    if |s| >= |pat| {
      assert !OccursAt(s, pat, 0);
      if !Contains(s[1..], pat) {
        ReplaceAllAbsent(s[1..], pat, rep);
      } else {
        ContainsSuffix(s, pat, 1);
      }
    }
  }

  /** Replacing the pattern by itself is the identity. */
  lemma {:induction false} ReplaceAllSelf(s: string, pat: string)
    requires |pat| > 0 && NoDollar(pat)
    ensures ReplaceAll(s, pat, pat) == s
    decreases |s|
  {
    if |s| >= |pat| {
      if s[..|pat|] == pat {
        ReplaceAllSelf(s[|pat|..], pat);
        assert s == s[..|pat|] + s[|pat|..];
      } else {
        ReplaceAllSelf(s[1..], pat);
        assert s == [s[0]] + s[1..];
      }
    }
  }

  // ---------------------------------------------------------------------
  // Brace placeholders such as "{IP}"
  // ---------------------------------------------------------------------

  predicate Braceless(s: string)
  {
    forall i :: 0 <= i < |s| ==> s[i] != '{' && s[i] != '}'
  }

  /** The placeholder token `{w}`. */
  function Placeholder(w: string): string
  {
    "{" + w + "}"
  }

  /**
   * When the replacement is brace-free and is not a piece of `w`, a result
   * can start with `w}` only if the original text already did.
   */
  lemma {:induction false} ReplaceAllKeepsClosing(t: string, pat: string, rep: string, w: string)
    requires |pat| > 0 && NoDollar(rep)
    requires Braceless(w) && Braceless(rep) && !Contains(w, rep)
    requires !StartsWith(t, w + "}")
    ensures !StartsWith(ReplaceAll(t, pat, rep), w + "}")
    decreases |t|
  {
    var target := w + "}";
    var out := ReplaceAll(t, pat, rep);
    if |t| < |pat| {
    } else if t[..|pat|] == pat {
      assert out == rep + ReplaceAll(t[|pat|..], pat, rep);
      if |rep| <= |w| {
        assert !OccursAt(w, rep, 0);
        assert target[..|rep|] == w[..|rep|] != rep;
        if |out| >= |target| {
          assert out[..|target|][..|rep|] == rep;
        }
      } else {
        assert out[|w|] == rep[|w|] != '}';
      }
    } else {
      var rest := ReplaceAll(t[1..], pat, rep);
      assert out == [t[0]] + rest;
      StartsWithCons(t[0], rest, target);
      StartsWithCons(t[0], t[1..], target);
      assert t == [t[0]] + t[1..];
      if |w| > 0 && t[0] == w[0] {
        assert target[1..] == w[1..] + "}";
        assert !Contains(w[1..], rep) by {
          if Contains(w[1..], rep) {
            ContainsSuffix(w, rep, 1);
          }
        }
        ReplaceAllKeepsClosing(t[1..], pat, rep, w[1..]);
      }
    }
  }

  /**
   * After a global replacement no placeholder `{w}` remains, provided the
   * placeholder was the replaced pattern itself or was absent to begin with,
   * and the replacement text is brace-free and not a piece of `w` (otherwise
   * it could complete a placeholder around it, as `"{{IP}P}"` with `"I"`
   * becomes `"{IP}"`).
   */
  lemma {:induction false} ReplaceAllLeavesNoPlaceholder(s: string, pat: string, rep: string, w: string)
    requires |pat| > 0 && NoDollar(rep)
    requires Braceless(w) && Braceless(rep) && !Contains(w, rep)
    requires pat == Placeholder(w) || !Contains(s, Placeholder(w))
    ensures !Contains(ReplaceAll(s, pat, rep), Placeholder(w))
    decreases |s|
  {
    var q := Placeholder(w);
    var out := ReplaceAll(s, pat, rep);
    if |s| < |pat| {
      if pat != q {
        assert out == s;
      }
    } else if s[..|pat|] == pat {
      var tail := s[|pat|..];
      assert pat != q ==> !Contains(tail, q) by {
        if pat != q && Contains(tail, q) {
          ContainsSuffix(s, q, |pat|);
        }
      }
      ReplaceAllLeavesNoPlaceholder(tail, pat, rep, w);
      var rest := ReplaceAll(tail, pat, rep);
      assert out == rep + rest;
      forall k | 0 <= k
        ensures !OccursAt(out, q, k)
      {
        if k < |rep| {
          assert out[k] == rep[k] != q[0];
        } else {
          OccursAtConcat(rep, rest, q, k);
        }
      }
    } else {
      var tail := s[1..];
      assert pat != q ==> !Contains(tail, q) by {
        if pat != q && Contains(tail, q) {
          ContainsSuffix(s, q, 1);
        }
      }
      ReplaceAllLeavesNoPlaceholder(tail, pat, rep, w);
      var rest := ReplaceAll(tail, pat, rep);
      assert out == [s[0]] + rest;
      forall k | 0 <= k
        ensures !OccursAt(out, q, k)
      {
        if k == 0 {
          assert !OccursAt(s, q, 0);
          assert s == [s[0]] + tail;
          StartsWithCons(s[0], tail, q);
          StartsWithCons(s[0], rest, q);
          assert q[1..] == w + "}";
          if s[0] == '{' {
            ReplaceAllKeepsClosing(tail, pat, rep, w);
          }
        } else {
          OccursAtConcat([s[0]], rest, q, k);
        }
      }
    }
  }

  // ---------------------------------------------------------------------
  // Splitting and joining on one character
  // ---------------------------------------------------------------------

  /** JavaScript's `s.split(c)` for a one-character separator: empty pieces are kept. */
  function Split(s: string, c: char): (parts: seq<string>)
    ensures |parts| >= 1
    ensures forall i, j :: 0 <= i < |parts| && 0 <= j < |parts[i]| ==> parts[i][j] != c
    decreases |s|
  {
    if |s| == 0 then [""]
    else
      var rest := Split(s[1..], c);
      if s[0] == c then [""] + rest else [[s[0]] + rest[0]] + rest[1..]
  }

  /** JavaScript's `parts.join(sep)`. */
  function Join(parts: seq<string>, sep: string): string
    decreases |parts|
  {
    if |parts| == 0 then ""
    else if |parts| == 1 then parts[0]
    else parts[0] + sep + Join(parts[1..], sep)
  }

  /** `s` has no occurrence of the character `c`. */
  predicate NoChar(s: string, c: char)
  {
    forall i :: 0 <= i < |s| ==> s[i] != c
  }

  /** A text without the separator is a single piece. */
  lemma {:induction false} SplitWithout(a: string, c: char)
    requires NoChar(a, c)
    ensures Split(a, c) == [a]
    decreases |a|
  {
    if |a| > 0 {
      SplitWithout(a[1..], c);
      assert a == [a[0]] + a[1..];
    }
  }

  /** Splitting `a + [c] + rest` yields `a` first when `a` has no separator. */
  lemma {:induction false} SplitAfterPiece(a: string, c: char, rest: string)
    requires NoChar(a, c)
    ensures Split(a + [c] + rest, c) == [a] + Split(rest, c)
    decreases |a|
  {
    var s := a + [c] + rest;
    if |a| == 0 {
      assert s == [c] + rest;
      assert s[1..] == rest;
    } else {
      assert s[1..] == a[1..] + [c] + rest;
      SplitAfterPiece(a[1..], c, rest);
      assert a == [a[0]] + a[1..];
    }
  }

  /**
   * The first piece agrees with the text on every position up to and
   * including `k` when no separator occurs there.
   */
  lemma {:induction false} SplitHead(s: string, c: char, k: nat)
    requires k < |s| && NoChar(s[..k + 1], c)
    ensures k < |Split(s, c)[0]| && Split(s, c)[0][k] == s[k]
    decreases k
  {
    assert s[0] == s[..k + 1][0];
    if k > 0 {
      assert s[1..][..k] == s[..k + 1][1..];
      SplitHead(s[1..], c, k - 1);
    }
  }

  /** Joining the pieces back with the separator restores the text. */
  lemma {:induction false} JoinSplit(s: string, c: char)
    ensures Join(Split(s, c), [c]) == s
    decreases |s|
  {
    if |s| > 0 {
      var rest := Split(s[1..], c);
      JoinSplit(s[1..], c);
      if s[0] == c {
        assert Split(s, c) == [""] + rest;
        assert s == [c] + s[1..];
      } else {
        assert Split(s, c) == [[s[0]] + rest[0]] + rest[1..];
        if |rest| == 1 {
          assert s == [s[0]] + rest[0];
        } else {
          assert Join(rest, [c]) == rest[0] + [c] + Join(rest[1..], [c]);
          assert s == [s[0]] + s[1..];
        }
      }
    }
  }
}
