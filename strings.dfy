/**
 * Python `str` operations the scripts rely on: negative slices
 * (`s[-n:]`, `s[:-n]`), `s[:n]`, substring tests (`pat in s`),
 * `str.split` on a one-character separator, `sep.join`, and `str.replace`
 * with its left-to-right, non-overlapping scan (including the empty-pattern
 * case, where the replacement goes between every character).
 */
module Strings {
  import opened Seqs

  predicate StartsWith(s: string, pre: string) {
    |pre| <= |s| && s[..|pre|] == pre
  }

  predicate EndsWith(s: string, suf: string) {
    |suf| <= |s| && s[|s| - |suf|..] == suf
  }

  /** Python `pat in s`. */
  predicate Contains(s: string, pat: string)
    decreases |s|
  {
    StartsWith(s, pat) || (|s| > 0 && Contains(s[1..], pat))
  }

  /** One of the two strings is a prefix of the other. */
  predicate Overlaps(a: string, b: string) {
    StartsWith(a, b) || StartsWith(b, a)
  }

  /** Python `s[:n]`. */
  function TakeN(s: string, n: nat): (r: string)
    ensures |r| == if |s| <= n then |s| else n
    ensures StartsWith(s, r)
  {
    if |s| <= n then s else s[..n]
  }

  /** Python `s[-n:]` for a positive `n`. */
  function LastN(s: string, n: nat): (r: string)
    requires n > 0
    ensures |r| == if |s| <= n then |s| else n
    ensures EndsWith(s, r)
  {
    if |s| <= n then s else s[|s| - n..]
  }

  /** Python `s[:-n]` for a positive `n`. */
  function DropLastN(s: string, n: nat): (r: string)
    requires n > 0
    ensures |r| == if |s| <= n then 0 else |s| - n
    ensures StartsWith(s, r)
  {
    if |s| <= n then [] else s[..|s| - n]
  }

  /**
   * Python `s[-4:] == '.csv'`, compared character by character (a name
   * shorter than four characters never matches).
   */
  predicate IsCsvName(s: string) {
    |s| >= 4 && s[|s| - 4] == '.' && s[|s| - 3] == 'c' && s[|s| - 2] == 's' && s[|s| - 1] == 'v'
  }

  lemma IsCsvNameIsSuffixTest(s: string)
    ensures IsCsvName(s) <==> LastN(s, 4) == ".csv"
  {
    if LastN(s, 4) == ".csv" {
      assert |s| >= 4;
      assert s[|s| - 4..][0] == '.' && s[|s| - 4..][1] == 'c';
      assert s[|s| - 4..][2] == 's' && s[|s| - 4..][3] == 'v';
    }
    if IsCsvName(s) {
      assert LastN(s, 4) == s[|s| - 4..];
      assert s[|s| - 4..] == [s[|s| - 4], s[|s| - 3], s[|s| - 2], s[|s| - 1]];
    }
  }

  lemma EndsWithConcat(s: string, t: string)
    ensures EndsWith(s + t, t)
  {
    assert (s + t)[|s|..] == t;
  }

  /** Comparing the last `|t|` characters with `t` is a suffix test. */
  lemma LastNIsSuffixTest(s: string, t: string)
    requires |t| > 0
    ensures LastN(s, |t|) == t <==> EndsWith(s, t)
  {
  }

  /** `s[:-n]` and `s[-n:]` put back together give `s`. */
  lemma DropLastNLastN(s: string, n: nat)
    requires n > 0 && n <= |s|
    ensures DropLastN(s, n) + LastN(s, n) == s
  {
  }

  // ---------------------------------------------------------------------
  // split and join
  // ---------------------------------------------------------------------

  /**
   * Python `s.split(c)`: the pieces between occurrences of `c`, read one
   * character at a time (a `c` starts a new piece, any other character
   * joins the first piece).
   */
  function Split(s: string, c: char): (parts: seq<string>)
    ensures |parts| >= 1
    ensures forall i :: 0 <= i < |parts| ==> c !in parts[i]
    decreases |s|
  {
    if |s| == 0 then [""]
    else
      var rest := Split(s[1..], c);
      if s[0] == c then [""] + rest else [[s[0]] + rest[0]] + rest[1..]
  }

  /** Python `sep.join(parts)`. */
  function Join(parts: seq<string>, sep: string): string
    decreases |parts|
  {
    if |parts| == 0 then ""
    else if |parts| == 1 then parts[0]
    else parts[0] + sep + Join(parts[1..], sep)
  }

  lemma JoinCons(p: string, parts: seq<string>, sep: string)
    requires |parts| >= 1
    ensures Join([p] + parts, sep) == p + sep + Join(parts, sep)
  {
    assert ([p] + parts)[1..] == parts;
  }

  lemma JoinHead(parts: seq<string>, sep: string, ch: char)
    requires |parts| >= 1
    ensures Join([[ch] + parts[0]] + parts[1..], sep) == [ch] + Join(parts, sep)
  {
    var q := [[ch] + parts[0]] + parts[1..];
    assert q[1..] == parts[1..];
  }

  lemma {:induction false} JoinSplit(s: string, c: char)
    ensures Join(Split(s, c), [c]) == s
    decreases |s|
  {
    if |s| > 0 {
      JoinSplit(s[1..], c);
      var rest := Split(s[1..], c);
      if s[0] == c {
        JoinCons("", rest, [c]);
      } else {
        JoinHead(rest, [c], s[0]);
      }
      assert s == [s[0]] + s[1..];
    }
  }

  /** A string without `c` splits into itself. */
  lemma {:induction false} SplitFree(p: string, c: char)
    requires c !in p
    ensures Split(p, c) == [p]
    decreases |p|
  {
    if |p| > 0 {
      SplitFree(p[1..], c);
      assert [p[0]] + p[1..] == p;
    }
  }

  /** A `c`-free first piece followed by `c` comes off first. */
  lemma {:induction false} SplitCons(p: string, t: string, c: char)
    requires c !in p
    ensures Split(p + [c] + t, c) == [p] + Split(t, c)
    decreases |p|
  {
    var s := p + [c] + t;
    if |p| == 0 {
      assert s[1..] == t;
    } else {
      assert s[1..] == p[1..] + [c] + t;
      SplitCons(p[1..], t, c);
      assert [p[0]] + p[1..] == p;
    }
  }

  /** A `c`-free last piece after a final `c` comes off last. */
  lemma {:induction false} SplitSnoc(a: string, v: string, c: char)
    requires c !in v
    ensures Split(a + [c] + v, c) == Split(a, c) + [v]
    decreases |a|
  {
    var s := a + [c] + v;
    if |a| == 0 {
      assert s[1..] == v;
      SplitFree(v, c);
    } else {
      assert s[1..] == a[1..] + [c] + v;
      SplitSnoc(a[1..], v, c);
      var r := Split(a[1..], c);
      if a[0] != c {
        assert (r + [v])[1..] == r[1..] + [v];
      }
    }
  }

  lemma {:induction false} SplitJoin(parts: seq<string>, c: char)
    requires |parts| >= 1
    requires forall i :: 0 <= i < |parts| ==> c !in parts[i]
    ensures Split(Join(parts, [c]), c) == parts
    decreases |parts|
  {
    if |parts| == 1 {
      SplitFree(parts[0], c);
    } else {
      SplitCons(parts[0], Join(parts[1..], [c]), c);
      SplitJoin(parts[1..], c);
      assert [parts[0]] + parts[1..] == parts;
    }
  }

  /** Python `s.split(c)[-1]`. */
  function LastPart(s: string, c: char): string {
    Split(s, c)[|Split(s, c)| - 1]
  }

  /** A `c`-free tail after a final `c` is what `split(c)[-1]` picks out. */
  lemma SplitLastOf(a: string, c: char, v: string)
    requires c !in v
    ensures LastPart(a + [c] + v, c) == v
  {
    SplitSnoc(a, v, c);
  }

  /** Position of the last occurrence of `x`. */
  function LastIndexOf(s: string, x: char): (k: nat)
    requires x in s
    ensures k < |s| && s[k] == x
    ensures forall j :: k < j < |s| ==> s[j] != x
    decreases |s|
  {
    if s[|s| - 1] == x then |s| - 1 else LastIndexOf(s[..|s| - 1], x)
  }

  /**
   * The last piece of `s.split(c)` is a suffix of `s` that holds no `c`,
   * and it is either all of `s` or preceded by a `c`.
   */
  lemma SplitLast(s: string, c: char)
    ensures c !in LastPart(s, c) && EndsWith(s, LastPart(s, c))
    ensures |LastPart(s, c)| == |s| || s[|s| - |LastPart(s, c)| - 1] == c
  {
    if c in s {
      var k := LastIndexOf(s, c);
      var v := s[k + 1..];
      assert s == s[..k] + [c] + v;
      SplitLastOf(s[..k], c, v);
    } else {
      SplitFree(s, c);
      assert s[|s| - |s|..] == s;
    }
  }

  // ---------------------------------------------------------------------
  // replace
  // ---------------------------------------------------------------------

  /** `repl` after every character of `s`. */
  function Interleave(s: string, repl: string): string
    decreases |s|
  {
    if |s| == 0 then "" else [s[0]] + repl + Interleave(s[1..], repl)
  }

  /**
   * Python `s.replace(pat, repl)`: scan `s` from the left; where `pat`
   * starts, emit `repl` and skip past the match, otherwise copy a character.
   * An empty `pat` matches before every character and at the end.
   */
  function Replace(s: string, pat: string, repl: string): string
    decreases |s|
  {
    if |pat| == 0 then repl + Interleave(s, repl)
    else if |s| == 0 then ""
    else if StartsWith(s, pat) then repl + Replace(s[|pat|..], pat, repl)
    else [s[0]] + Replace(s[1..], pat, repl)
  }

  /** Every match starts with the pattern's first character. */
  lemma {:induction false} ContainsFirstChar(s: string, pat: string)
    requires |pat| > 0 && Contains(s, pat)
    ensures pat[0] in s
    decreases |s|
  {
    if !StartsWith(s, pat) {
      ContainsFirstChar(s[1..], pat);
      assert s[1..] == s[1..];
      var k :| 0 <= k < |s[1..]| && s[1..][k] == pat[0];
      assert s[k + 1] == pat[0];
    } else {
      assert s[0] == pat[0];
    }
  }

  /** With an empty pattern the replacement also comes last. */
  lemma {:induction false} InterleaveEnds(s: string, repl: string)
    ensures EndsWith(repl + Interleave(s, repl), repl)
    decreases |s|
  {
    if |s| > 0 {
      InterleaveEnds(s[1..], repl);
      var rest := repl + Interleave(s[1..], repl);
      assert repl + Interleave(s, repl) == repl + [s[0]] + rest;
    }
  }

  /** With no occurrence of the pattern the string is unchanged. */
  lemma {:induction false} ReplaceAbsent(s: string, pat: string, repl: string)
    requires |pat| > 0 && !Contains(s, pat)
    ensures Replace(s, pat, repl) == s
    decreases |s|
  {
    if |s| > 0 {
      ReplaceAbsent(s[1..], pat, repl);
    }
  }

  /** Replacing a whole string by `repl` gives `repl`. */
  lemma ReplaceWhole(s: string, repl: string)
    ensures Replace(s, s, repl) == repl
  {
    if |s| > 0 {
      assert s[|s|..] == "";
    }
  }

  /** The scan's output always ends with `repl` when the input ends with `pat`, given a separator. */
  lemma {:induction false} ReplaceAtEnd(a: string, pat: string, repl: string, c: char)
    requires |pat| > 0 && c !in pat
    requires |a| == 0 || a[|a| - 1] == c
    ensures Replace(a + pat, pat, repl) == Replace(a, pat, repl) + repl
    decreases |a|
  {
    if |a| == 0 {
      assert pat[|pat|..] == "";
      assert a + pat == pat;
    } else {
      var s := a + pat;
      if StartsWith(s, pat) {
        // the match would cover the separator at the end of `a`
        assert s[|a| - 1] == c;
        assert forall i :: 0 <= i < |pat| ==> s[i] == pat[i];
        assert |pat| < |a|;
        assert s[..|pat|] == a[..|pat|];
        assert s[|pat|..] == a[|pat|..] + pat;
        var rest := a[|pat|..];
        assert |rest| == 0 || rest[|rest| - 1] == c;
        ReplaceAtEnd(rest, pat, repl, c);
      } else {
        assert !StartsWith(a, pat);
        assert s[1..] == a[1..] + pat;
        if |a| == 1 {
          assert Replace(a, pat, repl) == [a[0]];
          assert s[1..] == pat;
          ReplaceAtEnd([], pat, repl, c);
        } else {
          ReplaceAtEnd(a[1..], pat, repl, c);
        }
      }
    }
  }

  /** An occurrence in `x + y` lies in `y` or overlaps a suffix of `x`. */
  lemma {:induction false} ContainsConcat(x: string, y: string, pat: string)
    requires forall p :: 0 <= p < |x| ==> !Overlaps(x[p..], pat)
    requires !Contains(y, pat)
    ensures !Contains(x + y, pat)
    decreases |x|
  {
    if |x| == 0 {
      assert x + y == y;
    } else {
      assert !Overlaps(x[0..], pat);
      assert x[0..] == x;
      forall p | 0 <= p < |x[1..]|
        ensures !Overlaps(x[1..][p..], pat)
      {
        assert x[1..][p..] == x[p + 1..];
      }
      ContainsConcat(x[1..], y, pat);
      assert (x + y)[1..] == x[1..] + y;
      if StartsWith(x + y, pat) {
        assert false;
      }
    }
  }

  /**
   * No suffix of `w` overlaps `repl`: then the output of the scan starts
   * with a suffix of `w` only if the input does.
   */
  lemma {:induction false} ReplaceStartsWith(t: string, pat: string, repl: string, k: nat)
    requires |pat| > 0 && k < |pat| - 1
    requires forall q :: 1 <= q < |pat| ==> !Overlaps(pat[q..], repl)
    requires StartsWith(Replace(t, pat, repl), pat[k + 1..])
    ensures StartsWith(t, pat[k + 1..])
    decreases |t|
  {
    var w := pat[k + 1..];
    if |t| > 0 {
      if StartsWith(t, pat) {
        assert false;
      } else {
        var out := [t[0]] + Replace(t[1..], pat, repl);
        assert out[0] == w[0] == t[0];
        if k + 1 < |pat| - 1 {
          assert pat[k + 2..] == w[1..];
          assert out[1..] == Replace(t[1..], pat, repl);
          assert StartsWith(Replace(t[1..], pat, repl), pat[k + 2..]);
          ReplaceStartsWith(t[1..], pat, repl, k + 1);
          assert t == [t[0]] + t[1..];
        } else {
          assert w == [t[0]];
        }
      }
    }
  }

  /**
   * After `s.replace(pat, repl)` no `pat` is left, provided `repl` cannot
   * rebuild one: no suffix of `repl` overlaps `pat`, and no proper suffix of
   * `pat` overlaps `repl`.
   */
  lemma {:induction false} ReplaceRemoves(s: string, pat: string, repl: string)
    requires |pat| > 0
    requires forall p :: 0 <= p < |repl| ==> !Overlaps(repl[p..], pat)
    requires forall q :: 1 <= q < |pat| ==> !Overlaps(pat[q..], repl)
    ensures !Contains(Replace(s, pat, repl), pat)
    decreases |s|
  {
    if |s| == 0 {
      assert !StartsWith("", pat);
    } else if StartsWith(s, pat) {
      ReplaceRemoves(s[|pat|..], pat, repl);
      ContainsConcat(repl, Replace(s[|pat|..], pat, repl), pat);
    } else {
      var rest := Replace(s[1..], pat, repl);
      ReplaceRemoves(s[1..], pat, repl);
      var out := [s[0]] + rest;
      assert out[1..] == rest;
      if StartsWith(out, pat) {
        assert out[0] == pat[0] == s[0];
        if |pat| > 1 {
          assert out[1..][..|pat| - 1] == pat[1..];
          assert StartsWith(rest, pat[0 + 1..]);
          ReplaceStartsWith(s[1..], pat, repl, 0);
        }
        assert false;
      }
    }
  }

  // ---------------------------------------------------------------------
  // Numbers as text
  // ---------------------------------------------------------------------

  function DigitChar(d: nat): char
    requires d < 10
  {
    ('0' as int + d) as char
  }

  function DigitValue(c: char): nat {
    if '0' <= c <= '9' then c as int - '0' as int else 0
  }

  /** Python `str(n)` for a natural number. */
  function NatToString(n: nat): (s: string)
    ensures |s| >= 1 && forall i :: 0 <= i < |s| ==> '0' <= s[i] <= '9'
    decreases n
  {
    if n < 10 then [DigitChar(n)] else NatToString(n / 10) + [DigitChar(n % 10)]
  }

  /** The value of a string of decimal digits. */
  function DigitsValue(s: string): nat
    decreases |s|
  {
    if |s| == 0 then 0 else 10 * DigitsValue(s[..|s| - 1]) + DigitValue(s[|s| - 1])
  }

  /** Python `str(n)` for any integer. */
  function IntToString(n: int): string {
    if n < 0 then "-" + NatToString(-n) else NatToString(n)
  }

  /** The integer a decimal option value denotes. */
  function ParseInt(s: string): int {
    if |s| > 0 && s[0] == '-' then 0 - DigitsValue(s[1..]) as int else DigitsValue(s)
  }

  lemma {:induction false} DigitsRoundTrip(n: nat)
    ensures DigitsValue(NatToString(n)) == n
    decreases n
  {
    if n >= 10 {
      DigitsRoundTrip(n / 10);
      var s := NatToString(n);
      assert s[..|s| - 1] == NatToString(n / 10);
    }
  }

  lemma IntRoundTrip(n: int)
    ensures ParseInt(IntToString(n)) == n
  {
    if n < 0 {
      DigitsRoundTrip(-n);
      assert IntToString(n)[1..] == NatToString(-n);
    } else {
      DigitsRoundTrip(n);
    }
  }
}
