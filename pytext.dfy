/**
 * The Python string operations the two handlers rely on, over `string`
 * (a `seq<char>`): `str.split`, `str.join`, `str.replace`, slicing with
 * `[:n]`, `str.lower` on ASCII letters, and `int()` on decimal text.
 */
module PyText {
  import opened Wrappers

  // ---------------------------------------------------------------------
  // split / join
  // ---------------------------------------------------------------------

  /** `s.split(sep)`: the pieces between occurrences of `sep`, at least one. */
  function Split(s: string, sep: char): (parts: seq<string>)
    ensures |parts| >= 1
    decreases |s|
  {
    if |s| == 0 then [""]
    else
      var rest := Split(s[1..], sep);
      if s[0] == sep then [""] + rest
      else [[s[0]] + rest[0]] + rest[1..]
  }

  /** `sep.join(parts)` for a single-character separator. */
  function Join(parts: seq<string>, sep: char): string
    decreases |parts|
  {
    if |parts| == 0 then ""
    else if |parts| == 1 then parts[0]
    else parts[0] + [sep] + Join(parts[1..], sep)
  }

  /** Splitting loses nothing: joining the pieces gives the text back. */
  lemma {:induction false} SplitJoin(s: string, sep: char)
    ensures Join(Split(s, sep), sep) == s
    decreases |s|
  {
    if |s| > 0 {
      SplitJoin(s[1..], sep);
      var rest := Split(s[1..], sep);
      var parts := Split(s, sep);
      assert s == [s[0]] + s[1..];
      if s[0] == sep {
        assert parts[1..] == rest;
      } else if |rest| > 1 {
        assert parts[1..] == rest[1..];
      }
    }
  }

  /** No piece of a split holds the separator. */
  lemma {:induction false} SplitPiecesLackSep(s: string, sep: char)
    ensures forall i :: 0 <= i < |Split(s, sep)| ==> sep !in Split(s, sep)[i]
    decreases |s|
  {
    if |s| > 0 {
      SplitPiecesLackSep(s[1..], sep);
      var rest := Split(s[1..], sep);
      var parts := Split(s, sep);
      forall i | 0 <= i < |parts| ensures sep !in parts[i] {
        if s[0] == sep {
          if i > 0 { assert parts[i] == rest[i - 1]; }
        } else if i > 0 {
          assert parts[i] == rest[i];
        } else {
          assert sep !in rest[0];
        }
      }
    }
  }

  /** A text without the separator splits into itself alone. */
  lemma {:induction false} SplitWithoutSep(s: string, sep: char)
    requires sep !in s
    ensures Split(s, sep) == [s]
    decreases |s|
  {
    if |s| > 0 {
      assert sep !in s[1..] by {
        forall k | 0 <= k < |s[1..]| ensures s[1..][k] != sep {
          assert s[1..][k] == s[k + 1];
        }
      }
      SplitWithoutSep(s[1..], sep);
      assert s == [s[0]] + s[1..];
    }
  }

  /** The first piece of `a + sep + b` is `a` when `a` holds no separator; the rest are the pieces of `b`. */
  lemma {:induction false} SplitAtFirst(a: string, sep: char, b: string)
    requires sep !in a
    ensures Split(a + [sep] + b, sep) == [a] + Split(b, sep)
    decreases |a|
  {
    var s := a + [sep] + b;
    if |a| == 0 {
      assert s[1..] == b;
    } else {
      assert s[1..] == a[1..] + [sep] + b;
      assert sep !in a[1..] by {
        forall k | 0 <= k < |a[1..]| ensures a[1..][k] != sep {
          assert a[1..][k] == a[k + 1];
        }
      }
      SplitAtFirst(a[1..], sep, b);
      assert [a[0]] + a[1..] == a;
    }
  }

  // ---------------------------------------------------------------------
  // substring search and replace
  // ---------------------------------------------------------------------

  /** `pat in s` for strings. */
  predicate Contains(s: string, pat: string)
    decreases |s|
  {
    |pat| <= |s| && (s[..|pat|] == pat || Contains(s[1..], pat))
  }

  /** `s.replace(pat, rep)`: every non-overlapping occurrence, scanning left to right. */
  function Replace(s: string, pat: string, rep: string): string
    requires |pat| > 0
    decreases |s|
  {
    if |s| < |pat| then s
    else if s[..|pat|] == pat then rep + Replace(s[|pat|..], pat, rep)
    else [s[0]] + Replace(s[1..], pat, rep)
  }

  /** Replacing a pattern that does not occur changes nothing. */
  lemma {:induction false} ReplaceAbsent(s: string, pat: string, rep: string)
    requires |pat| > 0 && !Contains(s, pat)
    ensures Replace(s, pat, rep) == s
    decreases |s|
  {
    if |s| >= |pat| {
      ReplaceAbsent(s[1..], pat, rep);
      assert [s[0]] + s[1..] == s;
    }
  }

  /** A text that starts with the pattern has that occurrence replaced first. */
  lemma ReplaceLeading(pat: string, t: string, rep: string)
    requires |pat| > 0
    ensures Replace(pat + t, pat, rep) == rep + Replace(t, pat, rep)
  {
    assert (pat + t)[..|pat|] == pat;
    assert (pat + t)[|pat|..] == t;
  }

  /** An occurrence in a suffix is an occurrence in the whole text. */
  lemma {:induction false} ContainsInSuffix(u: string, t: string, pat: string)
    requires Contains(t, pat)
    ensures Contains(u + t, pat)
    decreases |u|
  {
    if |u| > 0 {
      ContainsInSuffix(u[1..], t, pat);
      assert (u + t)[1..] == u[1..] + t;
    } else {
      assert u + t == t;
    }
  }

  /** An occurrence of `p + q` is an occurrence of `p`. */
  lemma {:induction false} ContainsLonger(s: string, p: string, q: string)
    requires Contains(s, p + q)
    ensures Contains(s, p)
    decreases |s|
  {
    if s[..|p + q|] == p + q {
      assert s[..|p|] == (p + q)[..|p|] == p;
    } else {
      ContainsLonger(s[1..], p, q);
    }
  }

  /** Removing a leading pattern and splitting at `sep` gives back what stood before the first `sep`. */
  lemma StripThenSplit(pat: string, b: string, sep: char, k: string)
    requires |pat| > 0 && sep !in b
    requires !Contains(b + [sep] + k, pat)
    ensures Split(Replace(pat + b + [sep] + k, pat, ""), sep)[0] == b
  {
    var tail := b + [sep] + k;
    assert pat + b + [sep] + k == pat + tail;
    ReplaceLeading(pat, tail, "");
    ReplaceAbsent(tail, pat, "");
    assert "" + tail == tail;
    SplitAtFirst(b, sep, k);
  }

  /** Removing a leading `pat + b + sep` leaves `k` when nothing after `pat` spells `pat` again. */
  lemma StripLonger(pat: string, b: string, sep: char, k: string)
    requires |pat| > 0 && !Contains(b + [sep] + k, pat)
    ensures Replace(pat + b + [sep] + k, pat + b + [sep], "") == k
  {
    var q := b + [sep];
    assert pat + b + [sep] + k == (pat + q) + k;
    assert pat + b + [sep] == pat + q;
    ReplaceLeading(pat + q, k, "");
    assert q + k == b + [sep] + k;
    if Contains(k, pat) {
      ContainsInSuffix(q, k, pat);
    }
    if Contains(k, pat + q) {
      ContainsLonger(k, pat, q);
    }
    ReplaceAbsent(k, pat + q, "");
    assert "" + k == k;
  }

  /** A prefix none of whose characters starts the pattern adds no occurrence. */
  lemma {:induction false} NoNewOccurrence(p: string, s: string, pat: string)
    requires |pat| > 0 && pat[0] !in p && !Contains(s, pat)
    ensures !Contains(p + s, pat)
    decreases |p|
  {
    if |p| > 0 {
      assert pat[0] !in p[1..] by {
        forall i | 0 <= i < |p[1..]| ensures p[1..][i] != pat[0] {
          assert p[1..][i] == p[i + 1];
        }
      }
      NoNewOccurrence(p[1..], s, pat);
      assert (p + s)[1..] == p[1..] + s;
      if |pat| <= |p + s| {
        assert (p + s)[..|pat|][0] == p[0];
      }
    } else {
      assert p + s == s;
    }
  }

  /** The first piece of a split ends at the first separator. */
  lemma SplitHead(s: string, sep: char, i: nat)
    requires i < |s| && s[i] == sep && sep !in s[..i]
    ensures Split(s, sep)[0] == s[..i]
  {
    assert s == s[..i] + [sep] + s[i + 1..];
    SplitAtFirst(s[..i], sep, s[i + 1..]);
  }

  // ---------------------------------------------------------------------
  // slicing and case
  // ---------------------------------------------------------------------

  /** `s[:n]` for a non-negative `n`. */
  function Take(s: string, n: nat): (r: string)
    ensures r <= s && |r| == if n <= |s| then n else |s|
  {
    if n <= |s| then s[..n] else s
  }

  /** `c.lower()` for ASCII letters; every other character is left as it is. */
  function AsciiLower(c: char): (l: char)
    ensures 'A' <= c <= 'Z' ==> 'a' <= l <= 'z' && l as int - c as int == 32
    ensures !('A' <= c <= 'Z') ==> l == c
  {
    if 'A' <= c <= 'Z' then (c as int + 32) as char else c
  }

  /** `s.lower()`, character by character. */
  function Lower(s: string): (r: string)
    ensures |r| == |s|
    ensures forall i :: 0 <= i < |s| ==> r[i] == AsciiLower(s[i])
  {
    seq(|s|, i requires 0 <= i < |s| => AsciiLower(s[i]))
  }

  // ---------------------------------------------------------------------
  // int() on decimal text, and decimal rendering of a natural number
  // ---------------------------------------------------------------------

  predicate IsDigit(c: char) { '0' <= c <= '9' }

  function DigitValue(c: char): nat
    requires IsDigit(c)
  {
    c as int - '0' as int
  }

  predicate IsDigits(s: string) {
    |s| > 0 && forall i :: 0 <= i < |s| ==> IsDigit(s[i])
  }

  /** The value of a run of decimal digits, most significant first. */
  function DigitsValue(s: string): nat
    requires forall i :: 0 <= i < |s| ==> IsDigit(s[i])
    decreases |s|
  {
    if |s| == 0 then 0
    else DigitsValue(s[..|s| - 1]) * 10 + DigitValue(s[|s| - 1])
  }

  /** `int(s)` for text of the form [+|-]digits; anything else raises (None). */
  function ParseInt(s: string): Option<int>
  {
    if |s| > 0 && (s[0] == '-' || s[0] == '+') then
      if IsDigits(s[1..]) then
        var magnitude: int := DigitsValue(s[1..]);
        Some(if s[0] == '-' then -magnitude else magnitude)
      else None
    else if IsDigits(s) then Some(DigitsValue(s))
    else None
  }

  /** `str(n)` for a natural number. */
  function Decimal(n: nat): (s: string)
    ensures IsDigits(s)
    decreases n
  {
    if n < 10 then [('0' as int + n) as char]
    else Decimal(n / 10) + [('0' as int + n % 10) as char]
  }

  /** `int(str(n)) == n`. */
  lemma {:induction false} DecimalValue(n: nat)
    ensures DigitsValue(Decimal(n)) == n
    decreases n
  {
    var s := Decimal(n);
    if n >= 10 {
      DecimalValue(n / 10);
      assert s[..|s| - 1] == Decimal(n / 10);
    } else {
      assert s[..|s| - 1] == [];
    }
  }

  lemma ParseDecimal(n: nat)
    ensures ParseInt(Decimal(n)) == Some(n)
  {
    DecimalValue(n);
  }
}
