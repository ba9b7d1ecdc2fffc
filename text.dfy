/**
 * The pieces of Python's string handling that the colour helper relies on:
 * `str.split(sep)` and `sep.join(parts)` for a one-character separator, and the
 * decimal rendering of an integer done by `str(n)` and `'%d' % n`.  A decimal
 * reader is given beside the renderer so that the rendering can be shown to
 * lose nothing.
 */
module Text {
  import opened Wrappers

  /** `sep.join(parts)`: the parts with one `sep` between neighbours. */
  function Join(parts: seq<string>, sep: char): string
  {
    if |parts| == 0 then ""
    else if |parts| == 1 then parts[0]
    else parts[0] + [sep] + Join(parts[1..], sep)
  }

  /**
   * `s.split(sep)`: the maximal runs of non-`sep` characters, empty runs
   * included, so there is always at least one part (`"".split(",") == [""]`).
   */
  function Split(s: string, sep: char): (parts: seq<string>)
    ensures |parts| >= 1
    ensures forall i :: 0 <= i < |parts| ==> sep !in parts[i]
    decreases |s|
  {
    if |s| == 0 then [""]
    else
      var rest := Split(s[1..], sep);
      if s[0] == sep then [""] + rest
      else [[s[0]] + rest[0]] + rest[1..]
  }

  /** Joining undoes splitting. */
  lemma {:induction false} JoinSplit(s: string, sep: char)
    ensures Join(Split(s, sep), sep) == s
    decreases |s|
  {
    if |s| > 0 {
      JoinSplit(s[1..], sep);
      var rest := Split(s[1..], sep);
      assert s == [s[0]] + s[1..];
      if s[0] != sep {
        var parts := [[s[0]] + rest[0]] + rest[1..];
        assert parts[1..] == rest[1..];
        assert |rest| > 1 ==> Join(rest, sep) == rest[0] + [sep] + Join(rest[1..], sep);
      }
    }
  }

  /** A string without the separator is not split at all. */
  lemma {:induction false} SplitNoSeparator(s: string, sep: char)
    requires sep !in s
    ensures Split(s, sep) == [s]
    decreases |s|
  {
    if |s| > 0 {
      assert sep !in s[1..];
      SplitNoSeparator(s[1..], sep);
      assert s == [s[0]] + s[1..];
    }
  }

  /** Splitting stops at the first separator and goes on after it. */
  lemma {:induction false} SplitAtFirstSeparator(a: string, sep: char, b: string)
    requires sep !in a
    ensures Split(a + [sep] + b, sep) == [a] + Split(b, sep)
    decreases |a|
  {
    var s := a + [sep] + b;
    if |a| == 0 {
      assert s[1..] == b;
    } else {
      assert s[1..] == a[1..] + [sep] + b;
      assert sep !in a[1..];
      SplitAtFirstSeparator(a[1..], sep, b);
      assert [s[0]] + a[1..] == a;
    }
  }

  /** Splitting undoes joining, for parts that do not hold the separator. */
  lemma {:induction false} SplitJoin(parts: seq<string>, sep: char)
    requires |parts| >= 1
    requires forall i :: 0 <= i < |parts| ==> sep !in parts[i]
    ensures Split(Join(parts, sep), sep) == parts
    decreases |parts|
  {
    if |parts| == 1 {
      SplitNoSeparator(parts[0], sep);
    } else {
      var rest := parts[1..];
      assert forall i :: 0 <= i < |rest| ==> sep !in rest[i] by {
        forall i | 0 <= i < |rest| ensures sep !in rest[i] {
          assert rest[i] == parts[i + 1];
        }
      }
      SplitJoin(rest, sep);
      SplitAtFirstSeparator(parts[0], sep, Join(rest, sep));
      assert [parts[0]] + rest == parts;
    }
  }

  /** One step of the split: the first character either ends the first part or joins it. */
  lemma SplitCons(c: char, t: string, sep: char)
    ensures Split([c] + t, sep)
      == if c == sep then [""] + Split(t, sep) else [[c] + Split(t, sep)[0]] + Split(t, sep)[1..]
  {
    assert ([c] + t)[1..] == t;
  }

  /** Extending the first part of `left + right` extends the first part of `left`. */
  lemma PrependToFirst(p: string, left: seq<string>, right: seq<string>)
    requires |left| >= 1
    ensures [p + (left + right)[0]] + (left + right)[1..] == [p + left[0]] + left[1..] + right
  {
    assert (left + right)[1..] == left[1..] + right;
  }

  /** A separator between two strings splits them apart. */
  lemma {:induction false} SplitConcat(x: string, sep: char, y: string)
    ensures Split(x + [sep] + y, sep) == Split(x, sep) + Split(y, sep)
    decreases |x|
  {
    if |x| == 0 {
      assert x + [sep] + y == [sep] + y;
      SplitCons(sep, y, sep);
    } else {
      var c, t := x[0], x[1..];
      assert x == [c] + t;
      assert x + [sep] + y == [c] + (t + [sep] + y);
      SplitConcat(t, sep, y);
      SplitCons(c, t + [sep] + y, sep);
      SplitCons(c, t, sep);
      if c != sep {
        PrependToFirst([c], Split(t, sep), Split(y, sep));
      } else {
        assert [""] + (Split(t, sep) + Split(y, sep)) == [""] + Split(t, sep) + Split(y, sep);
      }
    }
  }

  /** A part followed by nothing or by a separator is the first part. */
  lemma SplitFirstPart(t: string, sep: char, after: string)
    requires sep !in t
    requires |after| == 0 || after[0] == sep
    ensures Split(t + after, sep)[0] == t
  {
    if |after| == 0 {
      assert t + after == t;
      SplitNoSeparator(t, sep);
    } else {
      assert t + after == t + [sep] + after[1..];
      SplitAtFirstSeparator(t, sep, after[1..]);
    }
  }

  /** A run between separators (or the ends of the string) is one of the parts. */
  lemma PartOfSplit(before: string, t: string, after: string, sep: char)
    requires sep !in t
    requires |before| == 0 || before[|before| - 1] == sep
    requires |after| == 0 || after[0] == sep
    ensures t in Split(before + t + after, sep)
  {
    SplitFirstPart(t, sep, after);
    if |before| == 0 {
      assert before + t + after == t + after;
    } else {
      var b := before[..|before| - 1];
      assert before + t + after == b + [sep] + (t + after);
      SplitConcat(b, sep, t + after);
      assert Split(before + t + after, sep)[|Split(b, sep)|] == t;
    }
  }

  /** Joining two non-empty lists puts one separator between their joins. */
  lemma {:induction false} JoinAppend(a: seq<string>, b: seq<string>, sep: char)
    requires |a| >= 1 && |b| >= 1
    ensures Join(a + b, sep) == Join(a, sep) + [sep] + Join(b, sep)
    decreases |a|
  {
    if |a| == 1 {
      assert (a + b)[1..] == b;
    } else {
      assert (a + b)[1..] == a[1..] + b;
      JoinAppend(a[1..], b, sep);
    }
  }

  /** Every character of the join is a separator or a character of a part. */
  lemma {:induction false} JoinChars(parts: seq<string>, sep: char, allowed: set<char>)
    requires sep in allowed
    requires forall i, k :: 0 <= i < |parts| && 0 <= k < |parts[i]| ==> parts[i][k] in allowed
    ensures forall k :: 0 <= k < |Join(parts, sep)| ==> Join(parts, sep)[k] in allowed
    decreases |parts|
  {
    if |parts| > 1 {
      var rest := parts[1..];
      assert forall i, k :: 0 <= i < |rest| && 0 <= k < |rest[i]| ==> rest[i][k] in allowed by {
        forall i, k | 0 <= i < |rest| && 0 <= k < |rest[i]| ensures rest[i][k] in allowed {
          assert rest[i] == parts[i + 1];
        }
      }
      JoinChars(rest, sep, allowed);
    }
  }

  // ---------------------------------------------------------------------
  // Decimal rendering, as done by `str(n)` and `'%d' % n`

  predicate IsDigit(c: char)
  {
    '0' <= c <= '9'
  }

  predicate AllDigits(s: string)
  {
    forall k :: 0 <= k < |s| ==> IsDigit(s[k])
  }

  function DigitChar(d: nat): (c: char)
    requires d < 10
    ensures IsDigit(c) && c as int - '0' as int == d
  {
    ('0' as int + d) as char
  }

  function DigitValue(c: char): (d: nat)
    requires IsDigit(c)
    ensures d < 10
  {
    c as int - '0' as int
  }

  /** A run of decimal digits as `'%d'` writes a natural number: non-empty, no leading zero. */
  predicate CanonicalDigits(d: string)
  {
    |d| >= 1 && AllDigits(d) && (|d| > 1 ==> d[0] != '0')
  }

  /** An integer as `'%d'` writes it: canonical digits, after a minus sign for a negative number. */
  predicate IsDecimal(s: string)
  {
    CanonicalDigits(s) || (|s| >= 2 && s[0] == '-' && s[1] != '0' && CanonicalDigits(s[1..]))
  }

  /** The decimal digits of `n`, most significant first, without leading zeros. */
  function NatToDecimal(n: nat): (s: string)
    ensures CanonicalDigits(s)
    ensures (s[0] == '0') == (n == 0)
    decreases n
  {
    if n < 10 then [DigitChar(n)] else NatToDecimal(n / 10) + [DigitChar(n % 10)]
  }

  /**
   * `'%d' % i`: a minus sign before the digits of a negative number.  The
   * spelling is canonical: the sign comes first and only for a negative
   * number, the digits have no leading zero, and there is no `-0`.
   */
  function IntToDecimal(i: int): (s: string)
    ensures IsDecimal(s)
    ensures |s| >= 1 && (s[0] == '-') == (i < 0)
    ensures i < 0 ==> CanonicalDigits(s[1..]) && s[1] != '0'
    ensures i >= 0 ==> CanonicalDigits(s)
  {
    if i < 0 then
      var d := NatToDecimal(-i);
      assert ("-" + d)[1..] == d;
      "-" + d
    else NatToDecimal(i)
  }

  /** The number a string of decimal digits stands for. */
  function DigitsValue(s: string): nat
    requires AllDigits(s)
    decreases |s|
  {
    if |s| == 0 then 0 else DigitsValue(s[..|s| - 1]) * 10 + DigitValue(s[|s| - 1])
  }

  /** A reader for integers written as `'%d'` writes them; any other spelling is refused. */
  function ParseInt(s: string): (r: Option<int>)
    ensures r.Some? <==> IsDecimal(s)
  {
    if CanonicalDigits(s) then Some(DigitsValue(s))
    else if |s| >= 2 && s[0] == '-' && s[1] != '0' && CanonicalDigits(s[1..]) then
      Some(-(DigitsValue(s[1..]) as int))
    else None
  }

  lemma {:induction false} DigitsValueOfDecimal(n: nat)
    ensures DigitsValue(NatToDecimal(n)) == n
    decreases n
  {
    if n >= 10 {
      var s := NatToDecimal(n);
      assert s[..|s| - 1] == NatToDecimal(n / 10);
      DigitsValueOfDecimal(n / 10);
    }
  }

  /** Reading back the rendering of any integer gives that integer. */
  lemma ParseIntOfDecimal(i: int)
    ensures ParseInt(IntToDecimal(i)) == Some(i)
  {
    if i < 0 {
      var s := IntToDecimal(i);
      assert s[1..] == NatToDecimal(-i);
      DigitsValueOfDecimal(-i);
    } else {
      DigitsValueOfDecimal(i);
    }
  }

  /** Digits that do not start with a zero stand for a positive number. */
  lemma {:induction false} DigitsValuePositive(d: string)
    requires |d| >= 1 && AllDigits(d) && d[0] != '0'
    ensures DigitsValue(d) >= 1
    decreases |d|
  {
    if |d| > 1 {
      var init := d[..|d| - 1];
      assert init[0] == d[0];
      DigitsValuePositive(init);
    }
  }

  /** Canonical digits are the rendering of the number they stand for. */
  lemma {:induction false} DecimalOfDigitsValue(d: string)
    requires CanonicalDigits(d)
    ensures NatToDecimal(DigitsValue(d)) == d
    decreases |d|
  {
    var n := DigitsValue(d);
    var last := d[|d| - 1];
    if |d| == 1 {
      assert d == [last];
    } else {
      var init := d[..|d| - 1];
      assert init[0] == d[0];
      DigitsValuePositive(init);
      DecimalOfDigitsValue(init);
      assert n / 10 == DigitsValue(init) && n % 10 == DigitValue(last);
      assert d == init + [last];
    }
  }

  /** Only the rendering of `i` reads back as `i`: the reader and the renderer are inverse. */
  lemma DecimalOfParseInt(s: string, i: int)
    requires ParseInt(s) == Some(i)
    ensures s == IntToDecimal(i)
  {
    if CanonicalDigits(s) {
      DecimalOfDigitsValue(s);
    } else {
      var d := s[1..];
      DigitsValuePositive(d);
      DecimalOfDigitsValue(d);
      assert s == "-" + d;
    }
  }
}
