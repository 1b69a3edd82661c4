/**
 * The string handling the graph builders rely on: Python's `str.strip()`,
 * `str.upper()`, `str.split(sep)` and `int(str)`, and the "HH:MM:SS" to
 * seconds conversion of the travel-time rows.
 */
module Text {
  import opened Wrappers

  /** Python's `str.isspace()` for a single character. */
  predicate IsSpace(c: char)
  {
    var n := c as int;
    9 <= n <= 13 || 28 <= n <= 32 || n == 0x85 || n == 0xA0 || n == 0x1680
    || 0x2000 <= n <= 0x200A || n == 0x2028 || n == 0x2029 || n == 0x202F
    || n == 0x205F || n == 0x3000
  }

  ghost predicate AllSpace(s: string)
  {
    forall i :: 0 <= i < |s| ==> IsSpace(s[i])
  }

  /** No white space at either end. */
  ghost predicate Trimmed(s: string)
  {
    s == [] || (!IsSpace(s[0]) && !IsSpace(s[|s| - 1]))
  }

  /** `str.lstrip()`: drops the longest all-space prefix. */
  function StripLeft(s: string): string
  {
    if s != [] && IsSpace(s[0]) then StripLeft(s[1..]) else s
  }

  /** `lstrip` keeps a suffix, drops only space, and stops at the first non-space. */
  lemma {:induction false} StripLeftShape(s: string)
    ensures var r := StripLeft(s);
      && |r| <= |s| && r == s[|s| - |r|..]
      && AllSpace(s[..|s| - |r|])
      && (r == [] || !IsSpace(r[0]))
  {
    if s != [] && IsSpace(s[0]) {
      var t := s[1..];
      StripLeftShape(t);
      var r := StripLeft(t);
      assert s[|s| - |r|..] == t[|t| - |r|..];
      var dropped := s[..|s| - |r|];
      assert forall i :: 1 <= i < |dropped| ==> dropped[i] == t[..|t| - |r|][i - 1];
    }
  }

  /** `str.rstrip()`: drops the longest all-space suffix. */
  function StripRight(s: string): string
  {
    if s != [] && IsSpace(s[|s| - 1]) then StripRight(s[..|s| - 1]) else s
  }

  /** `rstrip` keeps a prefix, drops only space, and stops at the last non-space. */
  lemma {:induction false} StripRightShape(s: string)
    ensures var r := StripRight(s);
      && |r| <= |s| && r == s[..|r|]
      && AllSpace(s[|r|..])
      && (r == [] || !IsSpace(r[|r| - 1]))
  {
    if s != [] && IsSpace(s[|s| - 1]) {
      var t := s[..|s| - 1];
      StripRightShape(t);
      var r := StripRight(t);
      assert s[..|r|] == t[..|r|];
      var dropped := s[|r|..];
      assert forall i :: 0 <= i < |dropped| - 1 ==> dropped[i] == t[|r|..][i];
    }
  }

  /** `str.strip()` with no argument. */
  function Strip(s: string): string
  {
    StripRight(StripLeft(s))
  }

  /** `strip` leaves no space at either end. */
  lemma StripShape(s: string)
    ensures Trimmed(Strip(s))
  {
    var l := StripLeft(s);
    StripLeftShape(s);
    StripRightShape(l);
    var r := StripRight(l);
    if r != [] {
      assert r[0] == l[0];
    }
  }

  /** The lower-case letters `str.upper()` changes in this model: ASCII and Latin-1. */
  predicate IsLower(c: char)
  {
    'a' <= c <= 'z' || (0xE0 <= c as int <= 0xFE && c as int != 0xF7)
  }

  function UpperChar(c: char): (u: char)
    ensures !IsLower(u)
    ensures IsSpace(u) == IsSpace(c)
  {
    if IsLower(c) then (c as int - 32) as char else c
  }

  /** `str.upper()`. */
  function Upper(s: string): (r: string)
    ensures |r| == |s|
    ensures forall i :: 0 <= i < |r| ==> !IsLower(r[i])
  {
    seq(|s|, i requires 0 <= i < |s| => UpperChar(s[i]))
  }

  /** `str(x).strip().upper()`: how every station code is normalised. */
  function Normalize(s: string): string
  {
    Upper(Strip(s))
  }

  /** A normalised code has no space at either end and no lower-case letter. */
  lemma NormalizeShape(s: string)
    ensures Trimmed(Normalize(s))
    ensures forall i :: 0 <= i < |Normalize(s)| ==> !IsLower(Normalize(s)[i])
  {
    var t := Strip(s);
    StripShape(s);
    assert forall i :: 0 <= i < |t| ==> IsSpace(Upper(t)[i]) == IsSpace(t[i]);
  }

  lemma StripTrimmed(s: string)
    requires Trimmed(s)
    ensures Strip(s) == s
  {
  }

  lemma UpperNoLower(s: string)
    requires forall i :: 0 <= i < |s| ==> !IsLower(s[i])
    ensures Upper(s) == s
  {
  }

  /** Normalising a code twice is normalising it once. */
  lemma NormalizeIdempotent(s: string)
    ensures Normalize(Normalize(s)) == Normalize(s)
  {
    var r := Normalize(s);
    NormalizeShape(s);
    StripTrimmed(r);
    UpperNoLower(r);
  }

  lemma {:induction false} StripLeftSpaces(w: string, t: string)
    requires AllSpace(w)
    ensures StripLeft(w + t) == StripLeft(t)
  {
    if w != [] {
      var s := w + t;
      assert s[0] == w[0] && IsSpace(s[0]);
      assert s[1..] == w[1..] + t;
      assert StripLeft(s) == StripLeft(s[1..]);
      var w' := w[1..];
      assert AllSpace(w') by {
        forall i | 0 <= i < |w'| ensures IsSpace(w'[i]) {
          assert w'[i] == w[i + 1];
        }
      }
      StripLeftSpaces(w[1..], t);
    } else {
      assert w + t == t;
    }
  }

  lemma {:induction false} StripRightSpaces(t: string, w: string)
    requires AllSpace(w)
    ensures StripRight(t + w) == StripRight(t)
  {
    if w != [] {
      var s := t + w;
      assert s[|s| - 1] == w[|w| - 1] && IsSpace(s[|s| - 1]);
      assert s[..|s| - 1] == t + w[..|w| - 1];
      assert StripRight(s) == StripRight(s[..|s| - 1]);
      var w' := w[..|w| - 1];
      assert AllSpace(w') by {
        forall i | 0 <= i < |w'| ensures IsSpace(w'[i]) {
          assert w'[i] == w[i];
        }
      }
      StripRightSpaces(t, w[..|w| - 1]);
    } else {
      assert t + w == t;
    }
  }

  lemma {:induction false} StripLeftAppend(s: string, w: string)
    requires StripLeft(s) != []
    ensures StripLeft(s + w) == StripLeft(s) + w
  {
    if s != [] && IsSpace(s[0]) {
      assert (s + w)[1..] == s[1..] + w;
      StripLeftAppend(s[1..], w);
    }
  }

  /** White space around a code does not change what it normalises to. */
  lemma NormalizeIgnoresPadding(w1: string, s: string, w2: string)
    requires AllSpace(w1) && AllSpace(w2)
    ensures Normalize(w1 + s + w2) == Normalize(s)
  {
    assert w1 + s + w2 == w1 + (s + w2);
    StripLeftSpaces(w1, s + w2);
    StripLeftShape(s);
    if StripLeft(s) == [] {
      assert AllSpace(s);
      assert AllSpace(s + w2);
      assert s + w2 == (s + w2) + [];
      StripLeftSpaces(s + w2, []);
    } else {
      StripLeftAppend(s, w2);
      StripRightSpaces(StripLeft(s), w2);
    }
  }

  /** `str.split(sep)`: the pieces between separators, empty ones included. */
  function Split(s: string, sep: char): (parts: seq<string>)
    ensures |parts| >= 1
  {
    if s == [] then [[]]
    else
      var rest := Split(s[1..], sep);
      if s[0] == sep then [[]] + rest
      else [[s[0]] + rest[0]] + rest[1..]
  }

  /** `sep.join(parts)`. */
  function Join(parts: seq<string>, sep: char): string
    requires |parts| >= 1
  {
    if |parts| == 1 then parts[0] else parts[0] + [sep] + Join(parts[1..], sep)
  }

  /** `Split` yields one more piece than `s` holds separators. */
  lemma {:induction false} SplitCount(s: string, sep: char)
    ensures |Split(s, sep)| == multiset(s)[sep] + 1
  {
    if s != [] {
      SplitCount(s[1..], sep);
      assert s == [s[0]] + s[1..];
      assert multiset(s) == multiset([s[0]]) + multiset(s[1..]);
    }
  }

  /** No piece of `Split` holds the separator, and the pieces join back to `s`. */
  lemma {:induction false} SplitPieces(s: string, sep: char)
    ensures forall i :: 0 <= i < |Split(s, sep)| ==> sep !in Split(s, sep)[i]
    ensures Join(Split(s, sep), sep) == s
  {
    if s != [] {
      var rest := Split(s[1..], sep);
      SplitPieces(s[1..], sep);
      var parts := Split(s, sep);
      if s[0] == sep {
        assert parts == [[]] + rest;
        assert Join(parts, sep) == [sep] + Join(rest, sep);
        assert s == [s[0]] + s[1..];
        forall i | 0 <= i < |parts| ensures sep !in parts[i] {
          if i > 0 {
            assert parts[i] == rest[i - 1];
          }
        }
      } else {
        assert parts == [[s[0]] + rest[0]] + rest[1..];
        forall i | 0 <= i < |parts| ensures sep !in parts[i] {
          if i > 0 {
            assert parts[i] == rest[i];
          } else {
            assert parts[0] == [s[0]] + rest[0];
          }
        }
        if |rest| == 1 {
          assert Join(parts, sep) == [s[0]] + rest[0];
        } else {
          assert parts[1..] == rest[1..];
          assert Join(parts, sep) == [s[0]] + rest[0] + [sep] + Join(rest[1..], sep);
          assert Join(rest, sep) == rest[0] + [sep] + Join(rest[1..], sep);
        }
        assert s == [s[0]] + s[1..];
      }
    }
  }

  lemma {:induction false} SplitAfterField(a: string, sep: char, b: string)
    requires sep !in a
    ensures Split(a + [sep] + b, sep) == [a] + Split(b, sep)
  {
    if a != [] {
      var x := a + [sep] + b;
      assert x[0] == a[0] && a[0] != sep;
      assert x[1..] == a[1..] + [sep] + b;
      SplitAfterField(a[1..], sep, b);
      assert [a[0]] + a[1..] == a;
    } else {
      assert a + [sep] + b == [sep] + b;
    }
  }

  lemma {:induction false} SplitLastField(a: string, sep: char)
    requires sep !in a
    ensures Split(a, sep) == [a]
  {
    if a != [] {
      assert a[0] != sep;
      SplitLastField(a[1..], sep);
      assert [a[0]] + a[1..] == a;
    }
  }

  /** Splitting undoes joining, for pieces that hold no separator. */
  lemma {:induction false} SplitJoin(parts: seq<string>, sep: char)
    requires |parts| >= 1
    requires forall i :: 0 <= i < |parts| ==> sep !in parts[i]
    ensures Split(Join(parts, sep), sep) == parts
  {
    if |parts| == 1 {
      SplitLastField(parts[0], sep);
    } else {
      SplitJoin(parts[1..], sep);
      SplitAfterField(parts[0], sep, Join(parts[1..], sep));
    }
  }

  predicate IsDigit(c: char)
  {
    '0' <= c <= '9'
  }

  /** The body `int()` accepts after the sign: digits, with single underscores between digits. */
  predicate IsDigitBody(s: string)
    decreases |s|
  {
    && |s| > 0 && IsDigit(s[0])
    && (|s| == 1 || IsDigitBody(s[1..]) || (|s| >= 3 && s[1] == '_' && IsDigitBody(s[2..])))
  }

  lemma {:induction false} DigitsAreBody(s: string)
    requires |s| > 0 && forall i :: 0 <= i < |s| ==> IsDigit(s[i])
    ensures IsDigitBody(s)
  {
    if |s| > 1 {
      var t := s[1..];
      assert forall i :: 0 <= i < |t| ==> t[i] == s[i + 1];
      DigitsAreBody(t);
    }
  }

  /** The decimal value of the digits of `s`, underscores skipped. */
  function DigitsValue(s: string): nat
  {
    if s == [] then 0
    else
      var c := s[|s| - 1];
      var v := DigitsValue(s[..|s| - 1]);
      if IsDigit(c) then 10 * v + (c as int - '0' as int) else v
  }

  /**
   * The white space `int()` skips around its digits: CPython hands an ASCII
   * argument straight to its integer parser, which skips only tab, line
   * feed, vertical tab, form feed, carriage return and space, and not the separators
   * U+001C to U+001F that `isspace` accepts; other space characters are
   * turned into a plain space first.
   */
  predicate IsIntSpace(c: char)
  {
    IsSpace(c) && !(28 <= c as int <= 31)
  }

  function IntStripLeft(s: string): string
  {
    if s != [] && IsIntSpace(s[0]) then IntStripLeft(s[1..]) else s
  }

  function IntStripRight(s: string): string
  {
    if s != [] && IsIntSpace(s[|s| - 1]) then IntStripRight(s[..|s| - 1]) else s
  }

  /** The text `int()` reads its sign and digits from. */
  function IntStrip(s: string): string
  {
    IntStripRight(IntStripLeft(s))
  }

  /** Python's `int(s)` on a string: `None` where it raises `ValueError`. */
  function ParseInt(s: string): Option<int>
  {
    var t := IntStrip(s);
    if t != [] && (t[0] == '+' || t[0] == '-') then
      if IsDigitBody(t[1..]) then
        var v: int := DigitsValue(t[1..]);
        Some(if t[0] == '-' then -v else v)
      else None
    else if IsDigitBody(t) then Some(DigitsValue(t))
    else None
  }

  function DigitChar(d: nat): (c: char)
    requires d < 10
    ensures IsDigit(c) && c as int - '0' as int == d
  {
    ('0' as int + d) as char
  }

  /** The decimal text of `n`, as `str(n)` writes it. */
  function NatText(n: nat): (s: string)
    ensures |s| > 0
    ensures forall i :: 0 <= i < |s| ==> IsDigit(s[i])
  {
    if n < 10 then [DigitChar(n)] else NatText(n / 10) + [DigitChar(n % 10)]
  }

  lemma {:induction false} DigitsValueNatText(n: nat)
    ensures DigitsValue(NatText(n)) == n
  {
    var s := NatText(n);
    if n < 10 {
      assert s[..0] == [];
    } else {
      assert s[..|s| - 1] == NatText(n / 10);
      DigitsValueNatText(n / 10);
    }
  }

  /** A non-empty run of ASCII digits. */
  ghost predicate IsDigits(s: string)
  {
    |s| > 0 && forall i :: 0 <= i < |s| ==> IsDigit(s[i])
  }

  /** `int()` of a run of ASCII digits, leading zeros included, is their decimal value. */
  lemma ParseIntDigits(s: string)
    requires IsDigits(s)
    ensures ParseInt(s) == Some(DigitsValue(s))
  {
    assert !IsIntSpace(s[0]) && !IsIntSpace(s[|s| - 1]);
    assert IntStrip(s) == s;
    assert s[0] != '+' && s[0] != '-';
    DigitsAreBody(s);
  }

  /** `int(str(n)) == n`. */
  lemma ParseIntNatText(n: nat)
    ensures ParseInt(NatText(n)) == Some(n)
  {
    ParseIntDigits(NatText(n));
    DigitsValueNatText(n);
  }

  /** `int("-" + str(n)) == -n`: the sign is accepted. */
  lemma ParseIntNegative(n: nat)
    ensures ParseInt("-" + NatText(n)) == Some(0 - n)
  {
    var s := "-" + NatText(n);
    assert s[0] == '-' && !IsIntSpace(s[0]) && !IsIntSpace(s[|s| - 1]);
    assert IntStrip(s) == s;
    assert s[1..] == NatText(n);
    DigitsAreBody(s[1..]);
    DigitsValueNatText(n);
  }

  /**
   * The try block of `agregar_tiempos`: split on ':', require exactly three
   * fields, convert each with `int()`, and combine them into seconds.
   * `None` is the `ValueError` branch, after which the row is skipped.
   */
  function ParseDuration(s: string): Option<int>
  {
    var parts := Split(s, ':');
    if |parts| != 3 then None
    else
      var h, m, sec := ParseInt(parts[0]), ParseInt(parts[1]), ParseInt(parts[2]);
      if h.Some? && m.Some? && sec.Some? then Some(h.value * 3600 + m.value * 60 + sec.value)
      else None
  }

  lemma SplitThree(a: string, b: string, c: string)
    requires ':' !in a && ':' !in b && ':' !in c
    ensures Split(a + ":" + b + ":" + c, ':') == [a, b, c]
  {
    SplitLastField(c, ':');
    SplitAfterField(b, ':', c);
    assert a + ":" + b + ":" + c == a + [':'] + (b + [':'] + c);
    SplitAfterField(a, ':', b + [':'] + c);
  }

  lemma DigitsHaveNoColon(s: string)
    requires IsDigits(s)
    ensures ':' !in s
  {
  }

  lemma NatTextHasNoColon(n: nat)
    ensures ':' !in NatText(n)
  {
  }

  lemma DurationOfPieces(x: string, a: string, b: string, c: string, h: int, m: int, s: int)
    requires Split(x, ':') == [a, b, c]
    requires ParseInt(a) == Some(h) && ParseInt(b) == Some(m) && ParseInt(c) == Some(s)
    ensures ParseDuration(x) == Some(h * 3600 + m * 60 + s)
  {
    var parts := Split(x, ':');
    assert parts[0] == a && parts[1] == b && parts[2] == c;
    assert ParseInt(parts[0]).value == h;
  }

  /** "h:m:s" written with `str` of naturals converts to h*3600 + m*60 + s seconds. */
  lemma DurationOfFields(h: nat, m: nat, s: nat)
    ensures ParseDuration(NatText(h) + ":" + NatText(m) + ":" + NatText(s)) == Some(h * 3600 + m * 60 + s)
  {
    var a, b, c := NatText(h), NatText(m), NatText(s);
    NatTextHasNoColon(h);
    NatTextHasNoColon(m);
    NatTextHasNoColon(s);
    SplitThree(a, b, c);
    ParseIntNatText(h);
    ParseIntNatText(m);
    ParseIntNatText(s);
    DurationOfPieces(a + ":" + b + ":" + c, a, b, c, h, m, s);
  }

  /**
   * A zero-padded "HH:MM:SS" cell, or any three runs of ASCII digits joined
   * by ':', converts to hours * 3600 + minutes * 60 + seconds.
   */
  lemma DurationOfDigits(a: string, b: string, c: string, h: nat, m: nat, s: nat)
    requires IsDigits(a) && IsDigits(b) && IsDigits(c)
    requires h == DigitsValue(a) && m == DigitsValue(b) && s == DigitsValue(c)
    ensures ParseDuration(a + ":" + b + ":" + c) == Some(h * 3600 + m * 60 + s)
  {
    DigitsHaveNoColon(a);
    DigitsHaveNoColon(b);
    DigitsHaveNoColon(c);
    SplitThree(a, b, c);
    ParseIntDigits(a);
    ParseIntDigits(b);
    ParseIntDigits(c);
    DurationOfPieces(a + ":" + b + ":" + c, a, b, c, h, m, s);
  }

  /** A zero-padded `HH:MM:SS` cell: "00:01:30" is 90 seconds. */
  lemma DurationPadded()
    ensures ParseDuration("00:01:30") == Some(90)
  {
    assert "00:01:30" == "00" + ":" + "01" + ":" + "30";
    assert DigitsValue("00") == 0 by { assert "00"[..1] == "0" && "0"[..0] == ""; }
    assert DigitsValue("01") == 1 by { assert "01"[..1] == "0" && "0"[..0] == ""; }
    assert DigitsValue("30") == 30 by { assert "30"[..1] == "3" && "3"[..0] == ""; }
    DurationOfDigits("00", "01", "30", 0, 1, 30);
  }

  /**
   * A cell in the form pandas gives a time difference as text,
   * "0 days 00:01:30", is rejected: its first field is not an integer.
   */
  lemma DurationDaysRejected()
    ensures ParseDuration("0 days 00:01:30") == None
  {
    var x, a := "0 days 00:01:30", "0 days 00";
    assert x == a + ":" + "01" + ":" + "30";
    SplitThree(a, "01", "30");
    DaysNotInteger();
    var parts := Split(x, ':');
    assert parts[0] == a;
  }

  lemma DaysNotInteger()
    ensures ParseInt("0 days 00") == None
  {
    var a := "0 days 00";
    assert !IsIntSpace(a[0]) && !IsIntSpace(a[|a| - 1]);
    assert IntStrip(a) == a;
    assert !IsDigitBody(a[1..]) by { assert a[1..][0] == ' '; }
  }

  /** `int()` does not skip the separator U+001C, though `isspace` counts it as space. */
  lemma ParseIntSeparator()
    ensures ParseInt("\U{1c}5") == None
  {
    var s := "\U{1c}5";
    assert !IsIntSpace(s[0]) && !IsIntSpace(s[|s| - 1]);
    assert IntStrip(s) == s;
    assert !IsDigit(s[0]);
  }

  /** A duration without exactly two ':' separators is rejected. */
  lemma DurationNeedsThreeFields(s: string)
    requires multiset(s)[':'] != 2
    ensures ParseDuration(s) == None
  {
    SplitCount(s, ':');
  }
}
