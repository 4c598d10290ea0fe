/** The Python string operations the core relies on: `str.split(sep)`,
    `str.strip()`, decimal formatting of an `int` in an f-string, and the
    prefix test a `re.match` without an end anchor performs. */
module Text {

  /** `str.isspace()` for one code point: the characters `str.strip()` with no
      argument removes (ASCII whitespace, the information separators
      U+001C..U+001F, and the Unicode space and line/paragraph separators). */
  predicate IsSpace(c: char) {
    || ('\U{9}' <= c <= '\U{D}')
    || ('\U{1C}' <= c <= '\U{20}')
    || c == '\U{85}' || c == '\U{A0}' || c == '\U{1680}'
    || ('\U{2000}' <= c <= '\U{200A}')
    || c == '\U{2028}' || c == '\U{2029}' || c == '\U{202F}' || c == '\U{205F}'
    || c == '\U{3000}'
  }

  predicate AllSpace(s: string) {
    forall k :: 0 <= k < |s| ==> IsSpace(s[k])
  }

  /** Neither end of `s` is whitespace. */
  predicate Trimmed(s: string) {
    s == [] || (!IsSpace(s[0]) && !IsSpace(s[|s| - 1]))
  }

  /** `s.lstrip()`: what is left after dropping the leading whitespace. */
  function StripLeading(s: string): (r: string)
    ensures |r| <= |s| && r == s[|s| - |r|..]
    ensures r == [] || !IsSpace(r[0])
  {
    if |s| > 0 && IsSpace(s[0]) then StripLeading(s[1..]) else s
  }

  lemma {:induction false} LeadingDroppedAt(s: string, k: nat)
    requires k < |s| - |StripLeading(s)|
    ensures IsSpace(s[k])
  {
    if k > 0 {
      LeadingDroppedAt(s[1..], k - 1);
    }
  }

  /** What `lstrip()` drops is whitespace. */
  lemma StripLeadingDropsSpace(s: string)
    ensures AllSpace(s[..|s| - |StripLeading(s)|])
  {
    forall k | 0 <= k < |s| - |StripLeading(s)| ensures IsSpace(s[k]) {
      LeadingDroppedAt(s, k);
    }
  }

  /** `s.rstrip()`: what is left after dropping the trailing whitespace. */
  function StripTrailing(s: string): (r: string)
    ensures |r| <= |s| && r == s[..|r|]
    ensures r == [] || !IsSpace(r[|r| - 1])
  {
    if |s| > 0 && IsSpace(s[|s| - 1]) then StripTrailing(s[..|s| - 1]) else s
  }

  lemma {:induction false} TrailingDroppedAt(s: string, k: nat)
    requires |StripTrailing(s)| <= k < |s|
    ensures IsSpace(s[k])
  {
    if k < |s| - 1 {
      TrailingDroppedAt(s[..|s| - 1], k);
    }
  }

  /** What `rstrip()` drops is whitespace. */
  lemma StripTrailingDropsSpace(s: string)
    ensures AllSpace(s[|StripTrailing(s)|..])
  {
    forall k | |StripTrailing(s)| <= k < |s| ensures IsSpace(s[k]) {
      TrailingDroppedAt(s, k);
    }
  }

  /** `s.strip()` */
  function Strip(s: string): (r: string)
  {
    StripTrailing(StripLeading(s))
  }

  lemma {:induction false} LeadingOfSpaced(a: string, t: string)
    requires AllSpace(a)
    requires t == [] || !IsSpace(t[0])
    ensures StripLeading(a + t) == t
  {
    if |a| == 0 {
      assert a + t == t;
    } else {
      assert (a + t)[1..] == a[1..] + t;
      LeadingOfSpaced(a[1..], t);
    }
  }

  lemma {:induction false} TrailingOfSpaced(t: string, b: string)
    requires AllSpace(b)
    requires t == [] || !IsSpace(t[|t| - 1])
    ensures StripTrailing(t + b) == t
  {
    if |b| == 0 {
      assert t + b == t;
    } else {
      var s := t + b;
      assert s[|s| - 1] == b[|b| - 1];
      assert s[..|s| - 1] == t + b[..|b| - 1];
      TrailingOfSpaced(t, b[..|b| - 1]);
    }
  }

  lemma AllSpaceConcat(x: string, y: string)
    requires AllSpace(x) && AllSpace(y)
    ensures AllSpace(x + y)
  {
    forall k | 0 <= k < |x + y| ensures IsSpace((x + y)[k]) {
      if k < |x| { assert (x + y)[k] == x[k]; } else { assert (x + y)[k] == y[k - |x|]; }
    }
  }

  /** `strip()` is determined by the decomposition "whitespace, trimmed core,
      whitespace": whatever surrounds a trimmed core with whitespace strips
      back to exactly that core. */
  lemma StripOfPadded(a: string, core: string, b: string)
    requires AllSpace(a) && AllSpace(b) && Trimmed(core)
    ensures Strip(a + core + b) == core
  {
    if core == [] {
      assert a + core + b == a + b;
      AllSpaceConcat(a, b);
      assert StripLeading(a + b) == [];
    } else {
      assert a + core + b == a + (core + b);
      LeadingOfSpaced(a, core + b);
      TrailingOfSpaced(core, b);
    }
  }

  /** `lstrip()` of a concatenation: the second part survives whole unless
      the first part is all whitespace. */
  lemma {:induction false} LeadingOfConcat(s: string, b: string)
    ensures StripLeading(s + b) == if StripLeading(s) == [] then StripLeading(b) else StripLeading(s) + b
  {
    if |s| == 0 {
      assert s + b == b;
    } else if IsSpace(s[0]) {
      assert (s + b)[1..] == s[1..] + b;
      LeadingOfConcat(s[1..], b);
    }
  }

  /** Trailing whitespace does not change `rstrip()`. */
  lemma {:induction false} TrailingOfPadded(s: string, b: string)
    requires AllSpace(b)
    ensures StripTrailing(s + b) == StripTrailing(s)
  {
    if |b| == 0 {
      assert s + b == s;
    } else {
      var t := s + b;
      assert t[|t| - 1] == b[|b| - 1];
      assert t[..|t| - 1] == s + b[..|b| - 1];
      TrailingOfPadded(s, b[..|b| - 1]);
    }
  }

  /** Whitespace added around a string does not change what it strips to. */
  lemma StripIgnoresPadding(a: string, s: string, b: string)
    requires AllSpace(a) && AllSpace(b)
    ensures Strip(a + s + b) == Strip(s)
  {
    assert a + s + b == a + (s + b);
    assert StripLeading(a) == [] by {
      LeadingOfSpaced(a, []);
      assert a + [] == a;
    }
    LeadingOfConcat(a, s + b);
    LeadingOfConcat(s, b);
    if StripLeading(s) == [] {
      LeadingOfSpaced(b, []);
      assert b + [] == b;
    } else {
      TrailingOfPadded(StripLeading(s), b);
    }
  }

  /** The result of `strip()` is a trimmed infix of its input, and stripping
      again changes nothing. */
  lemma StripTrims(s: string)
    ensures Trimmed(Strip(s))
    ensures Strip(Strip(s)) == Strip(s)
  {
    var l := StripLeading(s);
    var r := StripTrailing(l);
    if r != [] {
      assert r[0] == l[0];
      assert StripLeading(r) == r;
    }
    assert StripTrailing(r) == r;
  }

  /** Python's `str.split(sep)` with an explicit one-character separator:
      every occurrence of `sep` ends a field, so there is always one field
      more than there are separators, and no field contains `sep`. */
  function Split(s: string, sep: char): (r: seq<string>)
    ensures |r| >= 1
    ensures forall k :: 0 <= k < |r| ==> sep !in r[k]
  {
    if |s| == 0 then [""]
    else
      var rest := Split(s[1..], sep);
      if s[0] == sep then [""] + rest else [[s[0]] + rest[0]] + rest[1..]
  }

  /** `sep.join(fields)` */
  function Join(fields: seq<string>, sep: char): string
  {
    if |fields| == 0 then ""
    else if |fields| == 1 then fields[0]
    else fields[0] + [sep] + Join(fields[1..], sep)
  }

  /** The number of `sep` characters in `s`. */
  function Occurrences(s: string, sep: char): nat
  {
    if |s| == 0 then 0 else (if s[0] == sep then 1 else 0) + Occurrences(s[1..], sep)
  }

  lemma {:induction false} OccurrencesConcat(a: string, b: string, sep: char)
    ensures Occurrences(a + b, sep) == Occurrences(a, sep) + Occurrences(b, sep)
  {
    if |a| > 0 {
      assert (a + b)[1..] == a[1..] + b;
      OccurrencesConcat(a[1..], b, sep);
    } else {
      assert a + b == b;
    }
  }

  lemma {:induction false} OccurrencesAbsent(s: string, sep: char)
    requires sep !in s
    ensures Occurrences(s, sep) == 0
  {
    if |s| > 0 {
      OccurrencesAbsent(s[1..], sep);
    }
  }

  lemma {:induction false} SplitCount(s: string, sep: char)
    ensures |Split(s, sep)| == Occurrences(s, sep) + 1
  {
    if |s| > 0 {
      SplitCount(s[1..], sep);
    }
  }

  lemma {:induction false} SplitWithoutSep(a: string, sep: char)
    requires sep !in a
    ensures Split(a, sep) == [a]
  {
    if |a| > 0 {
      SplitWithoutSep(a[1..], sep);
      assert [a[0]] + a[1..] == a;
    }
  }

  lemma {:induction false} SplitAtFirstSep(a: string, sep: char, b: string)
    requires sep !in a
    ensures Split(a + [sep] + b, sep) == [a] + Split(b, sep)
  {
    var s := a + [sep] + b;
    if |a| > 0 {
      assert s[1..] == a[1..] + [sep] + b;
      SplitAtFirstSep(a[1..], sep, b);
      assert [a[0]] + a[1..] == a;
    } else {
      assert s[1..] == b;
    }
  }

  /** Splitting undoes joining fields that are free of the separator. */
  lemma {:induction false} SplitJoin(fields: seq<string>, sep: char)
    requires |fields| >= 1
    requires forall k :: 0 <= k < |fields| ==> sep !in fields[k]
    ensures Split(Join(fields, sep), sep) == fields
  {
    if |fields| == 1 {
      SplitWithoutSep(fields[0], sep);
    } else {
      SplitJoin(fields[1..], sep);
      SplitAtFirstSep(fields[0], sep, Join(fields[1..], sep));
      assert [fields[0]] + fields[1..] == fields;
    }
  }

  /** Joining the fields of a split gives back the original string. */
  lemma {:induction false} JoinSplit(s: string, sep: char)
    ensures Join(Split(s, sep), sep) == s
  {
    if |s| > 0 {
      var rest := Split(s[1..], sep);
      JoinSplit(s[1..], sep);
      if s[0] == sep {
        assert Join([""] + rest, sep) == "" + [sep] + Join(rest, sep);
        assert [s[0]] + s[1..] == s;
      } else {
        var head := [s[0]] + rest[0];
        if |rest| == 1 {
          assert Join([head] + rest[1..], sep) == head;
        } else {
          assert ([head] + rest[1..])[1..] == rest[1..];
          assert Join(rest, sep) == rest[0] + [sep] + Join(rest[1..], sep);
        }
        assert [s[0]] + s[1..] == s;
      }
    }
  }

  predicate IsDigit(c: char) {
    '0' <= c <= '9'
  }

  function DigitChar(d: nat): (c: char)
    requires d < 10
    ensures IsDigit(c)
  {
    (48 + d) as char
  }

  /** Decimal rendering of a non-negative `int`, as `f"{n}"` prints it: only
      digits, and a leading zero only for zero itself. */
  function NatToString(n: nat): (r: string)
    ensures |r| >= 1
    ensures forall k :: 0 <= k < |r| ==> IsDigit(r[k])
    ensures (r[0] == '0') == (n == 0)
  {
    if n < 10 then [DigitChar(n)] else NatToString(n / 10) + [DigitChar(n % 10)]
  }

  /** The value of a string of decimal digits (`int(s)` on such a string). */
  function ParseDigits(s: string): nat
    requires forall k :: 0 <= k < |s| ==> IsDigit(s[k])
  {
    if |s| == 0 then 0
    else
      var c := s[|s| - 1];
      assert IsDigit(c);
      ParseDigits(s[..|s| - 1]) * 10 + (c as int - '0' as int)
  }

  /** The decimal rendering is faithful: reading it back gives the number. */
  lemma {:induction false} NatToStringRoundTrip(n: nat)
    ensures ParseDigits(NatToString(n)) == n
  {
    var r := NatToString(n);
    if n >= 10 {
      NatToStringRoundTrip(n / 10);
      assert r[..|r| - 1] == NatToString(n / 10);
    }
  }

  predicate HasPrefix(s: string, p: string) {
    |p| <= |s| && s[..|p|] == p
  }

  /** One differing character rules a prefix out. */
  lemma NotPrefixAt(s: string, p: string, i: nat)
    requires i < |p| && i < |s| && s[i] != p[i]
    ensures !HasPrefix(s, p)
  {
    if |p| <= |s| {
      assert s[..|p|][i] == s[i];
    }
  }
}
