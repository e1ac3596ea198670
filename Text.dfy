/** The JavaScript string operations the harness relies on: `trim`, `split('\n')`,
    `join(sep)`, `includes` and the decimal rendering of a non-negative integer. */
module Text {

  /** The characters ECMAScript counts as white space or line terminators: the set
      that both `String.prototype.trim` strips and the regular-expression class `\s`
      matches. */
  predicate IsSpace(c: char) {
    || c == '\t' || c == '\n' || c == '\U{B}' || c == '\U{C}' || c == '\r' || c == ' '
    || c == '\U{A0}' || c == '\U{1680}' || ('\U{2000}' <= c <= '\U{200A}')
    || c == '\U{2028}' || c == '\U{2029}' || c == '\U{202F}' || c == '\U{205F}'
    || c == '\U{3000}' || c == '\U{FEFF}'
  }

  predicate AllSpace(s: string) {
    forall i :: 0 <= i < |s| ==> IsSpace(s[i])
  }

  /** A string with no white space at either end, the shape `trim` produces. */
  predicate Trimmed(t: string) {
    t == [] || (!IsSpace(t[0]) && !IsSpace(t[|t| - 1]))
  }

  /** Drops the leading white space. */
  function TrimStart(s: string): string
    decreases |s|
  {
    if |s| > 0 && IsSpace(s[0]) then TrimStart(s[1..]) else s
  }

  /** What TrimStart keeps is the suffix of `s` that starts at its first non-space
      character. */
  lemma {:induction false} TrimStartSpec(s: string)
    ensures var r := TrimStart(s);
      && |r| <= |s| && r == s[|s| - |r|..]
      && AllSpace(s[..|s| - |r|])
      && (r == [] || !IsSpace(r[0]))
    decreases |s|
  {
    if |s| > 0 && IsSpace(s[0]) {
      TrimStartSpec(s[1..]);
      var r := TrimStart(s[1..]);
      assert s[..|s| - |r|] == [s[0]] + s[1..][..|s| - 1 - |r|];
      assert s[1..][|s| - 1 - |r|..] == s[|s| - |r|..];
    }
  }

  lemma UnpaddedStart(s: string)
    requires s != [] && !IsSpace(s[0])
    ensures TrimStart(s) == s
  {
  }

  /** Drops the trailing white space. */
  function TrimEnd(s: string): string
    decreases |s|
  {
    if |s| > 0 && IsSpace(s[|s| - 1]) then TrimEnd(s[..|s| - 1]) else s
  }

  /** What TrimEnd keeps is the prefix of `s` that ends at its last non-space
      character. */
  lemma {:induction false} TrimEndSpec(s: string)
    ensures var r := TrimEnd(s);
      && |r| <= |s| && r == s[..|r|]
      && AllSpace(s[|r|..])
      && (r == [] || !IsSpace(r[|r| - 1]))
    decreases |s|
  {
    if |s| > 0 && IsSpace(s[|s| - 1]) {
      TrimEndSpec(s[..|s| - 1]);
      var r := TrimEnd(s[..|s| - 1]);
      assert s[|r|..] == s[..|s| - 1][|r|..] + [s[|s| - 1]];
      assert s[..|s| - 1][..|r|] == s[..|r|];
    }
  }

  /** `String.prototype.trim`: the result has no white space at either end. */
  function Trim(s: string): (r: string)
    ensures |r| <= |s|
    ensures Trimmed(r)
  {
    TrimStartSpec(s);
    TrimEndSpec(TrimStart(s));
    TrimEnd(TrimStart(s))
  }

  /** Trim keeps exactly the middle of `s`: what it removes on each side, starting
      at the first and ending after the last non-space character, is white space. */
  lemma TrimIsInfix(s: string)
    ensures var t, i := Trim(s), |s| - |TrimStart(s)|;
      0 <= i && i + |t| <= |s| && s[i..i + |t|] == t && AllSpace(s[..i]) && AllSpace(s[i + |t|..])
  {
    var u := TrimStart(s);
    TrimStartSpec(s);
    TrimEndSpec(u);
    var t := TrimEnd(u);
    assert Trim(s) == t;
    InfixOfSuffix(s, u, t);
  }

  lemma InfixOfSuffix(s: string, u: string, t: string)
    requires |u| <= |s| && u == s[|s| - |u|..] && AllSpace(s[..|s| - |u|])
    requires |t| <= |u| && t == u[..|t|] && AllSpace(u[|t|..])
    ensures var i := |s| - |u|;
      i + |t| <= |s| && s[i..i + |t|] == t && AllSpace(s[..i]) && AllSpace(s[i + |t|..])
  {
    var i := |s| - |u|;
    assert s[i..i + |t|] == u[..|t|];
    assert s[i + |t|..] == u[|t|..];
  }

  lemma {:induction false} TrimStartOfPadded(p: string, u: string)
    requires AllSpace(p)
    requires u == [] || !IsSpace(u[0])
    ensures TrimStart(p + u) == u
    decreases |p|
  {
    if p != [] {
      assert (p + u)[1..] == p[1..] + u;
      TrimStartOfPadded(p[1..], u);
    }
  }

  lemma {:induction false} TrimEndOfPadded(u: string, q: string)
    requires AllSpace(q)
    requires u == [] || !IsSpace(u[|u| - 1])
    ensures TrimEnd(u + q) == u
    decreases |q|
  {
    if q != [] {
      assert (u + q)[..|u + q| - 1] == u + q[..|q| - 1];
      TrimEndOfPadded(u, q[..|q| - 1]);
    } else {
      assert u + q == u;
    }
  }

  /** Conversely, padding a trimmed string with white space on both sides and
      trimming gives it back: Trim(s) is the unique trimmed core of `s`. */
  lemma TrimPadded(p: string, t: string, q: string)
    requires AllSpace(p) && AllSpace(q) && Trimmed(t)
    ensures Trim(p + t + q) == t
  {
    if t == [] {
      assert p + t + q == p + q;
      assert AllSpace(p + q);
      TrimStartOfPadded(p + q, []);
      assert p + q + [] == p + q;
    } else {
      assert p + t + q == p + (t + q);
      TrimStartOfPadded(p, t + q);
      TrimEndOfPadded(t, q);
    }
  }

  /** Trim leaves a trimmed string alone; in particular it is idempotent. */
  lemma TrimOfTrimmed(t: string)
    requires Trimmed(t)
    ensures Trim(t) == t
  {
    assert [] + t + [] == t;
    TrimPadded([], t, []);
  }

  lemma TrimIdempotent(s: string)
    ensures Trim(Trim(s)) == Trim(s)
  {
    TrimOfTrimmed(Trim(s));
  }

  /** `s.split(sep)` for a one-character separator: the pieces between separators,
      always at least one (splitting "" gives [""]). */
  function Split(s: string, sep: char): (parts: seq<string>)
    ensures |parts| >= 1
    decreases |s|
  {
    if s == [] then [""]
    else
      var rest := Split(s[1..], sep);
      if s[0] == sep then [""] + rest
      else [[s[0]] + rest[0]] + rest[1..]
  }

  /** No piece of a split holds the separator. */
  lemma {:induction false} SplitPartsLackSeparator(s: string, sep: char)
    ensures forall k :: 0 <= k < |Split(s, sep)| ==> sep !in Split(s, sep)[k]
    decreases |s|
  {
    if s != [] {
      SplitPartsLackSeparator(s[1..], sep);
      var rest := Split(s[1..], sep);
      if s[0] != sep {
        assert sep !in [s[0]] + rest[0];
        assert forall k :: 1 <= k < |Split(s, sep)| ==> Split(s, sep)[k] == rest[k];
      } else {
        assert forall k :: 1 <= k < |Split(s, sep)| ==> Split(s, sep)[k] == rest[k - 1];
      }
    }
  }

  /** `parts.join(sep)`: the parts with `sep` between neighbours; [] joins to "". */
  function Join(parts: seq<string>, sep: string): string
    decreases |parts|
  {
    if |parts| == 0 then ""
    else if |parts| == 1 then parts[0]
    else parts[0] + sep + Join(parts[1..], sep)
  }

  lemma JoinConsHead(c: char, parts: seq<string>, sep: string)
    requires |parts| >= 1
    ensures Join([[c] + parts[0]] + parts[1..], sep) == [c] + Join(parts, sep)
  {
    var ps := [[c] + parts[0]] + parts[1..];
    assert ps[1..] == parts[1..];
  }

  /** Splitting and joining back with the same separator is the identity. */
  lemma {:induction false} JoinSplit(s: string, sep: char)
    ensures Join(Split(s, sep), [sep]) == s
    decreases |s|
  {
    if s != [] {
      var rest := Split(s[1..], sep);
      JoinSplit(s[1..], sep);
      if s[0] == sep {
        var ps := [""] + rest;
        assert ps[1..] == rest;
        assert s == [sep] + s[1..];
      } else {
        JoinConsHead(s[0], rest, [sep]);
        assert s == [s[0]] + s[1..];
      }
    }
  }

  lemma {:induction false} SplitWithoutSeparator(x: string, sep: char)
    requires sep !in x
    ensures Split(x, sep) == [x]
    decreases |x|
  {
    if x != [] {
      SplitWithoutSeparator(x[1..], sep);
      assert [x[0]] + x[1..] == x;
    }
  }

  /** A separator between x and y splits into the pieces of x, then those of y. */
  lemma {:induction false} SplitAround(x: string, y: string, sep: char)
    ensures Split(x + [sep] + y, sep) == Split(x, sep) + Split(y, sep)
    decreases |x|
  {
    var s := x + [sep] + y;
    if x == [] {
      assert s[1..] == y;
    } else {
      assert s[0] == x[0] && s[1..] == x[1..] + [sep] + y;
      SplitAround(x[1..], y, sep);
      var head, tail := Split(x[1..], sep), Split(y, sep);
      assert Split(s, sep) == SplitStep(x[0], head + tail, sep);
      SplitStepAppend(x[0], head, tail, sep);
      assert Split(x, sep) == SplitStep(x[0], head, sep);
    }
  }

  /** One step of Split: the character c in front of the pieces of the rest. */
  function SplitStep(c: char, rest: seq<string>, sep: char): (parts: seq<string>)
    requires |rest| >= 1
    ensures |parts| >= 1
  {
    if c == sep then [""] + rest else [[c] + rest[0]] + rest[1..]
  }

  lemma SplitStepAppend(c: char, head: seq<string>, tail: seq<string>, sep: char)
    requires |head| >= 1
    ensures SplitStep(c, head + tail, sep) == SplitStep(c, head, sep) + tail
  {
    if c != sep {
      assert (head + tail)[0] == head[0] && (head + tail)[1..] == head[1..] + tail;
    }
  }

  /** Joining pieces that hold no separator and splitting again gives the pieces back. */
  lemma {:induction false} SplitJoin(parts: seq<string>, sep: char)
    requires |parts| >= 1
    requires forall k :: 0 <= k < |parts| ==> sep !in parts[k]
    ensures Split(Join(parts, [sep]), sep) == parts
    decreases |parts|
  {
    SplitWithoutSeparator(parts[0], sep);
    if |parts| > 1 {
      var rest := Join(parts[1..], [sep]);
      assert Join(parts, [sep]) == parts[0] + [sep] + rest;
      SplitJoin(parts[1..], sep);
      SplitAround(parts[0], rest, sep);
      assert [parts[0]] + parts[1..] == parts;
    }
  }

  /** Joining one more part onto a non-empty list adds the separator and the part. */
  lemma {:induction false} JoinAppend(parts: seq<string>, p: string, sep: string)
    requires |parts| >= 1
    ensures Join(parts + [p], sep) == Join(parts, sep) + sep + p
    decreases |parts|
  {
    var ps := parts + [p];
    if |parts| > 1 {
      assert ps[1..] == parts[1..] + [p];
      JoinAppend(parts[1..], p, sep);
    } else {
      assert ps[1..] == [p];
    }
  }

  predicate StartsWith(s: string, p: string) {
    |p| <= |s| && s[..|p|] == p
  }

  /** `s.includes(t)`, as a scan over the start positions of `s`. */
  predicate Contains(s: string, t: string)
    decreases |s|
  {
    StartsWith(s, t) || (|s| > 0 && Contains(s[1..], t))
  }

  ghost predicate OccursAt(t: string, s: string, i: int) {
    0 <= i <= |s| - |t| && s[i..i + |t|] == t
  }

  /** The reference meaning of `includes`: `t` occurs at some position of `s`. */
  ghost predicate IsSubstring(t: string, s: string) {
    exists i :: OccursAt(t, s, i)
  }

  lemma OccursAtStart(t: string, s: string)
    ensures OccursAt(t, s, 0) <==> StartsWith(s, t)
  {
  }

  lemma OccursAtShift(t: string, s: string, i: int)
    requires |s| > 0 && i > 0
    ensures OccursAt(t, s, i) <==> OccursAt(t, s[1..], i - 1)
  {
    if 0 <= i <= |s| - |t| {
      assert s[1..][i - 1..i - 1 + |t|] == s[i..i + |t|];
    }
  }

  lemma {:induction false} ContainsIff(s: string, t: string)
    ensures Contains(s, t) <==> IsSubstring(t, s)
    decreases |s|
  {
    OccursAtStart(t, s);
    if |s| > 0 {
      ContainsIff(s[1..], t);
      if IsSubstring(t, s[1..]) {
        var i :| OccursAt(t, s[1..], i);
        OccursAtShift(t, s, i + 1);
      }
      if IsSubstring(t, s) {
        var i :| OccursAt(t, s, i);
        if i > 0 {
          OccursAtShift(t, s, i);
        }
      }
    } else if IsSubstring(t, s) {
      var i :| OccursAt(t, s, i);
      assert i == 0;
    }
  }

  predicate IsDigit(c: char) {
    '0' <= c <= '9'
  }

  function DigitChar(d: nat): (c: char)
    requires d < 10
    ensures IsDigit(c) && c as int - '0' as int == d
  {
    ('0' as int + d) as char
  }

  /** The decimal rendering of a non-negative integer, as `${n}` gives it. */
  function NatToString(n: nat): (r: string)
    ensures |r| >= 1 && (n >= 10 ==> |r| >= 2)
    ensures forall i :: 0 <= i < |r| ==> IsDigit(r[i])
    decreases n
  {
    if n < 10 then [DigitChar(n)] else NatToString(n / 10) + [DigitChar(n % 10)]
  }

  /** Different numbers have different renderings. */
  lemma {:induction false} NatToStringInjective(a: nat, b: nat)
    requires NatToString(a) == NatToString(b)
    ensures a == b
    decreases a
  {
    var s := NatToString(a);
    if a >= 10 && b >= 10 {
      assert s[|s| - 1] == DigitChar(a % 10) && s[|s| - 1] == DigitChar(b % 10);
      assert s[..|s| - 1] == NatToString(a / 10) && s[..|s| - 1] == NatToString(b / 10);
      NatToStringInjective(a / 10, b / 10);
    } else if a < 10 && b < 10 {
      assert s[0] == DigitChar(a) && s[0] == DigitChar(b);
    }
  }

  /** The value of a digit character in radixes up to 36; 36 for anything else. */
  function DigitValue(c: char): nat {
    if '0' <= c <= '9' then c as nat - '0' as nat
    else if 'a' <= c <= 'z' then c as nat - 'a' as nat + 10
    else if 'A' <= c <= 'Z' then c as nat - 'A' as nat + 10
    else 36
  }

  /** The number written by the digits `ds` in the radix, most significant first. */
  function DigitsValue(ds: string, radix: nat): nat
    decreases |ds|
  {
    if ds == [] then 0 else DigitsValue(ds[..|ds| - 1], radix) * radix + DigitValue(ds[|ds| - 1])
  }

  /** Read back in radix 10, the rendering of n is n. */
  lemma {:induction false} DecimalValue(n: nat)
    ensures DigitsValue(NatToString(n), 10) == n
    decreases n
  {
    if n >= 10 {
      var s := NatToString(n);
      assert s[..|s| - 1] == NatToString(n / 10);
      DecimalValue(n / 10);
    }
  }

  /** A positive number's rendering does not start with 0. */
  lemma {:induction false} NoLeadingZero(n: nat)
    requires n >= 1
    ensures NatToString(n)[0] != '0'
    decreases n
  {
    if n >= 10 {
      assert NatToString(n)[0] == NatToString(n / 10)[0];
      NoLeadingZero(n / 10);
    }
  }
}
