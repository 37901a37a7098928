/** The handful of Python `str` operations the operators rely on, with Python's
    semantics: `sep.join(parts)`, `s.split(c)` for a one-character separator,
    `s.strip()`, `s.lower()` / `s.upper()` on ASCII letters, and `f"{n}"` for a
    non-negative integer. */
module Strings {

  /** `sep.join(parts)`. */
  function Join(parts: seq<string>, sep: string): string
  {
    if |parts| == 0 then ""
    else if |parts| == 1 then parts[0]
    else parts[0] + sep + Join(parts[1..], sep)
  }

  /** Joining one more part appends the separator and that part. */
  lemma {:induction false} JoinSnoc(parts: seq<string>, x: string, sep: string)
    requires |parts| > 0
    ensures Join(parts + [x], sep) == Join(parts, sep) + sep + x
  {
    if |parts| == 1 {
      assert parts + [x] == [parts[0], x];
      assert ([parts[0], x])[1..] == [x];
    } else {
      assert (parts + [x])[1..] == parts[1..] + [x];
      JoinSnoc(parts[1..], x, sep);
    }
  }

  /** `s.endswith(last)`. */
  predicate EndsWith(s: string, last: string)
  {
    |last| <= |s| && s[|s| - |last|..] == last
  }

  /** Appending to the front keeps the end. */
  lemma EndsWithAfter(a: string, b: string, last: string)
    requires EndsWith(b, last)
    ensures EndsWith(a + b, last)
  {
    assert (a + b)[|a + b| - |last|..] == b[|b| - |last|..];
  }

  // ---------------------------------------------------------------------
  // Splitting on one character

  /** Number of occurrences of `c` in `s`. */
  function Count(s: string, c: char): nat
  {
    if |s| == 0 then 0
    else (if s[0] == c then 1 else 0) + Count(s[1..], c)
  }

  /** Index of the first occurrence of `c` in `s`. */
  function IndexOf(s: string, c: char): (i: nat)
    requires c in s
    ensures i < |s| && s[i] == c
    ensures c !in s[..i]
  {
    if s[0] == c then 0
    else
      var j := IndexOf(s[1..], c);
      assert s[..j + 1] == [s[0]] + s[1..][..j];
      j + 1
  }

  /** `s.split(c)`: the maximal `c`-free pieces between occurrences of `c`,
      empty pieces included, so there is always at least one. */
  function Split(s: string, c: char): (parts: seq<string>)
    ensures |parts| >= 1
    ensures forall i :: 0 <= i < |parts| ==> c !in parts[i]
    decreases |s|
  {
    if c !in s then [s]
    else
      var i := IndexOf(s, c);
      [s[..i]] + Split(s[i + 1..], c)
  }

  lemma JoinCons(x: string, rest: seq<string>, sep: string)
    requires |rest| > 0
    ensures Join([x] + rest, sep) == x + sep + Join(rest, sep)
  {
    assert ([x] + rest)[1..] == rest;
  }

  /** Joining the pieces of a split with the separator gives back the string. */
  lemma {:induction false} JoinSplit(s: string, c: char)
    ensures Join(Split(s, c), [c]) == s
    decreases |s|
  {
    if c in s {
      var i := IndexOf(s, c);
      var rest := Split(s[i + 1..], c);
      JoinSplit(s[i + 1..], c);
      JoinCons(s[..i], rest, [c]);
      assert s == s[..i] + [c] + s[i + 1..];
    }
  }

  /** Splitting a join of `c`-free pieces gives back the pieces. */
  lemma {:induction false} SplitJoin(parts: seq<string>, c: char)
    requires |parts| >= 1
    requires forall i :: 0 <= i < |parts| ==> c !in parts[i]
    ensures Split(Join(parts, [c]), c) == parts
  {
    if |parts| > 1 {
      var s := Join(parts, [c]);
      var tail := Join(parts[1..], [c]);
      assert s == parts[0] + [c] + tail;
      assert c in s by { assert s[|parts[0]|] == c; }
      var i := IndexOf(s, c);
      assert forall k :: 0 <= k < |parts[0]| ==> s[k] == parts[0][k];
      assert i == |parts[0]|;
      assert s[..i] == parts[0];
      assert s[i + 1..] == tail;
      SplitJoin(parts[1..], c);
    }
  }

  /** A split has one piece more than there are separators. */
  lemma {:induction false} SplitCount(s: string, c: char)
    ensures |Split(s, c)| == Count(s, c) + 1
    decreases |s|
  {
    if c in s {
      var i := IndexOf(s, c);
      SplitCount(s[i + 1..], c);
      CountAppend(s[..i], s[i..], c);
      CountAppend([s[i]], s[i + 1..], c);
      assert s[i..] == [s[i]] + s[i + 1..];
      CountAbsent(s[..i], c);
      assert s == s[..i] + s[i..];
    } else {
      CountAbsent(s, c);
    }
  }

  lemma {:induction false} CountAbsent(s: string, c: char)
    requires c !in s
    ensures Count(s, c) == 0
  {
    if |s| > 0 {
      assert c !in s[1..] by { assert forall k :: 0 <= k < |s[1..]| ==> s[1..][k] == s[k + 1]; }
      CountAbsent(s[1..], c);
    }
  }

  lemma {:induction false} CountAppend(a: string, b: string, c: char)
    ensures Count(a + b, c) == Count(a, c) + Count(b, c)
  {
    if |a| > 0 {
      assert (a + b)[1..] == a[1..] + b;
      CountAppend(a[1..], b, c);
    } else {
      assert a + b == b;
    }
  }

  // ---------------------------------------------------------------------
  // Whitespace and str.strip()

  /** The code points Python's `str.isspace()` accepts, which are what
      `str.strip()` removes when called without arguments. */
  predicate IsSpace(ch: char)
  {
    var n := ch as int;
    n == 0x20 || (0x09 <= n <= 0x0D) || (0x1C <= n <= 0x1F) || n == 0x85 || n == 0xA0
    || n == 0x1680 || (0x2000 <= n <= 0x200A) || n == 0x2028 || n == 0x2029
    || n == 0x202F || n == 0x205F || n == 0x3000
  }

  predicate AllSpace(s: string)
  {
    forall i :: 0 <= i < |s| ==> IsSpace(s[i])
  }

  /** Neither end of `s` is whitespace. */
  predicate Stripped(s: string)
  {
    |s| == 0 || (!IsSpace(s[0]) && !IsSpace(s[|s| - 1]))
  }

  /** `s.rstrip()`. */
  function TrimEnd(s: string): (r: string)
    ensures |r| <= |s|
  {
    if |s| > 0 && IsSpace(s[|s| - 1]) then TrimEnd(s[..|s| - 1]) else s
  }

  /** `rstrip` keeps a prefix, removes only whitespace, and leaves no
      trailing whitespace. */
  lemma {:induction false} TrimEndFacts(s: string)
    ensures TrimEnd(s) <= s
    ensures AllSpace(s[|TrimEnd(s)|..])
    ensures |TrimEnd(s)| == 0 || !IsSpace(TrimEnd(s)[|TrimEnd(s)| - 1])
  {
    if |s| > 0 && IsSpace(s[|s| - 1]) {
      var r := TrimEnd(s[..|s| - 1]);
      TrimEndFacts(s[..|s| - 1]);
      assert s[|r|..] == s[..|s| - 1][|r|..] + [s[|s| - 1]];
    }
  }

  /** `s.lstrip()`. */
  function TrimStart(s: string): (r: string)
    ensures |r| <= |s|
  {
    if |s| > 0 && IsSpace(s[0]) then TrimStart(s[1..]) else s
  }

  /** `lstrip` keeps a suffix, removes only whitespace, and leaves no
      leading whitespace. */
  lemma {:induction false} TrimStartFacts(s: string)
    ensures TrimStart(s) == s[|s| - |TrimStart(s)|..]
    ensures AllSpace(s[..|s| - |TrimStart(s)|])
    ensures |TrimStart(s)| == 0 || !IsSpace(TrimStart(s)[0])
  {
    if |s| > 0 && IsSpace(s[0]) {
      var r := TrimStart(s[1..]);
      TrimStartFacts(s[1..]);
      assert s[..|s| - |r|] == [s[0]] + s[1..][..|s[1..]| - |r|];
    }
  }

  /** `s.strip()`. */
  function Strip(s: string): string
  {
    TrimStart(TrimEnd(s))
  }

  /** Neither end of a stripped string is whitespace. */
  lemma StripIsStripped(s: string)
    ensures Stripped(Strip(s))
  {
    var e := TrimEnd(s);
    TrimEndFacts(s);
    TrimStartFacts(e);
    var r := TrimStart(e);
    assert |r| > 0 ==> r[|r| - 1] == e[|e| - 1];
  }

  lemma {:induction false} TrimEndSpaces(m: string, b: string)
    requires |m| == 0 || !IsSpace(m[|m| - 1])
    requires AllSpace(b)
    ensures TrimEnd(m + b) == m
    decreases |b|
  {
    if |b| > 0 {
      assert (m + b)[..|m + b| - 1] == m + b[..|b| - 1];
      TrimEndSpaces(m, b[..|b| - 1]);
    } else {
      assert m + b == m;
    }
  }

  lemma {:induction false} TrimStartSpaces(a: string, m: string)
    requires |m| == 0 || !IsSpace(m[0])
    requires AllSpace(a)
    ensures TrimStart(a + m) == m
    decreases |a|
  {
    if |a| > 0 {
      assert (a + m)[1..] == a[1..] + m;
      TrimStartSpaces(a[1..], m);
    } else {
      assert a + m == m;
    }
  }

  /** Trailing whitespace is removed whatever precedes it. */
  lemma {:induction false} TrimEndDropsSpaces(m: string, b: string)
    requires AllSpace(b)
    ensures TrimEnd(m + b) == TrimEnd(m)
    decreases |b|
  {
    if |b| > 0 {
      assert (m + b)[..|m + b| - 1] == m + b[..|b| - 1];
      TrimEndDropsSpaces(m, b[..|b| - 1]);
    } else {
      assert m + b == m;
    }
  }

  /** `rstrip` cannot reach past a part that ends in non-whitespace. */
  lemma {:induction false} TrimEndAfter(h: string, t: string)
    requires |h| > 0 && !IsSpace(h[|h| - 1])
    ensures TrimEnd(h + t) == h + TrimEnd(t)
    decreases |t|
  {
    if |t| == 0 {
      assert h + t == h;
    } else if IsSpace(t[|t| - 1]) {
      assert (h + t)[..|h + t| - 1] == h + t[..|t| - 1];
      TrimEndAfter(h, t[..|t| - 1]);
    } else {
      assert (h + t)[|h + t| - 1] == t[|t| - 1];
    }
  }

  /** Stripping a text that starts with a part without surrounding
      whitespace keeps that part and right-strips the rest. */
  lemma StripAfterStripped(h: string, t: string)
    requires |h| > 0 && Stripped(h)
    ensures Strip(h + t) == h + TrimEnd(t)
  {
    TrimEndAfter(h, t);
    assert (h + TrimEnd(t))[0] == h[0];
  }

  /** `strip` removes exactly the surrounding whitespace: a string made of
      whitespace, a part whose ends are not whitespace, and whitespace again
      strips to that middle part. */
  lemma StripFrame(a: string, m: string, b: string)
    requires AllSpace(a) && AllSpace(b) && Stripped(m)
    ensures Strip(a + m + b) == m
  {
    if |m| == 0 {
      assert a + m + b == a + b;
      assert AllSpace(a + b) by {
        forall i | 0 <= i < |a + b| ensures IsSpace((a + b)[i]) {
          if i < |a| { assert (a + b)[i] == a[i]; } else { assert (a + b)[i] == b[i - |a|]; }
        }
      }
      TrimEndSpaces([], a + b);
      assert [] + (a + b) == a + b;
    } else {
      assert a + m + b == (a + m) + b;
      assert (a + m)[|a + m| - 1] == m[|m| - 1];
      TrimEndSpaces(a + m, b);
      TrimStartSpaces(a, m);
    }
  }

  /** A leading part whose ends are not whitespace survives `strip` intact. */
  lemma StripKeepsPrefix(p: string, q: string)
    requires |p| > 0 && Stripped(p)
    ensures p <= Strip(p + q)
  {
    var e := TrimEnd(p + q);
    TrimEndFacts(p + q);
    assert (p + q)[|p| - 1] == p[|p| - 1];
    assert |e| >= |p|;
    assert e[..|p|] == p;
    TrimStartSpaces([], e);
    assert [] + e == e;
  }

  // ---------------------------------------------------------------------
  // ASCII case mapping

  function LowerChar(ch: char): char
  {
    if 'A' <= ch <= 'Z' then (ch as int - 'A' as int + 'a' as int) as char else ch
  }

  function UpperChar(ch: char): char
  {
    if 'a' <= ch <= 'z' then (ch as int - 'a' as int + 'A' as int) as char else ch
  }

  /** `s.lower()` on ASCII letters. */
  function Lower(s: string): (r: string)
    ensures |r| == |s|
    ensures forall i :: 0 <= i < |s| ==> r[i] == LowerChar(s[i])
  {
    seq(|s|, i requires 0 <= i < |s| => LowerChar(s[i]))
  }

  /** `s.upper()` on ASCII letters. */
  function Upper(s: string): (r: string)
    ensures |r| == |s|
    ensures forall i :: 0 <= i < |s| ==> r[i] == UpperChar(s[i])
  {
    seq(|s|, i requires 0 <= i < |s| => UpperChar(s[i]))
  }

  /** Upper-casing forgets any earlier lower-casing, and the other way round:
      both compare strings case-insensitively. */
  lemma CaseFolding(s: string)
    ensures Upper(Lower(s)) == Upper(s)
    ensures Lower(Upper(s)) == Lower(s)
  {
    assert forall i :: 0 <= i < |s| ==> UpperChar(LowerChar(s[i])) == UpperChar(s[i]);
    assert forall i :: 0 <= i < |s| ==> LowerChar(UpperChar(s[i])) == LowerChar(s[i]);
  }

  // ---------------------------------------------------------------------
  // Decimal rendering of non-negative integers

  function DigitChar(d: nat): char
    requires d < 10
  {
    ('0' as int + d) as char
  }

  predicate IsDigit(ch: char)
  {
    '0' <= ch <= '9'
  }

  function DigitValue(ch: char): nat
    requires IsDigit(ch)
  {
    ch as int - '0' as int
  }

  /** `f"{n}"` for `n >= 0`: its decimal digits, with no leading zero. */
  function NatToString(n: nat): (s: string)
    ensures |s| > 0
    ensures forall i :: 0 <= i < |s| ==> IsDigit(s[i])
    ensures |s| > 1 ==> s[0] != '0'
  {
    if n < 10 then [DigitChar(n)]
    else NatToString(n / 10) + [DigitChar(n % 10)]
  }

  /** The value of a non-empty string of decimal digits. */
  function ParseNat(s: string): nat
    requires |s| > 0
    requires forall i :: 0 <= i < |s| ==> IsDigit(s[i])
  {
    if |s| == 1 then DigitValue(s[0])
    else ParseNat(s[..|s| - 1]) * 10 + DigitValue(s[|s| - 1])
  }

  /** Reading back the rendered digits gives the number. */
  lemma {:induction false} ParseNatToString(n: nat)
    ensures ParseNat(NatToString(n)) == n
  {
    if n >= 10 {
      var s := NatToString(n);
      assert s[..|s| - 1] == NatToString(n / 10);
      ParseNatToString(n / 10);
    }
  }
}
