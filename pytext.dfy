/** The Python `str` operations the scraper relies on, on `seq<char>`:
    `replace(c, "")`, `split(sep)`, `sep.join(parts)`, `strip()`, string
    ordering, and `float()`/`int()` restricted to decimal naturals. */
module PyText {
  import opened Common

  // ---------------------------------------------------------------------
  // Characters
  // ---------------------------------------------------------------------

  /** `c.isspace()`: the characters `str.strip()` removes when called without arguments. */
  predicate IsSpace(c: char) {
    || ('\t' <= c <= '\r')
    || ('\U{1C}' <= c <= '\U{1F}')
    || c == ' ' || c == '\U{85}' || c == '\U{A0}' || c == '\U{1680}'
    || ('\U{2000}' <= c <= '\U{200A}')
    || c == '\U{2028}' || c == '\U{2029}' || c == '\U{202F}' || c == '\U{205F}' || c == '\U{3000}'
  }

  predicate IsDigit(c: char) {
    '0' <= c <= '9'
  }

  function DigitValue(c: char): (d: nat)
    requires IsDigit(c)
    ensures d < 10
  {
    (c as int) - ('0' as int)
  }

  function DigitChar(d: nat): (c: char)
    requires d < 10
    ensures IsDigit(c) && DigitValue(c) == d
  {
    (('0' as int) + d) as char
  }

  /** Number of occurrences of `c` in `s`. */
  function Count(s: string, c: char): nat
    decreases |s|
  {
    if s == [] then 0 else (if s[0] == c then 1 else 0) + Count(s[1..], c)
  }

  /** A character occurs exactly when it is counted at least once. */
  lemma {:induction false} CountPositive(s: string, c: char)
    ensures c in s <==> Count(s, c) > 0
    decreases |s|
  {
    if s != [] {
      CountPositive(s[1..], c);
      assert s == [s[0]] + s[1..];
    }
  }

  // ---------------------------------------------------------------------
  // s.replace(c, "")
  // ---------------------------------------------------------------------

  /** `s.replace(c, "")` for a one-character `c`: every `c` deleted, every other character kept in order. */
  function Remove(s: string, c: char): (r: string)
    ensures forall d :: d in r <==> d in s && d != c
    ensures |r| + Count(s, c) == |s|
    decreases |s|
  {
    if s == [] then [] else (if s[0] == c then [] else [s[0]]) + Remove(s[1..], c)
  }

  lemma {:induction false} RemoveAbsent(s: string, c: char)
    requires c !in s
    ensures Remove(s, c) == s
    decreases |s|
  {
    if s != [] {
      assert s[0] != c && c !in s[1..];
      RemoveAbsent(s[1..], c);
      assert s == [s[0]] + s[1..];
    }
  }

  lemma {:induction false} RemoveAppend(a: string, b: string, c: char)
    ensures Remove(a + b, c) == Remove(a, c) + Remove(b, c)
    decreases |a|
  {
    if a != [] {
      assert (a + b)[0] == a[0] && (a + b)[1..] == a[1..] + b;
      assert Remove(a + b, c) == (if a[0] == c then [] else [a[0]]) + Remove(a[1..] + b, c);
      RemoveAppend(a[1..], b, c);
    } else {
      assert a + b == b;
    }
  }

  // ---------------------------------------------------------------------
  // s.split(sep) and sep.join(parts)
  // ---------------------------------------------------------------------

  /** `s.split(sep)` with an explicit, non-empty separator: scans left to
      right, cuts at each non-overlapping occurrence of `sep`, never merges
      adjacent separators, so empty pieces are kept. */
  function Split(s: string, sep: string): (r: seq<string>)
    requires sep != []
    ensures |r| >= 1
    decreases |s|
  {
    if |s| < |sep| then [s]
    else if s[..|sep|] == sep then [""] + Split(s[|sep|..], sep)
    else
      var rest := Split(s[1..], sep);
      [[s[0]] + rest[0]] + rest[1..]
  }

  /** `sep.join(parts)`. */
  function Join(parts: seq<string>, sep: string): string
    decreases |parts|
  {
    if |parts| == 0 then ""
    else if |parts| == 1 then parts[0]
    else parts[0] + sep + Join(parts[1..], sep)
  }

  /** Concatenation regrouped; stated as a lemma so that callers get the
      equation without asking the solver for sequence extensionality. */
  lemma ConcatAssoc<T>(x: seq<T>, y: seq<T>, z: seq<T>)
    ensures (x + y) + z == x + (y + z)
  {
  }

  lemma {:induction false} JoinPrepend(c: char, parts: seq<string>, sep: string)
    requires |parts| >= 1
    ensures Join([[c] + parts[0]] + parts[1..], sep) == [c] + Join(parts, sep)
  {
    var q := [[c] + parts[0]] + parts[1..];
    if |parts| > 1 {
      assert q[1..] == parts[1..];
    }
  }

  /** Joining the pieces of a split gives the original string back. */
  lemma {:induction false} JoinSplit(s: string, sep: string)
    requires sep != []
    ensures Join(Split(s, sep), sep) == s
    decreases |s|
  {
    if |s| < |sep| {
    } else if s[..|sep|] == sep {
      var t := s[|sep|..];
      assert Split(s, sep) == [""] + Split(t, sep);
      JoinSplit(t, sep);
      JoinCons("", Split(t, sep), sep);
      assert s == s[..|sep|] + t;
    } else {
      var rest := Split(s[1..], sep);
      assert Split(s, sep) == [[s[0]] + rest[0]] + rest[1..];
      JoinSplit(s[1..], sep);
      JoinPrepend(s[0], rest, sep);
      assert s == [s[0]] + s[1..];
    }
  }

  lemma JoinCons(p: string, parts: seq<string>, sep: string)
    requires |parts| >= 1
    ensures Join([p] + parts, sep) == p + sep + Join(parts, sep)
  {
    assert ([p] + parts)[1..] == parts;
  }

  /** Joining all but the last piece, then the separator, then the last piece, is joining them all. */
  lemma {:induction false} JoinSnoc(parts: seq<string>, sep: string)
    requires |parts| >= 2
    ensures Join(parts, sep) == Join(parts[..|parts| - 1], sep) + sep + parts[|parts| - 1]
    decreases |parts|
  {
    if |parts| > 2 {
      var init := parts[..|parts| - 1];
      JoinSnoc(parts[1..], sep);
      assert parts[1..][..|parts[1..]| - 1] == init[1..];
      assert init[0] == parts[0];
    }
  }

  /** No piece of a split on a one-character separator contains that character. */
  lemma {:induction false} SplitPiecesAvoid(s: string, c: char)
    ensures forall k :: 0 <= k < |Split(s, [c])| ==> c !in Split(s, [c])[k]
    decreases |s|
  {
    if |s| >= 1 {
      SplitPiecesAvoid(s[1..], c);
      if s[..1] != [c] {
        assert s[0] != c;
      }
    }
  }

  /** A one-character split yields one more piece than there are separators. */
  lemma {:induction false} SplitCount(s: string, c: char)
    ensures |Split(s, [c])| == Count(s, c) + 1
    decreases |s|
  {
    if |s| >= 1 {
      SplitCount(s[1..], c);
      assert s[..1] == [c] <==> s[0] == c;
    }
  }

  /** The first piece of a one-character split is the longest prefix free of the separator. */
  lemma {:induction false} SplitFirst(s: string, c: char)
    ensures var p := Split(s, [c])[0];
      && |p| <= |s| && s[..|p|] == p && c !in p
      && (|p| < |s| ==> s[|p|] == c)
    decreases |s|
  {
    if |s| >= 1 {
      SplitFirst(s[1..], c);
      assert s[..1] == [c] <==> s[0] == c;
    }
  }

  /** A string that does not contain the separator's first character splits into itself. */
  lemma {:induction false} SplitNoSeparator(s: string, sep: string)
    requires sep != [] && sep[0] !in s
    ensures Split(s, sep) == [s]
    decreases |s|
  {
    if |s| >= |sep| {
      assert s[..|sep|][0] == s[0];
      SplitNoSeparator(s[1..], sep);
      assert [s[0]] + s[1..] == s;
    }
  }

  /** Splitting `a + [c] + b` where `a` has no `c` cuts off `a` as the first piece. */
  lemma {:induction false} SplitAtFirst(a: string, c: char, b: string)
    requires c !in a
    ensures Split(a + [c] + b, [c]) == [a] + Split(b, [c])
    decreases |a|
  {
    var s := a + [c] + b;
    if a == [] {
      assert s[..1] == [c] && s[1..] == b;
    } else {
      assert s[0] == a[0] != c;
      assert s[..1] != [c];
      assert s[1..] == a[1..] + [c] + b;
      SplitAtFirst(a[1..], c, b);
      assert [a[0]] + a[1..] == a;
    }
  }

  /** `s.split("ep")[-1]` when `s` ends with "ep" followed by a tail without any 'e':
      the last piece is exactly that tail, even if `p` itself contains "ep". */
  lemma {:induction false} SplitEpLast(p: string, t: string)
    requires 'e' !in t
    ensures var r := Split(p + "ep" + t, "ep"); |r| >= 2 && r[|r| - 1] == t
    decreases |p|
  {
    var s := p + "ep" + t;
    if |p| == 0 {
      assert s[..2] == "ep" && s[2..] == t;
      assert Split(s, "ep") == [""] + Split(t, "ep");
      SplitNoSeparator(t, "ep");
    } else if |p| >= 2 && p[..2] == "ep" {
      assert s[..2] == "ep";
      assert s[2..] == p[2..] + "ep" + t;
      assert Split(s, "ep") == [""] + Split(s[2..], "ep");
      SplitEpLast(p[2..], t);
    } else {
      assert s[..2] != "ep" by {
        if |p| == 1 {
          assert s[1] == 'e';
        } else {
          assert s[..2] == p[..2];
        }
      }
      assert s[1..] == p[1..] + "ep" + t;
      SplitEpLast(p[1..], t);
      var rest := Split(s[1..], "ep");
      assert Split(s, "ep") == [[s[0]] + rest[0]] + rest[1..];
    }
  }

  // ---------------------------------------------------------------------
  // s.strip()
  // ---------------------------------------------------------------------

  /** `s.lstrip()`: the suffix left after dropping leading whitespace. */
  function StripLeft(s: string): (r: string)
    ensures |r| <= |s| && r == s[|s| - |r|..]
    ensures forall k :: 0 <= k < |s| - |r| ==> IsSpace(s[k])
    ensures r != [] ==> !IsSpace(r[0])
    decreases |s|
  {
    if s != [] && IsSpace(s[0]) then StripLeft(s[1..]) else s
  }

  /** `s.rstrip()`: the prefix left after dropping trailing whitespace. */
  function StripRight(s: string): (r: string)
    ensures |r| <= |s| && r == s[..|r|]
    ensures forall k :: |r| <= k < |s| ==> IsSpace(s[k])
    ensures r != [] ==> !IsSpace(r[|r| - 1])
    decreases |s|
  {
    if s != [] && IsSpace(s[|s| - 1]) then StripRight(s[..|s| - 1]) else s
  }

  /** `s.strip()`. */
  function Strip(s: string): string {
    StripRight(StripLeft(s))
  }

  /** A slice holds only characters of the string it is cut from. */
  lemma SliceMembers(s: string, i: nat, j: nat)
    requires i <= j <= |s|
    ensures forall x :: x in s[i..j] ==> x in s
  {
    forall x | x in s[i..j]
      ensures x in s
    {
      var k :| 0 <= k < j - i && s[i..j][k] == x;
      assert s[i + k] == x;
    }
  }

  /** `strip()` leaves alone a string that neither starts nor ends with whitespace. */
  lemma StripUnchanged(s: string)
    requires s != [] && !IsSpace(s[0]) && !IsSpace(s[|s| - 1])
    ensures Strip(s) == s
  {
    assert StripLeft(s) == s;
  }

  // ---------------------------------------------------------------------
  // float() / int() of a decimal natural, and its printed form
  // ---------------------------------------------------------------------

  predicate AllDigits(s: string) {
    forall k :: 0 <= k < |s| ==> IsDigit(s[k])
  }

  /** The value of a string of decimal digits, most significant first. */
  function DigitsValue(s: string): nat
    requires AllDigits(s)
    decreases |s|
  {
    if s == [] then 0 else DigitsValue(s[..|s| - 1]) * 10 + DigitValue(s[|s| - 1])
  }

  /** `float(s)` / `int(s)` for the strings the scraper sees: surrounding whitespace
      is ignored and what remains must be a non-empty run of decimal digits;
      anything else is the `ValueError` case, `None` here. */
  function ParseNat(s: string): Option<nat> {
    var t := Strip(s);
    if t != [] && AllDigits(t) then Some(DigitsValue(t)) else None
  }

  /** `str(n)` / `f"{n}"` for a natural. */
  function NatToString(n: nat): (s: string)
    ensures s != [] && AllDigits(s)
    decreases n
  {
    if n < 10 then [DigitChar(n)] else NatToString(n / 10) + [DigitChar(n % 10)]
  }

  /** `f"{i}"` for any integer: a minus sign before the digits of a negative value. */
  function IntToString(i: int): string {
    if i < 0 then "-" + NatToString(-i) else NatToString(i)
  }

  lemma {:induction false} DigitsOfNatToString(n: nat)
    ensures DigitsValue(NatToString(n)) == n
    decreases n
  {
    if n >= 10 {
      var s := NatToString(n);
      assert s[..|s| - 1] == NatToString(n / 10);
      DigitsOfNatToString(n / 10);
    }
  }

  /** Parsing the printed form of a natural gives it back. */
  lemma ParseNatToString(n: nat)
    ensures ParseNat(NatToString(n)) == Some(n)
  {
    var s := NatToString(n);
    assert !IsSpace(s[0]) && !IsSpace(s[|s| - 1]);
    StripUnchanged(s);
    DigitsOfNatToString(n);
  }

  /** Distinct integers print differently. */
  lemma IntToStringInjective(i: int, j: int)
    ensures IntToString(i) == IntToString(j) ==> i == j
  {
    if i < 0 && j < 0 {
      NegativeInjective(-i, -j);
    } else if i >= 0 && j >= 0 {
      NatToStringInjective(i, j);
    } else if i < 0 {
      SignsDiffer(j, -i);
    } else {
      SignsDiffer(i, -j);
    }
  }

  lemma NatToStringInjective(n: nat, m: nat)
    ensures NatToString(n) == NatToString(m) ==> n == m
  {
    DigitsOfNatToString(n);
    DigitsOfNatToString(m);
  }

  lemma NegativeInjective(n: nat, m: nat)
    ensures "-" + NatToString(n) == "-" + NatToString(m) ==> n == m
  {
    MinusTail(n);
    MinusTail(m);
    NatToStringInjective(n, m);
  }

  /** A printed natural never starts with a minus sign. */
  lemma SignsDiffer(n: nat, m: nat)
    ensures NatToString(n) != "-" + NatToString(m)
  {
    assert IsDigit(NatToString(n)[0]);
    assert ("-" + NatToString(m))[0] == '-';
  }

  lemma MinusTail(n: nat)
    ensures ("-" + NatToString(n))[1..] == NatToString(n)
  {
  }

  // ---------------------------------------------------------------------
  // Python string ordering (code point by code point, a proper prefix first)
  // ---------------------------------------------------------------------

  predicate LexLess(a: string, b: string)
    decreases |a|
  {
    if a == [] then b != []
    else if b == [] then false
    else if a[0] != b[0] then a[0] < b[0]
    else LexLess(a[1..], b[1..])
  }

  lemma {:induction false} LexIrreflexive(a: string)
    ensures !LexLess(a, a)
    decreases |a|
  {
    if a != [] {
      LexIrreflexive(a[1..]);
    }
  }

  lemma {:induction false} LexTransitive(a: string, b: string, c: string)
    requires LexLess(a, b) && LexLess(b, c)
    ensures LexLess(a, c)
    decreases |a|
  {
    if a != [] && b != [] && c != [] && a[0] == b[0] == c[0] {
      LexTransitive(a[1..], b[1..], c[1..]);
    }
  }

  lemma {:induction false} LexTotal(a: string, b: string)
    requires a != b
    ensures LexLess(a, b) || LexLess(b, a)
    decreases |a|
  {
    if a != [] && b != [] && a[0] == b[0] {
      assert a == [a[0]] + a[1..] && b == [b[0]] + b[1..];
      LexTotal(a[1..], b[1..]);
    }
  }

  lemma {:induction false} LexAsymmetric(a: string, b: string)
    requires LexLess(a, b)
    ensures !LexLess(b, a)
    decreases |a|
  {
    if a != [] && b != [] && a[0] == b[0] {
      LexAsymmetric(a[1..], b[1..]);
    }
  }

  /** Putting the same prefix in front of two strings does not change their order. */
  lemma {:induction false} LexCommonPrefix(p: string, a: string, b: string)
    ensures LexLess(p + a, p + b) <==> LexLess(a, b)
    decreases |p|
  {
    if p != [] {
      assert (p + a)[0] == p[0] == (p + b)[0];
      assert (p + a)[1..] == p[1..] + a && (p + b)[1..] == p[1..] + b;
      assert LexLess(p + a, p + b) == LexLess(p[1..] + a, p[1..] + b);
      LexCommonPrefix(p[1..], a, b);
    } else {
      assert p + a == a && p + b == b;
    }
  }
}
