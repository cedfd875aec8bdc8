/** Character classes and the small text routines shared by the PHP driver and the C++ aligner:
    ASCII case mapping, per-character rewriting, PHP's explode/trim, and decimal integers as
    printed by C++ streams and read back by PHP's (int) cast. */
module Text {

  /** C's isdigit, PCRE's [0-9]. */
  predicate IsDigit(c: char) { '0' <= c <= '9' }

  /** C's isspace in the "C" locale, and PCRE's \s outside UTF mode: space, \t, \n, \v, \f, \r. */
  predicate IsSpace(c: char) {
    c == ' ' || c == '\t' || c == '\n' || c == '\U{B}' || c == '\U{C}' || c == '\r'
  }

  /** C's toupper and PHP's strtoupper: only the ASCII letters a-z change. */
  function ToUpper(c: char): (u: char)
    ensures 'a' <= c <= 'z' ==> u as int == c as int - 32 && 'A' <= u <= 'Z'
    ensures !('a' <= c <= 'z') ==> u == c
  {
    if 'a' <= c <= 'z' then (c as int - 32) as char else c
  }

  /** Replaces every character c of s by f(c), in order. */
  function FlatMap(f: char -> string, s: string): string {
    if s == [] then [] else f(s[0]) + FlatMap(f, s[1..])
  }

  lemma {:induction false} FlatMapConcat(f: char -> string, a: string, b: string)
    ensures FlatMap(f, a + b) == FlatMap(f, a) + FlatMap(f, b)
  {
    if a == [] {
      assert a + b == b;
    } else {
      assert (a + b)[1..] == a[1..] + b;
      FlatMapConcat(f, a[1..], b);
    }
  }

  lemma FlatMapSnoc(f: char -> string, s: string, k: nat)
    requires k < |s|
    ensures FlatMap(f, s[..k + 1]) == FlatMap(f, s[..k]) + f(s[k])
  {
    assert s[..k + 1] == s[..k] + [s[k]];
    FlatMapConcat(f, s[..k], [s[k]]);
    assert FlatMap(f, [s[k]]) == f(s[k]) + FlatMap(f, []);
  }

  /** Every character of FlatMap(f, s) comes from the image of some character of s. */
  lemma {:induction false} FlatMapChars(f: char -> string, s: string, p: char -> bool)
    requires forall c :: forall k :: 0 <= k < |f(c)| ==> p(f(c)[k])
    ensures forall k :: 0 <= k < |FlatMap(f, s)| ==> p(FlatMap(f, s)[k])
  {
    if s != [] {
      FlatMapChars(f, s[1..], p);
      var head, tail := f(s[0]), FlatMap(f, s[1..]);
      forall k | 0 <= k < |head + tail| ensures p((head + tail)[k]) {
        if k >= |head| { assert (head + tail)[k] == tail[k - |head|]; }
      }
    }
  }

  /** Number of occurrences of c in s. */
  function Count(s: string, c: char): nat {
    if s == [] then 0 else (if s[0] == c then 1 else 0) + Count(s[1..], c)
  }

  /** PHP's explode(sep, s) for a one-character separator: the pieces between separators,
      always at least one, none containing the separator, one more than there are separators. */
  function Split(s: string, sep: char): (parts: seq<string>)
    ensures |parts| == Count(s, sep) + 1
    ensures forall k :: 0 <= k < |parts| ==> sep !in parts[k]
  {
    if s == [] then [""]
    else if s[0] == sep then [""] + Split(s[1..], sep)
    else
      var rest := Split(s[1..], sep);
      [[s[0]] + rest[0]] + rest[1..]
  }

  lemma {:induction false} SplitAt(x: string, sep: char, y: string)
    requires sep !in x
    ensures Split(x + [sep] + y, sep) == [x] + Split(y, sep)
  {
    if x == [] {
      assert x + [sep] + y == [sep] + y;
      assert ([sep] + y)[1..] == y;
    } else {
      assert (x + [sep] + y)[1..] == x[1..] + [sep] + y;
      SplitAt(x[1..], sep, y);
      assert [x[0]] + x[1..] == x;
    }
  }

  lemma {:induction false} SplitNone(x: string, sep: char)
    requires sep !in x
    ensures Split(x, sep) == [x]
  {
    if x != [] {
      SplitNone(x[1..], sep);
      assert [x[0]] + x[1..] == x;
    }
  }

  /** The characters PHP's trim() strips by default: space, \t, \n, \r, NUL and \v. */
  predicate IsTrimmed(c: char) {
    c == ' ' || c == '\t' || c == '\n' || c == '\r' || c == '\0' || c == '\U{B}'
  }

  function TrimLeft(s: string): (r: string)
    ensures r == [] || !IsTrimmed(r[0])
    ensures |r| <= |s| && r == s[|s| - |r|..]
  {
    if s != [] && IsTrimmed(s[0]) then TrimLeft(s[1..]) else s
  }

  function TrimRight(s: string): (r: string)
    ensures r == [] || !IsTrimmed(r[|r| - 1])
    ensures |r| <= |s| && r == s[..|r|]
  {
    if s != [] && IsTrimmed(s[|s| - 1]) then TrimRight(s[..|s| - 1]) else s
  }

  /** PHP's trim(). */
  function Trim(s: string): string {
    TrimRight(TrimLeft(s))
  }

  /** Every character of `s` is one trim() removes. */
  predicate IsBlank(s: string) {
    forall i :: 0 <= i < |s| ==> IsTrimmed(s[i])
  }

  lemma {:induction false} TrimLeftBlank(s: string)
    ensures TrimLeft(s) == [] <==> IsBlank(s)
  {
    if s != [] && IsTrimmed(s[0]) {
      var rest := s[1..];
      TrimLeftBlank(rest);
      assert TrimLeft(s) == TrimLeft(rest);
      if IsBlank(rest) {
        forall i | 0 <= i < |s| ensures IsTrimmed(s[i]) {
          if i > 0 { assert s[i] == rest[i - 1]; }
        }
      }
      if IsBlank(s) {
        forall i | 0 <= i < |rest| ensures IsTrimmed(rest[i]) {
          assert rest[i] == s[i + 1];
        }
      }
    } else if s != [] {
      assert !IsTrimmed(s[0]);
    }
  }

  lemma {:induction false} TrimRightBlank(s: string)
    ensures TrimRight(s) == [] <==> IsBlank(s)
  {
    if s != [] && IsTrimmed(s[|s| - 1]) {
      var prefix := s[..|s| - 1];
      TrimRightBlank(prefix);
      assert TrimRight(s) == TrimRight(prefix);
      if IsBlank(prefix) {
        forall i | 0 <= i < |s| ensures IsTrimmed(s[i]) {
          if i < |prefix| { assert s[i] == prefix[i]; }
        }
      }
      if IsBlank(s) {
        forall i | 0 <= i < |prefix| ensures IsTrimmed(prefix[i]) {
          assert prefix[i] == s[i];
        }
      }
    } else if s != [] {
      assert !IsTrimmed(s[|s| - 1]);
    }
  }

  /** trim() leaves nothing exactly when the string is blank. */
  lemma TrimBlank(s: string)
    ensures Trim(s) == "" <==> IsBlank(s)
  {
    TrimLeftBlank(s);
    TrimRightBlank(TrimLeft(s));
  }

  lemma TrimNewline(s: string)
    requires s != [] && !IsTrimmed(s[0]) && !IsTrimmed(s[|s| - 1])
    ensures Trim(s + "\n") == s
  {
    assert (s + "\n")[0] == s[0];
    assert TrimLeft(s + "\n") == s + "\n";
    assert (s + "\n")[..|s + "\n"| - 1] == s;
    assert TrimRight(s) == s;
  }

  function DigitChar(d: nat): (c: char)
    requires d < 10
    ensures IsDigit(c) && c as int - '0' as int == d
  {
    ('0' as int + d) as char
  }

  /** Decimal digits of x, most significant first, without leading zeros. */
  function NatToString(x: nat): (s: string)
    ensures s != [] && forall k :: 0 <= k < |s| ==> IsDigit(s[k])
  {
    if x < 10 then [DigitChar(x)] else NatToString(x / 10) + [DigitChar(x % 10)]
  }

  /** How C++'s operator<< prints an int. */
  function IntToString(x: int): string {
    if x < 0 then "-" + NatToString(-x) else NatToString(x)
  }

  /** Value of a string of decimal digits. */
  function DigitsValue(s: string): (v: int)
    requires forall k :: 0 <= k < |s| ==> IsDigit(s[k])
  {
    if s == [] then 0 else DigitsValue(s[..|s| - 1]) * 10 + (s[|s| - 1] as int - '0' as int)
  }

  /** The longest prefix of s made of decimal digits. */
  function DigitPrefix(s: string): (p: string)
    ensures forall k :: 0 <= k < |p| ==> IsDigit(p[k])
  {
    if s != [] && IsDigit(s[0]) then [s[0]] + DigitPrefix(s[1..]) else []
  }

  /** PHP's (int) cast on a string: an optional sign, then the leading run of digits;
      0 when there are none. */
  function CastInt(s: string): int {
    if s != [] && s[0] == '-' then -DigitsValue(DigitPrefix(s[1..]))
    else if s != [] && s[0] == '+' then DigitsValue(DigitPrefix(s[1..]))
    else DigitsValue(DigitPrefix(s))
  }

  lemma {:induction false} DigitPrefixAll(s: string)
    requires forall k :: 0 <= k < |s| ==> IsDigit(s[k])
    ensures DigitPrefix(s) == s
  {
    if s != [] {
      DigitPrefixAll(s[1..]);
      assert [s[0]] + s[1..] == s;
    }
  }

  lemma {:induction false} NatToStringValue(x: nat)
    ensures DigitsValue(NatToString(x)) == x
  {
    if x >= 10 {
      var p := NatToString(x / 10);
      var s := p + [DigitChar(x % 10)];
      assert s[..|s| - 1] == p;
      NatToStringValue(x / 10);
    }
  }

  /** Reading back what C++ prints recovers the integer. */
  lemma CastIntToString(x: int)
    ensures CastInt(IntToString(x)) == x
  {
    var n: nat := if x < 0 then -x else x;
    var digits := NatToString(n);
    DigitPrefixAll(digits);
    NatToStringValue(n);
    if x < 0 {
      assert ("-" + digits)[1..] == digits;
    }
  }
}
