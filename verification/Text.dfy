/**
  The string operations of ECMA-262 the scripts lean on: white space as `trim` and the
  pattern class \s see it, fixed-width decimal numbers, and splitting and joining.
 */
module Text {

  /** WhiteSpace and LineTerminator of sections 12.2 and 12.3 of ECMA-262. */
  predicate IsSpace(c: char) {
    || c == ' '
    || '\t' <= c <= '\r'
    || c == '\U{00A0}' || c == '\U{1680}' || '\U{2000}' <= c <= '\U{200A}'
    || c == '\U{2028}' || c == '\U{2029}' || c == '\U{202F}' || c == '\U{205F}'
    || c == '\U{3000}' || c == '\U{FEFF}'
  }

  /** Tab to carriage return, and the spaces and line separators of section 12.2 of ECMA-262. */
  lemma SpacesAreListed(c: char)
    ensures IsSpace(c) <==>
              || c in "\t\n\U{000B}\U{000C}\r \U{00A0}\U{1680}\U{2000}\U{2001}\U{2002}\U{2003}\U{2004}\U{2005}"
              || c in "\U{2006}\U{2007}\U{2008}\U{2009}\U{200A}\U{2028}\U{2029}\U{202F}\U{205F}\U{3000}\U{FEFF}"
  {
    var low := "\t\n\U{000B}\U{000C}\r \U{00A0}\U{1680}\U{2000}\U{2001}\U{2002}\U{2003}\U{2004}\U{2005}";
    assert low[0] == '\t' && low[1] == '\n' && low[2] == '\U{000B}' && low[3] == '\U{000C}' && low[4] == '\r';
  }

  predicate Blank(s: string) {
    forall i :: 0 <= i < |s| ==> IsSpace(s[i])
  }

  function TrimStart(s: string): string {
    if s == [] || !IsSpace(s[0]) then s else TrimStart(s[1..])
  }

  function TrimEnd(s: string): string {
    if s == [] || !IsSpace(s[|s| - 1]) then s else TrimEnd(s[..|s| - 1])
  }

  function Trim(s: string): string {
    TrimEnd(TrimStart(s))
  }

  /** A string that `trim` leaves alone. */
  predicate Trimmed(s: string) {
    s == [] || (!IsSpace(s[0]) && !IsSpace(s[|s| - 1]))
  }

  lemma {:induction false} TrimStartShape(s: string) returns (k: nat)
    ensures k <= |s| && Blank(s[..k]) && TrimStart(s) == s[k..]
    ensures k < |s| ==> !IsSpace(s[k])
  {
    hide IsSpace;
    if s == [] || !IsSpace(s[0]) {
      k := 0;
    } else {
      k := TrimStartShape(s[1..]);
      k := k + 1;
      assert s[..k] == [s[0]] + s[1..][..k - 1];
    }
  }

  lemma {:induction false} TrimEndShape(s: string) returns (k: nat)
    ensures k <= |s| && Blank(s[k..]) && TrimEnd(s) == s[..k]
    ensures 0 < k ==> !IsSpace(s[k - 1])
  {
    hide IsSpace;
    if s == [] || !IsSpace(s[|s| - 1]) {
      k := |s|;
    } else {
      var t := s[..|s| - 1];
      k := TrimEndShape(t);
      assert s[k..] == t[k..] + [s[|s| - 1]];
      assert s[..k] == t[..k];
    }
  }

  /** What `trim` leaves starts and ends in something visible. */
  lemma TrimIsTrimmed(s: string)
    ensures Trimmed(Trim(s))
  {
    hide IsSpace;
    var i := TrimStartShape(s);
    var k := TrimEndShape(s[i..]);
  }

  lemma TrimTrimmed(s: string)
    requires Trimmed(s)
    ensures Trim(s) == s
  {
  }

  /** Leading blank text makes no difference to `trim`. */
  lemma {:induction false} TrimBlankPrefix(b: string, s: string)
    requires Blank(b)
    ensures Trim(b + s) == Trim(s)
    decreases |b|
  {
    if b == [] {
      assert b + s == s;
    } else {
      assert (b + s)[1..] == b[1..] + s;
      TrimBlankPrefix(b[1..], s);
    }
  }

  lemma {:induction false} TrimBlankSuffix(s: string, b: string)
    requires Blank(b)
    ensures TrimEnd(s + b) == TrimEnd(s)
    decreases |b|
  {
    if b == [] {
      assert s + b == s;
    } else {
      var n := |b| - 1;
      assert (s + b)[..|s + b| - 1] == s + b[..n];
      TrimBlankSuffix(s, b[..n]);
    }
  }

  lemma {:induction false} TrimEndOfBlank(b: string)
    requires Blank(b)
    ensures TrimEnd(b) == [] && TrimStart(b) == []
    decreases |b|
  {
    if b != [] {
      TrimEndOfBlank(b[1..]);
      TrimEndOfBlank(b[..|b| - 1]);
    }
  }

  // ---- upper and lower case ----

  /** The same letter of the alphabet in either case, or the same character. */
  predicate SameLetter(a: char, b: char) {
    || a == b
    || ('a' <= a <= 'z' && a as int - b as int == 32)
    || ('a' <= b <= 'z' && b as int - a as int == 32)
  }

  predicate SameIgnoringCase(a: string, b: string) {
    |a| == |b| && forall i :: 0 <= i < |a| ==> SameLetter(a[i], b[i])
  }

  // ---- decimal numbers ----

  predicate IsDigit(c: char) {
    '0' <= c <= '9'
  }

  predicate AllDigits(s: string) {
    forall i :: 0 <= i < |s| ==> IsDigit(s[i])
  }

  function Digit(n: int): char
    requires 0 <= n <= 9
  {
    '0' + n as char
  }

  function Number(s: string): (n: nat)
    requires AllDigits(s)
  {
    if s == [] then 0 else 10 * Number(s[..|s| - 1]) + (s[|s| - 1] - '0') as int
  }

  function Pow10(width: nat): nat {
    if width == 0 then 1 else 10 * Pow10(width - 1)
  }

  /** The last `width` decimal digits of n, zero-filled. */
  function Pad(n: nat, width: nat): (s: string)
    ensures |s| == width && AllDigits(s)
    decreases width
  {
    if width == 0 then [] else Pad(n / 10, width - 1) + [Digit(n % 10)]
  }

  lemma {:induction false} NumberOfPad(n: nat, width: nat)
    requires n < Pow10(width)
    ensures Number(Pad(n, width)) == n
    decreases width
  {
    if width > 0 {
      NumberOfPad(n / 10, width - 1);
      assert Pad(n, width)[..width - 1] == Pad(n / 10, width - 1);
    }
  }

  lemma {:induction false} PadOfNumber(s: string)
    requires AllDigits(s)
    ensures Pad(Number(s), |s|) == s
    decreases |s|
  {
    if s != [] {
      var t, d := s[..|s| - 1], s[|s| - 1];
      PadOfNumber(t);
      assert Number(s) / 10 == Number(t) && Number(s) % 10 == (d - '0') as int;
      assert s == t + [d];
    }
  }

  /** Character-by-character order, the order in which S3 lists keys. */
  predicate LexLess(a: string, b: string) {
    if b == [] then false
    else if a == [] then true
    else a[0] < b[0] || (a[0] == b[0] && LexLess(a[1..], b[1..]))
  }

  lemma {:induction false} LexLessAfterPrefix(p: string, a: string, b: string)
    ensures LexLess(p + a, p + b) <==> LexLess(a, b)
    decreases |p|
  {
    if p == [] {
      assert p + a == a && p + b == b;
    } else {
      assert (p + a)[1..] == p[1..] + a && (p + b)[1..] == p[1..] + b;
      LexLessAfterPrefix(p[1..], a, b);
    }
  }

  lemma {:induction false} LexLessBeforeSuffix(a: string, b: string, x: string, y: string)
    requires |a| == |b| && LexLess(a, b)
    ensures LexLess(a + x, b + y)
    decreases |a|
  {
    assert (a + x)[1..] == a[1..] + x && (b + y)[1..] == b[1..] + y;
    if a[0] == b[0] {
      LexLessBeforeSuffix(a[1..], b[1..], x, y);
    }
  }

  /** Numbers padded to one width order as strings the way they order as numbers. */
  lemma {:induction false} PadKeepsOrder(m: nat, n: nat, width: nat)
    requires m < n < Pow10(width)
    ensures LexLess(Pad(m, width), Pad(n, width))
    decreases width
  {
    if width > 0 {
      if m / 10 < n / 10 {
        PadKeepsOrder(m / 10, n / 10, width - 1);
        LexLessBeforeSuffix(Pad(m / 10, width - 1), Pad(n / 10, width - 1), [Digit(m % 10)], [Digit(n % 10)]);
      } else {
        assert m / 10 == n / 10 && m % 10 < n % 10;
        assert LexLess([Digit(m % 10)], [Digit(n % 10)]);
        LexLessAfterPrefix(Pad(m / 10, width - 1), [Digit(m % 10)], [Digit(n % 10)]);
      }
    }
  }

  // ---- splitting and joining on one character ----

  function Join(parts: seq<string>, sep: string): string {
    if parts == [] then []
    else if |parts| == 1 then parts[0]
    else parts[0] + sep + Join(parts[1..], sep)
  }

  /** `split` on a single-character separator. */
  function Split(s: string, sep: char): (parts: seq<string>)
    ensures |parts| >= 1
  {
    if s == [] then [[]]
    else
      var rest := Split(s[1..], sep);
      if s[0] == sep then [[]] + rest else [[s[0]] + rest[0]] + rest[1..]
  }

  predicate Free(s: string, c: char) {
    forall i :: 0 <= i < |s| ==> s[i] != c
  }

  lemma {:induction false} JoinOfSplit(s: string, sep: char)
    ensures Join(Split(s, sep), [sep]) == s
    ensures forall i :: 0 <= i < |Split(s, sep)| ==> Free(Split(s, sep)[i], sep)
  {
    if s != [] {
      JoinOfSplit(s[1..], sep);
      var rest := Split(s[1..], sep);
      if s[0] == sep {
        assert Split(s, sep)[1..] == rest;
      } else {
        assert Split(s, sep)[1..] == rest[1..];
      }
    }
  }

  /** Splitting off one separator-free piece. */
  lemma {:induction false} SplitFirst(piece: string, sep: char, rest: string)
    requires Free(piece, sep)
    ensures Split(piece, sep) == [piece]
    ensures Split(piece + [sep] + rest, sep) == [piece] + Split(rest, sep)
    decreases |piece|
  {
    if piece == [] {
      assert piece + [sep] + rest == [sep] + rest;
      assert ([sep] + rest)[1..] == rest;
    } else {
      SplitFirst(piece[1..], sep, rest);
      assert (piece + [sep] + rest)[1..] == piece[1..] + [sep] + rest;
      assert piece == [piece[0]] + piece[1..];
    }
  }
}
