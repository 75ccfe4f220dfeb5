/** String helpers with the semantics of the library routines the backend
    and the client rely on: Go's `strings.Contains`, `strings.Index`/`LastIndex` on a
    one-character separator, `strings.Count`, `strings.Fields`,
    `strings.Join`, `strings.ToLower`/`ToUpper`, `strconv.Atoi`, and the
    decimal rendering of a non-negative integer (`${n}` in TypeScript). */
module Text {

  // ---------------------------------------------------------------------
  // Searching

  /** `strings.Contains(s, sub)`: `sub` occurs somewhere in `s`. */
  predicate Contains(s: string, sub: string)
    decreases |s|
  {
    sub <= s || (s != [] && Contains(s[1..], sub))
  }

  lemma {:induction false} ContainsAt(s: string, sub: string, i: nat)
    requires i + |sub| <= |s| && s[i..i + |sub|] == sub
    ensures Contains(s, sub)
  {
    if i > 0 {
      assert s[1..][i - 1..i - 1 + |sub|] == sub;
      ContainsAt(s[1..], sub, i - 1);
    }
  }

  lemma {:induction false} ContainsWitness(s: string, sub: string) returns (i: nat)
    requires Contains(s, sub)
    ensures i + |sub| <= |s| && s[i..i + |sub|] == sub
  {
    if sub <= s {
      i := 0;
    } else {
      var j := ContainsWitness(s[1..], sub);
      i := j + 1;
      assert s[i..i + |sub|] == s[1..][j..j + |sub|];
    }
  }

  /** Containing a one-character text is containing that character. */
  lemma {:induction false} ContainsChar(s: string, c: char)
    ensures Contains(s, [c]) <==> c in s
    decreases |s|
  {
    if s != [] {
      ContainsChar(s[1..], c);
      assert s == [s[0]] + s[1..];
    }
  }

  /** `strings.Index(s, string(c))`: the first position of `c`, or -1. */
  function IndexOf(s: string, c: char): (r: int)
    ensures -1 <= r < |s|
    ensures r == -1 <==> c !in s
    ensures r >= 0 ==> s[r] == c && c !in s[..r]
  {
    if s == [] then -1
    else if s[0] == c then 0
    else
      var k := IndexOf(s[1..], c);
      assert s[1..] == s[1..];
      if k < 0 then -1
      else
        assert s[..k + 1] == [s[0]] + s[1..][..k];
        k + 1
  }

  /** The first occurrence, given by its position. */
  lemma {:induction false} IndexOfAt(s: string, c: char, k: nat)
    requires k < |s| && s[k] == c && c !in s[..k]
    ensures IndexOf(s, c) == k
  {
    if k > 0 {
      assert s[0] == s[..k][0];
      assert s[1..][..k - 1] == s[..k][1..];
      IndexOfAt(s[1..], c, k - 1);
    }
  }

  /** `strings.LastIndex(s, string(c))`: the last position of `c`, or -1. */
  function LastIndexOf(s: string, c: char): (r: int)
    ensures -1 <= r < |s|
    ensures r == -1 <==> c !in s
    ensures r >= 0 ==> s[r] == c && c !in s[r + 1..]
  {
    if s == [] then -1
    else if s[|s| - 1] == c then |s| - 1
    else
      var k := LastIndexOf(s[..|s| - 1], c);
      assert s == s[..|s| - 1] + [s[|s| - 1]];
      if k >= 0 then
        assert s[k + 1..] == s[..|s| - 1][k + 1..] + [s[|s| - 1]];
        k
      else k
  }

  /** The last occurrence, given by its position. */
  lemma {:induction false} LastIndexOfAt(s: string, c: char, k: nat)
    requires k < |s| && s[k] == c && c !in s[k + 1..]
    ensures LastIndexOf(s, c) == k
    decreases |s|
  {
    if k < |s| - 1 {
      var init := s[..|s| - 1];
      assert s[|s| - 1] == s[k + 1..][|s| - k - 2];
      assert init[k + 1..] == s[k + 1..][..|s| - k - 2];
      LastIndexOfAt(init, c, k);
    }
  }

  /** `strings.Count(s, string(c))`: the number of occurrences of `c`. */
  function CountChar(s: string, c: char): (n: nat)
    ensures n <= |s|
    ensures n == 0 <==> c !in s
  {
    if s == [] then 0
    else
      assert s == [s[0]] + s[1..];
      (if s[0] == c then 1 else 0) + CountChar(s[1..], c)
  }

  lemma {:induction false} CountCharAppend(a: string, b: string, c: char)
    ensures CountChar(a + b, c) == CountChar(a, c) + CountChar(b, c)
  {
    if a == [] {
      assert a + b == b;
    } else {
      assert (a + b)[0] == a[0];
      assert (a + b)[1..] == a[1..] + b;
      CountCharAppend(a[1..], b, c);
    }
  }

  /** Splitting at the last occurrence of `c`: one more than before it. */
  lemma CountCharAtLast(s: string, c: char, k: nat)
    requires k < |s| && s[k] == c && c !in s[k + 1..]
    ensures CountChar(s, c) == CountChar(s[..k], c) + 1
  {
    var before, after := s[..k], s[k + 1..];
    assert s == before + ([s[k]] + after);
    CountCharAppend(before, [s[k]] + after, c);
    CountCharAppend([s[k]], after, c);
    assert CountChar(after, c) == 0;
    assert CountChar([s[k]], c) == 1 by {
      assert [s[k]][1..] == [];
    }
  }

  // ---------------------------------------------------------------------
  // Case mapping

  /** `unicode.ToLower` on the runes that matter here: ASCII capitals, and the
      two non-ASCII runes whose lower case is an ASCII letter (U+0130, the
      capital I with dot, and U+212A, the Kelvin sign).  Every other rune is
      kept, which can differ from Go only on runes outside ASCII that stay
      outside ASCII either way. */
  function LowerRune(c: char): (r: char)
    ensures 'A' <= r <= 'Z' ==> r == c
  {
    if 'A' <= c <= 'Z' then (c as int + 32) as char
    else if c == '\U{0130}' then 'i'
    else if c == '\U{212A}' then 'k'
    else c
  }

  /** `unicode.ToUpper`, likewise: ASCII small letters, U+0131 (dotless i) and
      U+017F (long s). */
  function UpperRune(c: char): (r: char)
    ensures 'a' <= r <= 'z' ==> r == c
  {
    if 'a' <= c <= 'z' then (c as int - 32) as char
    else if c == '\U{0131}' then 'I'
    else if c == '\U{017F}' then 'S'
    else c
  }

  function ToLower(s: string): (r: string)
    ensures |r| == |s|
  {
    seq(|s|, i requires 0 <= i < |s| => LowerRune(s[i]))
  }

  function ToUpper(s: string): (r: string)
    ensures |r| == |s|
  {
    seq(|s|, i requires 0 <= i < |s| => UpperRune(s[i]))
  }

  lemma ToLowerIdempotent(s: string)
    ensures ToLower(ToLower(s)) == ToLower(s)
  {
  }

  lemma ToLowerAppend(a: string, b: string)
    ensures ToLower(a + b) == ToLower(a) + ToLower(b)
  {
  }

  /** Upper-casing both sides keeps an occurrence an occurrence. */
  lemma ContainsToUpper(s: string, sub: string)
    requires Contains(s, sub)
    ensures Contains(ToUpper(s), ToUpper(sub))
  {
    var i := ContainsWitness(s, sub);
    assert ToUpper(s)[i..i + |sub|] == ToUpper(sub);
    ContainsAt(ToUpper(s), ToUpper(sub), i);
  }

  // ---------------------------------------------------------------------
  // Decimal numbers

  predicate IsDigit(c: char) {
    '0' <= c <= '9'
  }

  predicate AllDigits(s: string) {
    forall i :: 0 <= i < |s| ==> IsDigit(s[i])
  }

  function DigitValue(c: char): (d: nat)
    requires IsDigit(c)
    ensures d < 10
  {
    c as int - '0' as int
  }

  function DigitChar(d: nat): (c: char)
    requires d < 10
    ensures IsDigit(c) && DigitValue(c) == d
  {
    ('0' as int + d) as char
  }

  /** The decimal form of `n`: digits only, no leading zero. */
  function NatToString(n: nat): (s: string)
    ensures |s| >= 1 && AllDigits(s)
    ensures s[0] == '0' ==> n == 0 && s == "0"
  {
    if n < 10 then [DigitChar(n)]
    else NatToString(n / 10) + [DigitChar(n % 10)]
  }

  /** Reads the digits of `s` after the value `acc` already read. */
  function DigitsFrom(s: string, acc: nat): (n: nat)
    requires AllDigits(s)
    ensures n >= acc
    decreases |s|
  {
    if s == [] then acc
    else DigitsFrom(s[1..], acc * 10 + DigitValue(s[0]))
  }

  /** The value of a string of decimal digits. */
  function DigitsValue(s: string): nat
    requires AllDigits(s)
  {
    DigitsFrom(s, 0)
  }

  lemma {:induction false} DigitsFromAppend(s: string, c: char, acc: nat)
    requires AllDigits(s) && IsDigit(c)
    ensures AllDigits(s + [c])
    ensures DigitsFrom(s + [c], acc) == DigitsFrom(s, acc) * 10 + DigitValue(c)
    decreases |s|
  {
    assert AllDigits(s + [c]);
    if s != [] {
      assert (s + [c])[1..] == s[1..] + [c];
      DigitsFromAppend(s[1..], c, acc * 10 + DigitValue(s[0]));
    }
  }

  /** Reading back the decimal form gives the number. */
  lemma {:induction false} NatToStringRoundTrip(n: nat)
    ensures DigitsValue(NatToString(n)) == n
  {
    if n >= 10 {
      NatToStringRoundTrip(n / 10);
      assert NatToString(n) == NatToString(n / 10) + [DigitChar(n % 10)];
      DigitsFromAppend(NatToString(n / 10), DigitChar(n % 10), 0);
      assert n == (n / 10) * 10 + n % 10;
    } else {
      assert NatToString(n) == [DigitChar(n)];
      var s := NatToString(n);
      assert s[1..] == [] && DigitValue(s[0]) == n;
      assert DigitsFrom(s, 0) == DigitsFrom(s[1..], DigitValue(s[0]));
    }
  }

  /** Digits without a leading zero are the decimal form of their value:
      the canonical texts are exactly the images of `NatToString`. */
  lemma {:induction false} CanonicalDigits(s: string)
    requires s != [] && AllDigits(s) && (s[0] == '0' ==> |s| == 1)
    ensures NatToString(DigitsValue(s)) == s
    decreases |s|
  {
    var init, c := s[..|s| - 1], s[|s| - 1];
    assert s == init + [c];
    DigitsFromAppend(init, c, 0);
    var d := DigitValue(c);
    assert DigitChar(d) == c;
    if init == [] {
      assert DigitsValue(s) == d by {
        assert DigitsValue([]) == 0;
      }
    } else {
      assert init[0] == s[0];
      CanonicalDigits(init);
      var v := DigitsValue(init);
      assert NatToString(0) == "0";
      var n := v * 10 + d;
      assert n / 10 == v && n % 10 == d;
    }
  }

  lemma NatToStringInjective(m: nat, n: nat)
    requires NatToString(m) == NatToString(n)
    ensures m == n
  {
    NatToStringRoundTrip(m);
    NatToStringRoundTrip(n);
  }

  // ---------------------------------------------------------------------
  // strconv.Atoi (64-bit int), with the error result discarded

  const MaxInt64: int := 0x7FFF_FFFF_FFFF_FFFF
  const MinInt64: int := -0x8000_0000_0000_0000
  const MaxUint64: int := 0xFFFF_FFFF_FFFF_FFFF

  datatype UintScan = SyntaxError | RangeError | Value(n: nat)

  /** `strconv.ParseUint(s, 10, 64)` continuing after the value `acc`: each
      character must be a digit; the scan stops with a range error as soon as
      the value exceeds 64 bits, before looking at later characters. */
  function ParseUint(s: string, acc: nat): UintScan
    decreases |s|
  {
    if s == [] then Value(acc)
    else if !IsDigit(s[0]) then SyntaxError
    else if acc * 10 + DigitValue(s[0]) > MaxUint64 then RangeError
    else ParseUint(s[1..], acc * 10 + DigitValue(s[0]))
  }

  /** `strconv.Atoi(s)` with its error ignored, as in `port, _ := strconv.Atoi(s)`:
      0 on a syntax error, the nearest 64-bit bound on a range error. */
  function Atoi(s: string): int {
    if s == [] then 0
    else
      var neg := s[0] == '-';
      var digits := if s[0] == '-' || s[0] == '+' then s[1..] else s;
      if digits == [] then 0
      else
        match ParseUint(digits, 0)
        case SyntaxError => 0
        case RangeError => if neg then MinInt64 else MaxInt64
        case Value(u) =>
          if !neg && u > MaxInt64 then MaxInt64
          else if neg && u > -MinInt64 then MinInt64
          else if neg then -(u as int)
          else u
  }

  lemma {:induction false} ParseUintDigits(s: string, acc: nat)
    requires AllDigits(s) && DigitsFrom(s, acc) <= MaxUint64
    ensures ParseUint(s, acc) == Value(DigitsFrom(s, acc))
    decreases |s|
  {
    if s != [] {
      ParseUintDigits(s[1..], acc * 10 + DigitValue(s[0]));
    }
  }

  lemma {:induction false} ParseUintStopsAtNonDigit(s: string, acc: nat, i: nat)
    requires i < |s| && AllDigits(s[..i]) && !IsDigit(s[i])
    requires DigitsFrom(s[..i], acc) <= MaxUint64
    ensures ParseUint(s, acc) == SyntaxError
    decreases i
  {
    if i > 0 {
      assert s[1..][..i - 1] == s[..i][1..];
      ParseUintStopsAtNonDigit(s[1..], acc * 10 + DigitValue(s[0]), i - 1);
    }
  }

  /** Atoi reads back the decimal form of every non-negative 64-bit value. */
  lemma AtoiOfNatToString(n: nat)
    requires n <= MaxInt64
    ensures Atoi(NatToString(n)) == n
  {
    NatToStringRoundTrip(n);
    ParseUintDigits(NatToString(n), 0);
  }

  /** A non-digit after the optional sign, preceded by a digit run that fits
      in 64 bits, makes Atoi return 0. */
  lemma AtoiNonNumeric(s: string, i: nat)
    requires i < |s| && !IsDigit(s[i]) && AllDigits(s[..i])
    requires i > 0 || (s[0] != '-' && s[0] != '+')
    requires DigitsValue(s[..i]) <= MaxUint64
    ensures Atoi(s) == 0
  {
    ParseUintStopsAtNonDigit(s, 0, i);
  }

  // ---------------------------------------------------------------------
  // strings.Fields and strings.Join

  /** `unicode.IsSpace`. */
  predicate IsSpace(c: char) {
    c == '\t' || c == '\n' || c == '\U{000B}' || c == '\U{000C}' || c == '\r' || c == ' '
    || c == '\U{0085}' || c == '\U{00A0}' || c == '\U{1680}'
    || ('\U{2000}' <= c <= '\U{200A}')
    || c == '\U{2028}' || c == '\U{2029}' || c == '\U{202F}' || c == '\U{205F}' || c == '\U{3000}'
  }

  predicate NoSpace(s: string) {
    forall i :: 0 <= i < |s| ==> !IsSpace(s[i])
  }

  /** The number of leading non-space characters. */
  function WordLength(s: string): (k: nat)
    ensures k <= |s| && NoSpace(s[..k])
    ensures k < |s| ==> IsSpace(s[k])
  {
    if s == [] || IsSpace(s[0]) then 0
    else
      var k := WordLength(s[1..]);
      assert s[..k + 1] == [s[0]] + s[1..][..k];
      k + 1
  }

  /** `strings.Fields(s)`: the maximal runs of non-space characters. */
  function Fields(s: string): (r: seq<string>)
    decreases |s|
  {
    if s == [] then []
    else if IsSpace(s[0]) then Fields(s[1..])
    else
      var k := WordLength(s);
      [s[..k]] + Fields(s[k..])
  }

  /** Every field is non-empty and holds no space. */
  lemma {:induction false} FieldsWellFormed(s: string)
    ensures forall f :: f in Fields(s) ==> f != [] && NoSpace(f)
    decreases |s|
  {
    if s != [] {
      if IsSpace(s[0]) {
        FieldsWellFormed(s[1..]);
      } else {
        FieldsWellFormed(s[WordLength(s)..]);
      }
    }
  }

  /** `strings.Join(parts, sep)`. */
  function Join(parts: seq<string>, sep: string): string {
    if parts == [] then ""
    else if |parts| == 1 then parts[0]
    else parts[0] + sep + Join(parts[1..], sep)
  }

  /** Joining a part in front of a non-empty list puts the separator after it. */
  lemma JoinCons(h: string, parts: seq<string>, sep: string)
    requires parts != []
    ensures Join([h] + parts, sep) == h + sep + Join(parts, sep)
  {
    assert ([h] + parts)[1..] == parts;
  }

  /** Splitting the single-space join of well-formed fields gives them back. */
  lemma {:induction false} FieldsOfJoin(fs: seq<string>)
    requires forall f :: f in fs ==> f != [] && NoSpace(f)
    ensures Fields(Join(fs, " ")) == fs
  {
    if fs != [] {
      var f := fs[0];
      assert f in fs;
      if |fs| == 1 {
        FieldWord(f, []);
        assert Join(fs, " ") == f + [];
      } else {
        var tail := Join(fs[1..], " ");
        forall g | g in fs[1..] ensures g != [] && NoSpace(g) {
          assert g in fs;
        }
        calc {
          Fields(Join(fs, " "));
          { assert Join(fs, " ") == f + (" " + tail); }
          Fields(f + (" " + tail));
          { FieldWord(f, " " + tail); }
          [f] + Fields(" " + tail);
          { assert (" " + tail)[1..] == tail; }
          [f] + Fields(tail);
          { FieldsOfJoin(fs[1..]); }
          [f] + fs[1..];
          fs;
        }
      }
    }
  }

  /** A non-empty word followed by nothing or by a space is the first field. */
  lemma FieldWord(f: string, rest: string)
    requires f != [] && NoSpace(f)
    requires rest == [] || IsSpace(rest[0])
    ensures Fields(f + rest) == [f] + Fields(rest)
  {
    var s := f + rest;
    assert !IsSpace(s[0]);
    WordLengthOf(f, rest);
    assert s[..|f|] == f && s[|f|..] == rest;
  }

  lemma {:induction false} WordLengthOf(f: string, rest: string)
    requires NoSpace(f)
    requires rest == [] || IsSpace(rest[0])
    ensures WordLength(f + rest) == |f|
  {
    if f != [] {
      assert (f + rest)[1..] == f[1..] + rest;
      WordLengthOf(f[1..], rest);
    } else {
      assert f + rest == rest;
    }
  }
  // ---------------------------------------------------------------------
  // strings.Split on a one-character separator

  /** `strings.Split(s, string(c))`: the pieces between occurrences of `c`;
      there is always one more piece than there are separators. */
  function SplitOn(s: string, c: char): (r: seq<string>)
    ensures |r| == CountChar(s, c) + 1
    ensures forall p :: p in r ==> c !in p
    decreases |s|
  {
    var i := IndexOf(s, c);
    if i < 0 then [s]
    else
      assert s == s[..i] + [c] + s[i + 1..];
      CountCharAppend(s[..i] + [c], s[i + 1..], c);
      CountCharAppend(s[..i], [c], c);
      [s[..i]] + SplitOn(s[i + 1..], c)
  }

  /** Joining the pieces with the separator gives the text back. */
  lemma {:induction false} JoinSplitOn(s: string, c: char)
    ensures Join(SplitOn(s, c), [c]) == s
    decreases |s|
  {
    var i := IndexOf(s, c);
    if i >= 0 {
      JoinSplitOn(s[i + 1..], c);
      assert s == s[..i] + [c] + s[i + 1..];
    }
  }

  /** Splitting a join of separator-free pieces gives the pieces back. */
  lemma {:induction false} SplitOnJoin(parts: seq<string>, c: char)
    requires parts != []
    requires forall p :: p in parts ==> c !in p
    ensures SplitOn(Join(parts, [c]), c) == parts
  {
    var p := parts[0];
    assert p in parts;
    if |parts| > 1 {
      var rest := Join(parts[1..], [c]);
      var s := p + [c] + rest;
      assert Join(parts, [c]) == s;
      assert s[|p|] == c && s[..|p|] == p;
      assert IndexOf(s, c) == |p|;
      assert s[|p| + 1..] == rest;
      forall q | q in parts[1..] ensures c !in q {
        assert q in parts;
      }
      SplitOnJoin(parts[1..], c);
    }
  }
}
