/** The few pieces of Python's `str` and `os.path` behaviour that the image
    tools depend on: `strip`, `lower`/`upper`, `split`/`join` on one separator,
    `replace`, `str(int)`, `int(str)` and the POSIX `basename`/`splitext`. */
module Text {
  import opened Wrappers

  // ---------------------------------------------------------------------------
  // Whitespace and case

  /** `str.isspace` on ASCII: tab, newline, vertical tab, form feed, carriage
      return, the four separators 0x1C..0x1F and the space. */
  predicate IsSpace(c: char) {
    c == ' ' || 9 <= c as int <= 13 || 28 <= c as int <= 31
  }

  /** The number of whitespace characters `s` starts with. */
  function LeadingSpaces(s: string): (r: nat)
    ensures r <= |s|
    ensures r < |s| ==> !IsSpace(s[r])
    ensures forall k :: 0 <= k < r ==> IsSpace(s[k])
  {
    if s != [] && IsSpace(s[0]) then 1 + LeadingSpaces(s[1..]) else 0
  }

  /** The length `s` keeps once its trailing whitespace is dropped. */
  function KeptLength(s: string): (r: nat)
    ensures r <= |s|
    ensures r > 0 ==> !IsSpace(s[r - 1])
    ensures forall k :: r <= k < |s| ==> IsSpace(s[k])
  {
    if s != [] && IsSpace(s[|s| - 1]) then KeptLength(s[..|s| - 1]) else |s|
  }

  /** `str.lstrip()`. */
  function TrimLeft(s: string): string {
    s[LeadingSpaces(s)..]
  }

  /** `str.rstrip()`. */
  function TrimRight(s: string): string {
    s[..KeptLength(s)]
  }

  /** No whitespace at either end: what `strip` leaves. */
  predicate Trimmed(s: string) {
    s == [] || (!IsSpace(s[0]) && !IsSpace(s[|s| - 1]))
  }

  /** `str.strip()`. */
  function Trim(s: string): (r: string)
    ensures |r| <= |s| && Trimmed(r)
  {
    TrimRight(TrimLeft(s))
  }

  /** `strip` gives exactly the slice of `s` that remains once the whitespace
      before and after it is removed; with `Trimmed`, this determines it. */
  lemma TrimIsStrip(s: string)
    ensures exists i, j ::
      (0 <= i <= j <= |s| && Trim(s) == s[i..j] &&
       (forall k :: 0 <= k < i ==> IsSpace(s[k])) && (forall k :: j <= k < |s| ==> IsSpace(s[k])))
  {
    var i := LeadingSpaces(s);
    var t := s[i..];
    var j := i + KeptLength(t);
    assert forall k :: j <= k < |s| ==> s[k] == t[k - i];
    assert Trim(s) == s[i..j];
  }

  /** `strip` removes only whitespace, and only at the two ends. */
  lemma TrimIsInfix(s: string)
    ensures forall c :: c in Trim(s) ==> c in s
  {
    var k := LeadingSpaces(s);
    var r := Trim(s);
    assert r == s[k..][..|r|];
    forall c | c in r ensures c in s {
      var i :| 0 <= i < |r| && r[i] == c;
      assert s[k + i] == c;
    }
  }

  /** A string with no whitespace at its ends is left as it is by `strip`. */
  lemma TrimNoSpaceEnds(s: string)
    requires Trimmed(s)
    ensures Trim(s) == s
  {
  }

  /** Trailing whitespace is all `rstrip` drops: it keeps every character up
      to the last non-space one. */
  lemma {:induction false} KeptPastNonSpace(s: string, i: nat)
    requires i < |s| && !IsSpace(s[i])
    ensures KeptLength(s) > i
  {
    if IsSpace(s[|s| - 1]) {
      KeptPastNonSpace(s[..|s| - 1], i);
    }
  }

  /** A string that starts with a non-space character keeps that character
      first once stripped. */
  lemma TrimKeepsFirst(s: string)
    requires s != [] && !IsSpace(s[0])
    ensures Trim(s) != [] && Trim(s)[0] == s[0]
  {
    assert TrimLeft(s) == s;
    KeptPastNonSpace(s, 0);
  }

  /** `strip` is idempotent. */
  lemma TrimIdempotent(s: string)
    ensures Trim(Trim(s)) == Trim(s)
  {
    TrimNoSpaceEnds(Trim(s));
  }

  function LowerChar(c: char): char {
    if 'A' <= c <= 'Z' then (c as int + 32) as char else c
  }

  function UpperChar(c: char): char {
    if 'a' <= c <= 'z' then (c as int - 32) as char else c
  }

  /** `str.lower()` on ASCII letters. */
  function Lower(s: string): (r: string)
    ensures |r| == |s|
    ensures forall i :: 0 <= i < |s| ==> !('A' <= r[i] <= 'Z')
  {
    seq(|s|, i requires 0 <= i < |s| => LowerChar(s[i]))
  }

  /** `str.upper()` on ASCII letters. */
  function Upper(s: string): (r: string)
    ensures |r| == |s|
    ensures forall i :: 0 <= i < |s| ==> !('a' <= r[i] <= 'z')
  {
    seq(|s|, i requires 0 <= i < |s| => UpperChar(s[i]))
  }

  // ---------------------------------------------------------------------------
  // split / join on one separator character

  /** `s.split(c)`: always at least one part, and no part holds `c`. */
  function Split(s: string, c: char): (r: seq<string>)
    ensures |r| >= 1
    ensures forall k :: 0 <= k < |r| ==> c !in r[k]
  {
    if s == [] then [""]
    else
      var rest := Split(s[1..], c);
      if s[0] == c then [""] + rest else [[s[0]] + rest[0]] + rest[1..]
  }

  /** `c.join(parts)`. */
  function Join(parts: seq<string>, c: char): string {
    if parts == [] then ""
    else if |parts| == 1 then parts[0]
    else parts[0] + [c] + Join(parts[1..], c)
  }

  lemma {:induction false} JoinSplit(s: string, c: char)
    ensures Join(Split(s, c), c) == s
  {
    if s != [] {
      JoinSplit(s[1..], c);
      var rest := Split(s[1..], c);
      if s[0] != c && |rest| > 1 {
        assert [[s[0]] + rest[0]] + rest[1..] == [[s[0]] + rest[0]] + rest[1..];
        calc {
          Join([[s[0]] + rest[0]] + rest[1..], c);
          ([s[0]] + rest[0]) + [c] + Join(rest[1..], c);
          [s[0]] + (rest[0] + [c] + Join(rest[1..], c));
          [s[0]] + Join(rest, c);
        }
      }
    }
  }

  /** Splitting a join gives the parts back when no part holds the separator. */
  lemma {:induction false} SplitJoin(parts: seq<string>, c: char)
    requires |parts| >= 1
    requires forall k :: 0 <= k < |parts| ==> c !in parts[k]
    ensures Split(Join(parts, c), c) == parts
  {
    if |parts| == 1 {
      SplitNoSeparator(parts[0], c);
    } else {
      SplitJoin(parts[1..], c);
      SplitPrefix(parts[0], Join(parts[1..], c), c);
      assert [parts[0]] + parts[1..] == parts;
    }
  }

  /** Joining three parts puts the separator between each neighbouring pair. */
  lemma Join3(x: string, y: string, z: string, c: char)
    ensures Join([x, y, z], c) == x + [c] + y + [c] + z
  {
    var parts := [x, y, z];
    assert parts[1..] == [y, z];
    var tail := [y, z];
    assert tail[1..] == [z];
    assert Join(tail, c) == y + [c] + z;
    assert Join(parts, c) == x + [c] + (y + [c] + z);
  }

  lemma {:induction false} SplitNoSeparator(s: string, c: char)
    requires c !in s
    ensures Split(s, c) == [s]
  {
    if s != [] {
      SplitNoSeparator(s[1..], c);
      assert [s[0]] + s[1..] == s;
    }
  }

  lemma {:induction false} SplitPrefix(p: string, t: string, c: char)
    requires c !in p
    ensures Split(p + [c] + t, c) == [p] + Split(t, c)
  {
    if p == [] {
      assert p + [c] + t == [c] + t;
      assert ([c] + t)[1..] == t;
    } else {
      SplitPrefix(p[1..], t, c);
      assert (p + [c] + t)[1..] == p[1..] + [c] + t;
      assert [p[0]] + p[1..] == p;
    }
  }

  // ---------------------------------------------------------------------------
  // str.replace

  /** `s.replace(pat, rep)`: non-overlapping occurrences, left to right. */
  function ReplaceAll(s: string, pat: string, rep: string): string
    requires |pat| > 0
    decreases |s|
  {
    if |s| < |pat| then s
    else if s[..|pat|] == pat then rep + ReplaceAll(s[|pat|..], pat, rep)
    else [s[0]] + ReplaceAll(s[1..], pat, rep)
  }

  /** The file extension used in output names: `fmt.lower().replace("jpeg", "jpg")`. */
  function ExtOf(fmt: string): string {
    ReplaceAll(Lower(fmt), "jpeg", "jpg")
  }

  // ---------------------------------------------------------------------------
  // Decimal numbers: str(int) and int(str)

  predicate IsDigit(c: char) {
    '0' <= c <= '9'
  }

  predicate AllDigits(s: string) {
    forall i :: 0 <= i < |s| ==> IsDigit(s[i])
  }

  function DigitChar(d: nat): (c: char)
    requires d < 10
    ensures IsDigit(c) && c as int - '0' as int == d
  {
    ('0' as int + d) as char
  }

  function NatToDecimal(n: nat): (r: string)
    ensures |r| >= 1 && AllDigits(r)
    decreases n
  {
    if n < 10 then [DigitChar(n)] else NatToDecimal(n / 10) + [DigitChar(n % 10)]
  }

  /** `str(n)` for an integer. */
  function IntToDecimal(n: int): (r: string)
    ensures |r| >= 1
    ensures n >= 0 <==> AllDigits(r)
    ensures n < 0 <==> r[0] == '-'
  {
    if n < 0 then
      var r := "-" + NatToDecimal(-n);
      assert !IsDigit(r[0]);
      r
    else NatToDecimal(n)
  }

  /** The value of a string of decimal digits, most significant first. */
  function DigitsValue(s: string): nat
    requires AllDigits(s)
  {
    if s == [] then 0
    else DigitsValue(s[..|s| - 1]) * 10 + (s[|s| - 1] as int - '0' as int)
  }

  /** `int(t)` for base 10 once the whitespace is gone: an optional sign and at
      least one ASCII digit; anything else raises (here: `None`). */
  function ParseSigned(t: string): Option<int> {
    if |t| >= 2 && (t[0] == '-' || t[0] == '+') && AllDigits(t[1..]) then
      var v: int := DigitsValue(t[1..]);
      Some(if t[0] == '-' then -v else v)
    else if |t| >= 1 && AllDigits(t) then
      Some(DigitsValue(t))
    else
      None
  }

  /** `int(s)` for base 10: surrounding whitespace is ignored. */
  function ParseDecimal(s: string): Option<int> {
    ParseSigned(Trim(s))
  }

  lemma {:induction false} DigitsOfNat(n: nat)
    ensures DigitsValue(NatToDecimal(n)) == n
    decreases n
  {
    var r := NatToDecimal(n);
    if n >= 10 {
      DigitsOfNat(n / 10);
      assert r[..|r| - 1] == NatToDecimal(n / 10);
    }
  }

  lemma TrimDigits(d: string)
    requires |d| >= 1 && AllDigits(d)
    ensures Trim(d) == d
  {
    assert IsDigit(d[0]) && IsDigit(d[|d| - 1]);
    TrimNoSpaceEnds(d);
  }

  /** The shape of `str(-m)` for a natural `m`: a minus, then the digits `d`. */
  predicate MinusDigits(t: string, d: string) {
    |d| >= 1 && AllDigits(d) && |t| == |d| + 1 && t[0] == '-' && t[1..] == d
  }

  lemma TrimNegativeDigits(t: string, d: string)
    requires MinusDigits(t, d)
    ensures Trim(t) == t
  {
    assert t[|t| - 1] == d[|d| - 1] && IsDigit(d[|d| - 1]);
    TrimNoSpaceEnds(t);
  }

  lemma ParseDigits(d: string)
    requires |d| >= 1 && AllDigits(d)
    ensures ParseDecimal(d) == Some(DigitsValue(d))
  {
    TrimDigits(d);
    assert IsDigit(d[0]);
  }

  lemma ParseNegativeDigits(t: string, d: string)
    requires MinusDigits(t, d)
    ensures ParseDecimal(t) == Some(-(DigitsValue(d) as int))
  {
    TrimNegativeDigits(t, d);
  }

  lemma IntToDecimalShape(n: int)
    ensures n < 0 ==> IntToDecimal(n) == "-" + NatToDecimal(-n)
    ensures n >= 0 ==> IntToDecimal(n) == NatToDecimal(n)
  {
  }

  lemma NegativeDecimalShape(n: int)
    requires n < 0
    ensures MinusDigits(IntToDecimal(n), NatToDecimal(-n))
  {
    var d := NatToDecimal(-n);
    var t := IntToDecimal(n);
    assert t == "-" + d;
    assert t[1..] == d;
  }

  /** `int(str(n)) == n`. */
  lemma DecimalRoundTrip(n: int)
    ensures ParseDecimal(IntToDecimal(n)) == Some(n)
  {
    if n < 0 {
      var d := NatToDecimal(-n);
      NegativeDecimalShape(n);
      DigitsOfNat(-n);
      ParseNegativeDigits(IntToDecimal(n), d);
    } else {
      DigitsOfNat(n);
      ParseDigits(NatToDecimal(n));
    }
  }

  // ---------------------------------------------------------------------------
  // POSIX paths

  /** `s.rfind(c)`: the last index of `c`, or -1. */
  function RFind(s: string, c: char): (r: int)
    ensures -1 <= r < |s|
    ensures r >= 0 ==> s[r] == c
  {
    if s == [] then -1
    else if s[|s| - 1] == c then |s| - 1
    else RFind(s[..|s| - 1], c)
  }

  /** No occurrence of `c` comes after the one `rfind` reports. */
  lemma {:induction false} RFindIsLast(s: string, c: char)
    ensures forall i :: RFind(s, c) < i < |s| ==> s[i] != c
  {
    if s != [] && s[|s| - 1] != c {
      var init := s[..|s| - 1];
      RFindIsLast(init, c);
      assert forall i :: RFind(s, c) < i < |s| - 1 ==> s[i] == init[i];
    }
  }

  /** `rfind` reports the last occurrence. */
  lemma {:induction false} RFindAt(s: string, c: char, k: int)
    requires -1 <= k < |s|
    requires k >= 0 ==> s[k] == c
    requires forall i :: k < i < |s| ==> s[i] != c
    ensures RFind(s, c) == k
  {
    if s != [] && s[|s| - 1] != c {
      var init := s[..|s| - 1];
      RFindAt(init, c, k);
    }
  }

  /** `os.path.basename(p)`: everything after the last '/'. */
  function Basename(p: string): (r: string)
    ensures '/' !in r
    ensures |r| <= |p| && r == p[|p| - |r|..]
    ensures |r| == |p| || p[|p| - |r| - 1] == '/'
  {
    RFindIsLast(p, '/');
    p[RFind(p, '/') + 1..]
  }

  /** `os.path.join(a, b)` for two components: an absolute `b` replaces `a`,
      otherwise a '/' is put between them unless `a` is empty or ends in one. */
  function PathJoin(a: string, b: string): (r: string)
    ensures |b| <= |r| && r[|r| - |b|..] == b
    ensures (b == [] || b[0] != '/') && a != [] && a[|a| - 1] != '/' ==> r == a + "/" + b
  {
    if |b| >= 1 && b[0] == '/' then b
    else if a == [] || a[|a| - 1] == '/' then a + b
    else a + "/" + b
  }

  /** `os.path.splitext(p)`: the extension starts at the last '.' of the last
      path component, provided that component has a character other than '.'
      before it (so ".bashrc" and "..x" have no extension). */
  function SplitExt(p: string): (r: (string, string))
    ensures r.0 + r.1 == p
    ensures r.1 == [] || (r.1[0] == '.' && '.' !in r.1[1..] && '/' !in r.1)
  {
    var sep := RFind(p, '/');
    var dot := RFind(p, '.');
    if dot > sep && exists i :: sep + 1 <= i < dot && p[i] != '.' then
      RFindIsLast(p, '/');
      RFindIsLast(p, '.');
      assert p[..dot] + p[dot..] == p;
      (p[..dot], p[dot..])
    else
      (p, "")
  }

  /** Upper-casing moves no '.' and no '/', so `rfind` of either is unchanged. */
  lemma RFindUpper(s: string, c: char)
    requires c == '.' || c == '/'
    ensures RFind(Upper(s), c) == RFind(s, c)
  {
    RFindIsLast(s, c);
    RFindAt(Upper(s), c, RFind(s, c));
  }

  /** The extension of an upper-cased path is the upper-cased extension. */
  lemma SplitExtUpper(p: string)
    ensures SplitExt(Upper(p)).1 == Upper(SplitExt(p).1)
  {
    var u := Upper(p);
    RFindUpper(p, '/');
    RFindUpper(p, '.');
    var sep := RFind(p, '/');
    var dot := RFind(p, '.');
    var stem := exists i :: sep + 1 <= i < dot && p[i] != '.';
    var stemU := exists i :: sep + 1 <= i < dot && u[i] != '.';
    assert stem == stemU by {
      forall i | sep + 1 <= i < dot
        ensures u[i] != '.' <==> p[i] != '.'
      {
        assert u[i] == UpperChar(p[i]);
      }
    }
    if dot > sep && stem {
      assert SplitExt(u).1 == u[dot..];
      assert u[dot..] == Upper(p[dot..]);
    } else {
      assert SplitExt(u).1 == "";
    }
  }

  /** Lowering forgets any earlier upper-casing. */
  lemma LowerOfUpper(s: string)
    ensures Lower(Upper(s)) == Lower(s)
  {
    assert forall i :: 0 <= i < |s| ==> LowerChar(UpperChar(s[i])) == LowerChar(s[i]);
  }

  /** The lower-cased extension does not depend on the case of the path. */
  lemma LowerExtUpper(p: string)
    ensures LowerExt(Upper(p)) == LowerExt(p)
  {
    SplitExtUpper(p);
    LowerOfUpper(SplitExt(p).1);
  }

  /** `os.path.splitext(os.path.basename(p))[0]`: the base name of an input,
      used for output names and log prefixes. */
  function Stem(p: string): (r: string)
    ensures '/' !in r
    ensures r <= Basename(p)
  {
    SplitExt(Basename(p)).0
  }

  /** `os.path.splitext(p)[1].lower()`. */
  function LowerExt(p: string): string {
    Lower(SplitExt(p).1)
  }
}
