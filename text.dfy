/** The pieces of Go's `fmt`, `strings` and `path/filepath` packages that the
    work-item compiler and its formatters rely on, over `string` (= seq<char>). */
module Text {

  predicate IsDigit(c: char) {
    '0' <= c <= '9'
  }

  predicate AllDigits(s: string) {
    forall i :: 0 <= i < |s| ==> IsDigit(s[i])
  }

  function DigitChar(d: nat): (c: char)
    requires d < 10
    ensures IsDigit(c)
  {
    ('0' as int + d) as char
  }

  function DigitValue(c: char): (d: nat)
    requires IsDigit(c)
    ensures d < 10 && DigitChar(d) == c
  {
    c as int - '0' as int
  }

  /** `fmt.Sprintf("%d", n)` for a non-negative integer: decimal digits,
      no sign, no leading zero. */
  function Decimal(n: nat): (r: string)
    ensures |r| > 0 && AllDigits(r)
    ensures |r| == 1 <==> n < 10
    ensures r[0] == '0' ==> n == 0
    decreases n
  {
    if n < 10 then [DigitChar(n)] else Decimal(n / 10) + [DigitChar(n % 10)]
  }

  /** Reads a string of decimal digits back as a number; the partner of Decimal. */
  function ParseDecimal(s: string): nat
    requires AllDigits(s)
  {
    if s == [] then 0 else ParseDecimal(s[..|s| - 1]) * 10 + DigitValue(s[|s| - 1])
  }

  lemma {:induction false} DecimalRoundTrip(n: nat)
    ensures ParseDecimal(Decimal(n)) == n
    decreases n
  {
    if n >= 10 {
      DecimalRoundTrip(n / 10);
      var s := Decimal(n);
      assert s[..|s| - 1] == Decimal(n / 10);
    }
  }

  /** A leading zero does not change the value a digit string denotes. */
  lemma {:induction false} LeadingZero(s: string)
    requires AllDigits(s)
    ensures AllDigits("0" + s) && ParseDecimal("0" + s) == ParseDecimal(s)
    decreases |s|
  {
    if s != [] {
      var t := "0" + s;
      assert t[..|t| - 1] == "0" + s[..|s| - 1];
      LeadingZero(s[..|s| - 1]);
    } else {
      assert ParseDecimal("0") == ParseDecimal("") * 10 + DigitValue('0');
    }
  }

  /** `fmt.Sprintf("%02d", n)`: at least two digits, zero-padded on the left,
      and still denoting n. */
  function Pad2(n: nat): (r: string)
    ensures |r| >= 2 && AllDigits(r) && ParseDecimal(r) == n
    ensures n >= 10 ==> r == Decimal(n)
    ensures n < 10 ==> |r| == 2 && r[0] == '0'
  {
    DecimalRoundTrip(n);
    if n < 10 then
      LeadingZero(Decimal(n));
      "0" + Decimal(n)
    else
      Decimal(n)
  }

  /** `filepath.Join(a, b)`, with `/` as the separator and without the
      lexical clean-up Go applies. */
  function PathJoin(a: string, b: string): string {
    a + "/" + b
  }

  /** `strings.Join(parts, sep)`. */
  function JoinWith(parts: seq<string>, sep: string): (r: string)
    ensures parts == [] ==> r == ""
    ensures |parts| == 1 ==> r == parts[0]
  {
    if parts == [] then ""
    else if |parts| == 1 then parts[0]
    else parts[0] + sep + JoinWith(parts[1..], sep)
  }

  /** `strings.Split(s, string(c))`: the pieces between occurrences of c;
      never empty ("" splits into [""]). */
  function SplitOn(s: string, c: char): (r: seq<string>)
    ensures |r| > 0
  {
    if s == [] then [""]
    else
      var rest := SplitOn(s[1..], c);
      if s[0] == c then [""] + rest else [[s[0]] + rest[0]] + rest[1..]
  }

  lemma {:induction false} SplitOnPlain(p: string, c: char)
    requires c !in p
    ensures SplitOn(p, c) == [p]
    decreases |p|
  {
    if p != [] {
      SplitOnPlain(p[1..], c);
      assert [p[0]] + p[1..] == p;
    }
  }

  lemma {:induction false} SplitOnPiece(p: string, c: char, t: string)
    requires c !in p
    ensures SplitOn(p + [c] + t, c) == [p] + SplitOn(t, c)
    decreases |p|
  {
    if p == [] {
      assert p + [c] + t == [c] + t;
      assert ([c] + t)[1..] == t;
    } else {
      var s := p + [c] + t;
      assert s[1..] == p[1..] + [c] + t;
      SplitOnPiece(p[1..], c, t);
      assert [p[0]] + p[1..] == p;
    }
  }

  /** Splitting a join on a separator that no part contains gives the parts back. */
  lemma {:induction false} SplitJoin(parts: seq<string>, c: char)
    requires |parts| > 0
    requires forall i :: 0 <= i < |parts| ==> c !in parts[i]
    ensures SplitOn(JoinWith(parts, [c]), c) == parts
    decreases |parts|
  {
    if |parts| == 1 {
      SplitOnPlain(parts[0], c);
    } else {
      SplitJoin(parts[1..], c);
      SplitOnPiece(parts[0], c, JoinWith(parts[1..], [c]));
      assert [parts[0]] + parts[1..] == parts;
    }
  }

  predicate IsCrLf(c: char) {
    c == '\r' || c == '\n'
  }

  /** `strings.TrimLeft(s, "\r\n")`: drops every leading CR and LF. */
  function TrimLeftCrLf(s: string): (r: string)
    ensures |r| <= |s| && r == s[|s| - |r|..]
    ensures r != [] ==> !IsCrLf(r[0])
    ensures forall i :: 0 <= i < |s| - |r| ==> IsCrLf(s[i])
    decreases |s|
  {
    if s != [] && IsCrLf(s[0]) then TrimLeftCrLf(s[1..]) else s
  }

  /** `strings.TrimRight(s, "\r\n")`: drops every trailing CR and LF. */
  function TrimRightCrLf(s: string): (r: string)
    ensures |r| <= |s| && r == s[..|r|]
    ensures r != [] ==> !IsCrLf(r[|r| - 1])
    ensures forall i :: |r| <= i < |s| ==> IsCrLf(s[i])
    decreases |s|
  {
    if s != [] && IsCrLf(s[|s| - 1]) then TrimRightCrLf(s[..|s| - 1]) else s
  }

  /** `strings.Trim(s, "\r\n")`: s with its leading and trailing runs of CR
      and LF cut off; everything in between is kept, and no CR or LF is left
      at either end. */
  function TrimCrLf(s: string): (r: string)
    ensures r != [] ==> !IsCrLf(r[0]) && !IsCrLf(r[|r| - 1])
    ensures exists a :: TrimmedAt(s, r, a)
  {
    var left := TrimLeftCrLf(s);
    var r := TrimRightCrLf(left);
    TrimmedFrom(s, left, r);
    r
  }

  /** A suffix of s after a run of CR and LF, cut back to a prefix before
      another such run, is the middle part of s. */
  lemma TrimmedFrom(s: string, left: string, r: string)
    requires |left| <= |s| && left == s[|s| - |left|..]
    requires forall i :: 0 <= i < |s| - |left| ==> IsCrLf(s[i])
    requires |r| <= |left| && r == left[..|r|]
    requires forall i :: |r| <= i < |left| ==> IsCrLf(left[i])
    ensures TrimmedAt(s, r, |s| - |left|)
  {
    var a := |s| - |left|;
    assert r == s[a..a + |r|];
    forall i | a + |r| <= i < |s| ensures IsCrLf(s[i]) {
      assert s[i] == left[i - a];
    }
  }

  /** r is the part of s starting at a, and everything of s before and after
      it is CR or LF. */
  predicate TrimmedAt(s: string, r: string, a: int) {
    && 0 <= a && a + |r| <= |s| && r == s[a..a + |r|]
    && (forall i :: 0 <= i < a ==> IsCrLf(s[i]))
    && (forall i :: a + |r| <= i < |s| ==> IsCrLf(s[i]))
  }

  predicate HasCrLfAt(s: string, i: int) {
    0 <= i && i + 1 < |s| && s[i] == '\r' && s[i + 1] == '\n'
  }

  /** `strings.ReplaceAll(s, "\r\n", ", ")`: left to right, non-overlapping. */
  function ReplaceCrLf(s: string): string
    decreases |s|
  {
    if |s| < 2 then s
    else if s[0] == '\r' && s[1] == '\n' then ", " + ReplaceCrLf(s[2..])
    else [s[0]] + ReplaceCrLf(s[1..])
  }

  /** Replacing keeps the length, leaves no CR LF pair behind, and keeps a
      first and last character that are not part of a CR LF pair. */
  lemma {:induction false} ReplaceCrLfClean(s: string)
    ensures |ReplaceCrLf(s)| == |s|
    ensures forall i :: !HasCrLfAt(ReplaceCrLf(s), i)
    ensures s != [] && s[0] != '\r' ==> ReplaceCrLf(s)[0] == s[0]
    ensures s != [] ==> ReplaceCrLf(s)[0] == s[0] || ReplaceCrLf(s)[0] == ','
    ensures s != [] && s[|s| - 1] != '\n' ==> ReplaceCrLf(s)[|s| - 1] == s[|s| - 1]
    decreases |s|
  {
    var r := ReplaceCrLf(s);
    if |s| < 2 {
    } else if s[0] == '\r' && s[1] == '\n' {
      ReplaceCrLfClean(s[2..]);
      var t := ReplaceCrLf(s[2..]);
      assert r == ", " + t;
      forall i ensures !HasCrLfAt(r, i) {
        if i >= 2 {
          assert !HasCrLfAt(t, i - 2);
        }
      }
    } else {
      ReplaceCrLfClean(s[1..]);
      var t := ReplaceCrLf(s[1..]);
      assert r == [s[0]] + t;
      forall i ensures !HasCrLfAt(r, i) {
        if i == 0 && |r| >= 2 {
          assert t[0] == s[1] || t[0] == ',';
          assert s[0] == '\r' ==> s[1] != '\n';
        } else if i > 0 {
          assert !HasCrLfAt(t, i - 1);
        }
      }
    }
  }

  /** With no CR LF pair to replace, ReplaceCrLf changes nothing. */
  lemma {:induction false} ReplaceCrLfNoPair(s: string)
    requires forall i :: !HasCrLfAt(s, i)
    ensures ReplaceCrLf(s) == s
    decreases |s|
  {
    if |s| >= 2 {
      assert !HasCrLfAt(s, 0);
      forall i ensures !HasCrLfAt(s[1..], i) {
        if HasCrLfAt(s[1..], i) {
          assert HasCrLfAt(s, i + 1);
        }
      }
      ReplaceCrLfNoPair(s[1..]);
      assert [s[0]] + s[1..] == s;
    }
  }
}
