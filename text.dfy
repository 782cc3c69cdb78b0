/** The Python 2 string primitives the console relies on: `strip`/`rstrip`,
    `split` on one character, `re.split(" +", ...)`, `int()` on decimal text,
    `"%d"` rendering and byte-wise string comparison. A `string` stands for a
    Python 2 byte string, one `char` per byte. */
module PyText {
  import opened Wrappers

  // ---------------------------------------------------------------------
  // Whitespace and stripping
  // ---------------------------------------------------------------------

  /** The characters Python 2's `str.strip()` removes: space, \t, \n, \v, \f, \r. */
  predicate IsSpace(c: char) {
    c == ' ' || 9 <= c as int <= 13
  }

  /** `s.rstrip()`: drop trailing whitespace. */
  function RStrip(s: string): (r: string)
    ensures |r| <= |s|
  {
    if s != [] && IsSpace(s[|s| - 1]) then RStrip(s[..|s| - 1]) else s
  }

  /** `s.lstrip()`: drop leading whitespace. */
  function LStrip(s: string): (r: string)
    ensures |r| <= |s|
  {
    if s != [] && IsSpace(s[0]) then LStrip(s[1..]) else s
  }

  /** `s.strip()`. */
  function Strip(s: string): (r: string)
    ensures |r| <= |s|
  {
    LStrip(RStrip(s))
  }

  /** `rstrip()` keeps the longest prefix that does not end in whitespace. */
  lemma {:induction false} RStripShape(s: string)
    ensures var r := RStrip(s);
      r == s[..|r|] && (r == [] || !IsSpace(r[|r| - 1])) &&
      forall i :: |r| <= i < |s| ==> IsSpace(s[i])
  {
    if s != [] && IsSpace(s[|s| - 1]) {
      RStripShape(s[..|s| - 1]);
    }
  }

  /** `lstrip()` keeps the longest suffix that does not start with whitespace. */
  lemma {:induction false} LStripShape(s: string)
    ensures var r := LStrip(s);
      r == s[|s| - |r|..] && (r == [] || !IsSpace(r[0])) &&
      forall i :: 0 <= i < |s| - |r| ==> IsSpace(s[i])
  {
    if s != [] && IsSpace(s[0]) {
      LStripShape(s[1..]);
    }
  }

  /** `strip()` leaves no whitespace at either end. */
  lemma StripEnds(s: string)
    ensures var r := Strip(s); r == [] || (!IsSpace(r[0]) && !IsSpace(r[|r| - 1]))
  {
    var r := RStrip(s);
    RStripShape(s);
    LStripShape(r);
  }

  /** A string that neither starts nor ends with whitespace is left alone by
      `strip()`. */
  lemma StripUnpadded(s: string)
    requires s == [] || (!IsSpace(s[0]) && !IsSpace(s[|s| - 1]))
    ensures Strip(s) == s
  {
  }

  /** Trailing spaces after text that starts and ends in a non-blank
      character are exactly what `strip()` removes. */
  lemma {:induction false} StripTrailingSpaces(s: string, n: nat)
    requires s != [] && !IsSpace(s[0]) && !IsSpace(s[|s| - 1])
    ensures Strip(s + Spaces(n)) == s
  {
    RStripSpaces(s, n);
  }

  lemma {:induction false} RStripSpaces(s: string, n: nat)
    requires s != [] && !IsSpace(s[|s| - 1])
    ensures RStrip(s + Spaces(n)) == s
  {
    if n > 0 {
      var t := s + Spaces(n);
      assert t[..|t| - 1] == s + Spaces(n - 1);
      RStripSpaces(s, n - 1);
    } else {
      assert s + Spaces(n) == s;
    }
  }

  /** `s.rstrip(c)` for a single character `c`: drop every trailing `c`. */
  function RStripChar(s: string, c: char): (r: string)
    ensures |r| <= |s|
    ensures r == s[..|r|]
    ensures r == [] || r[|r| - 1] != c
    ensures forall i :: |r| <= i < |s| ==> s[i] == c
  {
    if s != [] && s[|s| - 1] == c then RStripChar(s[..|s| - 1], c) else s
  }

  // ---------------------------------------------------------------------
  // Splitting
  // ---------------------------------------------------------------------

  /** `s.split(c)` for a one-character separator: the pieces between the
      occurrences of `c`, empty pieces included; never an empty list. */
  function SplitOn(s: string, c: char): (r: seq<string>)
    ensures |r| >= 1
    ensures forall k :: 0 <= k < |r| ==> c !in r[k]
  {
    if s == [] then [""]
    else
      var rest := SplitOn(s[1..], c);
      if s[0] == c then [""] + rest else [[s[0]] + rest[0]] + rest[1..]
  }

  /** `c.join(ps)` for a one-character separator. */
  function JoinOn(ps: seq<string>, c: char): string
    requires |ps| >= 1
  {
    if |ps| == 1 then ps[0] else ps[0] + [c] + JoinOn(ps[1..], c)
  }

  /** Number of occurrences of `c` in `s`. */
  function Count(s: string, c: char): nat {
    if s == [] then 0 else (if s[0] == c then 1 else 0) + Count(s[1..], c)
  }

  /** Joining the pieces of a split gives back the original string. */
  lemma {:induction false} JoinSplit(s: string, c: char)
    ensures JoinOn(SplitOn(s, c), c) == s
  {
    if s != [] {
      var rest := SplitOn(s[1..], c);
      JoinSplit(s[1..], c);
      if s[0] == c {
        assert SplitOn(s, c) == [""] + rest;
        assert ([""] + rest)[1..] == rest;
      } else {
        var r := SplitOn(s, c);
        assert r == [[s[0]] + rest[0]] + rest[1..];
        if |rest| == 1 {
        } else {
          assert r[1..] == rest[1..];
          assert JoinOn(rest, c) == rest[0] + [c] + JoinOn(rest[1..], c);
        }
      }
    }
  }

  /** Splitting a join of pieces that do not contain the separator gives the
      pieces back. */
  lemma {:induction false} SplitJoin(ps: seq<string>, c: char)
    requires |ps| >= 1
    requires forall k :: 0 <= k < |ps| ==> c !in ps[k]
    ensures SplitOn(JoinOn(ps, c), c) == ps
  {
    if |ps| == 1 {
      SplitPiece(ps[0], c);
    } else {
      SplitJoin(ps[1..], c);
      SplitPieceThen(ps[0], c, JoinOn(ps[1..], c));
      assert [ps[0]] + ps[1..] == ps;
    }
  }

  lemma {:induction false} SplitPiece(p: string, c: char)
    requires c !in p
    ensures SplitOn(p, c) == [p]
  {
    if p != [] {
      SplitPiece(p[1..], c);
      assert [p[0]] + p[1..] == p;
    }
  }

  lemma {:induction false} SplitPieceThen(p: string, c: char, t: string)
    requires c !in p
    ensures SplitOn(p + [c] + t, c) == [p] + SplitOn(t, c)
  {
    if p == [] {
      assert p + [c] + t == [c] + t;
      assert ([c] + t)[1..] == t;
    } else {
      var s := p + [c] + t;
      assert s[1..] == p[1..] + [c] + t;
      SplitPieceThen(p[1..], c, t);
      assert [p[0]] + p[1..] == p;
    }
  }

  /** A string splits into one more piece than it has separators. */
  lemma {:induction false} SplitCount(s: string, c: char)
    ensures |SplitOn(s, c)| == Count(s, c) + 1
  {
    if s != [] {
      SplitCount(s[1..], c);
    }
  }

  /** `re.split(" +", s)`: the pieces between maximal runs of spaces. A
      leading or trailing run yields an empty first or last piece, and the
      empty string yields `[""]`. */
  function SplitRuns(s: string): (r: seq<string>)
    ensures |r| >= 1
    ensures forall k :: 0 <= k < |r| ==> ' ' !in r[k]
  {
    if s == [] then [""]
    else
      var rest := SplitRuns(s[1..]);
      if s[0] == ' ' then
        (if |s| > 1 && s[1] == ' ' then rest else [""] + rest)
      else [[s[0]] + rest[0]] + rest[1..]
  }

  /** `n` spaces. */
  function Spaces(n: nat): (r: string)
    ensures |r| == n && forall i :: 0 <= i < n ==> r[i] == ' '
  {
    if n == 0 then [] else [' '] + Spaces(n - 1)
  }

  /** Words with a run of `gaps[k]` spaces between word `k` and word `k + 1`,
      the layout of a `_cat/indices` line. */
  function JoinGaps(ws: seq<string>, gaps: seq<nat>): string
    requires |ws| >= 1 && |gaps| == |ws| - 1
  {
    if |ws| == 1 then ws[0] else ws[0] + Spaces(gaps[0]) + JoinGaps(ws[1..], gaps[1..])
  }

  /** Appending one more gap and word at the end of a join. */
  lemma {:induction false} JoinGapsSnoc(ws: seq<string>, gaps: seq<nat>, w: string, g: nat)
    requires |ws| >= 1 && |gaps| == |ws| - 1
    ensures JoinGaps(ws + [w], gaps + [g]) == JoinGaps(ws, gaps) + Spaces(g) + w
  {
    if |ws| > 1 {
      assert (ws + [w])[1..] == ws[1..] + [w];
      assert (gaps + [g])[1..] == gaps[1..] + [g];
      JoinGapsSnoc(ws[1..], gaps[1..], w, g);
    }
  }

  /** The words of a line, separated by runs of one or more spaces, split
      back into the same words. */
  lemma {:induction false} SplitRunsGaps(ws: seq<string>, gaps: seq<nat>)
    requires |ws| >= 1 && |gaps| == |ws| - 1
    requires forall k :: 0 <= k < |ws| ==> ws[k] != [] && ' ' !in ws[k]
    requires forall k :: 0 <= k < |gaps| ==> gaps[k] >= 1
    ensures SplitRuns(JoinGaps(ws, gaps)) == ws
  {
    if |ws| == 1 {
      RunsPiece(ws[0]);
    } else {
      SplitRunsGaps(ws[1..], gaps[1..]);
      var t := JoinGaps(ws[1..], gaps[1..]);
      JoinGapsEnds(ws[1..], gaps[1..]);
      RunsGap(ws[0], gaps[0], t);
      assert [ws[0]] + ws[1..] == ws;
    }
  }

  /** A join of non-empty words starts with the first word's first character
      and ends with the last word's last character. */
  lemma {:induction false} JoinGapsEnds(ws: seq<string>, gaps: seq<nat>)
    requires |ws| >= 1 && |gaps| == |ws| - 1 && forall k :: 0 <= k < |ws| ==> ws[k] != []
    ensures var s := JoinGaps(ws, gaps);
      s != [] && s[0] == ws[0][0] && s[|s| - 1] == ws[|ws| - 1][|ws[|ws| - 1]| - 1]
  {
    if |ws| > 1 {
      JoinGapsEnds(ws[1..], gaps[1..]);
    }
  }

  lemma {:induction false} RunsPiece(p: string)
    requires ' ' !in p
    ensures SplitRuns(p) == [p]
  {
    if p != [] {
      RunsPiece(p[1..]);
      assert [p[0]] + p[1..] == p;
    }
  }

  /** A run of spaces at the front gives an empty first piece, however long
      the run is. */
  lemma {:induction false} RunsSpaces(n: nat, t: string)
    requires n >= 1 && t != [] && t[0] != ' '
    ensures SplitRuns(Spaces(n) + t) == [""] + SplitRuns(t)
  {
    var s := Spaces(n) + t;
    if n == 1 {
      assert s[1..] == t;
    } else {
      assert s[1..] == Spaces(n - 1) + t;
      RunsSpaces(n - 1, t);
    }
  }

  /** `re.split(" +", p + <n spaces> + t)` is `p` followed by the pieces of
      `t`, for any run length `n >= 1`. */
  lemma {:induction false} RunsGap(p: string, n: nat, t: string)
    requires ' ' !in p && n >= 1
    requires t != [] && t[0] != ' '
    ensures SplitRuns(p + Spaces(n) + t) == [p] + SplitRuns(t)
  {
    var s := p + Spaces(n) + t;
    if p == [] {
      assert s == Spaces(n) + t;
      RunsSpaces(n, t);
    } else {
      assert s[1..] == p[1..] + Spaces(n) + t;
      RunsGap(p[1..], n, t);
      assert [p[0]] + p[1..] == p;
    }
  }

  // ---------------------------------------------------------------------
  // Decimal digits, int() and "%d"
  // ---------------------------------------------------------------------

  predicate IsDigit(c: char) {
    '0' <= c <= '9'
  }

  predicate AllDigits(s: string) {
    forall i :: 0 <= i < |s| ==> IsDigit(s[i])
  }

  function DigitValue(c: char): nat
    requires IsDigit(c)
  {
    c as int - '0' as int
  }

  function DigitChar(d: nat): (c: char)
    requires d < 10
    ensures IsDigit(c) && DigitValue(c) == d
  {
    ('0' as int + d) as char
  }

  /** The value of a string of decimal digits, most significant first. */
  function DigitsValue(s: string): nat
    requires AllDigits(s)
  {
    if s == [] then 0 else DigitsValue(s[..|s| - 1]) * 10 + DigitValue(s[|s| - 1])
  }

  /** `"%d" % n` for a non-negative `n`: no leading zeros, at least one digit. */
  function Decimal(n: nat): (r: string)
    ensures AllDigits(r) && 1 <= |r|
    ensures DigitsValue(r) == n
    ensures |r| > 1 ==> r[0] != '0'
  {
    if n < 10 then [DigitChar(n)]
    else
      var p := Decimal(n / 10);
      var r := p + [DigitChar(n % 10)];
      assert r[..|r| - 1] == p;
      r
  }

  function Zeros(k: nat): (r: string)
    ensures |r| == k && AllDigits(r)
    ensures forall i :: 0 <= i < k ==> r[i] == '0'
  {
    if k == 0 then [] else Zeros(k - 1) + ['0']
  }

  /** `"%0wd" % n` for a non-negative `n`: left-padded with zeros to width `w`;
      a rendering wider than `w` has no padding, so no leading zero unless it
      is the single digit of `0`. */
  function ZeroPadded(n: nat, w: nat): (r: string)
    ensures AllDigits(r) && |r| >= w && |r| >= 1
    ensures |r| > w ==> |r| == 1 || r[0] != '0'
  {
    var d := Decimal(n);
    if |d| < w then Zeros(w - |d|) + d else d
  }

  /** Leading zeros do not change the value of a digit string. */
  lemma {:induction false} LeadingZeros(k: nat, s: string)
    requires AllDigits(s)
    ensures AllDigits(Zeros(k) + s)
    ensures DigitsValue(Zeros(k) + s) == DigitsValue(s)
  {
    var z := Zeros(k) + s;
    if s == [] {
      assert z == Zeros(k);
      ZerosValue(k);
    } else {
      LeadingZeros(k, s[..|s| - 1]);
      assert z[..|z| - 1] == Zeros(k) + s[..|s| - 1];
    }
  }

  lemma {:induction false} ZerosValue(k: nat)
    ensures DigitsValue(Zeros(k)) == 0
  {
    if k > 0 {
      ZerosValue(k - 1);
      assert Zeros(k)[..k - 1] == Zeros(k - 1);
    }
  }

  /** The digits of a zero-padded rendering still denote the number. */
  lemma ZeroPaddedValue(n: nat, w: nat)
    ensures DigitsValue(ZeroPadded(n, w)) == n
  {
    var d := Decimal(n);
    if |d| < w {
      LeadingZeros(w - |d|, d);
    }
  }

  /** Python 2's `int(s)` for base 10: surrounding whitespace is ignored, an
      optional sign may precede the digits with whitespace allowed between
      the sign and the first digit, and anything else is a `ValueError`
      (here `None`). A negative result comes only from a minus sign. */
  function PyInt(s: string): (r: Option<int>)
    ensures r.Some? ==> Strip(s) != []
    ensures r.Some? && r.value < 0 ==> Strip(s)[0] == '-'
  {
    SignedDigits(Strip(s))
  }

  /** The stripped text `int()` accepts: an optional sign, optional
      whitespace after it, then one or more digits. */
  function SignedDigits(t: string): (r: Option<int>)
    ensures r.Some? ==> t != []
    ensures r.Some? && r.value < 0 ==> t[0] == '-'
  {
    if t == [] then None
    else if t[0] == '+' || t[0] == '-' then
      var u := LStrip(t[1..]);
      (if u != [] && AllDigits(u)
       then Some(if t[0] == '-' then -(DigitsValue(u) as int) else DigitsValue(u))
       else None)
    else if AllDigits(t) then Some(DigitsValue(t))
    else None
  }

  /** `int()` reads back a digit string as its value. */
  lemma PyIntDigits(s: string)
    requires AllDigits(s) && s != []
    ensures PyInt(s) == Some(DigitsValue(s))
  {
    StripUnpadded(s);
  }

  /** `int()` reads back a minus sign followed by digits as the negated value. */
  lemma PyIntNegative(s: string)
    requires AllDigits(s) && s != []
    ensures PyInt("-" + s) == Some(-(DigitsValue(s) as int))
  {
    var t := "-" + s;
    StripUnpadded(t);
    assert t[1..] == s;
    assert LStrip(s) == s;
  }

  /** `int()` also skips whitespace between the sign and the digits, so
      `int("-   5")` is `-5`. */
  lemma PyIntSpacedSign(n: nat, s: string)
    requires AllDigits(s) && s != []
    ensures PyInt("-" + Spaces(n) + s) == Some(-(DigitsValue(s) as int))
  {
    var w := Spaces(n) + s;
    LStripSpaces(n, s);
    var t := "-" + w;
    assert t == "-" + Spaces(n) + s;
    assert t[1..] == w;
    assert !IsSpace(t[|t| - 1]) by {
      assert t[|t| - 1] == s[|s| - 1];
    }
    StripUnpadded(t);
    PyIntMinus(t, s);
  }

  lemma PyIntMinus(t: string, u: string)
    requires Strip(t) == t && t != [] && t[0] == '-'
    requires LStrip(t[1..]) == u && u != [] && AllDigits(u)
    ensures PyInt(t) == Some(-(DigitsValue(u) as int))
  {
  }

  lemma {:induction false} LStripSpaces(n: nat, s: string)
    requires s != [] && !IsSpace(s[0])
    ensures LStrip(Spaces(n) + s) == s
  {
    if n > 0 {
      assert (Spaces(n) + s)[1..] == Spaces(n - 1) + s;
      LStripSpaces(n - 1, s);
    } else {
      assert Spaces(n) + s == s;
    }
  }

  /** `int()` fails on text that holds a character other than whitespace, a
      sign or a digit. */
  lemma PyIntRejects(s: string, i: nat)
    requires i < |s| && !IsDigit(s[i]) && !IsSpace(s[i]) && s[i] != '+' && s[i] != '-'
    ensures PyInt(s) == None
  {
    var j := StripKeeps(s, i);
    var t := Strip(s);
    assert !IsDigit(t[j]);
    if t[0] == '+' || t[0] == '-' {
      var v := t[1..];
      assert j >= 1 && v[j - 1] == t[j];
      LStripShape(v);
      var u := LStrip(v);
      assert j - 1 >= |v| - |u|;
      assert u[j - 1 - (|v| - |u|)] == t[j];
    }
  }

  /** A non-whitespace character of `s` survives `strip()`. */
  lemma StripKeeps(s: string, i: nat) returns (j: nat)
    requires i < |s| && !IsSpace(s[i])
    ensures j < |Strip(s)| && Strip(s)[j] == s[i]
  {
    var r := RStrip(s);
    RStripShape(s);
    assert i < |r|;
    var t := LStrip(r);
    LStripShape(r);
    assert |r| - |t| <= i;
    j := i - (|r| - |t|);
    assert t[j] == r[i];
  }

  // ---------------------------------------------------------------------
  // Python 2 string comparison
  // ---------------------------------------------------------------------

  /** `a <= b` on Python 2 byte strings: lexicographic by character code, a
      proper prefix before the longer string. */
  predicate LexLe(a: string, b: string) {
    a == [] || (b != [] && (a[0] < b[0] || (a[0] == b[0] && LexLe(a[1..], b[1..]))))
  }

  lemma {:induction false} LexLeTotal(a: string, b: string)
    ensures LexLe(a, b) || LexLe(b, a)
  {
    if a != [] && b != [] && a[0] == b[0] {
      LexLeTotal(a[1..], b[1..]);
    }
  }

  lemma {:induction false} LexLeTrans(a: string, b: string, c: string)
    requires LexLe(a, b) && LexLe(b, c)
    ensures LexLe(a, c)
  {
    if a != [] && b != [] && c != [] && a[0] == b[0] && b[0] == c[0] {
      LexLeTrans(a[1..], b[1..], c[1..]);
    }
  }

  lemma {:induction false} LexLeAntisym(a: string, b: string)
    requires LexLe(a, b) && LexLe(b, a)
    ensures a == b
  {
    if a != [] && b != [] {
      LexLeAntisym(a[1..], b[1..]);
      assert a == [a[0]] + a[1..];
      assert b == [b[0]] + b[1..];
    }
  }
}
