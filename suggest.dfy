/** The name the console proposes for a new index created after the one
    under the cursor (`append_index_after_index_under_cursor`): the name is
    split at its one `.`, the text after it loses its trailing `z`s and is
    read with `int()`, and the proposal is the prefix, a `.`, the number
    plus one written with `%03d`, and `z`. */
module Suggestion {
  import opened Wrappers
  import opened PyText
  import opened CatIndices

  /** Why no proposal can be made: each is an exception in the console. */
  datatype SuggestError =
    | NothingFocused                 // an empty list has no entry under the cursor
    | LineError(cause: ParseError)   // the line does not parse
    | NoIndexName                    // `index` is `None`: no `split`
    | NotTwoParts(parts: nat)        // unpacking into `ts, msec` fails
    | BadNumber(text: string)        // `int()` rejects the suffix

  /** `"%03d" % n`: at least three characters; for a negative `n` the
      minus sign counts toward the width. */
  function Format03(n: int): (r: string)
    ensures |r| >= 3
    ensures n >= 0 ==> AllDigits(r)
    ensures n < 0 ==> r[0] == '-' && AllDigits(r[1..])
    ensures |r| > 3 ==> r[0] != '0' && (r[0] == '-' ==> r[1] != '0')
  {
    if n >= 0 then ZeroPadded(n, 3)
    else
      var r := "-" + ZeroPadded(-n, 2);
      assert r[1..] == ZeroPadded(-n, 2);
      r
  }

  /** `int()` reads `"%03d" % n` back as `n`. */
  lemma Format03Value(n: int)
    ensures PyInt(Format03(n)) == Some(n)
  {
    if n >= 0 {
      ZeroPaddedValue(n, 3);
      PyIntDigits(Format03(n));
    } else {
      ZeroPaddedValue(-n, 2);
      PyIntNegative(ZeroPadded(-n, 2));
    }
  }

  /** The text after the `.`, with its trailing `z`s removed. */
  function Millis(suffix: string): string {
    RStripChar(suffix, 'z')
  }

  /** The proposal for an index name. */
  function NextName(index: string): (r: Result<string, SuggestError>)
    ensures r.Err? ==> r.error.NotTwoParts? || r.error.BadNumber?
  {
    var parts := SplitOn(index, '.');
    if |parts| != 2 then Err(NotTwoParts(|parts|))
    else
      match PyInt(Millis(parts[1]))
      case None => Err(BadNumber(Millis(parts[1])))
      case Some(n) => Ok(parts[0] + "." + Format03(n + 1) + "z")
  }

  /** What the creation popup is opened with: the name it follows, the
      proposed name, and the `pri` and `rep` of the index under the cursor
      as default primaries and replicas. */
  datatype CreateDefaults =
    CreateDefaults(after: string, name: string, primaries: Option<int>, replicas: Option<int>)

  /** The proposal for the line under the cursor, which is parsed first. */
  function SuggestFor(line: string): (r: Result<CreateDefaults, SuggestError>)
    ensures r.Ok? ==> Parse(line).Ok? && Parse(line).value.index == Some(r.value.after) &&
                      NextName(r.value.after) == Ok(r.value.name)
    ensures r.Ok? ==> r.value.primaries == Parse(line).value.pri && r.value.replicas == Parse(line).value.rep
  {
    match Parse(line)
    case Err(e) => Err(LineError(e))
    case Ok(rec) =>
      match rec.index
      case None => Err(NoIndexName)
      case Some(name) =>
        match NextName(name)
        case Err(e) => Err(e)
        case Ok(next) => Ok(CreateDefaults(name, next, rec.pri, rec.rep))
  }

  // ---------------------------------------------------------------------
  // Properties
  // ---------------------------------------------------------------------

  /** A name with exactly one `.` is the prefix, the `.` and the suffix, and
      neither part holds a `.`. */
  lemma OneDot(index: string)
    requires Count(index, '.') == 1
    ensures var parts := SplitOn(index, '.');
      |parts| == 2 && index == parts[0] + "." + parts[1] && '.' !in parts[0] && '.' !in parts[1]
  {
    SplitCount(index, '.');
    JoinSplit(index, '.');
    var parts := SplitOn(index, '.');
    assert JoinOn(parts, '.') == parts[0] + "." + JoinOn(parts[1..], '.');
  }

  /** The proposal fails exactly when the name does not hold exactly one
      `.`, or when `int()` rejects what follows it without its `z`s. */
  lemma NextNameFails(index: string)
    ensures |SplitOn(index, '.')| == Count(index, '.') + 1
    ensures NextName(index).Err? <==>
              Count(index, '.') != 1 || PyInt(Millis(SplitOn(index, '.')[1])).None?
    ensures NextName(index) == Err(NotTwoParts(Count(index, '.') + 1)) <==> Count(index, '.') != 1
  {
    SplitCount(index, '.');
  }

  /** A name that splits into `a` and `b`, where `b` reads as `n`, gets
      the proposal `a.<n + 1>z`. */
  lemma NextNameOfParts(index: string, a: string, b: string, n: int)
    requires SplitOn(index, '.') == [a, b]
    requires PyInt(Millis(b)) == Some(n)
    ensures NextName(index) == Ok(a + "." + Format03(n + 1) + "z")
  {
    var parts := SplitOn(index, '.');
    assert |parts| == 2 && parts[0] == a && parts[1] == b;
    assert PyInt(Millis(parts[1])) == Some(n);
  }

  /** For a name `ts.<suffix>` whose suffix reads as `n`, the proposal
      keeps `ts` and writes `n + 1`. */
  lemma NextNameOf(ts: string, suffix: string, n: int)
    requires '.' !in ts && '.' !in suffix
    requires PyInt(Millis(suffix)) == Some(n)
    ensures NextName(ts + "." + suffix) == Ok(ts + "." + Format03(n + 1) + "z")
  {
    SplitPieceThen(ts, '.', suffix);
    SplitPiece(suffix, '.');
    NextNameOfParts(ts + "." + suffix, ts, suffix, n);
  }

  /** The written number followed by `z` holds no `.` and loses exactly its
      `z` to `rstrip("z")`, so `int()` reads the number back. */
  lemma WrittenSuffix(m: int)
    ensures '.' !in Format03(m) + "z"
    ensures Millis(Format03(m) + "z") == Format03(m)
    ensures PyInt(Millis(Format03(m) + "z")) == Some(m)
  {
    var f := Format03(m);
    var suffix := f + "z";
    assert '.' !in f by {
      if m < 0 {
        assert f == [f[0]] + f[1..];
      }
    }
    assert suffix[..|suffix| - 1] == f;
    assert f[|f| - 1] != 'z';
    Format03Value(m);
  }

  /** A proposal `ts.<m>z` has one `.`, splits into `ts` and the written
      suffix, and its suffix reads back as `m`. */
  lemma ProposalParts(ts: string, m: int)
    requires '.' !in ts
    ensures var next := ts + "." + Format03(m) + "z";
      Count(next, '.') == 1 && SplitOn(next, '.') == [ts, Format03(m) + "z"]
  {
    var suffix := Format03(m) + "z";
    WrittenSuffix(m);
    assert ts + "." + Format03(m) + "z" == ts + "." + suffix;
    SplitPieceThen(ts, '.', suffix);
    SplitPiece(suffix, '.');
    SplitCount(ts + "." + suffix, '.');
  }

  /** The proposal is again a name of the form the console expects: one
      `.`, the same prefix, and a suffix that reads back as the number plus
      one. */
  lemma NextNameReadsBack(index: string)
    requires NextName(index).Ok?
    ensures var parts := SplitOn(index, '.');
      var n := PyInt(Millis(parts[1])).value;
      var next := NextName(index).value;
      Count(next, '.') == 1 && |SplitOn(next, '.')| == 2 &&
      SplitOn(next, '.')[0] == parts[0] &&
      PyInt(Millis(SplitOn(next, '.')[1])) == Some(n + 1)
  {
    var parts := SplitOn(index, '.');
    var n := PyInt(Millis(parts[1])).value;
    assert NextName(index).value == parts[0] + "." + Format03(n + 1) + "z";
    ProposalReadsBack(parts[0], n + 1, NextName(index).value);
  }

  lemma ProposalReadsBack(ts: string, m: int, next: string)
    requires '.' !in ts && next == ts + "." + Format03(m) + "z"
    ensures Count(next, '.') == 1 && |SplitOn(next, '.')| == 2
    ensures SplitOn(next, '.')[0] == ts && PyInt(Millis(SplitOn(next, '.')[1])) == Some(m)
  {
    ProposalParts(ts, m);
    WrittenSuffix(m);
  }

  /** Taking the proposal of the proposal adds two. */
  lemma NextNameTwice(ts: string, suffix: string, n: int)
    requires '.' !in ts && '.' !in suffix
    requires PyInt(Millis(suffix)) == Some(n)
    ensures NextName(ts + "." + suffix).Ok?
    ensures NextName(NextName(ts + "." + suffix).value) == Ok(ts + "." + Format03(n + 2) + "z")
  {
    NextNameOf(ts, suffix, n);
    WrittenSuffix(n + 1);
    NextNameOf(ts, Format03(n + 1) + "z", n + 1);
    assert ts + "." + Format03(n + 1) + "z" == ts + "." + (Format03(n + 1) + "z");
  }

  lemma ThreeDigits(s: string)
    requires |s| == 3 && AllDigits(s)
    ensures DigitsValue(s) == 100 * DigitValue(s[0]) + 10 * DigitValue(s[1]) + DigitValue(s[2])
  {
    var a, b := s[..2], s[..1];
    assert DigitsValue(b) == DigitValue(s[0]) by {
      assert b[..0] == [] && b[0] == s[0];
    }
    assert DigitsValue(a) == DigitsValue(b) * 10 + DigitValue(s[1]) by {
      assert a[..1] == b && a[1] == s[1];
    }
    assert s[..2] == a;
  }

  /** `NextNameOf` with the written number given as text. */
  lemma NextNameWritten(ts: string, suffix: string, n: int, written: string)
    requires '.' !in ts && '.' !in suffix
    requires PyInt(Millis(suffix)) == Some(n) && Format03(n + 1) == written
    ensures NextName(ts + "." + suffix) == Ok(ts + "." + written + "z")
  {
    NextNameOf(ts, suffix, n);
  }

  lemma ReadsAsZero()
    ensures PyInt(Millis("000z")) == Some(0) && '.' !in "000z"
  {
    assert Millis("000z") == "000";
    assert AllDigits("000");
    PyIntDigits("000");
    ThreeDigits("000");
  }

  lemma WritesOne()
    ensures Format03(1) == "001"
  {
    assert Decimal(1) == "1";
    assert Zeros(2) == "00";
  }

  /** `.000z` is followed by `.001z`. */
  lemma NextAfterZero(ts: string)
    requires '.' !in ts
    ensures NextName(ts + "." + "000z") == Ok(ts + "." + "001" + "z")
  {
    ReadsAsZero();
    WritesOne();
    NextNameWritten(ts, "000z", 0, "001");
  }

  lemma ReadsAsNines()
    ensures PyInt(Millis("999z")) == Some(999) && '.' !in "999z"
  {
    assert Millis("999z") == "999";
    assert AllDigits("999");
    PyIntDigits("999");
    ThreeDigits("999");
  }

  lemma WritesThousand()
    ensures Format03(1000) == "1000"
  {
    assert Decimal(1) == "1";
    assert Decimal(10) == "10";
    assert Decimal(100) == "100";
    assert Decimal(1000) == "1000";
  }

  /** `.999z` is followed by `.1000z`: the width grows past three. */
  lemma NextAfterNines(ts: string)
    requires '.' !in ts
    ensures NextName(ts + "." + "999z") == Ok(ts + "." + "1000" + "z")
  {
    ReadsAsNines();
    WritesThousand();
    NextNameWritten(ts, "999z", 999, "1000");
  }

  /** A name without a `.`, or with two, gets no proposal. */
  lemma NoProposalWithoutOneDot(index: string)
    requires Count(index, '.') != 1
    ensures NextName(index).Err? && NextName(index).error.NotTwoParts?
  {
    NextNameFails(index);
  }
}
