/** One line of the Elasticsearch 1.7 `_cat/indices` text, parsed into a
    record with nine optional fields (`CatIndicesResponseLine` in the newer
    console, `CatIndicesLine` in the older one). */
module CatIndices {
  import opened Wrappers
  import opened PyText

  /** The column order of `_cat/indices` in Elasticsearch 1.7. */
  const Headers: seq<string> :=
    ["health", "status", "index", "pri", "rep", "docs_count", "docs_deleted", "store_size", "pri_store_size"]

  /** The columns converted with `int()`. */
  const IntFields: set<string> := {"pri", "rep", "docs_count", "docs_deleted"}

  /** A parsed line. `line` is the raw text, which `__repr__` returns. */
  datatype IndexLine = IndexLine(
    line: string,
    health: Option<string>,
    status: Option<string>,
    index: Option<string>,
    pri: Option<int>,
    rep: Option<int>,
    docsCount: Option<int>,
    docsDeleted: Option<int>,
    storeSize: Option<string>,
    priStoreSize: Option<string>)

  /** The value held under one header: still `None`, a text token, or an
      integer. */
  datatype FieldValue = Unset | Text(text: string) | Number(n: int)

  /** `int()` raised `ValueError` on the token under `header`. */
  datatype ParseError = MalformedField(header: string, token: string)

  predicate IsIntHeader(k: nat)
    requires k < |Headers|
  {
    Headers[k] in IntFields
  }

  /** `pri`, `rep`, `docs_count` and `docs_deleted` sit at positions 3 to 6. */
  lemma IntHeaderPositions(k: nat)
    requires k < |Headers|
    ensures IsIntHeader(k) <==> 3 <= k <= 6
  {
    assert Headers[0] == "health" && Headers[1] == "status" && Headers[2] == "index";
    assert Headers[7] == "store_size" && Headers[8] == "pri_store_size";
  }

  /** The record before any token is stored: every header `None`. */
  function Blank(line: string): IndexLine {
    IndexLine(line, None, None, None, None, None, None, None, None, None)
  }

  lemma BlankUnset(line: string, k: nat)
    requires k < |Headers|
    ensures Get(Blank(line), k) == Unset
  {
  }

  function TextOf(v: FieldValue): Option<string> {
    if v.Text? then Some(v.text) else None
  }

  function NumberOf(v: FieldValue): Option<int> {
    if v.Number? then Some(v.n) else None
  }

  function FromText(o: Option<string>): FieldValue {
    if o.Some? then Text(o.value) else Unset
  }

  function FromNumber(o: Option<int>): FieldValue {
    if o.Some? then Number(o.value) else Unset
  }

  /** `getattr(r, Headers[k])`. */
  function Get(r: IndexLine, k: nat): FieldValue
    requires k < |Headers|
  {
    if k == 0 then FromText(r.health)
    else if k == 1 then FromText(r.status)
    else if k == 2 then FromText(r.index)
    else if k == 3 then FromNumber(r.pri)
    else if k == 4 then FromNumber(r.rep)
    else if k == 5 then FromNumber(r.docsCount)
    else if k == 6 then FromNumber(r.docsDeleted)
    else if k == 7 then FromText(r.storeSize)
    else FromText(r.priStoreSize)
  }

  /** A value of the kind header `k` holds. */
  predicate Fits(k: nat, v: FieldValue)
    requires k < |Headers|
  {
    v.Unset? || (v.Number? <==> 3 <= k <= 6)
  }

  /** `setattr(r, Headers[k], v)`: only header `k` changes. */
  function Store(r: IndexLine, k: nat, v: FieldValue): (r': IndexLine)
    requires k < |Headers| && Fits(k, v)
    ensures Get(r', k) == v
    ensures forall j :: 0 <= j < |Headers| && j != k ==> Get(r', j) == Get(r, j)
    ensures r'.line == r.line
  {
    if k == 0 then r.(health := TextOf(v))
    else if k == 1 then r.(status := TextOf(v))
    else if k == 2 then r.(index := TextOf(v))
    else if k == 3 then r.(pri := NumberOf(v))
    else if k == 4 then r.(rep := NumberOf(v))
    else if k == 5 then r.(docsCount := NumberOf(v))
    else if k == 6 then r.(docsDeleted := NumberOf(v))
    else if k == 7 then r.(storeSize := TextOf(v))
    else r.(priStoreSize := TextOf(v))
  }

  /** The value a token takes under header `k`: `int(tok)` for the integer
      columns (`None` when `int()` raises), the token itself otherwise. */
  function Convert(k: nat, tok: string): (v: Option<FieldValue>)
    requires k < |Headers|
    ensures v.Some? ==> Fits(k, v.value) && !v.value.Unset?
  {
    IntHeaderPositions(k);
    if IsIntHeader(k) then
      (match PyInt(tok)
       case None => None
       case Some(n) => Some(Number(n)))
    else Some(Text(tok))
  }

  /** The integer columns hold `int(tok)` or fail; the others hold the token. */
  lemma ConvertCases(k: nat, tok: string)
    requires k < |Headers|
    ensures 3 <= k <= 6 ==>
              Convert(k, tok) == if PyInt(tok).Some? then Some(Number(PyInt(tok).value)) else None
    ensures !(3 <= k <= 6) ==> Convert(k, tok) == Some(Text(tok))
  {
    IntHeaderPositions(k);
  }

  /** `re.split(" +", line.strip())`. */
  function Tokens(line: string): seq<string> {
    SplitRuns(Strip(line))
  }

  function Min(a: nat, b: nat): nat {
    if a <= b then a else b
  }

  /** The positional `zip(hdrs, fields)` loop from position `k` on: store
      token `j` under header `j` while both lists last, stopping at the first
      token `int()` rejects. */
  function FillFrom(r: IndexLine, toks: seq<string>, k: nat): Result<IndexLine, ParseError>
    decreases |Headers| - k
  {
    if k >= Min(|Headers|, |toks|) then Ok(r)
    else
      var v := Convert(k, toks[k]);
      if v.None? then Err(MalformedField(Headers[k], toks[k]))
      else FillFrom(Store(r, k, v.value), toks, k + 1)
  }

  /** The record for `line` split into `toks`: two tokens are a closed index
      (`status` and `index` only), anything else is read positionally. */
  function ParseTokens(line: string, toks: seq<string>): Result<IndexLine, ParseError> {
    if |toks| == 2 then Ok(Blank(line).(status := Some(toks[0]), index := Some(toks[1])))
    else FillFrom(Blank(line), toks, 0)
  }

  /** What constructing `CatIndicesResponseLine(line)` yields. */
  function Parse(line: string): Result<IndexLine, ParseError> {
    ParseTokens(line, Tokens(line))
  }

  /** The constructor: set every header to `None`, split the line, then
      either take the closed-index shortcut or store the tokens positionally. */
  method ParseLine(line: string) returns (res: Result<IndexLine, ParseError>)
    ensures res == Parse(line)
  {
    var r := Blank(line);
    var fields := Tokens(line);
    if |fields| == 2 {
      r := r.(status := Some(fields[0]), index := Some(fields[1]));
      return Ok(r);
    }
    var n := Min(|Headers|, |fields|);
    var k := 0;
    while k < n
      invariant 0 <= k <= n
      invariant FillFrom(r, fields, k) == ParseTokens(line, fields)
    {
      var v := Convert(k, fields[k]);
      if v.None? {
        return Err(MalformedField(Headers[k], fields[k]));
      }
      r := Store(r, k, v.value);
      k := k + 1;
    }
    res := Ok(r);
  }

  /** `__repr__`: the raw line. */
  function Repr(r: IndexLine): string {
    r.line
  }

  // ---------------------------------------------------------------------
  // Properties of the parse
  // ---------------------------------------------------------------------

  /** What the fill loop from `k` does: it succeeds exactly when every
      remaining token converts, and then holds the converted token under each
      remaining header and leaves the others as they were. */
  lemma {:induction false} FillFromFields(r: IndexLine, toks: seq<string>, k: nat)
    requires k <= |Headers|
    ensures FillFrom(r, toks, k).Ok? <==>
              forall j :: k <= j < Min(|Headers|, |toks|) ==> Convert(j, toks[j]).Some?
    ensures FillFrom(r, toks, k).Ok? ==>
              FillFrom(r, toks, k).value.line == r.line &&
              forall j :: 0 <= j < |Headers| ==>
                Get(FillFrom(r, toks, k).value, j) ==
                  if k <= j < Min(|Headers|, |toks|) then Convert(j, toks[j]).value else Get(r, j)
    decreases |Headers| - k
  {
    if k < Min(|Headers|, |toks|) {
      var v := Convert(k, toks[k]);
      if v.Some? {
        FillFromFields(Store(r, k, v.value), toks, k + 1);
      }
    }
  }

  /** When the fill loop fails, it names the first token `int()` rejects. */
  lemma {:induction false} FillFromError(r: IndexLine, toks: seq<string>, k: nat) returns (j: nat)
    requires k <= |Headers|
    requires FillFrom(r, toks, k).Err?
    ensures k <= j < Min(|Headers|, |toks|)
    ensures Convert(j, toks[j]).None?
    ensures FillFrom(r, toks, k).error == MalformedField(Headers[j], toks[j])
    ensures forall i :: k <= i < j ==> Convert(i, toks[i]).Some?
    decreases |Headers| - k
  {
    assert k < Min(|Headers|, |toks|);
    var v := Convert(k, toks[k]);
    if v.Some? {
      var r' := Store(r, k, v.value);
      assert FillFrom(r, toks, k) == FillFrom(r', toks, k + 1);
      j := FillFromError(r', toks, k + 1);
      forall i | k <= i < j ensures Convert(i, toks[i]).Some? {
        if i == k {
          assert toks[i] == toks[k];
        }
      }
    } else {
      j := k;
    }
  }

  /** A line of exactly two tokens is a closed index: token 0 is `status`,
      token 1 is `index`, and the seven other fields stay `None`. */
  lemma ClosedLine(line: string, toks: seq<string>)
    requires |toks| == 2
    ensures ParseTokens(line, toks).Ok?
    ensures var r := ParseTokens(line, toks).value;
      r.line == line && r.status == Some(toks[0]) && r.index == Some(toks[1]) &&
      forall j :: 0 <= j < |Headers| && j != 1 && j != 2 ==> Get(r, j) == Unset
  {
  }

  /** The fill loop from the first header succeeds exactly when each
      integer-column token is a number. */
  lemma FillSucceeds(line: string, toks: seq<string>)
    ensures FillFrom(Blank(line), toks, 0).Ok? <==>
              forall k :: 3 <= k <= 6 && k < |toks| ==> PyInt(toks[k]).Some?
  {
    var n := Min(|Headers|, |toks|);
    FillFromFields(Blank(line), toks, 0);
    forall k | 0 <= k < n {
      ConvertCases(k, toks[k]);
    }
  }

  /** Header `k` after a successful fill from the first header: the
      converted token while tokens last, `None` after. */
  lemma FillAt(line: string, toks: seq<string>, k: nat)
    requires FillFrom(Blank(line), toks, 0).Ok? && k < |Headers|
    ensures var r := FillFrom(Blank(line), toks, 0).value;
      r.line == line &&
      (k < |toks| ==> Convert(k, toks[k]).Some? && Get(r, k) == Convert(k, toks[k]).value) &&
      (|toks| <= k ==> Get(r, k) == Unset)
  {
    FillFromFields(Blank(line), toks, 0);
    BlankUnset(line, k);
  }

  /** What a successful fill from the first header holds under each header. */
  lemma FillValues(line: string, toks: seq<string>)
    requires FillFrom(Blank(line), toks, 0).Ok?
    ensures var r := FillFrom(Blank(line), toks, 0).value;
      r.line == line &&
      (forall k :: 0 <= k < |Headers| && |toks| <= k ==> Get(r, k) == Unset) &&
      (forall k :: 0 <= k < |Headers| && k < |toks| && !(3 <= k <= 6) ==> Get(r, k) == Text(toks[k])) &&
      (forall k :: 3 <= k <= 6 && k < |toks| ==>
                     PyInt(toks[k]).Some? && Get(r, k) == Number(PyInt(toks[k]).value))
  {
    var r := FillFrom(Blank(line), toks, 0).value;
    FillAt(line, toks, 0);
    forall k | 0 <= k < |Headers| && |toks| <= k ensures Get(r, k) == Unset {
      FillAt(line, toks, k);
    }
    forall k | 0 <= k < |Headers| && k < |toks| && !(3 <= k <= 6) ensures Get(r, k) == Text(toks[k]) {
      FillAt(line, toks, k);
      ConvertCases(k, toks[k]);
    }
    forall k | 3 <= k <= 6 && k < |toks|
      ensures PyInt(toks[k]).Some? && Get(r, k) == Number(PyInt(toks[k]).value)
    {
      FillAt(line, toks, k);
      ConvertCases(k, toks[k]);
    }
  }

  /** Any other line is read positionally: header `k` holds token `k`
      (converted with `int()` for the four integer columns) for
      `k < min(9, token count)`, the remaining headers stay `None`, and the
      parse fails exactly when one of those integer tokens is not a number. */
  lemma PositionalLine(line: string, toks: seq<string>)
    requires |toks| != 2
    ensures ParseTokens(line, toks).Ok? <==>
              forall k :: 3 <= k <= 6 && k < |toks| ==> PyInt(toks[k]).Some?
    ensures ParseTokens(line, toks).Ok? ==>
              var r := ParseTokens(line, toks).value;
              r.line == line &&
              (forall k :: 0 <= k < |Headers| && |toks| <= k ==> Get(r, k) == Unset) &&
              (forall k :: 0 <= k < |Headers| && k < |toks| && !(3 <= k <= 6) ==>
                             Get(r, k) == Text(toks[k])) &&
              (forall k :: 3 <= k <= 6 && k < |toks| ==>
                             PyInt(toks[k]).Some? && Get(r, k) == Number(PyInt(toks[k]).value))
  {
    FillSucceeds(line, toks);
    if FillFrom(Blank(line), toks, 0).Ok? {
      FillValues(line, toks);
    }
  }

  /** A failing parse reports the header and token of the first integer
      column whose token `int()` rejects. */
  lemma ParseErrorIsFirstBadNumber(line: string, toks: seq<string>)
    requires ParseTokens(line, toks).Err?
    ensures |toks| != 2
    ensures exists k :: 3 <= k <= 6 && k < |toks| && PyInt(toks[k]).None? &&
              ParseTokens(line, toks).error == MalformedField(Headers[k], toks[k]) &&
              forall j :: 3 <= j < k ==> PyInt(toks[j]).Some?
  {
    var k := FillFromError(Blank(line), toks, 0);
    ConvertCases(k, toks[k]);
    forall j | 3 <= j < k ensures PyInt(toks[j]).Some? {
      ConvertCases(j, toks[j]);
      assert Convert(j, toks[j]).Some?;
    }
  }

  /** The fill loop only reads the first nine tokens. */
  lemma {:induction false} FillFromIgnoresExtra(r: IndexLine, toks: seq<string>, extra: seq<string>, k: nat)
    requires |toks| >= |Headers| && k <= |Headers|
    ensures FillFrom(r, toks + extra, k) == FillFrom(r, toks, k)
    decreases |Headers| - k
  {
    if k < |Headers| {
      assert (toks + extra)[k] == toks[k];
      var v := Convert(k, toks[k]);
      if v.Some? {
        FillFromIgnoresExtra(Store(r, k, v.value), toks, extra, k + 1);
      }
    }
  }

  /** Tokens beyond the ninth change nothing. */
  lemma ExtraTokensIgnored(line: string, toks: seq<string>, extra: seq<string>)
    requires |toks| >= |Headers|
    ensures ParseTokens(line, toks + extra) == ParseTokens(line, toks)
  {
    FillFromIgnoresExtra(Blank(line), toks, extra, 0);
  }

  /** The label a listing shows is the raw line, and parsing it again gives
      the same record back, so its `index` is the original index name. */
  lemma ReparseRepr(line: string)
    requires Parse(line).Ok?
    ensures Parse(Repr(Parse(line).value)) == Parse(line)
  {
    var toks := Tokens(line);
    if |toks| != 2 {
      FillFromFields(Blank(line), toks, 0);
    }
  }

  /** A non-empty word without whitespace, as a column of the listing is. */
  predicate Solid(w: string) {
    w != [] && forall i :: 0 <= i < |w| ==> !IsSpace(w[i])
  }

  /** A line of non-empty, whitespace-free words separated by runs of one
      or more spaces, with any number of spaces after the last word, splits
      back into those words. */
  lemma TokensOfGapped(ws: seq<string>, gaps: seq<nat>, trail: nat)
    requires |ws| >= 1 && |gaps| == |ws| - 1
    requires forall k :: 0 <= k < |ws| ==> Solid(ws[k])
    requires forall k :: 0 <= k < |gaps| ==> gaps[k] >= 1
    ensures Tokens(JoinGaps(ws, gaps) + Spaces(trail)) == ws
  {
    var s := JoinGaps(ws, gaps);
    JoinGapsEnds(ws, gaps);
    StripTrailingSpaces(s, trail);
    assert IsSpace(' ');
    SplitRunsGaps(ws, gaps);
  }

  /** The columns of an open-index line as Elasticsearch 1.7 lists it. */
  const OpenWords: seq<string> :=
    ["green", "open", "2015-10-10t00:00:00.000z", "5", "0", "0", "0", "720b", "720b"]

  /** The widths of the runs of spaces between those columns. */
  const OpenGaps: seq<nat> := [2, 3, 3, 3, 10, 12, 7, 11]

  /** The sample `_cat/indices` line documented beside the parser, with its
      column padding and its trailing space (written in pieces, word by gap). */
  const OpenLine: string :=
    "green" + "  " + "open" + "   " + "2015-10-10t00:00:00.000z" + "   " + "5" + "   " + "0" + "          " +
    "0" + "            " + "0" + "       " + "720b" + "           " + "720b" + " "

  lemma OpenGapsText()
    ensures Spaces(1) == " " && Spaces(2) == "  " && Spaces(3) == "   " && Spaces(7) == "       "
    ensures Spaces(10) == "          " && Spaces(11) == "           " && Spaces(12) == "            "
  {
  }

  lemma OpenLineStep(k: nat)
    requires 1 <= k < |OpenWords|
    ensures JoinGaps(OpenWords[..k + 1], OpenGaps[..k]) ==
      JoinGaps(OpenWords[..k], OpenGaps[..k - 1]) + Spaces(OpenGaps[k - 1]) + OpenWords[k]
  {
    assert OpenWords[..k + 1] == OpenWords[..k] + [OpenWords[k]];
    assert OpenGaps[..k] == OpenGaps[..k - 1] + [OpenGaps[k - 1]];
    JoinGapsSnoc(OpenWords[..k], OpenGaps[..k - 1], OpenWords[k], OpenGaps[k - 1]);
  }

  /** The sample line is the open-index columns separated by the gaps in
      `OpenGaps`, followed by one space. */
  lemma OpenLineLayout()
    ensures OpenLine == JoinGaps(OpenWords, OpenGaps) + Spaces(1)
  {
    OpenGapsText();
    assert JoinGaps(OpenWords[..1], OpenGaps[..0]) == "green";
    OpenLineStep(1); OpenLineStep(2); OpenLineStep(3); OpenLineStep(4);
    OpenLineStep(5); OpenLineStep(6); OpenLineStep(7); OpenLineStep(8);
    assert OpenWords[..9] == OpenWords && OpenGaps[..8] == OpenGaps;
  }

  lemma OpenLineTokens()
    ensures Tokens(OpenLine) == OpenWords
  {
    OpenLineLayout();
    OpenLayoutTokens(OpenLine);
  }

  lemma OpenLayoutTokens(line: string)
    requires line == JoinGaps(OpenWords, OpenGaps) + Spaces(1)
    ensures Tokens(line) == OpenWords
  {
    OpenWordsSolid();
    TokensOfGapped(OpenWords, OpenGaps, 1);
  }

  lemma OpenWordsSolid()
    ensures forall k :: 0 <= k < |OpenWords| ==> Solid(OpenWords[k])
    ensures forall k :: 0 <= k < |OpenGaps| ==> OpenGaps[k] >= 1
  {
    assert Solid("green") && Solid("open") && Solid("5") && Solid("0") && Solid("720b");
    assert Solid("2015-10-10t00:00:00.000z");
  }

  /** A line of nine tokens whose four integer columns are numbers fills
      every field: the text columns with their tokens, the integer columns
      with the numbers. */
  lemma NineColumns(line: string, toks: seq<string>, pri: int, rep: int, docsCount: int, docsDeleted: int)
    requires |toks| == 9
    requires PyInt(toks[3]) == Some(pri) && PyInt(toks[4]) == Some(rep)
    requires PyInt(toks[5]) == Some(docsCount) && PyInt(toks[6]) == Some(docsDeleted)
    ensures ParseTokens(line, toks) ==
      Ok(IndexLine(line, Some(toks[0]), Some(toks[1]), Some(toks[2]),
                   Some(pri), Some(rep), Some(docsCount), Some(docsDeleted), Some(toks[7]), Some(toks[8])))
  {
    forall k | 3 <= k <= 6 && k < |toks| ensures PyInt(toks[k]).Some? {
      assert k == 3 || k == 4 || k == 5 || k == 6;
    }
    FillSucceeds(line, toks);
    FillValues(line, toks);
    var r := FillFrom(Blank(line), toks, 0).value;
    assert Get(r, 0) == Text(toks[0]) && Get(r, 1) == Text(toks[1]) && Get(r, 2) == Text(toks[2]);
    assert Get(r, 3) == Number(pri) && Get(r, 4) == Number(rep);
    assert Get(r, 5) == Number(docsCount) && Get(r, 6) == Number(docsDeleted);
    assert Get(r, 7) == Text(toks[7]) && Get(r, 8) == Text(toks[8]);
  }

  lemma OpenWordsFields(line: string)
    ensures ParseTokens(line, OpenWords) ==
      Ok(IndexLine(line, Some("green"), Some("open"), Some("2015-10-10t00:00:00.000z"),
                   Some(5), Some(0), Some(0), Some(0), Some("720b"), Some("720b")))
  {
    PyIntDigits("5");
    PyIntDigits("0");
    NineColumns(line, OpenWords, 5, 0, 0, 0);
  }

  /** The sample open-index line parses into its nine columns, with the
      four counts as integers and the sizes kept as text. */
  lemma OpenLineExample()
    ensures Parse(OpenLine) ==
      Ok(IndexLine(OpenLine, Some("green"), Some("open"), Some("2015-10-10t00:00:00.000z"),
                   Some(5), Some(0), Some(0), Some(0), Some("720b"), Some("720b")))
  {
    OpenLineTokens();
    OpenWordsFields(OpenLine);
  }
}
