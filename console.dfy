/** The index list of the console (`IndicesListWidget`): the listing is
    parsed and sorted, each record is shown by its raw line, and the two
    actions that act on it are modelled up to the Elasticsearch call they
    make: the deletion answer yields the names it would delete, and the
    append action yields what the creation popup would be opened with.
    Also the digit filter of the popup's number fields (`NumberEdit`). */
module Console {
  import opened Wrappers
  import opened PyText
  import opened CatIndices
  import opened Listing
  import opened Suggestion
  import opened Selection

  /** The labels of the list: `str(IndexInfo(r))`, which is the raw line. */
  function Labels(recs: seq<IndexLine>): (ls: seq<string>)
    ensures |ls| == |recs|
  {
    seq(|recs|, i requires 0 <= i < |recs| => Repr(recs[i]))
  }

  /** The `index` field of each record, in order. */
  function IndexNames(recs: seq<IndexLine>): (ns: seq<Option<string>>)
    ensures |ns| == |recs|
  {
    seq(|recs|, i requires 0 <= i < |recs| => recs[i].index)
  }

  /** Every record reads back from its own label. */
  predicate Reparses(recs: seq<IndexLine>) {
    forall i :: 0 <= i < |recs| ==> Parse(Repr(recs[i])) == Ok(recs[i])
  }

  /** What `delete_selected_indices_answer` passes to `indices.delete`:
      every selected line is parsed first, and a line that does not parse
      aborts before anything is deleted; then the `index` of each, in
      order (`None` included). */
  function DeletionNames(selected: seq<string>): Result<seq<Option<string>>, ParseError> {
    match MapAll(selected, Parse)
    case Err(e) => Err(e)
    case Ok(recs) => Ok(IndexNames(recs))
  }

  /** The records of a parsed listing each read back from their label. */
  lemma ParsedRecordsReparse(lines: seq<string>, recs: seq<IndexLine>)
    requires ParseAll(lines).Ok?
    requires multiset(recs) == multiset(ParseAll(lines).value)
    ensures Reparses(recs)
  {
    MapAllOk(lines, Parse);
    forall i | 0 <= i < |recs| ensures Parse(Repr(recs[i])) == Ok(recs[i]) {
      assert recs[i] in multiset(ParseAll(lines).value);
      var j :| 0 <= j < |lines| && ParseAll(lines).value[j] == recs[i];
      ReparseRepr(lines[j]);
    }
  }

  /** The names deleted for labels that are raw lines of records are the
      `index` fields of the records, in order. */
  lemma DeletionOfLabels(recs: seq<IndexLine>)
    requires Reparses(recs)
    ensures DeletionNames(Labels(recs)) == Ok(IndexNames(recs))
  {
    var ls := Labels(recs);
    MapAllOk(ls, Parse);
    assert MapAll(ls, Parse).value == recs;
  }

  /** The labels of the marked records are the marked labels. */
  lemma {:induction false} MarkedLabels(recs: seq<IndexLine>, ms: seq<bool>)
    requires |ms| == |recs|
    ensures Marked(Labels(recs), ms) == Labels(Marked(recs, ms))
  {
    if recs != [] {
      var n := |recs| - 1;
      MarkedLabels(recs[..n], ms[..n]);
      assert Labels(recs)[..n] == Labels(recs[..n]);
      var front := Marked(recs[..n], ms[..n]);
      var last := if ms[n] then [recs[n]] else [];
      assert Labels(front + last) == Labels(front) + Labels(last);
    }
  }

  /** Marked records still read back from their labels. */
  lemma MarkedReparse(recs: seq<IndexLine>, ms: seq<bool>)
    requires Reparses(recs) && |ms| == |recs|
    ensures Reparses(Marked(recs, ms))
  {
    var sel := Marked(recs, ms);
    var ps := MarkedPositions(ms);
    MarkedAtPositions(recs, ms);
    forall k | 0 <= k < |sel| ensures Parse(Repr(sel[k])) == Ok(sel[k]) {
      assert sel[k] == recs[ps[k]];
    }
  }

  /** Deleting the selection of a listing names exactly the `index` of each
      marked record, in list order, and nothing unmarked. */
  lemma DeletedAreMarked(recs: seq<IndexLine>, ms: seq<bool>)
    requires Reparses(recs) && |ms| == |recs|
    ensures DeletionNames(Marked(Labels(recs), ms)) == Ok(IndexNames(Marked(recs, ms)))
  {
    MarkedLabels(recs, ms);
    MarkedReparse(recs, ms);
    DeletionOfLabels(Marked(recs, ms));
  }

  /** The proposal made for the raw line of a record: `NoIndexName` when
      its `index` is `None`, otherwise the proposal for that name, with the
      record's `pri` and `rep` as defaults. */
  lemma SuggestForRecord(rec: IndexLine)
    requires Parse(Repr(rec)) == Ok(rec)
    ensures rec.index.None? ==> SuggestFor(Repr(rec)) == Err(NoIndexName)
    ensures rec.index.Some? && NextName(rec.index.value).Err? ==>
              SuggestFor(Repr(rec)) == Err(NextName(rec.index.value).error)
    ensures rec.index.Some? && NextName(rec.index.value).Ok? ==>
              SuggestFor(Repr(rec)) ==
                Ok(CreateDefaults(rec.index.value, NextName(rec.index.value).value, rec.pri, rec.rep))
  {
  }

  // ---------------------------------------------------------------------
  // The number fields of the creation popup
  // ---------------------------------------------------------------------

  /** `NumberEdit.valid_char`: only the ten ASCII digits may be typed. */
  predicate ValidChar(ch: string) {
    ch in ["0", "1", "2", "3", "4", "5", "6", "7", "8", "9"]
  }

  /** `NumberEdit.value()`: `int()` of the edited text; `None` where `int()`
      raises. */
  function NumberValue(text: string): Option<int> {
    PyInt(text)
  }

  /** `str(default)`: the text a number field starts with. */
  function DefaultText(default: Option<int>): (t: string)
    ensures |t| >= 1
    ensures default.None? ==> t == "None"
    ensures default.Some? && default.value >= 0 ==> AllDigits(t) && DigitsValue(t) == default.value
    ensures default.Some? && default.value < 0 ==>
              t[0] == '-' && AllDigits(t[1..]) && DigitsValue(t[1..]) == -default.value
  {
    match default
    case None => "None"
    case Some(n) =>
      if n >= 0 then Decimal(n)
      else
        var t := "-" + Decimal(-n);
        assert t[1..] == Decimal(-n);
        t
  }

  /** A typed character is valid exactly when it is one digit. */
  lemma ValidCharIsDigit(ch: string)
    ensures ValidChar(ch) <==> |ch| == 1 && IsDigit(ch[0])
  {
    if |ch| == 1 && IsDigit(ch[0]) {
      var c := ch[0];
      assert ch == [c];
      assert c == '0' || c == '1' || c == '2' || c == '3' || c == '4' ||
             c == '5' || c == '6' || c == '7' || c == '8' || c == '9';
    }
  }

  /** Text typed only through the filter reads as its decimal value once it
      is not empty; the empty field makes `value()` raise. */
  lemma TypedTextValue(text: string)
    requires forall i :: 0 <= i < |text| ==> ValidChar([text[i]])
    ensures AllDigits(text)
    ensures text != [] ==> NumberValue(text) == Some(DigitsValue(text))
    ensures text == [] ==> NumberValue(text) == None
  {
    forall i | 0 <= i < |text| ensures IsDigit(text[i]) {
      ValidCharIsDigit([text[i]]);
    }
    if text != [] {
      PyIntDigits(text);
    }
  }

  /** An untouched field reads back its default: a number as itself, and
      `None` not at all (`int('None')` raises). */
  lemma DefaultValue(default: Option<int>)
    ensures NumberValue(DefaultText(default)) == default
  {
    match default
    case None =>
      PyIntRejects("None", 0);
    case Some(n) =>
      if n >= 0 {
        PyIntDigits(DefaultText(default));
      } else {
        var d := Decimal(-n);
        assert DefaultText(default) == "-" + d;
        PyIntNegative(d);
      }
  }

  /** What the popup hands to `create_index` on `enter` or `esc`: both
      number fields are read first, so a field that does not read as a
      number raises even when the popup is cancelled. */
  datatype Submission = Submission(cancel: bool, name: string, primaries: int, replicas: int)

  function Submit(cancel: bool, name: string, primariesText: string, replicasText: string)
    : (r: Option<Submission>)
    ensures r.Some? <==> NumberValue(primariesText).Some? && NumberValue(replicasText).Some?
    ensures r.Some? ==> r.value.cancel == cancel && r.value.name == name &&
                        r.value.primaries == NumberValue(primariesText).value &&
                        r.value.replicas == NumberValue(replicasText).value
  {
    match (NumberValue(primariesText), NumberValue(replicasText))
    case (Some(p), Some(q)) => Some(Submission(cancel, name, p, q))
    case _ => None
  }

  /** A popup opened for the proposal of a record and closed untouched
      submits the proposed name and the record's `pri` and `rep`, and only
      when both are present. */
  lemma SubmitDefaults(d: CreateDefaults, cancel: bool)
    ensures Submit(cancel, d.name, DefaultText(d.primaries), DefaultText(d.replicas)).Some? <==>
              d.primaries.Some? && d.replicas.Some?
    ensures d.primaries.Some? && d.replicas.Some? ==>
              Submit(cancel, d.name, DefaultText(d.primaries), DefaultText(d.replicas)) ==
              Some(Submission(cancel, d.name, d.primaries.value, d.replicas.value))
  {
    DefaultValue(d.primaries);
    DefaultValue(d.replicas);
  }

  class IndicesList {
    /** The sorted records (`self.indices`). */
    const indices: seq<IndexLine>
    /** The list widget over their labels. */
    const box: MultiSelectList

    predicate Valid()
      reads this, box
    {
      box.Valid() && box.labels == Labels(indices) && Reparses(indices)
    }

    constructor (recs: seq<IndexLine>)
      requires Reparses(recs)
      ensures Valid() && fresh(box) && fresh(box.marks)
      ensures indices == recs && box.cursor == 0
      ensures forall i :: 0 <= i < box.marks.Length ==> !box.marks[i]
    {
      indices := recs;
      box := new MultiSelectList(Labels(recs));
    }

    /** `delete_selected_indices_answer(answer)`: nothing unless the answer
        is `y`; otherwise parse every selected line, then name the index of
        each for deletion. */
    method DeleteSelectedAnswer(answer: string) returns (res: Result<seq<Option<string>>, ParseError>)
      requires box.Valid()
      ensures answer != "y" ==> res == Ok([])
      ensures answer == "y" ==> res == DeletionNames(Marked(box.labels, box.marks[..]))
    {
      if answer != "y" {
        return Ok([]);
      }
      var selected := box.Selected();
      var parsedAll := ParseEach(selected);
      if parsedAll.Err? {
        return Err(parsedAll.error);
      }
      var parsed := parsedAll.value;
      var names: seq<Option<string>> := [];
      var j := 0;
      while j < |parsed|
        invariant 0 <= j <= |parsed|
        invariant names == IndexNames(parsed[..j])
      {
        names := names + [parsed[j].index];
        j := j + 1;
      }
      assert parsed[..j] == parsed;
      res := Ok(names);
    }

    /** `append_index_after_index_under_cursor`, up to opening the creation
        popup: what the popup would be opened with, or why the console
        raises instead. */
    method AppendSuggestion() returns (res: Result<CreateDefaults, SuggestError>)
      requires Valid()
      ensures |box.labels| == 0 ==> res == Err(NothingFocused)
      ensures |box.labels| > 0 ==> res == SuggestFor(box.labels[box.cursor])
      ensures |indices| > 0 ==>
                var rec := indices[box.cursor];
                (res.Ok? <==> rec.index.Some? && NextName(rec.index.value).Ok?) &&
                (rec.index.None? ==> res == Err(NoIndexName)) &&
                (res.Ok? ==>
                   res.value ==
                     CreateDefaults(rec.index.value, NextName(rec.index.value).value, rec.pri, rec.rep))
    {
      var item := box.ItemUnderCursor();
      match item
      case None =>
        res := Err(NothingFocused);
      case Some(line) =>
        res := SuggestFor(line);
        SuggestForRecord(indices[box.cursor]);
    }

    /** `__init__`: the listing is parsed and ordered by `index` (records
        with the same `index` in their input order), and the list shows
        the raw line of each record with nothing marked and the first
        entry focused; a line that does not parse aborts with its error. */
    static method Open(dump: string) returns (res: Result<IndicesList, ParseError>)
      ensures res.Ok? <==> ParseAll(DumpLines(dump)).Ok?
      ensures res.Err? ==> ParseAll(DumpLines(dump)) == Err(res.error)
      ensures res.Ok? ==>
                res.value.Valid() && fresh(res.value) && fresh(res.value.box) && fresh(res.value.box.marks) &&
                Sorted(res.value.indices, IndexKey) &&
                multiset(res.value.indices) == multiset(ParseAll(DumpLines(dump)).value) &&
                (forall k :: WithKey(res.value.indices, IndexKey, k) ==
                               WithKey(ParseAll(DumpLines(dump)).value, IndexKey, k)) &&
                res.value.box.cursor == 0 && Marked(res.value.box.labels, res.value.box.marks[..]) == []
    {
      var lines := DumpLines(dump);
      MapAllOk(lines, Parse);
      var parsed := ParseListing(dump);
      match parsed
      case Err(e) =>
        var i := MapAllError(lines, Parse);
        var k :| 0 <= k < |lines| && Parse(lines[k]) == Err(e) &&
                 forall j :: 0 <= j < k ==> Parse(lines[j]).Ok?;
        assert i == k;
        res := Err(e);
      case Ok(recs) =>
        ParsedRecordsReparse(lines, recs);
        var l := new IndicesList(recs);
        NoneMarked(l.box.labels, l.box.marks[..]);
        res := Ok(l);
    }
  }
}
