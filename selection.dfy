/** The list of index lines with marks (`MultiSelectListWidget`): every
    entry is a button whose attribute map either shows it reversed (marked)
    or not, and one entry has the focus. `v` flips the mark of the focused
    entry, `c` clears every mark, `k` and `j` move the focus up and down, and
    `selected()` lists the marked labels in list order. */
module Selection {
  import opened Wrappers

  // ---------------------------------------------------------------------
  // The marked entries of a list
  // ---------------------------------------------------------------------

  /** The entries of `xs` whose mark in `ms` is set, in list order. */
  function Marked<T>(xs: seq<T>, ms: seq<bool>): seq<T>
    requires |xs| == |ms|
  {
    if xs == [] then []
    else Marked(xs[..|xs| - 1], ms[..|ms| - 1]) + (if ms[|ms| - 1] then [xs[|xs| - 1]] else [])
  }

  /** Number of set marks. */
  function CountMarks(ms: seq<bool>): nat {
    if ms == [] then 0 else CountMarks(ms[..|ms| - 1]) + (if ms[|ms| - 1] then 1 else 0)
  }

  /** The positions of the set marks, in increasing order. */
  function MarkedPositions(ms: seq<bool>): (ps: seq<nat>)
    ensures forall k :: 0 <= k < |ps| ==> ps[k] < |ms|
  {
    if ms == [] then []
    else MarkedPositions(ms[..|ms| - 1]) + (if ms[|ms| - 1] then [|ms| - 1] else [])
  }

  /** The marked entries are the entries at the marked positions; those
      positions increase strictly and are exactly the positions whose mark is
      set. So the marked entries are the order-preserving subsequence of
      marked entries. */
  lemma MarkedAtPositions<T>(xs: seq<T>, ms: seq<bool>)
    requires |xs| == |ms|
    ensures var ps := MarkedPositions(ms);
      |Marked(xs, ms)| == |ps| &&
      (forall k :: 0 <= k < |ps| ==> Marked(xs, ms)[k] == xs[ps[k]]) &&
      (forall k, l :: 0 <= k < l < |ps| ==> ps[k] < ps[l]) &&
      (forall i :: 0 <= i < |ms| ==> (ms[i] <==> i in ps))
  {
    MarkedAtPositionsValues(xs, ms);
    PositionsIncrease(ms);
    PositionsExact(ms);
  }

  lemma {:induction false} MarkedAtPositionsValues<T>(xs: seq<T>, ms: seq<bool>)
    requires |xs| == |ms|
    ensures var ps := MarkedPositions(ms);
      |Marked(xs, ms)| == |ps| && forall k :: 0 <= k < |ps| ==> Marked(xs, ms)[k] == xs[ps[k]]
  {
    if xs != [] {
      var n := |xs| - 1;
      MarkedAtPositionsValues(xs[..n], ms[..n]);
      var pre := MarkedPositions(ms[..n]);
      forall k | 0 <= k < |pre| ensures Marked(xs, ms)[k] == xs[MarkedPositions(ms)[k]] {
        assert xs[..n][pre[k]] == xs[pre[k]];
      }
    }
  }

  lemma {:induction false} PositionsIncrease(ms: seq<bool>)
    ensures forall k, l :: 0 <= k < l < |MarkedPositions(ms)| ==>
                             MarkedPositions(ms)[k] < MarkedPositions(ms)[l]
  {
    if ms != [] {
      var n := |ms| - 1;
      PositionsIncrease(ms[..n]);
      var pre, ps := MarkedPositions(ms[..n]), MarkedPositions(ms);
      assert ps == pre + (if ms[n] then [n] else []);
      forall k, l | 0 <= k < l < |ps| ensures ps[k] < ps[l] {
        assert ps[k] == pre[k] && pre[k] < n;
        if l < |pre| {
          assert ps[l] == pre[l] && pre[k] < pre[l];
        } else {
          assert ps[l] == n;
        }
      }
    }
  }

  lemma {:induction false} PositionsExact(ms: seq<bool>)
    ensures var ps := MarkedPositions(ms);
      forall i :: 0 <= i < |ms| ==> (ms[i] <==> i in ps)
  {
    if ms != [] {
      var n := |ms| - 1;
      PositionsExact(ms[..n]);
      var pre := MarkedPositions(ms[..n]);
      assert n !in pre;
      forall i | 0 <= i < n ensures ms[i] <==> i in MarkedPositions(ms) {
        assert ms[..n][i] == ms[i];
      }
    }
  }

  /** As many entries are marked as marks are set. */
  lemma {:induction false} MarkedCount<T>(xs: seq<T>, ms: seq<bool>)
    requires |xs| == |ms|
    ensures |Marked(xs, ms)| == CountMarks(ms)
  {
    if xs != [] {
      MarkedCount(xs[..|xs| - 1], ms[..|ms| - 1]);
    }
  }

  /** With no mark set nothing is marked. */
  lemma {:induction false} NoneMarked<T>(xs: seq<T>, ms: seq<bool>)
    requires |xs| == |ms| && forall i :: 0 <= i < |ms| ==> !ms[i]
    ensures Marked(xs, ms) == []
  {
    if xs != [] {
      NoneMarked(xs[..|xs| - 1], ms[..|ms| - 1]);
    }
  }

  /** Marking splits over a cut of the list. */
  lemma {:induction false} MarkedAppend<T>(xs: seq<T>, ms: seq<bool>, ys: seq<T>, ns: seq<bool>)
    requires |xs| == |ms| && |ys| == |ns|
    ensures Marked(xs + ys, ms + ns) == Marked(xs, ms) + Marked(ys, ns)
  {
    if ys != [] {
      var n := |ys| - 1;
      MarkedAppend(xs, ms, ys[..n], ns[..n]);
      assert (xs + ys)[..|xs + ys| - 1] == xs + ys[..n];
      assert (ms + ns)[..|ms + ns| - 1] == ms + ns[..n];
    } else {
      assert xs + ys == xs && ms + ns == ms;
    }
  }

  /** Flipping the mark at `i` adds or removes exactly the entry at `i`,
      between the marked entries before it and those after it. */
  lemma MarkedFlip<T>(xs: seq<T>, ms: seq<bool>, i: nat)
    requires |xs| == |ms| && i < |xs|
    ensures var before, after := Marked(xs[..i], ms[..i]), Marked(xs[i + 1..], ms[i + 1..]);
      Marked(xs, ms) == before + (if ms[i] then [xs[i]] else []) + after &&
      Marked(xs, ms[i := !ms[i]]) == before + (if ms[i] then [] else [xs[i]]) + after
  {
    var ms' := ms[i := !ms[i]];
    assert xs == xs[..i] + [xs[i]] + xs[i + 1..];
    assert ms == ms[..i] + [ms[i]] + ms[i + 1..];
    assert ms' == ms[..i] + [!ms[i]] + ms[i + 1..];
    MarkedAppend(xs[..i], ms[..i], [xs[i]], [ms[i]]);
    MarkedAppend(xs[..i] + [xs[i]], ms[..i] + [ms[i]], xs[i + 1..], ms[i + 1..]);
    MarkedAppend(xs[..i], ms[..i], [xs[i]], [!ms[i]]);
    MarkedAppend(xs[..i] + [xs[i]], ms[..i] + [!ms[i]], xs[i + 1..], ms[i + 1..]);
    assert Marked([xs[i]], [ms[i]]) == (if ms[i] then [xs[i]] else []);
    assert Marked([xs[i]], [!ms[i]]) == (if ms[i] then [] else [xs[i]]);
  }

  // ---------------------------------------------------------------------
  // The widget
  // ---------------------------------------------------------------------

  class MultiSelectList {
    /** The button labels, in list order. */
    const labels: seq<string>
    /** `marks[i]` holds when entry `i` is shown reversed. */
    const marks: array<bool>
    /** The position of the focused entry. */
    var cursor: nat

    predicate Valid()
      reads this
    {
      marks.Length == |labels| && (if |labels| == 0 then cursor == 0 else cursor < |labels|)
    }

    /** A list over `els`, nothing marked, the focus on the first entry. */
    constructor (els: seq<string>)
      ensures Valid() && fresh(marks)
      ensures labels == els && cursor == 0
      ensures forall i :: 0 <= i < marks.Length ==> !marks[i]
    {
      labels := els;
      marks := new bool[|els|](_ => false);
      cursor := 0;
    }

    /** `selected()`: walk the list and collect the marked labels. */
    method Selected() returns (result: seq<string>)
      requires Valid()
      ensures result == Marked(labels, marks[..])
    {
      result := [];
      var i := 0;
      while i < |labels|
        invariant 0 <= i <= |labels|
        invariant result == Marked(labels[..i], marks[..i])
      {
        assert labels[..i + 1][..i] == labels[..i];
        assert marks[..i + 1][..i] == marks[..i];
        if marks[i] {
          result := result + [labels[i]];
        }
        i := i + 1;
      }
      assert labels[..i] == labels && marks[..i] == marks[..];
    }

    /** `item_under_cursor()`: the focused label, `None` for an empty list
        (where urwid has no focus widget and the console raises). */
    method ItemUnderCursor() returns (item: Option<string>)
      requires Valid()
      ensures item.None? <==> |labels| == 0
      ensures item.Some? ==> item.value == labels[cursor]
    {
      if |labels| == 0 {
        item := None;
      } else {
        item := Some(labels[cursor]);
      }
    }

    /** `v`: flip the mark of the focused entry; no other mark, and not the
        focus, changes. On an empty list there is no focused entry. */
    method Toggle() returns (ok: bool)
      requires Valid()
      modifies marks
      ensures Valid()
      ensures ok <==> |labels| > 0
      ensures ok ==> marks[..] == old(marks[..])[cursor := !old(marks[cursor])]
      ensures !ok ==> marks[..] == old(marks[..])
    {
      ok := |labels| > 0;
      if ok {
        marks[cursor] := !marks[cursor];
      }
    }

    /** `c`: walk the list and unmark every marked entry. */
    method ClearAll()
      requires Valid()
      modifies marks
      ensures Valid()
      ensures forall i :: 0 <= i < marks.Length ==> !marks[i]
    {
      var i := 0;
      while i < marks.Length
        invariant 0 <= i <= marks.Length
        invariant forall j :: 0 <= j < i ==> !marks[j]
      {
        if marks[i] {
          marks[i] := false;
        }
        i := i + 1;
      }
    }

    /** `k` (up): focus the previous entry, staying on the first. */
    method MoveUp()
      requires Valid()
      modifies this
      ensures Valid()
      ensures cursor == if old(cursor) > 0 then old(cursor) - 1 else old(cursor)
    {
      if cursor > 0 {
        cursor := cursor - 1;
      }
    }

    /** `j` (down): focus the next entry, staying on the last. */
    method MoveDown()
      requires Valid()
      modifies this
      ensures Valid()
      ensures cursor == if old(cursor) + 1 < |labels| then old(cursor) + 1 else old(cursor)
    {
      if cursor + 1 < |labels| {
        cursor := cursor + 1;
      }
    }

    /** `keypress`: `v` toggles, `c` clears, `k`/`up` and `j`/`down` move the
        focus; any other key is left to urwid and changes nothing here. `ok`
        is false exactly when `v` is pressed on an empty list, where the
        console has no focused entry and raises. */
    method Keypress(key: string) returns (ok: bool)
      requires Valid()
      modifies this, marks
      ensures Valid()
      ensures ok <==> !(key == "v" && |labels| == 0)
      ensures key == "v" && |labels| > 0 ==> marks[..] == old(marks[..])[old(cursor) := !old(marks[cursor])]
      ensures key == "c" ==> Marked(labels, marks[..]) == []
      ensures key != "v" && key != "c" ==> marks[..] == old(marks[..])
      ensures !ok ==> marks[..] == old(marks[..])
      ensures key == "v" || key == "c" ==> cursor == old(cursor)
      ensures key == "k" || key == "up" ==>
                cursor == if old(cursor) > 0 then old(cursor) - 1 else old(cursor)
      ensures key == "j" || key == "down" ==>
                cursor == if old(cursor) + 1 < |labels| then old(cursor) + 1 else old(cursor)
      ensures key !in {"v", "c", "k", "up", "j", "down"} ==> cursor == old(cursor)
    {
      ok := true;
      if key == "v" {
        ok := Toggle();
      } else if key == "c" {
        ClearAll();
        NoneMarked(labels, marks[..]);
      } else if key == "k" || key == "up" {
        MoveUp();
      } else if key == "j" || key == "down" {
        MoveDown();
      }
    }

    /** Pressing `v` twice on the same entry leaves every mark as it was. */
    method ToggleTwice()
      requires Valid()
      modifies marks
      ensures Valid()
      ensures marks[..] == old(marks[..])
    {
      var _ := Toggle();
      var _ := Toggle();
    }
  }
}
