/** The whole `_cat/indices` dump: split into lines, each line parsed, the
    records ordered by index name with Python's stable `sorted`. The newer
    console keeps the records (`CatIndicesResponse`); the older one keeps the
    raw lines, ordered by the index name parsed from each (`sort_indices`). */
module Listing {
  import opened Wrappers
  import opened PyText
  import opened CatIndices

  // ---------------------------------------------------------------------
  // Sort keys and Python 2 ordering
  // ---------------------------------------------------------------------

  /** A sort key: the `index` attribute, which is `None` for a one-token line. */
  type Key = Option<string>

  /** Python 2 ordering of keys: `None` before every string, strings
      byte-wise. */
  predicate KeyLe(a: Key, b: Key) {
    a.None? || (b.Some? && LexLe(a.value, b.value))
  }

  lemma KeyLeTotal(a: Key, b: Key)
    ensures KeyLe(a, b) || KeyLe(b, a)
  {
    if a.Some? && b.Some? {
      LexLeTotal(a.value, b.value);
    }
  }

  lemma KeyLeTrans(a: Key, b: Key, c: Key)
    requires KeyLe(a, b) && KeyLe(b, c)
    ensures KeyLe(a, c)
  {
    if a.Some? {
      LexLeTrans(a.value, b.value, c.value);
    }
  }

  lemma KeyLeAntisym(a: Key, b: Key)
    requires KeyLe(a, b) && KeyLe(b, a)
    ensures a == b
  {
    if a.Some? {
      LexLeAntisym(a.value, b.value);
    }
  }

  lemma {:induction false} LexLeRefl(a: string)
    ensures LexLe(a, a)
  {
    if a != [] {
      LexLeRefl(a[1..]);
    }
  }

  lemma KeyLeRefl(a: Key)
    ensures KeyLe(a, a)
  {
    if a.Some? {
      LexLeRefl(a.value);
    }
  }

  // ---------------------------------------------------------------------
  // Python's stable sorted(s, key=...)
  // ---------------------------------------------------------------------

  predicate Sorted<T>(s: seq<T>, key: T -> Key) {
    forall i, j :: 0 <= i < j < |s| ==> KeyLe(key(s[i]), key(s[j]))
  }

  /** The elements of `s` whose key is `k`, in their order in `s`. Two
      sequences with the same `WithKey` for every `k` are permutations of each
      other that keep equal-key elements in the same relative order. */
  function WithKey<T>(s: seq<T>, key: T -> Key, k: Key): seq<T> {
    if s == [] then []
    else (if key(s[0]) == k then [s[0]] else []) + WithKey(s[1..], key, k)
  }

  /** Put `x` in front of the first element whose key is not smaller. */
  function Insert<T(==)>(x: T, s: seq<T>, key: T -> Key): (r: seq<T>)
    ensures |r| == |s| + 1
    ensures multiset(r) == multiset(s) + multiset{x}
  {
    if s == [] || KeyLe(key(x), key(s[0])) then [x] + s
    else
      var t := Insert(x, s[1..], key);
      assert s == [s[0]] + s[1..];
      [s[0]] + t
  }

  /** `sorted(s, key=key)`: insertion of each element in front of the sorted
      rest, which keeps equal keys in input order. */
  function SortBy<T(==)>(s: seq<T>, key: T -> Key): (r: seq<T>)
    ensures |r| == |s|
    ensures multiset(r) == multiset(s)
  {
    if s == [] then []
    else
      assert s == [s[0]] + s[1..];
      Insert(s[0], SortBy(s[1..], key), key)
  }

  lemma SortedCons<T>(a: T, t: seq<T>, key: T -> Key)
    requires Sorted(t, key)
    requires forall i :: 0 <= i < |t| ==> KeyLe(key(a), key(t[i]))
    ensures Sorted([a] + t, key)
  {
    var s := [a] + t;
    forall i, j | 0 <= i < j < |s| ensures KeyLe(key(s[i]), key(s[j])) {
      if i > 0 {
        assert s[i] == t[i - 1] && s[j] == t[j - 1];
      } else {
        assert s[j] == t[j - 1];
      }
    }
  }

  lemma {:induction false} InsertSorted<T>(x: T, s: seq<T>, key: T -> Key)
    requires Sorted(s, key)
    ensures Sorted(Insert(x, s, key), key)
  {
    if s == [] {
    } else if KeyLe(key(x), key(s[0])) {
      forall i | 0 <= i < |s| ensures KeyLe(key(x), key(s[i])) {
        if i > 0 {
          KeyLeTrans(key(x), key(s[0]), key(s[i]));
        }
      }
      SortedCons(x, s, key);
    } else {
      var t := Insert(x, s[1..], key);
      assert Sorted(s[1..], key) by {
        forall i, j | 0 <= i < j < |s[1..]| ensures KeyLe(key(s[1..][i]), key(s[1..][j])) {
          assert s[1..][i] == s[i + 1] && s[1..][j] == s[j + 1];
        }
      }
      InsertSorted(x, s[1..], key);
      KeyLeTotal(key(x), key(s[0]));
      forall i | 0 <= i < |t| ensures KeyLe(key(s[0]), key(t[i])) {
        assert t[i] in multiset(t);
        if t[i] == x {
        } else {
          assert t[i] in multiset(s[1..]);
          var j :| 0 <= j < |s[1..]| && s[1..][j] == t[i];
          assert s[j + 1] == t[i];
        }
      }
      SortedCons(s[0], t, key);
    }
  }

  /** `sorted` orders by key. */
  lemma {:induction false} SortBySorted<T>(s: seq<T>, key: T -> Key)
    ensures Sorted(SortBy(s, key), key)
  {
    if s != [] {
      SortBySorted(s[1..], key);
      InsertSorted(s[0], SortBy(s[1..], key), key);
    }
  }

  lemma {:induction false} WithKeyAppend<T>(a: seq<T>, b: seq<T>, key: T -> Key, k: Key)
    ensures WithKey(a + b, key, k) == WithKey(a, key, k) + WithKey(b, key, k)
  {
    if a == [] {
      assert a + b == b;
    } else {
      var h := if key(a[0]) == k then [a[0]] else [];
      assert (a + b)[0] == a[0];
      assert (a + b)[1..] == a[1..] + b;
      WithKeyAppend(a[1..], b, key, k);
      calc {
        WithKey(a + b, key, k);
        h + WithKey(a[1..] + b, key, k);
        h + (WithKey(a[1..], key, k) + WithKey(b, key, k));
        (h + WithKey(a[1..], key, k)) + WithKey(b, key, k);
        WithKey(a, key, k) + WithKey(b, key, k);
      }
    }
  }

  /** Only an element whose key is `k` contributes to `WithKey`, so two
      elements of different keys contribute in either order alike. */
  lemma WithKeySwap<T>(x: T, y: T, rest: seq<T>, key: T -> Key, k: Key)
    requires key(x) != key(y)
    ensures (if key(x) == k then [x] else []) + ((if key(y) == k then [y] else []) + rest) ==
            (if key(y) == k then [y] else []) + ((if key(x) == k then [x] else []) + rest)
  {
    if key(x) == k {
      assert (if key(y) == k then [y] else []) == [];
    } else {
      assert (if key(x) == k then [x] else []) == [];
    }
  }

  lemma {:induction false} InsertWithKey<T>(x: T, s: seq<T>, key: T -> Key, k: Key)
    ensures WithKey(Insert(x, s, key), key, k) ==
              (if key(x) == k then [x] else []) + WithKey(s, key, k)
  {
    if s == [] || KeyLe(key(x), key(s[0])) {
      assert Insert(x, s, key) == [x] + s;
      assert ([x] + s)[0] == x;
      assert ([x] + s)[1..] == s;
    } else {
      KeyLeRefl(key(x));
      assert key(s[0]) != key(x);
      var t := Insert(x, s[1..], key);
      assert Insert(x, s, key) == [s[0]] + t;
      assert ([s[0]] + t)[0] == s[0];
      assert ([s[0]] + t)[1..] == t;
      InsertWithKey(x, s[1..], key, k);
      var hx := if key(x) == k then [x] else [];
      var hs := if key(s[0]) == k then [s[0]] else [];
      assert WithKey([s[0]] + t, key, k) == hs + WithKey(t, key, k);
      assert WithKey(t, key, k) == hx + WithKey(s[1..], key, k);
      WithKeySwap(s[0], x, WithKey(s[1..], key, k), key, k);
      assert WithKey(s, key, k) == hs + WithKey(s[1..], key, k);
    }
  }

  /** `sorted` is stable: for every key, the elements with that key come out
      in the order they went in (and so the result is a permutation). */
  lemma {:induction false} SortByStable<T>(s: seq<T>, key: T -> Key, k: Key)
    ensures WithKey(SortBy(s, key), key, k) == WithKey(s, key, k)
  {
    if s != [] {
      SortByStable(s[1..], key, k);
      InsertWithKey(s[0], SortBy(s[1..], key), key, k);
    }
  }

  // ---------------------------------------------------------------------
  // Parsing every line of the dump
  // ---------------------------------------------------------------------

  /** `cat_indices_result.rstrip().split("\n")`. */
  function DumpLines(dump: string): (lines: seq<string>)
    ensures |lines| >= 1
    ensures JoinOn(lines, '\n') == RStrip(dump)
    ensures forall i :: 0 <= i < |lines| ==> '\n' !in lines[i]
  {
    JoinSplit(RStrip(dump), '\n');
    SplitOn(RStrip(dump), '\n')
  }

  /** Apply `f` to every element in order; the first failure aborts the lot
      (a list comprehension whose element expression may raise). */
  function MapAll<A, B, E>(xs: seq<A>, f: A -> Result<B, E>): Result<seq<B>, E> {
    if xs == [] then Ok([])
    else
      match MapAll(xs[..|xs| - 1], f)
      case Err(e) => Err(e)
      case Ok(bs) =>
        match f(xs[|xs| - 1])
        case Err(e) => Err(e)
        case Ok(b) => Ok(bs + [b])
  }

  /** Every element succeeds exactly when `MapAll` does, and then the results
      are the elements' results in order. */
  lemma {:induction false} MapAllOk<A, B, E>(xs: seq<A>, f: A -> Result<B, E>)
    ensures MapAll(xs, f).Ok? <==> forall i :: 0 <= i < |xs| ==> f(xs[i]).Ok?
    ensures MapAll(xs, f).Ok? ==>
              |MapAll(xs, f).value| == |xs| &&
              forall i :: 0 <= i < |xs| ==> MapAll(xs, f).value[i] == f(xs[i]).value
  {
    if xs != [] {
      var init := xs[..|xs| - 1];
      MapAllOk(init, f);
      assert forall i :: 0 <= i < |init| ==> init[i] == xs[i];
    }
  }

  /** A failing `MapAll` reports the error of the first failing element. */
  lemma {:induction false} MapAllError<A, B, E>(xs: seq<A>, f: A -> Result<B, E>) returns (i: nat)
    requires MapAll(xs, f).Err?
    ensures i < |xs| && f(xs[i]) == Err(MapAll(xs, f).error)
    ensures forall j :: 0 <= j < i ==> f(xs[j]).Ok?
  {
    var init := xs[..|xs| - 1];
    if MapAll(init, f).Err? {
      i := MapAllError(init, f);
      assert init[i] == xs[i];
      assert forall j :: 0 <= j < i ==> init[j] == xs[j];
    } else {
      i := |xs| - 1;
      MapAllOk(init, f);
      assert forall j :: 0 <= j < i ==> init[j] == xs[j];
    }
  }

  /** Once a prefix fails, the whole list fails with the same error. */
  lemma {:induction false} MapAllPrefixError<A, B, E>(xs: seq<A>, n: nat, f: A -> Result<B, E>)
    requires n <= |xs| && MapAll(xs[..n], f).Err?
    ensures MapAll(xs, f) == MapAll(xs[..n], f)
  {
    if n < |xs| {
      var m := |xs| - 1;
      assert xs[..m][..n] == xs[..n];
      MapAllPrefixError(xs[..m], n, f);
    } else {
      assert xs[..n] == xs;
    }
  }

  /** `[CatIndicesResponseLine(l) for l in lines]`. */
  function ParseAll(lines: seq<string>): Result<seq<IndexLine>, ParseError> {
    MapAll(lines, Parse)
  }

  function IndexKey(r: IndexLine): Key {
    r.index
  }

  /** The loop that builds one record per line, stopping at the first line
      that does not parse. */
  method ParseEach(lines: seq<string>) returns (res: Result<seq<IndexLine>, ParseError>)
    ensures res == ParseAll(lines)
  {
    var indices: seq<IndexLine> := [];
    var i := 0;
    while i < |lines|
      invariant 0 <= i <= |lines|
      invariant ParseAll(lines[..i]) == Ok(indices)
    {
      var r := ParseLine(lines[i]);
      assert lines[..i + 1][..i] == lines[..i];
      if r.Err? {
        assert ParseAll(lines[..i + 1]) == Err(r.error);
        MapAllPrefixError(lines, i + 1, Parse);
        return Err(r.error);
      }
      indices := indices + [r.value];
      i := i + 1;
    }
    assert lines[..i] == lines;
    res := Ok(indices);
  }

  /** `CatIndicesResponse(dump)`: one record per line of the right-stripped
      dump, built in a loop, then ordered by `index` with a stable sort. */
  method ParseListing(dump: string) returns (res: Result<seq<IndexLine>, ParseError>)
    ensures var lines := DumpLines(dump);
      (res.Ok? <==> forall i :: 0 <= i < |lines| ==> Parse(lines[i]).Ok?) &&
      (res.Err? ==> exists i :: 0 <= i < |lines| && Parse(lines[i]) == Err(res.error) &&
                      forall j :: 0 <= j < i ==> Parse(lines[j]).Ok?) &&
      (res.Ok? ==>
        ParseAll(lines).Ok? &&
        |res.value| == |lines| &&
        Sorted(res.value, IndexKey) &&
        (forall k :: WithKey(res.value, IndexKey, k) == WithKey(ParseAll(lines).value, IndexKey, k)) &&
        multiset(res.value) == multiset(ParseAll(lines).value))
  {
    var lines := DumpLines(dump);
    MapAllOk(lines, Parse);
    var parsed := ParseEach(lines);
    match parsed
    case Err(e) =>
      var j := MapAllError(lines, Parse);
      res := Err(e);
    case Ok(indices) =>
      res := Ok(SortBy(indices, IndexKey));
      SortBySorted(indices, IndexKey);
      forall k {
        SortByStable(indices, IndexKey, k);
      }
  }

  // ---------------------------------------------------------------------
  // The older console: sort the raw lines by their parsed index name
  // ---------------------------------------------------------------------

  /** The index name `CatIndicesLine(line).index` gives for a line that
      parses. */
  function LineKey(line: string): Key {
    if Parse(line).Ok? then Parse(line).value.index else None
  }

  function SecondKey<T>(p: (T, Key)): Key {
    p.1
  }

  function Firsts<T>(ps: seq<(T, Key)>): (r: seq<T>)
    ensures |r| == |ps| && forall i :: 0 <= i < |ps| ==> r[i] == ps[i].0
  {
    if ps == [] then [] else [ps[0].0] + Firsts(ps[1..])
  }

  /** Every pair carries the key `f` gives its first component. */
  predicate KeyedBy<T>(ps: seq<(T, Key)>, f: T -> Key) {
    forall i :: 0 <= i < |ps| ==> ps[i].1 == f(ps[i].0)
  }

  lemma FirstsCons<T>(a: (T, Key), t: seq<(T, Key)>)
    ensures Firsts([a] + t) == [a.0] + Firsts(t)
  {
    var l, r := Firsts([a] + t), [a.0] + Firsts(t);
    assert |l| == |r|;
    forall i | 0 <= i < |l| ensures l[i] == r[i] {
      if i > 0 {
        assert ([a] + t)[i] == t[i - 1];
      }
    }
  }

  lemma {:induction false} InsertFirsts<T>(p: (T, Key), t: seq<(T, Key)>, f: T -> Key)
    requires p.1 == f(p.0)
    requires KeyedBy(t, f)
    ensures Firsts(Insert(p, t, SecondKey)) == Insert(p.0, Firsts(t), f)
  {
    var ft := Firsts(t);
    if t == [] {
      FirstsCons(p, t);
    } else if KeyLe(p.1, t[0].1) {
      assert f(ft[0]) == t[0].1;
      assert Insert(p, t, SecondKey) == [p] + t;
      assert Insert(p.0, ft, f) == [p.0] + ft;
      FirstsCons(p, t);
    } else {
      assert f(ft[0]) == t[0].1;
      var rest := Insert(p, t[1..], SecondKey);
      assert Insert(p, t, SecondKey) == [t[0]] + rest;
      assert ft[1..] == Firsts(t[1..]);
      assert Insert(p.0, ft, f) == [ft[0]] + Insert(p.0, ft[1..], f);
      assert KeyedBy(t[1..], f) by {
        forall i | 0 <= i < |t[1..]| ensures t[1..][i].1 == f(t[1..][i].0) {
          assert t[1..][i] == t[i + 1];
        }
      }
      InsertFirsts(p, t[1..], f);
      FirstsCons(t[0], rest);
    }
  }

  lemma KeyedByPermutation<T>(ps: seq<(T, Key)>, t: seq<(T, Key)>, f: T -> Key)
    requires KeyedBy(ps, f)
    requires multiset(t) == multiset(ps)
    ensures KeyedBy(t, f)
  {
    forall i | 0 <= i < |t| ensures t[i].1 == f(t[i].0) {
      assert t[i] in multiset(ps);
      var j :| 0 <= j < |ps| && ps[j] == t[i];
    }
  }

  /** Sorting `(x, f(x))` pairs on the second component and keeping the first
      is sorting the `x` by `f`. */
  lemma {:induction false} SortPairsIsSortFirsts<T>(ps: seq<(T, Key)>, f: T -> Key)
    requires KeyedBy(ps, f)
    ensures Firsts(SortBy(ps, SecondKey)) == SortBy(Firsts(ps), f)
  {
    if ps != [] {
      assert KeyedBy(ps[1..], f) by {
        forall i | 0 <= i < |ps[1..]| ensures ps[1..][i].1 == f(ps[1..][i].0) {
          assert ps[1..][i] == ps[i + 1];
        }
      }
      SortPairsIsSortFirsts(ps[1..], f);
      var t := SortBy(ps[1..], SecondKey);
      KeyedByPermutation(ps[1..], t, f);
      InsertFirsts(ps[0], t, f);
      var fp := Firsts(ps);
      assert fp[1..] == Firsts(ps[1..]);
      assert SortBy(fp, f) == Insert(fp[0], SortBy(fp[1..], f), f);
    }
  }

  /** The loop of `sort_indices`: pair every line with the `index` of its
      parse, stopping at the first line that does not parse. It fails
      exactly when the list comprehension over the lines would, with the
      same error, and otherwise pairs each line with its record's name. */
  method PairWithNames(lines: seq<string>) returns (res: Result<seq<(string, Key)>, ParseError>)
    ensures res.Ok? <==> ParseAll(lines).Ok?
    ensures res.Err? ==> ParseAll(lines) == Err(res.error)
    ensures res.Ok? ==> |res.value| == |ParseAll(lines).value| == |lines| &&
                        forall j :: 0 <= j < |lines| ==>
                                      res.value[j] == (lines[j], ParseAll(lines).value[j].index)
  {
    var indObjs: seq<(string, Key)> := [];
    ghost var recs: seq<IndexLine> := [];
    var i := 0;
    while i < |lines|
      invariant 0 <= i <= |lines|
      invariant ParseAll(lines[..i]) == Ok(recs)
      invariant |indObjs| == |recs| == i
      invariant forall j :: 0 <= j < i ==> indObjs[j] == (lines[j], recs[j].index)
    {
      var r := ParseLine(lines[i]);
      assert lines[..i + 1][..i] == lines[..i];
      if r.Err? {
        assert ParseAll(lines[..i + 1]) == Err(r.error);
        MapAllPrefixError(lines, i + 1, Parse);
        return Err(r.error);
      }
      indObjs := indObjs + [(lines[i], r.value.index)];
      recs := recs + [r.value];
      i := i + 1;
    }
    assert lines[..i] == lines;
    res := Ok(indObjs);
  }

  /** `sort_indices(lines)`: build `(line, CatIndicesLine(line).index)` pairs
      in a loop, sort them on the name and keep the lines. A line that does
      not parse aborts with its error. */
  method SortIndices(lines: seq<string>) returns (res: Result<seq<string>, ParseError>)
    ensures res.Ok? <==> forall i :: 0 <= i < |lines| ==> Parse(lines[i]).Ok?
    ensures res.Err? ==> exists i :: 0 <= i < |lines| && Parse(lines[i]) == Err(res.error) &&
                           forall j :: 0 <= j < i ==> Parse(lines[j]).Ok?
    ensures res.Ok? ==> Sorted(res.value, LineKey)
    ensures res.Ok? ==> forall k :: WithKey(res.value, LineKey, k) == WithKey(lines, LineKey, k)
  {
    var pairs := PairWithNames(lines);
    MapAllOk(lines, Parse);
    if pairs.Err? {
      ghost var j := MapAllError(lines, Parse);
      return Err(pairs.error);
    }
    PairsSortLikeLines(lines, pairs.value);
    res := Ok(Firsts(SortBy(pairs.value, SecondKey)));
    SortBySorted(lines, LineKey);
    forall k {
      SortByStable(lines, LineKey, k);
    }
  }

  /** The pairs built by `sort_indices`, sorted by their second component,
      give the lines sorted by their `index`. */
  lemma PairsSortLikeLines(lines: seq<string>, ps: seq<(string, Key)>)
    requires ParseAll(lines).Ok? && |ps| == |ParseAll(lines).value| == |lines|
    requires forall j :: 0 <= j < |lines| ==> ps[j] == (lines[j], ParseAll(lines).value[j].index)
    ensures Firsts(SortBy(ps, SecondKey)) == SortBy(lines, LineKey)
  {
    MapAllOk(lines, Parse);
    assert Firsts(ps) == lines;
    assert KeyedBy(ps, LineKey);
    SortPairsIsSortFirsts(ps, LineKey);
  }
}
