/** Merging the per-context output files into CSV rows: every record becomes
    one or two (key, value) pairs, the pairs of a file are folded into one row
    object in which the last value written for a key wins, and files that
    cannot be read or parsed are dropped. */
module Merge {
  import opened Wrappers
  import opened Data

  datatype Pair = Pair(key: string, value: Value)

  /** A row object: its properties in insertion order, each key once when
      built by Put. */
  type Row = seq<Pair>

  predicate DistinctKeys(row: Row) {
    forall i, j :: 0 <= i < j < |row| ==> row[i].key != row[j].key
  }

  /** The keys of a list of pairs, in order. */
  function Keys(ps: seq<Pair>): (r: seq<string>)
    ensures |r| == |ps|
    ensures forall i :: 0 <= i < |ps| ==> r[i] == ps[i].key
  {
    seq(|ps|, i requires 0 <= i < |ps| => ps[i].key)
  }

  /** Position of the first pair with key `k`, or -1. */
  function KeyIndex(ps: seq<Pair>, k: string): (i: int)
    ensures -1 <= i < |ps|
    ensures i == -1 <==> forall j :: 0 <= j < |ps| ==> ps[j].key != k
    ensures i >= 0 ==> ps[i].key == k && forall j :: 0 <= j < i ==> ps[j].key != k
  {
    if ps == [] then -1
    else if ps[0].key == k then 0
    else
      var i := KeyIndex(ps[1..], k);
      if i == -1 then -1 else i + 1
  }

  /** The first position holding key `k` is the one KeyIndex finds. */
  lemma KeyIndexAt(ps: seq<Pair>, k: string, m: nat)
    requires m < |ps| && ps[m].key == k
    requires forall j :: 0 <= j < m ==> ps[j].key != k
    ensures KeyIndex(ps, k) == m
  {
  }

  /** Reading property `k` of a row object. */
  function Lookup(row: Row, k: string): Option<Value> {
    var i := KeyIndex(row, k);
    if i < 0 then None else Some(row[i].value)
  }

  /** Spreading a row and setting one property: an existing key keeps its
      place and takes the new value; a new key goes after the existing ones
      (insertion order, see the README on array-index keys). */
  function Put(row: Row, p: Pair): (r: Row)
    ensures Lookup(r, p.key) == Some(p.value)
    ensures forall k :: k != p.key ==> Lookup(r, k) == Lookup(row, k)
    ensures DistinctKeys(row) ==> DistinctKeys(r)
    ensures KeyIndex(row, p.key) >= 0 ==> Keys(r) == Keys(row)
    ensures KeyIndex(row, p.key) < 0 ==> Keys(r) == Keys(row) + [p.key]
  {
    var r := if KeyIndex(row, p.key) < 0 then row + [p] else row[KeyIndex(row, p.key) := p];
    PutLookup(row, p, r);
    PutKeys(row, p, r);
    r
  }

  /** The lookups of a spread-and-set row. */
  lemma PutLookup(row: Row, p: Pair, r: Row)
    requires r == if KeyIndex(row, p.key) < 0 then row + [p] else row[KeyIndex(row, p.key) := p]
    ensures Lookup(r, p.key) == Some(p.value)
    ensures forall k :: k != p.key ==> Lookup(r, k) == Lookup(row, k)
  {
    var i := KeyIndex(row, p.key);
    assert KeyIndex(r, p.key) == (if i < 0 then |row| else i) by {
      var m := if i < 0 then |row| else i;
      forall j | 0 <= j < m ensures r[j].key != p.key {
        assert r[j] == row[j];
      }
      KeyIndexAt(r, p.key, m);
    }
    forall k | k != p.key ensures Lookup(r, k) == Lookup(row, k) {
      var j := KeyIndex(row, k);
      if j >= 0 {
        assert r[j] == row[j];
        assert KeyIndex(r, k) == j;
      } else {
        assert KeyIndex(r, k) == -1;
      }
    }
  }

  /** The keys of a spread-and-set row. */
  lemma PutKeys(row: Row, p: Pair, r: Row)
    requires r == if KeyIndex(row, p.key) < 0 then row + [p] else row[KeyIndex(row, p.key) := p]
    ensures KeyIndex(row, p.key) >= 0 ==> Keys(r) == Keys(row)
    ensures KeyIndex(row, p.key) < 0 ==> Keys(r) == Keys(row) + [p.key]
    ensures DistinctKeys(row) ==> DistinctKeys(r)
  {
    assert Keys(r) == if KeyIndex(row, p.key) >= 0 then Keys(row) else Keys(row) + [p.key];
  }

  /** The left fold that builds a row object from the pairs, starting from
      the empty object and setting one property per pair. */
  function Fold(ps: seq<Pair>): (r: Row)
    ensures DistinctKeys(r)
    ensures ps == [] ==> r == []
  {
    if ps == [] then [] else Put(Fold(ps[..|ps| - 1]), ps[|ps| - 1])
  }

  /** Reference definition: the value of the last pair with key `k`. */
  function LastValue(ps: seq<Pair>, k: string): Option<Value> {
    if ps == [] then None
    else if ps[|ps| - 1].key == k then Some(ps[|ps| - 1].value)
    else LastValue(ps[..|ps| - 1], k)
  }

  /** Position of the first pair with key `k`, for keys that occur. */
  function FirstIndex(ps: seq<Pair>, k: string): nat {
    var i := KeyIndex(ps, k);
    if i < 0 then |ps| else i
  }

  /** In the folded row the last value written for a key wins. */
  lemma {:induction false} FoldLastWins(ps: seq<Pair>, k: string)
    ensures Lookup(Fold(ps), k) == LastValue(ps, k)
  {
    if ps != [] {
      FoldLastWins(ps[..|ps| - 1], k);
    }
  }

  /** The folded row holds each key once, exactly the keys of the pairs, so
      it has at most as many keys as there are pairs. */
  lemma {:induction false} FoldKeys(ps: seq<Pair>)
    ensures DistinctKeys(Fold(ps))
    ensures forall k :: k in Keys(Fold(ps)) <==> k in Keys(ps)
    ensures |Fold(ps)| <= |ps|
  {
    if ps != [] {
      var init := ps[..|ps| - 1];
      var p := ps[|ps| - 1];
      FoldKeys(init);
      PutKeySet(Fold(init), p);
      assert Keys(ps) == Keys(init) + [p.key];
    }
  }

  /** Setting a property adds its key to the row's keys and no other. */
  lemma PutKeySet(row: Row, p: Pair)
    ensures forall k :: k in Keys(Put(row, p)) <==> k in Keys(row) || k == p.key
  {
    if KeyIndex(row, p.key) >= 0 {
      assert Keys(row)[KeyIndex(row, p.key)] == p.key;
    }
  }

  /** The row's keys appear in the order of their first occurrence among the pairs. */
  lemma {:induction false} FoldKeyOrder(ps: seq<Pair>, i: nat, j: nat)
    requires i < j < |Fold(ps)|
    ensures FirstIndex(ps, Fold(ps)[i].key) < FirstIndex(ps, Fold(ps)[j].key)
  {
    var init := ps[..|ps| - 1];
    var p := ps[|ps| - 1];
    var row := Fold(init);
    FoldKeys(init);
    FoldKeys(ps);
    assert Keys(Fold(ps))[i] == Fold(ps)[i].key;
    assert Keys(Fold(ps))[j] == Fold(ps)[j].key;
    if KeyIndex(row, p.key) >= 0 {
      assert Keys(Fold(ps)) == Keys(row);
      FoldKeyOrder(init, i, j);
      FirstIndexPrefix(ps, row[i].key);
      FirstIndexPrefix(ps, row[j].key);
      assert row[i].key in Keys(init) by { assert Keys(row)[i] == row[i].key; }
      assert row[j].key in Keys(init) by { assert Keys(row)[j] == row[j].key; }
    } else {
      assert Keys(Fold(ps)) == Keys(row) + [p.key];
      if j < |row| {
        FoldKeyOrder(init, i, j);
        assert row[i].key in Keys(init) by { assert Keys(row)[i] == row[i].key; }
        assert row[j].key in Keys(init) by { assert Keys(row)[j] == row[j].key; }
        FirstIndexPrefix(ps, row[i].key);
        FirstIndexPrefix(ps, row[j].key);
      } else {
        assert Fold(ps)[j].key == p.key;
        assert row[i].key in Keys(init) by { assert Keys(row)[i] == row[i].key; }
        FirstIndexPrefix(ps, row[i].key);
        assert p.key !in Keys(init);
        FirstIndexNew(ps);
      }
    }
  }

  lemma FirstIndexPrefix(ps: seq<Pair>, k: string)
    requires ps != [] && k in Keys(ps[..|ps| - 1])
    ensures FirstIndex(ps, k) == FirstIndex(ps[..|ps| - 1], k) < |ps| - 1
  {
    var init := ps[..|ps| - 1];
    var m :| 0 <= m < |init| && Keys(init)[m] == k;
    assert init[m].key == k;
    var i := KeyIndex(init, k);
    assert ps[i] == init[i];
    forall j | 0 <= j < i ensures ps[j].key != k {
      assert ps[j] == init[j];
    }
  }

  lemma FirstIndexNew(ps: seq<Pair>)
    requires ps != [] && ps[|ps| - 1].key !in Keys(ps[..|ps| - 1])
    ensures FirstIndex(ps, ps[|ps| - 1].key) == |ps| - 1
  {
    var init := ps[..|ps| - 1];
    var k := ps[|ps| - 1].key;
    forall j | 0 <= j < |ps| - 1 ensures ps[j].key != k {
      assert ps[j] == init[j];
      assert Keys(init)[j] == init[j].key;
    }
  }

  /** The pairs of one record: the value under the name, suffixed with the
      delimiter and the year when there is a year; then, when there is a
      unit, the unit under the name suffixed with the unit. */
  function Pairs(delim: string, e: DataEntry, prims: Primitives): (r: seq<Pair>)
    ensures |r| == if e.unit.Some? then 2 else 1
  {
    var name := Text(e.name, prims);
    var key := if e.year.Some? then name + delim + Text(e.year.value, prims) else name;
    [Pair(key, e.value)] + if e.unit.Some? then [Pair(name + delim + Text(e.unit.value, prims), e.unit.value)] else []
  }

  /** What the pairs of a record mean: the value is stored under the plain
      name when there is no year and under name, delimiter and year otherwise; the unit, when present, comes
      second under the name, delimiter and unit; and a record with neither
      gives the single pair (name, value). */
  lemma PairsShape(delim: string, e: DataEntry, prims: Primitives)
    ensures var r := Pairs(delim, e, prims);
            var name := Text(e.name, prims);
            && r[0].value == e.value
            && (e.year.None? ==> r[0].key == name)
            && (e.year.Some? ==> r[0].key == name + delim + Text(e.year.value, prims))
            && (e.unit.Some? ==> r[1] == Pair(name + delim + Text(e.unit.value, prims), e.unit.value))
            && (e.year.None? && e.unit.None? ==> r == [Pair(name, e.value)])
  {
  }

  /** All pairs of a file: each record's pairs, concatenated in record
      order, starting from the empty list. */
  function AllPairs(delim: string, records: seq<DataEntry>, prims: Primitives): (r: seq<Pair>)
    ensures |records| <= |r| <= 2 * |records|
  {
    if records == [] then []
    else AllPairs(delim, records[..|records| - 1], prims) + Pairs(delim, records[|records| - 1], prims)
  }

  /** Pairs from several records are concatenated in record order. */
  lemma {:induction false} AllPairsAppend(delim: string, a: seq<DataEntry>, b: seq<DataEntry>, prims: Primitives)
    ensures AllPairs(delim, a + b, prims) == AllPairs(delim, a, prims) + AllPairs(delim, b, prims)
    decreases |b|
  {
    if b == [] {
      assert a + b == a;
    } else {
      assert (a + b)[..|a + b| - 1] == a + b[..|b| - 1];
      AllPairsAppend(delim, a, b[..|b| - 1], prims);
    }
  }

  /** Each record contributes one pair, plus one for a unit. */
  lemma {:induction false} AllPairsLength(delim: string, records: seq<DataEntry>, prims: Primitives)
    ensures |AllPairs(delim, records, prims)| == |records| + |set i | 0 <= i < |records| && records[i].unit.Some?|
  {
    if records != [] {
      var init := records[..|records| - 1];
      AllPairsLength(delim, init, prims);
      var n := |records| - 1;
      var withUnit := set i | 0 <= i < |records| && records[i].unit.Some?;
      var before := set i | 0 <= i < n && init[i].unit.Some?;
      assert before == set i | 0 <= i < n && records[i].unit.Some?;
      if records[n].unit.Some? {
        assert withUnit == before + {n};
      } else {
        assert withUnit == before;
      }
    }
  }

  /** One record with both a year and a unit: the row holds its value and its
      unit under two keys, unless the year and the unit print the same, in
      which case the unit, written last, overwrites the value. */
  lemma YearAndUnit(delim: string, e: DataEntry, prims: Primitives)
    requires e.year.Some? && e.unit.Some?
    ensures var row := Fold(Pairs(delim, e, prims));
            var name := Text(e.name, prims);
            var yearKey := name + delim + Text(e.year.value, prims);
            var unitKey := name + delim + Text(e.unit.value, prims);
            && Lookup(row, unitKey) == Some(e.unit.value)
            && (Text(e.year.value, prims) != Text(e.unit.value, prims) ==> Lookup(row, yearKey) == Some(e.value))
            && (Text(e.year.value, prims) == Text(e.unit.value, prims) ==> |row| == 1)
  {
    var ps := Pairs(delim, e, prims);
    var name := Text(e.name, prims);
    var yearKey := name + delim + Text(e.year.value, prims);
    var unitKey := name + delim + Text(e.unit.value, prims);
    FoldLastWins(ps, unitKey);
    FoldLastWins(ps, yearKey);
    assert ps[..1] == [ps[0]] && ps[..1][..0] == [];
    if Text(e.year.value, prims) != Text(e.unit.value, prims) {
      assert yearKey != unitKey by {
        assert yearKey[|name + delim|..] == Text(e.year.value, prims);
        assert unitKey[|name + delim|..] == Text(e.unit.value, prims);
      }
    } else {
      var first := Fold(ps[..1]);
      assert ps[0].key == yearKey && ps[1].key == unitKey;
      assert first == Put(Fold(ps[..1][..0]), ps[..1][0]);
      assert Fold(ps[..1][..0]) == [];
      assert first == [ps[0]];
      assert KeyIndex(first, ps[1].key) >= 0 by {
        assert first[0].key == ps[1].key;
      }
      assert Fold(ps) == Put(first, ps[1]);
      assert |Keys(Fold(ps))| == |Keys(first)| == 1;
    }
  }

  /** `prepareToCSV`: the row of one output file, or None when the file
      cannot be read or parsed. `read` stands for reading and parsing a file. */
  function PrepareToCsv(delim: string, read: string -> Option<seq<DataEntry>>, file: string, prims: Primitives): (r: Option<Row>)
    ensures r.None? <==> read(file).None?
  {
    match read(file)
    case None => None
    case Some(records) => Some(Fold(AllPairs(delim, records, prims)))
  }

  /** A parsed file's row holds, for each key, the value of the last pair
      with that key, each key once. */
  lemma PrepareToCsvRow(delim: string, read: string -> Option<seq<DataEntry>>, file: string, prims: Primitives, k: string)
    requires read(file).Some?
    ensures var ps := AllPairs(delim, read(file).value, prims);
            && Lookup(PrepareToCsv(delim, read, file, prims).value, k) == LastValue(ps, k)
            && DistinctKeys(PrepareToCsv(delim, read, file, prims).value)
            && |PrepareToCsv(delim, read, file, prims).value| <= |ps|
  {
    var ps := AllPairs(delim, read(file).value, prims);
    FoldLastWins(ps, k);
    FoldKeys(ps);
  }

  /** The null filter of `mergeToCSV`: the rows that are not null, in order. */
  function Present(rs: seq<Option<Row>>): (r: seq<Row>)
    ensures |r| <= |rs|
  {
    if rs == [] then []
    else (if rs[0].Some? then [rs[0].value] else []) + Present(rs[1..])
  }

  /** `mergeToCSV` before CSV rendering: one row per output file that could be
      read, in the order of the files. */
  function MergeRows(delim: string, read: string -> Option<seq<DataEntry>>, files: seq<string>, prims: Primitives): (r: seq<Row>)
    ensures |r| <= |files|
  {
    Present(seq(|files|, i requires 0 <= i < |files| => PrepareToCsv(delim, read, files[i], prims)))
  }

  lemma {:induction false} PresentAppend(a: seq<Option<Row>>, b: seq<Option<Row>>)
    ensures Present(a + b) == Present(a) + Present(b)
  {
    if a == [] {
      assert a + b == b;
    } else {
      var h := if a[0].Some? then [a[0].value] else [];
      assert (a + b)[0] == a[0];
      assert (a + b)[1..] == a[1..] + b;
      calc {
        Present(a + b);
        h + Present(a[1..] + b);
        { PresentAppend(a[1..], b); }
        h + (Present(a[1..]) + Present(b));
        (h + Present(a[1..])) + Present(b);
        Present(a) + Present(b);
      }
    }
  }

  /** With every value present nothing is dropped and the order is kept. */
  lemma {:induction false} PresentAll(rs: seq<Option<Row>>)
    requires forall i :: 0 <= i < |rs| ==> rs[i].Some?
    ensures |Present(rs)| == |rs|
    ensures forall i :: 0 <= i < |rs| ==> Present(rs)[i] == rs[i].value
  {
    if rs != [] {
      PresentAll(rs[1..]);
    }
  }

  /** Rows are merged in file order: merging two lists of files is merging
      each and concatenating. */
  lemma MergeRowsAppend(delim: string, read: string -> Option<seq<DataEntry>>, a: seq<string>, b: seq<string>, prims: Primitives)
    ensures MergeRows(delim, read, a + b, prims) == MergeRows(delim, read, a, prims) + MergeRows(delim, read, b, prims)
  {
    var fa := seq(|a|, i requires 0 <= i < |a| => PrepareToCsv(delim, read, a[i], prims));
    var fb := seq(|b|, i requires 0 <= i < |b| => PrepareToCsv(delim, read, b[i], prims));
    var fab := seq(|a + b|, i requires 0 <= i < |a + b| => PrepareToCsv(delim, read, (a + b)[i], prims));
    assert fab == fa + fb by {
      forall i | 0 <= i < |fab| ensures fab[i] == (fa + fb)[i] {
        if i >= |a| {
          assert (a + b)[i] == b[i - |a|];
        }
      }
    }
    PresentAppend(fa, fb);
  }

  /** A file that cannot be read contributes no row and does not stop the merge. */
  lemma MergeRowsSkipsUnreadable(delim: string, read: string -> Option<seq<DataEntry>>, files: seq<string>, i: nat, prims: Primitives)
    requires i < |files| && read(files[i]).None?
    ensures MergeRows(delim, read, files, prims) == MergeRows(delim, read, files[..i] + files[i + 1..], prims)
  {
    assert files == files[..i] + [files[i]] + files[i + 1..];
    MergeRowsAppend(delim, read, files[..i] + [files[i]], files[i + 1..], prims);
    MergeRowsAppend(delim, read, files[..i], [files[i]], prims);
    MergeRowsAppend(delim, read, files[..i], files[i + 1..], prims);
    var one := seq(1, j requires 0 <= j < 1 => PrepareToCsv(delim, read, [files[i]][j], prims));
    assert one == [None];
  }

  /** When every file can be read there is one row per file, in file order. */
  lemma MergeRowsAllRead(delim: string, read: string -> Option<seq<DataEntry>>, files: seq<string>, prims: Primitives)
    requires forall i :: 0 <= i < |files| ==> read(files[i]).Some?
    ensures |MergeRows(delim, read, files, prims)| == |files|
    ensures forall i :: 0 <= i < |files| ==>
              MergeRows(delim, read, files, prims)[i] == Fold(AllPairs(delim, read(files[i]).value, prims))
  {
    var rs := seq(|files|, i requires 0 <= i < |files| => PrepareToCsv(delim, read, files[i], prims));
    PresentAll(rs);
  }
}
