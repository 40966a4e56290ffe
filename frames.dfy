/** The part of pandas the scraper relies on: a row is a dictionary
    from column name to cell, `DataFrame(list_of_dicts)` takes its
    columns from the keys in order of first appearance,
    `DataFrame(columns=...)` is an empty frame with a fixed schema, and
    `concat(frames, ignore_index=True)` stacks the rows and unites the
    columns. A cell a row lacks reads as a missing value (NaN). */
module Frames {
  import opened PyBase
  import opened Keywords

  datatype Cell =
    | StrCell(s: string)
    | NoneCell                 // Python None
    | Missing                  // NaN: the row has no such key
    | KeywordCell(d: seq<Entry>)

  /** A row dictionary: its items in insertion order. */
  type Row = seq<(string, Cell)>

  datatype Frame = Frame(columns: seq<string>, rows: seq<Row>)

  /** `row.get(key, NaN)`: the cell of the first item with that key. */
  function Lookup(r: Row, key: string): (c: Cell)
    ensures key !in Keys(r) ==> c == Missing
    ensures c != Missing ==> exists i :: 0 <= i < |r| && r[i] == (key, c)
    ensures forall i :: 0 <= i < |r| && r[i].0 == key && (forall j :: 0 <= j < i ==> r[j].0 != key)
                        ==> c == r[i].1
  {
    if r == [] then Missing
    else if r[0].0 == key then
      assert Keys(r)[0] == key;
      r[0].1
    else
      assert Keys(r[1..]) == Keys(r)[1..];
      assert forall i :: 1 <= i < |r| ==> r[i] == r[1..][i - 1];
      Lookup(r[1..], key)
  }

  /** In a row whose keys are distinct, each key finds its own cell. */
  lemma LookupDistinct(r: Row, i: nat)
    requires Distinct(Keys(r)) && i < |r|
    ensures Lookup(r, r[i].0) == r[i].1
  {
    var key := r[i].0;
    forall j | 0 <= j < i
      ensures r[j].0 != key
    {
      assert Keys(r)[j] == r[j].0 && Keys(r)[i] == key;
    }
  }

  /** `cols` followed by the names of `ks` it does not hold yet, in
      order of first appearance. */
  function AddNew(cols: seq<string>, ks: seq<string>): seq<string>
    decreases |ks|
  {
    if ks == [] then cols
    else AddNew(if ks[0] in cols then cols else cols + [ks[0]], ks[1..])
  }

  /** Uniting keeps the old columns first, adds each new name once, and
      loses none. */
  lemma {:induction false} AddNewSpec(cols: seq<string>, ks: seq<string>)
    requires Distinct(cols)
    ensures var r := AddNew(cols, ks);
            && Distinct(r) && |cols| <= |r| && r[..|cols|] == cols
            && forall x :: x in r <==> x in cols || x in ks
    decreases |ks|
  {
    if ks != [] {
      var c := if ks[0] in cols then cols else cols + [ks[0]];
      AddNewSpec(c, ks[1..]);
      var r := AddNew(cols, ks);
      assert r[..|c|] == c;
      assert r[..|cols|] == r[..|c|][..|cols|];
      assert ks == [ks[0]] + ks[1..];
    }
  }

  /** Adding names already present changes nothing. */
  lemma {:induction false} AddNewPresent(cols: seq<string>, ks: seq<string>)
    requires forall x :: x in ks ==> x in cols
    ensures AddNew(cols, ks) == cols
    decreases |ks|
  {
    if ks != [] {
      AddNewPresent(cols, ks[1..]);
    }
  }

  /** The columns of `DataFrame(rows)`: every key, in order of first
      appearance. */
  function RowColumns(rows: seq<Row>): seq<string> {
    if rows == [] then [] else AddNew(RowColumns(rows[..|rows| - 1]), Keys(rows[|rows| - 1]))
  }

  /** What `process` returns: `DataFrame(columns=empty)` when there are
      no rows, `DataFrame(rows)` otherwise. */
  function ToFrame(rows: seq<Row>, empty: seq<string>): Frame {
    if rows == [] then Frame(empty, []) else Frame(RowColumns(rows), rows)
  }

  /** When every row has the same distinct keys, those keys are the
      columns, in order; with no row the fixed schema is. */
  lemma ToFrameSpec(rows: seq<Row>, empty: seq<string>, keys: seq<string>)
    requires Distinct(keys)
    requires forall i :: 0 <= i < |rows| ==> Keys(rows[i]) == keys
    ensures ToFrame(rows, empty).rows == rows
    ensures rows == [] ==> ToFrame(rows, empty).columns == empty
    ensures rows != [] ==> ToFrame(rows, empty).columns == keys
  {
    if rows != [] {
      UniformRowColumns(rows, keys);
    }
  }

  lemma {:induction false} UniformRowColumns(rows: seq<Row>, keys: seq<string>)
    requires Distinct(keys) && rows != []
    requires forall i :: 0 <= i < |rows| ==> Keys(rows[i]) == keys
    ensures RowColumns(rows) == keys
    decreases |rows|
  {
    var init := rows[..|rows| - 1];
    if init == [] {
      AddNewSpec([], keys);
      AddNewFromEmpty(keys);
    } else {
      UniformRowColumns(init, keys);
      AddNewPresent(keys, keys);
    }
  }

  /** Distinct names united into nothing come out as they are. */
  lemma {:induction false} AddNewFromEmpty(keys: seq<string>)
    requires Distinct(keys)
    ensures AddNew([], keys) == keys
  {
    AddNewSuffix([], keys);
    assert [] + keys == keys;
  }

  lemma {:induction false} AddNewSuffix(cols: seq<string>, ks: seq<string>)
    requires Distinct(cols + ks)
    ensures AddNew(cols, ks) == cols + ks
    decreases |ks|
  {
    if ks != [] {
      var c := cols + [ks[0]];
      assert ks[0] !in cols by {
        assert (cols + ks)[|cols|] == ks[0];
        forall j | 0 <= j < |cols| ensures cols[j] != ks[0] {
          assert (cols + ks)[j] == cols[j];
        }
      }
      assert c + ks[1..] == cols + ks;
      AddNewSuffix(c, ks[1..]);
    }
  }

  /** The columns of `concat(frames)`: all columns, first appearance first. */
  function FrameColumns(frames: seq<Frame>): seq<string> {
    if frames == [] then [] else AddNew(FrameColumns(frames[..|frames| - 1]), frames[|frames| - 1].columns)
  }

  /** The rows of the frames, frame after frame. */
  function AllRows(frames: seq<Frame>): seq<Row> {
    Flatten(seq(|frames|, i requires 0 <= i < |frames| => frames[i].rows))
  }

  /** `pd.concat(frames, ignore_index=True)`; an empty list raises. */
  function Concat(frames: seq<Frame>): Result<Frame> {
    if frames == [] then Err(ValueError(NothingToConcat))
    else Ok(Frame(FrameColumns(frames), AllRows(frames)))
  }

  /** Concatenation stacks the rows in frame order and its columns are
      exactly the union of the frames' columns, each named once. */
  lemma {:induction false} FrameColumnsSpec(frames: seq<Frame>)
    ensures Distinct(FrameColumns(frames))
    ensures forall x :: x in FrameColumns(frames) <==>
              exists i :: 0 <= i < |frames| && x in frames[i].columns
  {
    if frames != [] {
      var init := frames[..|frames| - 1];
      FrameColumnsSpec(init);
      AddNewSpec(FrameColumns(init), frames[|frames| - 1].columns);
      forall x | x in FrameColumns(frames)
        ensures exists i :: 0 <= i < |frames| && x in frames[i].columns
      {
        if x in FrameColumns(init) {
          var i :| 0 <= i < |init| && x in init[i].columns;
          assert frames[i] == init[i];
        }
      }
      forall x, i | 0 <= i < |frames| && x in frames[i].columns
        ensures x in FrameColumns(frames)
      {
        if i < |init| {
          assert init[i] == frames[i];
        }
      }
    }
  }

  lemma ConcatSpec(frames: seq<Frame>)
    ensures Concat(frames).Err? <==> frames == []
    ensures Concat(frames).Ok? ==>
              && Distinct(Concat(frames).value.columns)
              && forall x :: x in Concat(frames).value.columns <==>
                   exists i :: 0 <= i < |frames| && x in frames[i].columns
  {
    FrameColumnsSpec(frames);
  }

  /** The column `c` of a frame: each row's cell, NaN where missing. */
  function ColumnOf(f: Frame, c: string): (col: seq<Cell>)
    ensures |col| == |f.rows|
  {
    seq(|f.rows|, i requires 0 <= i < |f.rows| => Lookup(f.rows[i], c))
  }

  /** `s` without the item `x`. */
  function Without(s: seq<string>, x: string): (r: seq<string>)
    ensures forall y :: y in r <==> y in s && y != x
    ensures Distinct(s) ==> Distinct(r)
  {
    if s == [] then []
    else
      var rest := Without(s[1..], x);
      assert forall y :: y in s <==> y == s[0] || y in s[1..];
      if s[0] == x then rest
      else
        assert Distinct(s) ==> s[0] !in s[1..];
        assert forall j :: 1 <= j < |[s[0]] + rest| ==> ([s[0]] + rest)[j] == rest[j - 1];
        [s[0]] + rest
  }

  /** Removing an item that is not in the tail leaves the tail alone. */
  lemma {:induction false} WithoutAppend(a: seq<string>, x: string, b: seq<string>)
    requires x !in b
    ensures Without(a + b, x) == Without(a, x) + Without(b, x)
    ensures Without(b, x) == b
  {
    WithoutAbsent(b, x);
    if a != [] {
      assert (a + b)[0] == a[0];
      assert (a + b)[1..] == a[1..] + b;
      WithoutAppend(a[1..], x, b);
    } else {
      assert a + b == b;
    }
  }

  /** In distinct columns, deleting the one at `i` leaves those before
      it and those after it, in order. */
  lemma {:induction false} WithoutAt(s: seq<string>, i: nat)
    requires Distinct(s) && i < |s|
    ensures Without(s, s[i]) == s[..i] + s[i + 1..]
  {
    if i == 0 {
      WithoutAbsent(s[1..], s[0]);
    } else {
      assert s[1..][i - 1] == s[i];
      WithoutAt(s[1..], i - 1);
      assert s[0] != s[i];
      assert s[..i] == [s[0]] + s[1..][..i - 1];
      assert s[i + 1..] == s[1..][i..];
    }
  }

  lemma {:induction false} WithoutAbsent(s: seq<string>, x: string)
    requires x !in s
    ensures Without(s, x) == s
  {
    if s != [] {
      WithoutAbsent(s[1..], x);
    }
  }

  /** `astype(str)` of a text, `None` or NaN cell. */
  function AsStr(c: Cell): string
    requires !c.KeywordCell?
  {
    match c
    case StrCell(s) => s
    case NoneCell => "None"
    case Missing => "nan"
  }

  /** A column of `n` missing values. */
  function NaNs(n: nat): (col: seq<Cell>)
    ensures |col| == n && forall i :: 0 <= i < n ==> col[i] == Missing
  {
    seq(n, _ => Missing)
  }

  /** A pandas DataFrame changed in place: its column names in order,
      each column's cells, and the number of rows. */
  class Table {
    var columns: seq<string>
    var cells: map<string, seq<Cell>>
    var height: nat

    ghost predicate Valid()
      reads this
    {
      && Distinct(columns)
      && (forall c :: c in cells <==> c in columns)
      && (forall c :: c in columns ==> |cells[c]| == height)
    }

    /** `pd.DataFrame` of the frame `f`. */
    constructor (f: Frame)
      requires Distinct(f.columns)
      ensures Valid() && columns == f.columns && height == |f.rows|
      ensures forall c :: c in columns ==> cells[c] == ColumnOf(f, c)
    {
      columns := f.columns;
      cells := map c | c in f.columns :: ColumnOf(f, c);
      height := |f.rows|;
    }

    /** `df[name]`: the column, or `KeyError`. */
    method Get(name: string) returns (r: Result<seq<Cell>>)
      requires Valid()
      ensures name in columns ==> r == Ok(cells[name])
      ensures name !in columns ==> r == Err(KeyError)
    {
      if name in columns {
        return Ok(cells[name]);
      }
      assert name !in cells;
      return Err(KeyError);
    }

    /** `df[name] = values`: replaces the column or adds it at the end.
        On a frame with rows, a list of another length raises
        `ValueError`; a frame without rows takes its index from a
        non-empty list, its other columns becoming all NaN. */
    method SetColumn(name: string, values: seq<Cell>) returns (r: Result<()>)
      requires Valid()
      modifies this
      ensures Valid()
      ensures old(height) > 0 && |values| != old(height) ==>
                && r == Err(ValueError(LengthMismatch))
                && columns == old(columns) && cells == old(cells) && height == old(height)
      ensures old(height) == 0 || |values| == old(height) ==>
                && r == Ok(())
                && height == |values|
                && columns == (if name in old(columns) then old(columns) else old(columns) + [name])
                && cells == (if |values| == old(height) then old(cells)
                             else map c | c in old(columns) :: NaNs(|values|))[name := values]
    {
      if |values| != height {
        if height > 0 {
          return Err(ValueError(LengthMismatch));
        }
        cells := map c | c in columns :: NaNs(|values|);
        height := |values|;
      }
      if name !in columns {
        assert forall j :: 0 <= j < |columns| ==> columns[j] != name;
        columns := columns + [name];
      }
      cells := cells[name := values];
      return Ok(());
    }

    /** `del df[name]`: removes the column, or raises `KeyError`. */
    method DeleteColumn(name: string) returns (r: Result<()>)
      requires Valid()
      modifies this
      ensures Valid() && height == old(height)
      ensures name !in old(columns) ==>
                r == Err(KeyError) && columns == old(columns) && cells == old(cells)
      ensures name in old(columns) ==>
                r == Ok(()) && columns == Without(old(columns), name) && cells == old(cells) - {name}
    {
      if name !in columns {
        return Err(KeyError);
      }
      columns := Without(columns, name);
      cells := cells - {name};
      return Ok(());
    }
  }
}
