/**
 Grouping rows by a string key, as the charts and the pivot do: a partition of the rows, in
 order of first appearance.
 */
module Grouping {
  import opened Options

  /** A value of a result row: its text, and the number `Number(...)` makes of it, if any. */
  datatype Cell = Null | Known(text: string, number: Option<real>)

  type Row = map<string, Cell>

  /** The field of the row shows this text; an absent value and null show `otherwise`. */
  predicate ShowsText(row: Row, field: string, text: string, otherwise: string) {
    if field in row && row[field] != Null then row[field].text == text else text == otherwise
  }

  /** The number of a field, if it is there and is one. */
  predicate HasNumber(row: Row, field: string, x: real) {
    field in row && row[field] != Null && row[field].number == Some(x)
  }

  ghost predicate Distinct(keys: seq<string>) {
    forall i, j | 0 <= i < j < |keys| :: keys[i] != keys[j]
  }

  /** The rows with key `k`, in order. */
  function GroupOf<T>(rows: seq<T>, key: T -> string, k: string): (r: seq<T>)
    ensures |r| <= |rows| && forall row <- r :: row in rows && key(row) == k
  {
    if rows == [] then [] else
    var before := GroupOf(rows[..|rows| - 1], key, k);
    var last := rows[|rows| - 1];
    if key(last) == k then before + [last] else before
  }

  /** The keys in order of first appearance. */
  function KeysOf<T>(rows: seq<T>, key: T -> string): seq<string> {
    if rows == [] then [] else
    var before := KeysOf(rows[..|rows| - 1], key);
    var k := key(rows[|rows| - 1]);
    if k in before then before else before + [k]
  }

  ghost predicate Grouped<T(!new)>(keys: seq<string>, groups: map<string, seq<T>>, rows: seq<T>, key: T -> string) {
    && keys == KeysOf(rows, key)
    && (forall k :: k in groups <==> k in keys)
    && (forall k <- groups :: groups[k] == GroupOf(rows, key, k))
  }

  /** A map that is filled row by row, with its insertion order. */
  method GroupRows<T(!new)>(rows: seq<T>, key: T -> string) returns (keys: seq<string>, groups: map<string, seq<T>>)
    ensures Grouped(keys, groups, rows, key)
  {
    keys, groups := [], map[];
    for i := 0 to |rows|
      invariant Grouped(keys, groups, rows[..i], key)
    {
      var k := key(rows[i]);
      assert rows[..i + 1] == rows[..i] + [rows[i]];
      RowIsGrouped(keys, groups, rows[..i], rows[i], key);
      if k !in groups {
        groups := groups[k := []];
        keys := keys + [k];
      }
      groups := groups[k := groups[k] + [rows[i]]];
    }
    assert rows[..|rows|] == rows;
  }

  lemma RowIsGrouped<T(!new)>(keys: seq<string>, groups: map<string, seq<T>>, rows: seq<T>, row: T, key: T -> string)
    requires Grouped(keys, groups, rows, key)
    ensures
      var k := key(row);
      if k in groups then Grouped(keys, groups[k := groups[k] + [row]], rows + [row], key)
      else Grouped(keys + [k], groups[k := [] + [row]], rows + [row], key)
  {
    KeysGrow(rows, row, key);
    NoGroupYet(rows, key, key(row));
    forall k ensures GroupOf(rows + [row], key, k) == GroupOf(rows, key, k) + (if k == key(row) then [row] else []) {
      GroupGrows(rows, row, key, k);
    }
  }

  lemma GroupGrows<T>(rows: seq<T>, row: T, key: T -> string, k: string)
    ensures GroupOf(rows + [row], key, k) == GroupOf(rows, key, k) + (if k == key(row) then [row] else [])
  {
    assert (rows + [row])[..|rows|] == rows;
  }

  lemma KeysGrow<T>(rows: seq<T>, row: T, key: T -> string)
    ensures KeysOf(rows + [row], key) ==
      if key(row) in KeysOf(rows, key) then KeysOf(rows, key) else KeysOf(rows, key) + [key(row)]
  {
    assert (rows + [row])[..|rows|] == rows;
  }

  lemma {:induction false} NoGroupYet<T>(rows: seq<T>, key: T -> string, k: string)
    ensures k in KeysOf(rows, key) <==> GroupOf(rows, key, k) != []
  {
    if rows != [] {
      NoGroupYet(rows[..|rows| - 1], key, k);
    }
  }

  /** Each key once, exactly the keys the rows have. */
  lemma {:induction false} KeysAreTheKeys<T>(rows: seq<T>, key: T -> string)
    ensures Distinct(KeysOf(rows, key))
    ensures forall k :: k in KeysOf(rows, key) <==> exists row <- rows :: key(row) == k
  {
    if rows != [] {
      var was, last := rows[..|rows| - 1], rows[|rows| - 1];
      KeysAreTheKeys(was, key);
      assert rows == was + [last];
    }
  }

  /** A row is in the group of its own key and in no other. */
  lemma {:induction false} InItsGroup<T>(rows: seq<T>, key: T -> string, row: T, k: string)
    requires row in rows
    ensures row in GroupOf(rows, key, k) <==> key(row) == k
  {
    var was, last := rows[..|rows| - 1], rows[|rows| - 1];
    assert rows == was + [last];
    if row in was {
      InItsGroup(was, key, row, k);
    }
  }

  // ---------------------------------------------------------------------------
  // Totals

  function Total<T>(rows: seq<T>, f: T -> real): real {
    if rows == [] then 0.0 else Total(rows[..|rows| - 1], f) + f(rows[|rows| - 1])
  }

  function Sum(values: seq<real>): real {
    if values == [] then 0.0 else Sum(values[..|values| - 1]) + values[|values| - 1]
  }

  /** The groups' totals, added up over `keys`. */
  function GroupTotals<T>(keys: seq<string>, rows: seq<T>, key: T -> string, f: T -> real): real {
    if keys == [] then 0.0
    else GroupTotals(keys[..|keys| - 1], rows, key, f) + Total(GroupOf(rows, key, keys[|keys| - 1]), f)
  }

  lemma TotalGrows<T>(rows: seq<T>, row: T, f: T -> real)
    ensures Total(rows + [row], f) == Total(rows, f) + f(row)
  {
    assert (rows + [row])[..|rows|] == rows;
  }

  lemma {:induction false} RowJoinsOneGroup<T>(keys: seq<string>, rows: seq<T>, row: T, key: T -> string, f: T -> real)
    requires Distinct(keys)
    ensures GroupTotals(keys, rows + [row], key, f) ==
      GroupTotals(keys, rows, key, f) + (if key(row) in keys then f(row) else 0.0)
  {
    if keys != [] {
      var fewer, k := keys[..|keys| - 1], keys[|keys| - 1];
      RowJoinsOneGroup(fewer, rows, row, key, f);
      GroupGrows(rows, row, key, k);
      TotalGrows(GroupOf(rows, key, k), row, f);
      assert key(row) in keys <==> key(row) in fewer || key(row) == k;
      assert k !in fewer;
    }
  }

  lemma {:induction false} NothingToTotal<T>(keys: seq<string>, key: T -> string, f: T -> real)
    ensures GroupTotals(keys, [], key, f) == 0.0
  {
    if keys != [] {
      NothingToTotal(keys[..|keys| - 1], key, f);
    }
  }

  /** Over any distinct keys that cover the rows, the groups' totals add up to the rows' total. */
  lemma {:induction false} GroupsAddUp<T>(keys: seq<string>, rows: seq<T>, key: T -> string, f: T -> real)
    requires Distinct(keys) && forall row <- rows :: key(row) in keys
    ensures GroupTotals(keys, rows, key, f) == Total(rows, f)
  {
    if rows == [] {
      NothingToTotal(keys, key, f);
    } else {
      var was, last := rows[..|rows| - 1], rows[|rows| - 1];
      assert rows == was + [last];
      GroupsAddUp(keys, was, key, f);
      RowJoinsOneGroup(keys, was, last, key, f);
    }
  }

  // ---------------------------------------------------------------------------
  // Extremes

  function Values<T>(rows: seq<T>, f: T -> real): (r: seq<real>)
    ensures |r| == |rows|
  {
    seq(|rows|, i requires 0 <= i < |rows| => f(rows[i]))
  }

  predicate Least(x: real, values: seq<real>) {
    x in values && forall y <- values :: x <= y
  }

  predicate Greatest(x: real, values: seq<real>) {
    x in values && forall y <- values :: y <= x
  }

  /** `Math.min` over the values. */
  method MinOf(values: seq<real>) returns (x: real)
    requires values != []
    ensures Least(x, values)
  {
    x := values[0];
    for i := 1 to |values|
      invariant x in values && forall j | 0 <= j < i :: x <= values[j]
    {
      if values[i] < x { x := values[i]; }
    }
  }

  method MaxOf(values: seq<real>) returns (x: real)
    requires values != []
    ensures Greatest(x, values)
  {
    x := values[0];
    for i := 1 to |values|
      invariant x in values && forall j | 0 <= j < i :: values[j] <= x
    {
      if values[i] > x { x := values[i]; }
    }
  }

  method SumOf(values: seq<real>) returns (sum: real)
    ensures sum == Sum(values)
  {
    sum := 0.0;
    for i := 0 to |values|
      invariant sum == Sum(values[..i])
    {
      sum := sum + values[i];
      assert values[..i + 1][..i] == values[..i];
    }
    assert values[..|values|] == values;
  }

  lemma {:induction false} TotalOfValues<T>(rows: seq<T>, f: T -> real)
    ensures Sum(Values(rows, f)) == Total(rows, f)
  {
    if rows != [] {
      TotalOfValues(rows[..|rows| - 1], f);
      assert Values(rows, f)[..|rows| - 1] == Values(rows[..|rows| - 1], f);
    }
  }

  function Times(n: nat, x: real): real {
    n as real * x
  }

  function One(): Row -> real { (row: Row) => 1.0 }

  lemma {:induction false} TotalOfOnes(rows: seq<Row>)
    ensures Total(rows, One()) == |rows| as real
  {
    if rows != [] {
      TotalOfOnes(rows[..|rows| - 1]);
    }
  }
}
