/**
 Inline edits of a filtered grid: the grid shows, and numbers, the rows its column filters keep,
 while Apply looks the numbers up among all rows of the result.
 */
module InlineFilter {
  import opened Options
  import opened Strings
  import opened InlineEdits
  import opened InlineApply

  predicate Contains(text: string, part: string) {
    exists i | 0 <= i <= |text| :: Starts(text[i..], part)
  }

  /** `String(row[col] ?? "")` */
  function CellText(row: Row, col: string): string {
    if col in row && Shown(row[col]).Some? then Shown(row[col]).value else ""
  }

  predicate Keeps(row: Row, filters: map<string, string>) {
    forall col <- filters :: filters[col] == "" || Contains(Lower(CellText(row, col)), Lower(filters[col]))
  }

  /** `part` stands in `text` from position `i` on, in any case. */
  predicate FoundAt(text: string, part: string, i: nat) {
    i + |part| <= |text| && forall k | 0 <= k < |part| :: SameLetter(text[i + k], part[k])
  }

  ghost predicate Holds(text: string, part: string) {
    exists i: nat :: FoundAt(text, part, i)
  }

  lemma FoundAtIff(text: string, part: string, i: nat)
    ensures i + |part| <= |text| && Starts(Lower(text)[i..], Lower(part)) <==> FoundAt(text, part, i)
  {
    if i + |part| <= |text| {
      var here, there := Lower(text)[i..][..|part|], Lower(part);
      forall k | 0 <= k < |part| ensures here[k] == there[k] <==> SameLetter(text[i + k], part[k]) {
        LetterIff(text[i + k], part[k]);
      }
      assert here == there <==> forall k | 0 <= k < |part| :: here[k] == there[k];
    }
  }

  /** A row stays on screen exactly where each filter's text stands somewhere in its column's, in any case. */
  lemma KeepsIff(row: Row, filters: map<string, string>)
    ensures Keeps(row, filters) <==>
      forall col <- filters ::
        Holds(match if col in row then row[col] else Null case Null => "" case Num(n) => n case Text(v) => v, filters[col])
  {
    forall col | col in filters
      ensures (filters[col] == "" || Contains(Lower(CellText(row, col)), Lower(filters[col]))) <==>
        Holds(CellText(row, col), filters[col])
    {
      HoldsIff(CellText(row, col), filters[col]);
    }
  }

  lemma HoldsIff(text: string, part: string)
    ensures (part == "" || Contains(Lower(text), Lower(part))) <==> Holds(text, part)
  {
    if part == "" {
      assert FoundAt(text, part, 0);
    } else if Contains(Lower(text), Lower(part)) {
      var i :| 0 <= i <= |text| && Starts(Lower(text)[i..], Lower(part));
      FoundAtIff(text, part, i);
    } else {
      forall i: nat ensures !FoundAt(text, part, i) {
        FoundAtIff(text, part, i);
      }
    }
  }

  /** The rows on screen. */
  function Filtered(rows: seq<Row>, filters: map<string, string>): seq<Row> {
    if rows == [] then [] else
    var before, last := Filtered(rows[..|rows| - 1], filters), rows[|rows| - 1];
    if Keeps(last, filters) then before + [last] else before
  }

  /** Where each of them is in the result. */
  function Places(rows: seq<Row>, filters: map<string, string>): (r: seq<nat>)
    ensures forall k | 0 <= k < |r| :: k <= r[k] < |rows|
    ensures forall j, k | 0 <= j < k < |r| :: r[j] < r[k]
    ensures |r| <= |rows|
  {
    if rows == [] then [] else
    var before := Places(rows[..|rows| - 1], filters);
    if Keeps(rows[|rows| - 1], filters) then before + [|rows| - 1] else before
  }

  lemma {:induction false} FilteredIsPlaced(rows: seq<Row>, filters: map<string, string>)
    ensures |Filtered(rows, filters)| == |Places(rows, filters)|
    ensures forall k | 0 <= k < |Places(rows, filters)| :: Filtered(rows, filters)[k] == rows[Places(rows, filters)[k]]
  {
    if rows != [] {
      FilteredIsPlaced(rows[..|rows| - 1], filters);
    }
  }

  /** A row on screen has its own number in the result exactly where no row above it, or itself, is filtered out. */
  lemma {:induction false} InPlaceIff(rows: seq<Row>, filters: map<string, string>, k: nat)
    requires k < |Places(rows, filters)|
    ensures Places(rows, filters)[k] == k <==> forall i | 0 <= i <= k :: Keeps(rows[i], filters)
  {
    var was := rows[..|rows| - 1];
    if k < |was| { SamePrefix(rows, was, filters, k); }
    if k < |Places(was, filters)| {
      InPlaceIff(was, filters, k);
    } else if k < |was| {
      SomeDropped(was, filters, k);
    } else {
      AllKept(was, filters);
      AllKept(rows, filters);
    }
  }

  lemma SamePrefix(rows: seq<Row>, was: seq<Row>, filters: map<string, string>, k: nat)
    requires was <= rows && k < |was|
    ensures (forall i | 0 <= i <= k :: Keeps(rows[i], filters)) <==> forall i | 0 <= i <= k :: Keeps(was[i], filters)
  {
    assert forall i | 0 <= i < |was| :: was[i] == rows[i];
  }

  lemma {:induction false} AllKept(rows: seq<Row>, filters: map<string, string>)
    ensures |Places(rows, filters)| == |rows| <==> forall i | 0 <= i < |rows| :: Keeps(rows[i], filters)
  {
    if rows != [] {
      AllKept(rows[..|rows| - 1], filters);
    }
  }

  lemma NotAllKept(rows: seq<Row>, filters: map<string, string>)
    ensures |Places(rows, filters)| < |rows| ==> exists i | 0 <= i < |rows| :: !Keeps(rows[i], filters)
  {
    AllKept(rows, filters);
  }

  /** Of the first `k + 1` rows one is dropped where fewer than that are on screen. */
  lemma {:induction false} SomeDropped(rows: seq<Row>, filters: map<string, string>, k: nat)
    requires |Places(rows, filters)| <= k < |rows|
    ensures exists i | 0 <= i <= k :: !Keeps(rows[i], filters)
  {
    if k == |rows| - 1 {
      NotAllKept(rows, filters);
    } else {
      SomeDropped(rows[..|rows| - 1], filters, k);
    }
  }

  /**
   The statement of an edit made in row `k` of the grid is for the row that was edited if and only
   if the filters drop neither that row of the result nor any above it.
   */
  lemma EditHitsItsRowIff(rows: seq<Row>, filters: map<string, string>, key: string, k: nat)
    requires KeysIdentify(rows, key) && k < |Filtered(rows, filters)|
    ensures k < |rows|
    ensures KeyValue(rows[k], key) == KeyValue(Filtered(rows, filters)[k], key)
            <==> forall i | 0 <= i <= k :: Keeps(rows[i], filters)
  {
    FilteredIsPlaced(rows, filters);
    InPlaceIff(rows, filters, k);
    var place := Places(rows, filters)[k];
    assert key in rows[k] && key in rows[place] && rows[k][key] != Null && rows[place][key] != Null;
  }
}
