/**
 The two aggregations behind `DataCharts`: histogram bins and grouped metrics, over
 mathematical reals.
 */
module Charts {
  import opened Options
  import opened Grouping

  // ---------------------------------------------------------------------------
  // Histogram

  datatype Bin = Bin(count: nat, min: real, max: real)

  /** A bin holds its lower edge, and its upper one only where it is the last bin. */
  predicate Holds(bin: Bin, last: bool, v: real) {
    bin.min <= v && (v < bin.max || (last && v == bin.max))
  }

  function CountIn(values: seq<real>, bin: Bin, last: bool): (r: nat)
    ensures r <= |values|
  {
    if values == [] then 0
    else CountIn(values[..|values| - 1], bin, last) + if Holds(bin, last, values[|values| - 1]) then 1 else 0
  }

  predicate Tiles(bins: seq<Bin>) {
    && (forall i | 0 <= i < |bins| :: bins[i].min <= bins[i].max)
    && (forall i | 0 < i < |bins| :: bins[i - 1].max == bins[i].min)
  }

  /** Tiles from the least value to the greatest, each counting what it holds. */
  ghost predicate IsHistogram(bins: seq<Bin>, values: seq<real>) {
    && bins != [] && Tiles(bins)
    && Least(bins[0].min, values) && Greatest(bins[|bins| - 1].max, values)
    && forall i | 0 <= i < |bins| :: bins[i].count == CountIn(values, bins[i], i == |bins| - 1)
  }

  method ComputeHistogramBins(values: seq<real>, buckets: nat) returns (bins: seq<Bin>)
    requires buckets > 0
    ensures values == [] ==> bins == []
    ensures values != [] ==> IsHistogram(bins, values)
    ensures values != [] && bins[0].min < bins[|bins| - 1].max ==>
              && |bins| == buckets
              && forall i | 0 <= i < buckets :: bins[i].max - bins[i].min == (bins[buckets - 1].max - bins[0].min) / buckets as real
  {
    if values == [] { return []; }
    var min := MinOf(values);
    var max := MaxOf(values);
    if min == max {
      AllInOne(values, Bin(|values|, min, max));
      return [Bin(|values|, min, max)];
    }
    bins := EvenHistogram(values, min, max, buckets);
  }

  method EvenHistogram(values: seq<real>, min: real, max: real, buckets: nat) returns (bins: seq<Bin>)
    requires buckets > 0 && min < max && Least(min, values) && Greatest(max, values)
    ensures IsHistogram(bins, values) && |bins| == buckets && bins[0].min == min && bins[buckets - 1].max == max
    ensures forall i | 0 <= i < buckets :: bins[i].max - bins[i].min == (max - min) / buckets as real
  {
    var binWidth := (max - min) / buckets as real;
    var edges := EvenBins(min, binWidth, buckets);
    bins := FillBins(values, min, max, binWidth, edges);
    EvenBinsTile(min, max, binWidth, buckets);
    FilledBins(bins, edges, values);
    assert forall i | 0 <= i < buckets :: edges[i] in edges;
  }

  /** The counting loop: one increment a value. */
  method FillBins(values: seq<real>, min: real, max: real, binWidth: real, edges: seq<Bin>) returns (bins: seq<Bin>)
    requires |edges| > 0 && edges == EvenBins(min, binWidth, |edges|)
    requires min < max && binWidth == (max - min) / |edges| as real && forall v <- values :: min <= v <= max
    ensures |bins| == |edges|
    ensures forall i | 0 <= i < |bins| :: bins[i] == edges[i].(count := CountIn(values, edges[i], i == |bins| - 1))
  {
    var buckets := |edges|;
    bins := edges;
    for j := 0 to |values|
      invariant |bins| == buckets
      invariant forall i | 0 <= i < buckets ::
                  bins[i] == edges[i].(count := CountIn(values[..j], edges[i], i == buckets - 1))
    {
      var v := values[j];
      assert v in values;
      var idx := ((v - min) / binWidth).Floor;
      IndexHolds(v, min, max, binWidth, buckets);
      if idx >= buckets { idx := buckets - 1; }
      assert forall k | 0 <= k < buckets :: Holds(edges[k], k == buckets - 1, v) <==> k == idx;
      bins := bins[idx := bins[idx].(count := bins[idx].count + 1)];
      assert values[..j + 1][..j] == values[..j];
    }
    assert values[..|values|] == values;
  }

  lemma FilledBins(bins: seq<Bin>, edges: seq<Bin>, values: seq<real>)
    requires |bins| == |edges| > 0 && Tiles(edges)
    requires Least(edges[0].min, values) && Greatest(edges[|edges| - 1].max, values)
    requires forall i | 0 <= i < |bins| :: bins[i] == edges[i].(count := CountIn(values, edges[i], i == |bins| - 1))
    ensures IsHistogram(bins, values)
  {
    forall i | 0 <= i < |bins| ensures bins[i].count == CountIn(values, bins[i], i == |bins| - 1) {
      SameEdges(values, edges[i], bins[i], i == |bins| - 1);
    }
  }

  /** How far the `i`-th edge is from the first. */
  function EdgeBy(width: real): int -> real {
    (i: int) => i as real * width
  }

  function EvenBin(min: real, width: real, i: nat): Bin {
    Bin(0, min + EdgeBy(width)(i), min + EdgeBy(width)(i + 1))
  }

  function EvenBins(min: real, width: real, buckets: nat): (r: seq<Bin>)
    ensures |r| == buckets
  {
    seq(buckets, i requires 0 <= i < buckets => EvenBin(min, width, i))
  }

  lemma Scale(i: int, j: int, width: real)
    requires i <= j && width > 0.0
    ensures i as real * width <= j as real * width
  {
  }

  /** The index the division gives, once clamped, is that of the one bin which holds the value. */
  lemma IndexHolds(v: real, min: real, max: real, width: real, buckets: nat)
    requires buckets > 0 && min < max && width == (max - min) / buckets as real && min <= v <= max
    ensures
      var floor := ((v - min) / width).Floor;
      var idx := if floor >= buckets then buckets - 1 else floor;
      && 0 <= idx < buckets
      && forall k | 0 <= k < buckets :: Holds(EvenBin(min, width, k), k == buckets - 1, v) <==> k == idx
  {
    var floor := ((v - min) / width).Floor;
    WidthFits(min, max, width, buckets);
    FloorOf(v - min, width);
    EdgesRiseBy(width);
    var idx := if floor >= buckets then buckets - 1 else floor;
    forall k | 0 <= k < buckets
      ensures Holds(EvenBin(min, width, k), k == buckets - 1, v) <==> k == idx
    {
      BinHolds(v - min, min, EdgeBy(width), buckets, floor, idx, k);
    }
  }

  lemma WidthFits(min: real, max: real, width: real, buckets: nat)
    requires buckets > 0 && min < max && width == (max - min) / buckets as real
    ensures width > 0.0 && EdgeBy(width)(buckets) == max - min
  {
  }

  lemma EdgesRiseBy(width: real)
    requires width > 0.0
    ensures forall i, j | i <= j :: EdgeBy(width)(i) <= EdgeBy(width)(j)
  {
    forall i, j | i <= j ensures EdgeBy(width)(i) <= EdgeBy(width)(j) {
      Scale(i, j, width);
    }
  }

  lemma BinHolds(d: real, min: real, edge: int -> real, buckets: nat, floor: int, idx: int, k: nat)
    requires forall i, j | i <= j :: edge(i) <= edge(j)
    requires 0 <= idx < buckets && k < buckets && idx == if floor >= buckets then buckets - 1 else floor
    requires edge(floor) <= d < edge(floor + 1) && d <= edge(buckets)
    ensures Holds(Bin(0, min + edge(k), min + edge(k + 1)), k == buckets - 1, min + d) <==> k == idx
  {
    assert k < idx ==> edge(k + 1) <= edge(idx) <= edge(floor);
    assert k > idx ==> edge(idx + 1) <= edge(k);
  }

  lemma FloorBounds(d: real, width: real, q: real, floor: int)
    requires width > 0.0 && d >= 0.0 && q * width == d && floor as real <= q < (floor + 1) as real
    ensures floor >= 0 && floor as real * width <= d < (floor + 1) as real * width
  {
    assert q >= 0.0;
  }

  lemma FloorOf(d: real, width: real)
    requires width > 0.0 && d >= 0.0
    ensures
      var floor := (d / width).Floor;
      floor >= 0 && floor as real * width <= d < (floor + 1) as real * width
  {
    var q := d / width;
    assert q * width == d;
    FloorBounds(d, width, q, q.Floor);
  }

  lemma EvenBinIsWide(min: real, width: real, i: nat)
    ensures EvenBin(min, width, i).max == EvenBin(min, width, i).min + width
  {
    assert (i + 1) as real * width == i as real * width + width;
  }

  lemma LastEdge(min: real, max: real, width: real, buckets: nat)
    requires buckets > 0 && width == (max - min) / buckets as real
    ensures EvenBin(min, width, buckets - 1).max == max && EvenBin(min, width, 0).min == min
  {
    assert buckets as real * width == max - min;
    assert (buckets - 1 + 1) as real == buckets as real;
  }

  lemma EvenBinsTile(min: real, max: real, width: real, buckets: nat)
    requires buckets > 0 && min < max && width == (max - min) / buckets as real
    ensures Tiles(EvenBins(min, width, buckets))
    ensures EvenBins(min, width, buckets)[buckets - 1].max == max && EvenBins(min, width, buckets)[0].min == min
    ensures forall bin <- EvenBins(min, width, buckets) :: bin.max == bin.min + width
  {
    LastEdge(min, max, width, buckets);
    forall i | 0 <= i < buckets {
      EvenBinIsWide(min, width, i);
    }
    assert width > 0.0;
  }

  lemma {:induction false} SameEdges(values: seq<real>, a: Bin, b: Bin, last: bool)
    requires a.min == b.min && a.max == b.max
    ensures CountIn(values, a, last) == CountIn(values, b, last)
  {
    if values != [] {
      SameEdges(values[..|values| - 1], a, b, last);
    }
  }

  lemma {:induction false} AllInOne(values: seq<real>, bin: Bin)
    requires forall v <- values :: Holds(bin, true, v)
    ensures CountIn(values, bin, true) == |values|
  {
    if values != [] {
      AllInOne(values[..|values| - 1], bin);
    }
  }

  function CountsSum(bins: seq<Bin>): nat {
    if bins == [] then 0 else CountsSum(bins[..|bins| - 1]) + bins[|bins| - 1].count
  }

  /** Every value is in exactly one bin, so the counts add up to the number of values. */
  lemma {:induction false} OneBinEach(bins: seq<Bin>, values: seq<real>, v: real)
    requires IsHistogram(bins, values) && v in values
    ensures exists i | 0 <= i < |bins| ::
              && Holds(bins[i], i == |bins| - 1, v)
              && forall j | 0 <= j < |bins| && Holds(bins[j], j == |bins| - 1, v) :: j == i
  {
    var i := BinOf(bins, v, |bins| - 1);
    forall j | 0 <= j < |bins| && j != i ensures !Holds(bins[j], j == |bins| - 1, v) {
      if j < i {
        EdgesRise(bins, j, i);
      } else {
        EdgesRise(bins, i, j);
      }
    }
  }

  /** The last bin whose lower edge is not above `v`, which `v` is above all later ones' below. */
  ghost function BinOf(bins: seq<Bin>, v: real, i: nat): (r: nat)
    requires i < |bins| && Tiles(bins) && bins[0].min <= v
    requires v < bins[i].max || (i == |bins| - 1 && v <= bins[i].max)
    ensures r <= i && Holds(bins[r], r == |bins| - 1, v)
  {
    if i == 0 || bins[i].min <= v then i else BinOf(bins, v, i - 1)
  }

  lemma {:induction false} EdgesRise(bins: seq<Bin>, i: nat, j: nat)
    requires Tiles(bins) && i < j < |bins|
    ensures bins[i].max <= bins[j].min
  {
    if i + 1 < j {
      EdgesRise(bins, i, j - 1);
    }
  }

  /** How many of the first `n` bins hold `v`. */
  function Hits(bins: seq<Bin>, n: nat, v: real): nat
    requires n <= |bins|
  {
    if n == 0 then 0 else Hits(bins, n - 1, v) + if Holds(bins[n - 1], n == |bins|, v) then 1 else 0
  }

  function CountedIn(bins: seq<Bin>, n: nat, values: seq<real>): nat
    requires n <= |bins|
  {
    if n == 0 then 0 else CountedIn(bins, n - 1, values) + CountIn(values, bins[n - 1], n == |bins|)
  }

  lemma {:induction false} ValueIsCounted(bins: seq<Bin>, n: nat, values: seq<real>, v: real)
    requires n <= |bins|
    ensures CountedIn(bins, n, values + [v]) == CountedIn(bins, n, values) + Hits(bins, n, v)
  {
    if n > 0 {
      ValueIsCounted(bins, n - 1, values, v);
      assert (values + [v])[..|values|] == values;
    }
  }

  lemma {:induction false} HitOnce(bins: seq<Bin>, n: nat, v: real, i: nat)
    requires n <= |bins| && i < |bins|
    requires forall j | 0 <= j < |bins| :: Holds(bins[j], j == |bins| - 1, v) <==> j == i
    ensures Hits(bins, n, v) == if i < n then 1 else 0
  {
    if n > 0 {
      HitOnce(bins, n - 1, v, i);
    }
  }

  lemma {:induction false} AllAreCounted(bins: seq<Bin>, all: seq<real>, values: seq<real>)
    requires IsHistogram(bins, all) && forall v <- values :: v in all
    ensures CountedIn(bins, |bins|, values) == |values|
  {
    if values == [] {
      NothingCounted(bins, |bins|);
    } else {
      var was, v := values[..|values| - 1], values[|values| - 1];
      assert values == was + [v];
      AllAreCounted(bins, all, was);
      ValueIsCounted(bins, |bins|, was, v);
      OneBinEach(bins, all, v);
      var i :| 0 <= i < |bins| && Holds(bins[i], i == |bins| - 1, v)
               && forall j | 0 <= j < |bins| && Holds(bins[j], j == |bins| - 1, v) :: j == i;
      HitOnce(bins, |bins|, v, i);
    }
  }

  lemma {:induction false} NothingCounted(bins: seq<Bin>, n: nat)
    requires n <= |bins|
    ensures CountedIn(bins, n, []) == 0
  {
    if n > 0 {
      NothingCounted(bins, n - 1);
    }
  }

  lemma {:induction false} CountedIsCounts(bins: seq<Bin>, n: nat, values: seq<real>)
    requires IsHistogram(bins, values) && n <= |bins|
    ensures CountedIn(bins, n, values) == CountsSum(bins[..n])
  {
    if n > 0 {
      CountedIsCounts(bins, n - 1, values);
      assert bins[..n][..n - 1] == bins[..n - 1];
    }
  }

  lemma CountsAddUp(bins: seq<Bin>, values: seq<real>)
    requires IsHistogram(bins, values)
    ensures CountsSum(bins) == |values|
  {
    AllAreCounted(bins, values, values);
    CountedIsCounts(bins, |bins|, values);
    assert bins[..|bins|] == bins;
  }

  // ---------------------------------------------------------------------------
  // Grouped metrics

  datatype Aggregation = Plain | Summed | Avg | Count | Min | Max

  datatype Metric = Metric(field: string, aggregation: Aggregation)

  datatype Out = Key(key: string) | Value(value: real)

  datatype Answer = Untouched(rows: seq<Row>) | Aggregated(groups: seq<map<string, Out>>)

  /** `Number(r[field]) || 0`: a missing, null or unreadable value counts as zero. */
  function NumberIn(field: string): Row -> real {
    (row: Row) => if field in row && row[field].Known? && row[field].number.Some? then row[field].number.value else 0.0
  }

  /** The group key; `date` buckets a non-empty one. */
  function GroupKey(field: string, date: Option<string -> string>): Row -> string {
    (row: Row) =>
      var key := if field in row && row[field].Known? then row[field].text else "";
      if date.Some? && key != "" then date.value(key) else key
  }

  /** A row's number is the field's, and zero exactly where it has none or that one. */
  lemma NumberIff(row: Row, field: string, x: real)
    ensures NumberIn(field)(row) == x <==> HasNumber(row, field, x) || (x == 0.0 && forall y :: !HasNumber(row, field, y))
  {
    assert field in row && row[field] != Null && row[field].number.Some? ==> HasNumber(row, field, row[field].number.value);
  }

  /** A row goes by the text it shows in the field, in its date's bucket where it shows one. */
  lemma GroupKeyIff(row: Row, field: string, date: Option<string -> string>, key: string)
    ensures GroupKey(field, date)(row) == key <==>
      exists text :: ShowsText(row, field, text, "") && key == if date == None || text == "" then text else date.value(text)
  {
    var text := if field in row && row[field] != Null then row[field].text else "";
    assert ShowsText(row, field, text, "");
    assert forall t :: ShowsText(row, field, t, "") ==> t == text;
  }

  /** `x` is what the aggregation says of the values. */
  ghost predicate Measures(a: Aggregation, values: seq<real>, x: real) {
    values != [] &&
    match a
    case Plain => x == values[0]
    case Summed => x == Sum(values)
    case Avg => Times(|values|, x) == Sum(values)
    case Count => x == |values| as real
    case Min => Least(x, values)
    case Max => Greatest(x, values)
  }

  /** Of two metrics on one field the later is kept. */
  function LastMetric(metrics: seq<Metric>, field: string): Option<Aggregation> {
    if metrics == [] then None
    else if metrics[|metrics| - 1].field == field then Some(metrics[|metrics| - 1].aggregation)
    else LastMetric(metrics[..|metrics| - 1], field)
  }

  ghost predicate IsResultRow(out: map<string, Out>, groupBy: string, key: string, group: seq<Row>, metrics: seq<Metric>) {
    && (forall f :: f in out <==> f == groupBy || LastMetric(metrics, f).Some?)
    && (LastMetric(metrics, groupBy).None? ==> out[groupBy] == Key(key))
    && (forall f <- out | LastMetric(metrics, f).Some? ::
          out[f].Value? && Measures(LastMetric(metrics, f).value, Values(group, NumberIn(f)), out[f].value))
  }

  /** One row a key, in order of first appearance, each measuring its own group. */
  ghost predicate IsAggregate(out: seq<map<string, Out>>, rows: seq<Row>, groupBy: string, metrics: seq<Metric>, date: Option<string -> string>) {
    var keys := KeysOf(rows, GroupKey(groupBy, date));
    && |out| == |keys|
    && forall i | 0 <= i < |keys| :: IsResultRow(out[i], groupBy, keys[i], GroupOf(rows, GroupKey(groupBy, date), keys[i]), metrics)
  }

  method MeasureValues(a: Aggregation, values: seq<real>) returns (x: real)
    requires values != []
    ensures Measures(a, values, x)
  {
    match a
    case Plain => x := values[0];
    case Summed => x := SumOf(values);
    case Avg =>
      var sum := SumOf(values);
      x := sum / |values| as real;
    case Count => x := |values| as real;
    case Min => x := MinOf(values);
    case Max => x := MaxOf(values);
  }

  method ResultRow(groupBy: string, key: string, group: seq<Row>, metrics: seq<Metric>) returns (out: map<string, Out>)
    requires group != []
    ensures IsResultRow(out, groupBy, key, group, metrics)
  {
    out := map[groupBy := Key(key)];
    for i := 0 to |metrics|
      invariant IsResultRow(out, groupBy, key, group, metrics[..i])
    {
      var x := MeasureValues(metrics[i].aggregation, Values(group, NumberIn(metrics[i].field)));
      assert metrics[..i + 1][..i] == metrics[..i];
      forall f ensures LastMetric(metrics[..i + 1], f) ==
        if f == metrics[i].field then Some(metrics[i].aggregation) else LastMetric(metrics[..i], f) {}
      out := out[metrics[i].field := Value(x)];
    }
    assert metrics[..|metrics|] == metrics;
  }

  method AggregateData(rows: seq<Row>, groupBy: string, metrics: seq<Metric>, date: Option<string -> string>) returns (r: Answer)
    ensures (forall m <- metrics :: m.aggregation == Plain) ==> r == Untouched(rows)
    ensures !(forall m <- metrics :: m.aggregation == Plain) ==> r.Aggregated? && IsAggregate(r.groups, rows, groupBy, metrics, date)
  {
    if forall m <- metrics :: m.aggregation == Plain { return Untouched(rows); }
    var keys, groups := GroupRows(rows, GroupKey(groupBy, date));
    forall k | k in groups ensures groups[k] != [] {
      NoGroupYet(rows, GroupKey(groupBy, date), k);
    }
    var out := ResultRows(groupBy, keys, groups, metrics);
    return Aggregated(out);
  }

  method ResultRows(groupBy: string, keys: seq<string>, groups: map<string, seq<Row>>, metrics: seq<Metric>)
    returns (out: seq<map<string, Out>>)
    requires forall k <- keys :: k in groups && groups[k] != []
    ensures |out| == |keys| && forall j | 0 <= j < |keys| :: IsResultRow(out[j], groupBy, keys[j], groups[keys[j]], metrics)
  {
    out := [];
    for i := 0 to |keys|
      invariant |out| == i
      invariant forall j | 0 <= j < i :: IsResultRow(out[j], groupBy, keys[j], groups[keys[j]], metrics)
    {
      var row := ResultRow(groupBy, keys[i], groups[keys[i]], metrics);
      out := out + [row];
    }
  }

  // ---------------------------------------------------------------------------
  // What the groups keep of the rows

  function Column(out: seq<map<string, Out>>, field: string): (r: seq<real>)
    ensures |r| == |out|
  {
    seq(|out|, i requires 0 <= i < |out| => if field in out[i] && out[i][field].Value? then out[i][field].value else 0.0)
  }

  ghost predicate Shows(out: seq<map<string, Out>>, rows: seq<Row>, groupBy: string, metrics: seq<Metric>,
                        date: Option<string -> string>, field: string, a: Aggregation) {
    IsAggregate(out, rows, groupBy, metrics, date) && LastMetric(metrics, field) == Some(a)
  }

  /** Each group's own measure, by key. */
  lemma ColumnMeasures(out: seq<map<string, Out>>, rows: seq<Row>, groupBy: string, metrics: seq<Metric>,
                       date: Option<string -> string>, field: string, a: Aggregation, i: nat)
    requires Shows(out, rows, groupBy, metrics, date, field, a) && i < |out|
    ensures
      var key := GroupKey(groupBy, date);
      Measures(a, Values(GroupOf(rows, key, KeysOf(rows, key)[i]), NumberIn(field)), Column(out, field)[i])
  {
    var key := GroupKey(groupBy, date);
    assert IsResultRow(out[i], groupBy, KeysOf(rows, key)[i], GroupOf(rows, key, KeysOf(rows, key)[i]), metrics);
  }

  /** A column that holds each group's total adds up to what the groups' totals do. */
  lemma {:induction false} ColumnAddsUp(column: seq<real>, keys: seq<string>, rows: seq<Row>, key: Row -> string, f: Row -> real)
    requires |column| == |keys|
    requires forall i | 0 <= i < |keys| :: column[i] == Total(GroupOf(rows, key, keys[i]), f)
    ensures Sum(column) == GroupTotals(keys, rows, key, f)
  {
    if keys != [] {
      var n := |keys| - 1;
      ColumnAddsUp(column[..n], keys[..n], rows, key, f);
    }
  }

  /** The sums of the groups add up to the sum over all rows. */
  lemma SumsAddUp(out: seq<map<string, Out>>, rows: seq<Row>, groupBy: string, metrics: seq<Metric>,
                  date: Option<string -> string>, field: string)
    requires Shows(out, rows, groupBy, metrics, date, field, Summed)
    ensures Sum(Column(out, field)) == Total(rows, NumberIn(field))
  {
    var key := GroupKey(groupBy, date);
    var keys := KeysOf(rows, key);
    forall i | 0 <= i < |keys| ensures Column(out, field)[i] == Total(GroupOf(rows, key, keys[i]), NumberIn(field)) {
      ColumnMeasures(out, rows, groupBy, metrics, date, field, Summed, i);
      TotalOfValues(GroupOf(rows, key, keys[i]), NumberIn(field));
    }
    ColumnAddsUp(Column(out, field), keys, rows, key, NumberIn(field));
    KeysAreTheKeys(rows, key);
    GroupsAddUp(keys, rows, key, NumberIn(field));
  }

  /** The counts of the groups add up to the number of rows. */
  lemma GroupCountsAddUp(out: seq<map<string, Out>>, rows: seq<Row>, groupBy: string, metrics: seq<Metric>,
                         date: Option<string -> string>, field: string)
    requires Shows(out, rows, groupBy, metrics, date, field, Count)
    ensures Sum(Column(out, field)) == |rows| as real
  {
    var key := GroupKey(groupBy, date);
    var keys := KeysOf(rows, key);
    forall i | 0 <= i < |keys| ensures Column(out, field)[i] == Total(GroupOf(rows, key, keys[i]), One()) {
      ColumnMeasures(out, rows, groupBy, metrics, date, field, Count, i);
      TotalOfOnes(GroupOf(rows, key, keys[i]));
    }
    ColumnAddsUp(Column(out, field), keys, rows, key, One());
    KeysAreTheKeys(rows, key);
    GroupsAddUp(keys, rows, key, One());
    TotalOfOnes(rows);
  }

  /** Each group's size times its entry in the column. */
  function Weighted(column: seq<real>, keys: seq<string>, rows: seq<Row>, key: Row -> string): (r: seq<real>)
    requires |column| == |keys|
    ensures |r| == |keys|
  {
    seq(|keys|, i requires 0 <= i < |keys| => Times(|GroupOf(rows, key, keys[i])|, column[i]))
  }

  lemma AverageTimesSize(group: seq<Row>, f: Row -> real, x: real)
    requires Measures(Avg, Values(group, f), x)
    ensures Times(|group|, x) == Total(group, f)
  {
    TotalOfValues(group, f);
  }

  lemma WeightedAddsUp(column: seq<real>, rows: seq<Row>, key: Row -> string, f: Row -> real)
    requires |column| == |KeysOf(rows, key)|
    requires forall i | 0 <= i < |column| :: Measures(Avg, Values(GroupOf(rows, key, KeysOf(rows, key)[i]), f), column[i])
    ensures Sum(Weighted(column, KeysOf(rows, key), rows, key)) == Total(rows, f)
  {
    var keys := KeysOf(rows, key);
    var weighted := Weighted(column, keys, rows, key);
    forall i | 0 <= i < |keys| ensures weighted[i] == Total(GroupOf(rows, key, keys[i]), f) {
      AverageTimesSize(GroupOf(rows, key, keys[i]), f, column[i]);
    }
    ColumnAddsUp(weighted, keys, rows, key, f);
    KeysAreTheKeys(rows, key);
    GroupsAddUp(keys, rows, key, f);
  }

  /** The averages, weighted by the sizes of their groups, add up to the sum over all rows. */
  lemma AveragesAddUp(out: seq<map<string, Out>>, rows: seq<Row>, groupBy: string, metrics: seq<Metric>,
                      date: Option<string -> string>, field: string)
    requires Shows(out, rows, groupBy, metrics, date, field, Avg)
    ensures Sum(Weighted(Column(out, field), KeysOf(rows, GroupKey(groupBy, date)), rows, GroupKey(groupBy, date)))
            == Total(rows, NumberIn(field))
  {
    forall i | 0 <= i < |out| {
      ColumnMeasures(out, rows, groupBy, metrics, date, field, Avg, i);
    }
    WeightedAddsUp(Column(out, field), rows, GroupKey(groupBy, date), NumberIn(field));
  }

  /** A row's value is in its group's values, and a group's values are all rows' values. */
  lemma ValuesOfGroups(rows: seq<Row>, key: Row -> string, f: Row -> real, x: real)
    ensures x in Values(rows, f) <==> exists k <- KeysOf(rows, key) :: x in Values(GroupOf(rows, key, k), f)
  {
    KeysAreTheKeys(rows, key);
    if x in Values(rows, f) {
      var i :| 0 <= i < |rows| && f(rows[i]) == x;
      InItsGroup(rows, key, rows[i], key(rows[i]));
      ValueOfMember(GroupOf(rows, key, key(rows[i])), f, rows[i]);
      assert key(rows[i]) in KeysOf(rows, key);
    }
    if k :| k in KeysOf(rows, key) && x in Values(GroupOf(rows, key, k), f) {
      var group := GroupOf(rows, key, k);
      var i :| 0 <= i < |group| && f(group[i]) == x;
      assert group[i] in group;
      ValueOfMember(rows, f, group[i]);
    }
  }

  lemma ValueOfMember(rows: seq<Row>, f: Row -> real, row: Row)
    requires row in rows
    ensures f(row) in Values(rows, f)
  {
    var i :| 0 <= i < |rows| && rows[i] == row;
    assert Values(rows, f)[i] == f(row);
  }

  lemma LeastOfGroups(column: seq<real>, rows: seq<Row>, key: Row -> string, f: Row -> real, x: real)
    requires |column| == |KeysOf(rows, key)| && Least(x, column)
    requires forall i | 0 <= i < |column| :: Least(column[i], Values(GroupOf(rows, key, KeysOf(rows, key)[i]), f))
    ensures Least(x, Values(rows, f))
  {
    var keys := KeysOf(rows, key);
    var i :| 0 <= i < |keys| && column[i] == x;
    assert keys[i] in keys;
    ValuesOfGroups(rows, key, f, x);
    forall y <- Values(rows, f) ensures x <= y {
      ValuesOfGroups(rows, key, f, y);
      var j :| 0 <= j < |keys| && y in Values(GroupOf(rows, key, keys[j]), f);
      assert column[j] in column;
    }
  }

  lemma GreatestOfGroups(column: seq<real>, rows: seq<Row>, key: Row -> string, f: Row -> real, x: real)
    requires |column| == |KeysOf(rows, key)| && Greatest(x, column)
    requires forall i | 0 <= i < |column| :: Greatest(column[i], Values(GroupOf(rows, key, KeysOf(rows, key)[i]), f))
    ensures Greatest(x, Values(rows, f))
  {
    var keys := KeysOf(rows, key);
    var i :| 0 <= i < |keys| && column[i] == x;
    assert keys[i] in keys;
    ValuesOfGroups(rows, key, f, x);
    forall y <- Values(rows, f) ensures y <= x {
      ValuesOfGroups(rows, key, f, y);
      var j :| 0 <= j < |keys| && y in Values(GroupOf(rows, key, keys[j]), f);
      assert column[j] in column;
    }
  }

  /** The least of the groups' minima is the least of all the values. */
  lemma MinOfMinima(out: seq<map<string, Out>>, rows: seq<Row>, groupBy: string, metrics: seq<Metric>,
                    date: Option<string -> string>, field: string, x: real)
    requires Shows(out, rows, groupBy, metrics, date, field, Min) && Least(x, Column(out, field))
    ensures Least(x, Values(rows, NumberIn(field)))
  {
    forall i | 0 <= i < |out| {
      ColumnMeasures(out, rows, groupBy, metrics, date, field, Min, i);
    }
    LeastOfGroups(Column(out, field), rows, GroupKey(groupBy, date), NumberIn(field), x);
  }

  /** And the greatest of their maxima the greatest. */
  lemma MaxOfMaxima(out: seq<map<string, Out>>, rows: seq<Row>, groupBy: string, metrics: seq<Metric>,
                    date: Option<string -> string>, field: string, x: real)
    requires Shows(out, rows, groupBy, metrics, date, field, Max) && Greatest(x, Column(out, field))
    ensures Greatest(x, Values(rows, NumberIn(field)))
  {
    forall i | 0 <= i < |out| {
      ColumnMeasures(out, rows, groupBy, metrics, date, field, Max, i);
    }
    GreatestOfGroups(Column(out, field), rows, GroupKey(groupBy, date), NumberIn(field), x);
  }
}
