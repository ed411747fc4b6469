/**
 The ring buffer that keeps the newest samples, proved against the sequence of its pushes.
 */
module TimeSeries {
  import opened Options

  function Newest<T>(s: seq<T>, n: nat): (r: seq<T>)
    ensures |s| <= n ==> r == s
    ensures |r| <= n
  {
    if |s| <= n then s else s[|s| - n..]
  }

  lemma NewestOfNewest<T>(s: seq<T>, x: T, n: nat)
    ensures Newest(Newest(s, n) + [x], n) == Newest(s + [x], n)
  {
    if |s| > n > 0 {
      assert (s[|s| - n..] + [x])[1..] == (s + [x])[|s| + 1 - n..];
    }
  }

  lemma {:induction false} Remainder(q: int, r: nat, n: nat)
    requires r < n && q * n + r >= 0
    ensures (q * n + r) % n == r
  {
    var d := (q * n + r) / n;
    var k := (q * n + r) % n;
    assert (d - q) * n == r - k;
    assert d - q >= 1 ==> (d - q) * n >= n;
    assert d - q <= -1 ==> (q - d) * n >= n;
  }

  /** Stepping `d` slots from slot `i % n`, at most once round. */
  lemma SlotShift(i: nat, d: nat, n: nat)
    requires d <= n && n > 0
    ensures (i + d) % n == (i % n + d) % n == if i % n + d < n then i % n + d else i % n + d - n
  {
    var r := i % n + d;
    assert i + d == i / n * n + r;
    Remainder(0, i % n, n);
    if r < n {
      Remainder(0, r, n);
      Remainder(i / n, r, n);
    } else {
      assert i + d == (i / n + 1) * n + (r - n);
      Remainder(i / n + 1, r - n, n);
      Remainder(1, r - n, n);
    }
  }

  class TimeSeriesBuffer<T> {
    const maxSize: nat
    var buffer: array<Option<T>>
    var head: nat
    var count: nat
    /** Everything pushed since the last clear. */
    ghost var pushed: seq<T>

    ghost predicate Valid()
      reads this, buffer
    {
      && maxSize > 0
      && buffer.Length == maxSize
      && count == (if |pushed| < maxSize then |pushed| else maxSize)
      && head == |pushed| % maxSize
      && forall i :: |pushed| - count <= i < |pushed| ==> buffer[i % maxSize] == Some(pushed[i])
    }

    constructor (maxSize: nat)
      requires maxSize > 0
      ensures Valid() && pushed == [] && fresh(buffer) && this.maxSize == maxSize
    {
      this.maxSize := maxSize;
      buffer := new Option<T>[maxSize](_ => None);
      head, count, pushed := 0, 0, [];
    }

    method Push(data: T)
      requires Valid()
      modifies this, buffer
      ensures Valid() && pushed == old(pushed) + [data] && buffer == old(buffer)
    {
      ghost var n := |pushed|;
      buffer[head] := Some(data);
      head := (head + 1) % maxSize;
      if count < maxSize {
        count := count + 1;
      }
      pushed := pushed + [data];
      SlotShift(n, 1, maxSize);
      forall i | n + 1 - count <= i < n ensures buffer[i % maxSize] == Some(pushed[i]) {
        SlotShift(i, n - i, maxSize);
      }
    }

    /** The newest `maxSize` pushes, oldest first. */
    method GetAll() returns (result: seq<T>)
      requires Valid()
      ensures result == Newest(pushed, maxSize)
    {
      if count == 0 { return []; }
      result := [];
      var start := if count < maxSize then 0 else head;
      for i := 0 to count
        invariant result == Newest(pushed, maxSize)[..i]
      {
        var idx := (start + i) % maxSize;
        assert idx == (|pushed| - count + i) % maxSize by {
          if count == maxSize {
            SlotShift(|pushed| - maxSize, maxSize, maxSize);
            SlotShift(|pushed| - maxSize, i, maxSize);
          }
        }
        result := result + [buffer[idx].value];
      }
    }

    method Clear()
      requires Valid()
      modifies this
      ensures Valid() && pushed == [] && fresh(buffer)
    {
      buffer := new Option<T>[maxSize](_ => None);
      head, count, pushed := 0, 0, [];
    }
  }
}
