/**
 * The windowing helpers of tests/test4/functions.py: row selection on the
 * simulator's message log, the per-time-step memory series, history/target
 * windowing for the forecaster, and the two flattenings used to plot true
 * against predicted memory (`ms_val`, `avg_pred`).
 *
 * A pandas DataFrame is a sequence of rows, a numeric column or a 1-D array
 * is a `seq<real>`, a 2-D array is a `seq<seq<real>>` whose rows have equal
 * length. Python exceptions become `Err`.
 */
module TimeSeries {
  import opened Wrappers

  /** The exceptions these helpers can raise. */
  datatype PyError = IndexError | ValueError

  /** One row of the message log: the columns `TOPO.dst`, `time_in`, `time_out`, `memory`. */
  datatype Row = Row(dst: int, timeIn: real, timeOut: real, memory: int)

  /** The two boolean masks the helpers build: `df['TOPO.dst'] == node` and `(time_in < time) & (time < time_out)`. */
  datatype Mask = AtNode(node: int) | InFlight(time: real)

  predicate Keeps(mask: Mask, x: Row)
  {
    match mask
    case AtNode(node) => x.dst == node
    case InFlight(time) => x.timeIn < time && time < x.timeOut
  }

  /** `df[mask]`: the rows the mask keeps, in their original order. */
  function Select(rows: seq<Row>, mask: Mask): (r: seq<Row>)
    ensures |r| <= |rows|
    ensures forall x :: x in r <==> x in rows && Keeps(mask, x)
  {
    if |rows| == 0 then []
    else
      var n := |rows| - 1;
      assert forall x :: x in rows <==> x in rows[..n] || x == rows[n];
      Select(rows[..n], mask) + (if Keeps(mask, rows[n]) then [rows[n]] else [])
  }

  /**
   * Selection keeps order and misses nothing: the kept rows are the rows
   * at strictly increasing positions `pos`, and every position whose row
   * the mask accepts is among them.
   */
  lemma {:induction false} SelectTrace(rows: seq<Row>, mask: Mask) returns (pos: seq<nat>)
    ensures Positions(rows, Select(rows, mask), pos)
    ensures forall i :: 0 <= i < |rows| && Keeps(mask, rows[i]) ==> i in pos
  {
    if |rows| == 0 {
      pos := [];
    } else {
      var n := |rows| - 1;
      var prev := SelectTrace(rows[..n], mask);
      var pr := Select(rows[..n], mask);
      var r := Select(rows, mask);
      assert r == pr + (if Keeps(mask, rows[n]) then [rows[n]] else []);
      pos := if Keeps(mask, rows[n]) then prev + [n] else prev;
      PositionsExtend(rows, pr, prev, r, pos);
      forall i | 0 <= i < |rows| && Keeps(mask, rows[i])
        ensures i in pos
      {
        if i < n {
          assert rows[..n][i] == rows[i];
        }
      }
    }
  }

  /** `r` is the subsequence of `rows` at the strictly increasing positions `pos`. */
  predicate Positions(rows: seq<Row>, r: seq<Row>, pos: seq<nat>)
  {
    |pos| == |r| &&
    (forall p :: 0 <= p < |pos| ==> pos[p] < |rows| && r[p] == rows[pos[p]]) &&
    (forall p, q :: 0 <= p < q < |pos| ==> pos[p] < pos[q])
  }

  lemma PositionsExtend(rows: seq<Row>, pr: seq<Row>, prev: seq<nat>, r: seq<Row>, pos: seq<nat>)
    requires |rows| > 0
    requires Positions(rows[..|rows| - 1], pr, prev)
    requires (r == pr && pos == prev) || (r == pr + [rows[|rows| - 1]] && pos == prev + [|rows| - 1])
    ensures Positions(rows, r, pos)
  {
    var n := |rows| - 1;
    assert forall p :: 0 <= p < |prev| ==> rows[..n][prev[p]] == rows[prev[p]];
  }

  /** A mask that accepts no row selects nothing. */
  lemma {:induction false} SelectNone(rows: seq<Row>, mask: Mask)
    requires forall x :: x in rows ==> !Keeps(mask, x)
    ensures Select(rows, mask) == []
  {
    if |rows| > 0 {
      var n := |rows| - 1;
      assert forall x :: x in rows[..n] ==> x in rows;
      SelectNone(rows[..n], mask);
    }
  }

  /** Selecting from a concatenation selects from each part. */
  lemma {:induction false} SelectAppend(a: seq<Row>, b: seq<Row>, mask: Mask)
    ensures Select(a + b, mask) == Select(a, mask) + Select(b, mask)
    decreases |b|
  {
    if |b| == 0 {
      assert a + b == a;
    } else {
      var n := |b| - 1;
      assert (a + b)[..|a + b| - 1] == a + b[..n];
      SelectAppend(a, b[..n], mask);
    }
  }

  /** `data_from_node`: the rows whose `TOPO.dst` is the node, in order. */
  function DataFromNode(rows: seq<Row>, node: int): (r: seq<Row>)
    ensures forall x :: x in r <==> x in rows && x.dst == node
  {
    Select(rows, AtNode(node))
  }

  /** `filter_time`: the rows strictly in flight at `time`, `time_in < time < time_out`, in order. */
  function FilterTime(rows: seq<Row>, time: real): (r: seq<Row>)
    ensures forall x :: x in r <==> x in rows && x.timeIn < time && time < x.timeOut
  {
    Select(rows, InFlight(time))
  }

  /** The total of the `memory` column. */
  function SumMemory(rows: seq<Row>): int
  {
    if |rows| == 0 then 0 else SumMemory(rows[..|rows| - 1]) + rows[|rows| - 1].memory
  }

  lemma {:induction false} SumMemoryAppend(a: seq<Row>, b: seq<Row>)
    ensures SumMemory(a + b) == SumMemory(a) + SumMemory(b)
    decreases |b|
  {
    if |b| == 0 {
      assert a + b == a;
    } else {
      var n := |b| - 1;
      assert (a + b)[..|a + b| - 1] == a + b[..n];
      SumMemoryAppend(a, b[..n]);
    }
  }

  /** The memory `ts_memory` reports for the node at integer time t. */
  function MemoryAt(rows: seq<Row>, node: int, t: int): int
  {
    SumMemory(FilterTime(DataFromNode(rows, node), t as real))
  }

  /** What a single row adds to the node's memory at time t. */
  function Contribution(x: Row, node: int, t: int): int
  {
    if x.dst == node && x.timeIn < t as real < x.timeOut then x.memory else 0
  }

  /** The reference sum: every row's contribution, row by row. */
  function ActiveMemory(rows: seq<Row>, node: int, t: int): int
  {
    if |rows| == 0 then 0
    else ActiveMemory(rows[..|rows| - 1], node, t) + Contribution(rows[|rows| - 1], node, t)
  }

  /** The memory over a concatenated log is the sum over its parts. */
  lemma MemoryAtAppend(a: seq<Row>, b: seq<Row>, node: int, t: int)
    ensures MemoryAt(a + b, node, t) == MemoryAt(a, node, t) + MemoryAt(b, node, t)
  {
    SelectAppend(a, b, AtNode(node));
    SelectAppend(DataFromNode(a, node), DataFromNode(b, node), InFlight(t as real));
    SumMemoryAppend(FilterTime(DataFromNode(a, node), t as real), FilterTime(DataFromNode(b, node), t as real));
  }

  /** A log of one row holds that row's contribution. */
  lemma MemoryAtSingle(x: Row, node: int, t: int)
    ensures MemoryAt([x], node, t) == Contribution(x, node, t)
  {
    assert [x][..0] == [];
    var d := DataFromNode([x], node);
    if x.dst == node {
      assert d == [x];
      var f := FilterTime(d, t as real);
      if x.timeIn < t as real < x.timeOut {
        assert f == [x];
        assert f[..0] == [];
        assert SumMemory(f) == SumMemory(f[..0]) + x.memory;
      } else {
        assert f == [];
      }
    } else {
      assert d == [];
    }
  }

  /**
   * The memory at time t is the sum of `memory` over the node's rows active
   * strictly around t; rows of other nodes and rows not in flight add
   * nothing.
   */
  lemma {:induction false} MemoryAtIsActiveMemory(rows: seq<Row>, node: int, t: int)
    ensures MemoryAt(rows, node, t) == ActiveMemory(rows, node, t)
  {
    if |rows| > 0 {
      var n := |rows| - 1;
      MemoryAtIsActiveMemory(rows[..n], node, t);
      MemoryAtLast(rows, node, t);
    }
  }

  /** The last row of the log adds its contribution to the memory over the rows before it. */
  lemma MemoryAtLast(rows: seq<Row>, node: int, t: int)
    requires |rows| > 0
    ensures MemoryAt(rows, node, t) == MemoryAt(rows[..|rows| - 1], node, t) + Contribution(rows[|rows| - 1], node, t)
  {
    var n := |rows| - 1;
    MemoryAtAppend(rows[..n], [rows[n]], node, t);
    MemoryAtSingle(rows[n], node, t);
    assert rows[..n] + [rows[n]] == rows;
  }

  /** Appending rows of other nodes to the log changes no entry of the node's series. */
  lemma MemoryAtIgnoresOtherNodes(rows: seq<Row>, extra: seq<Row>, node: int, t: int)
    requires forall x :: x in extra ==> x.dst != node
    ensures MemoryAt(rows + extra, node, t) == MemoryAt(rows, node, t)
  {
    MemoryAtAppend(rows, extra, node, t);
    SelectNone(extra, AtNode(node));
  }

  /** One entry of the result of `ts_memory`: the columns `time`, `memory`. */
  datatype MemorySample = MemorySample(time: int, memory: int)

  /** The loop `memory += data['memory']` over the rows of a filtered frame. */
  method SumMemoryColumn(active: seq<Row>) returns (memory: int)
    ensures memory == SumMemory(active)
  {
    memory := 0;
    var k := 0;
    while k < |active|
      invariant 0 <= k <= |active|
      invariant memory == SumMemory(active[..k])
    {
      assert active[..k + 1][..k] == active[..k];
      memory := memory + active[k].memory;
      k := k + 1;
    }
    assert active[..k] == active;
  }

  /**
   * `ts_memory(df, node, param)` with `param.simulation_time` passed as
   * `simulationTime`: one entry per integer time step, entry t holding t and
   * the node's memory in use at t.
   */
  method TsMemory(df: seq<Row>, node: int, simulationTime: int) returns (ts: seq<MemorySample>)
    ensures |ts| == if simulationTime > 0 then simulationTime else 0
    ensures forall t :: 0 <= t < |ts| ==> ts[t] == MemorySample(t, MemoryAt(df, node, t))
  {
    var rows := DataFromNode(df, node);
    ts := [];
    var time := 0;
    while time < simulationTime
      invariant 0 <= time && (simulationTime > 0 ==> time <= simulationTime)
      invariant simulationTime <= 0 ==> time == 0
      invariant |ts| == time
      invariant forall t :: 0 <= t < time ==> ts[t] == MemorySample(t, MemoryAt(df, node, t))
    {
      var memory := SumMemoryColumn(FilterTime(rows, time as real));
      ts := ts + [MemorySample(time, memory)];
      time := time + 1;
    }
  }
  /** A position clamped into 0 .. n. */
  function Clamp(i: int, n: nat): (c: nat)
    ensures c <= n
    ensures 0 <= i <= n ==> c == i
  {
    if i < 0 then 0 else if i > n then n else i
  }

  /**
   * Python's `s[a:b]`: a negative bound counts from the end, bounds are
   * clamped to the sequence, and a start at or past the stop gives [].
   */
  function PySlice(s: seq<real>, a: int, b: int): (r: seq<real>)
    ensures 0 <= a <= b <= |s| ==> r == s[a..b]
    ensures |r| <= |s|
  {
    var lo := Clamp(if a < 0 then a + |s| else a, |s|);
    var hi := Clamp(if b < 0 then b + |s| else b, |s|);
    if lo < hi then s[lo..hi] else []
  }

  /** The `data` and `labels` arrays of `univariate_data`, one entry per sample. */
  datatype Windows = Windows(data: seq<seq<real>>, labels: seq<seq<real>>)

  /**
   * The samples for i in `range(lo, hi)`: the history `dataset[i-h:i]`
   * must reshape to h values and the target `dataset[i:i+target]` to
   * `target` values. With h = 0 the history index list is empty and
   * `indices[0]` raises IndexError; a slice of the wrong length makes
   * `np.reshape` raise ValueError.
   */
  function Samples(ds: seq<real>, lo: int, hi: int, h: nat, target: nat): Result<Windows, PyError>
    decreases hi - lo
  {
    if hi <= lo then Ok(Windows([], []))
    else
      var prev := Samples(ds, lo, hi - 1, h, target);
      var i := hi - 1;
      if prev.Err? then prev
      else if h == 0 then Err(IndexError)
      else
        var x := PySlice(ds, i - h, i);
        var y := PySlice(ds, i, i + target);
        if |x| != h || |y| != target then Err(ValueError)
        else Ok(Windows(prev.value.data + [x], prev.value.labels + [y]))
  }

  /** The sample range of `univariate_data`: from `start + h` to `end`, which defaults to `len - target`. */
  function SampleEnd(ds: seq<real>, end: Option<int>, target: nat): int
  {
    if end.None? then |ds| - target else end.value
  }

  /** `univariate_data(dataset, start_index, end_index, history_size, target_size)`. */
  function UnivariateSpec(ds: seq<real>, start: int, end: Option<int>, h: nat, target: nat): Result<Windows, PyError>
  {
    Samples(ds, start + h, SampleEnd(ds, end, target), h, target)
  }

  /** Once a prefix of the range has failed, the rest of the range changes nothing. */
  lemma {:induction false} SamplesStopAtError(ds: seq<real>, lo: int, mid: int, hi: int, h: nat, target: nat)
    requires mid <= hi
    requires Samples(ds, lo, mid, h, target).Err?
    ensures Samples(ds, lo, hi, h, target) == Samples(ds, lo, mid, h, target)
    decreases hi - mid
  {
    if mid < hi {
      SamplesStopAtError(ds, lo, mid, hi - 1, h, target);
    }
  }

  /**
   * Sample k of `w` is the h values `dataset[i-h:i]` and the `target`
   * values `dataset[i:i+target]`, i = lo + k.
   */
  /** The history `dataset[i-h:i]` and the target `dataset[i:i+target]` of the sample at i, of full length. */
  predicate SampleAt(ds: seq<real>, i: int, h: nat, target: nat, x: seq<real>, y: seq<real>)
  {
    x == PySlice(ds, i - h, i) && |x| == h && y == PySlice(ds, i, i + target) && |y| == target
  }

  predicate WindowsAt(ds: seq<real>, lo: int, h: nat, target: nat, w: Windows)
  {
    |w.data| == |w.labels| &&
    forall k :: 0 <= k < |w.data| ==> SampleAt(ds, lo + k, h, target, w.data[k], w.labels[k])
  }

  /** Appending the windows at the next position keeps every sample in place. */
  lemma WindowsAtExtend(ds: seq<real>, lo: int, h: nat, target: nat, w: Windows, x: seq<real>, y: seq<real>)
    requires WindowsAt(ds, lo, h, target, w)
    requires SampleAt(ds, lo + |w.data|, h, target, x, y)
    ensures WindowsAt(ds, lo, h, target, Windows(w.data + [x], w.labels + [y]))
  {
    var data, labels := w.data + [x], w.labels + [y];
    forall k | 0 <= k < |data|
      ensures SampleAt(ds, lo + k, h, target, data[k], labels[k])
    {
      if k < |w.data| {
        assert data[k] == w.data[k] && labels[k] == w.labels[k];
      }
    }
  }

  /** A successful step from `hi - 1` to `hi` adds the windows at `hi - 1`. */
  lemma SamplesShapeStep(ds: seq<real>, lo: int, hi: int, h: nat, target: nat, prev: Windows)
    requires lo < hi && Samples(ds, lo, hi - 1, h, target) == Ok(prev)
    requires |prev.data| == hi - 1 - lo && WindowsAt(ds, lo, h, target, prev)
    requires Samples(ds, lo, hi, h, target).Ok?
    ensures var w := Samples(ds, lo, hi, h, target).value;
            |w.data| == hi - lo && WindowsAt(ds, lo, h, target, w)
  {
    SamplesStep(ds, lo, hi - 1, h, target, prev);
    var x, y := PySlice(ds, hi - 1 - h, hi - 1), PySlice(ds, hi - 1, hi - 1 + target);
    WindowsAtExtend(ds, lo, h, target, prev, x, y);
  }

  /** On success there is one sample per i in `range(lo, hi)`, each the windows at i. */
  lemma {:induction false} SamplesShape(ds: seq<real>, lo: int, hi: int, h: nat, target: nat)
    requires Samples(ds, lo, hi, h, target).Ok?
    ensures var w := Samples(ds, lo, hi, h, target).value;
            |w.data| == (if hi > lo then hi - lo else 0) && WindowsAt(ds, lo, h, target, w)
    decreases hi - lo
  {
    if hi > lo {
      var prev := Samples(ds, lo, hi - 1, h, target);
      assert prev.Ok?;
      SamplesShape(ds, lo, hi - 1, h, target);
      SamplesShapeStep(ds, lo, hi, h, target, prev.value);
    }
  }

  /**
   * Inside the dataset (`start >= 0`, the range ending by `len - target`)
   * and with a non-empty history, sampling succeeds and the windows are the
   * plain slices.
   */
  lemma SamplesInRange(ds: seq<real>, lo: int, hi: int, h: nat, target: nat)
    requires 1 <= h <= lo && hi + target <= |ds|
    ensures Samples(ds, lo, hi, h, target).Ok?
    ensures var w := Samples(ds, lo, hi, h, target).value;
            |w.data| == |w.labels| == (if hi > lo then hi - lo else 0) &&
            forall k :: 0 <= k < |w.data| ==>
              w.data[k] == ds[lo + k - h .. lo + k] && w.labels[k] == ds[lo + k .. lo + k + target]
  {
    SamplesOkInRange(ds, lo, hi, h, target);
    SamplesShape(ds, lo, hi, h, target);
    WindowsInRange(ds, lo, h, target, Samples(ds, lo, hi, h, target).value);
  }

  /** Windows laid out inside the dataset are the plain slices. */
  lemma WindowsInRange(ds: seq<real>, lo: int, h: nat, target: nat, w: Windows)
    requires WindowsAt(ds, lo, h, target, w) && h <= lo
    requires |w.data| == 0 || lo + |w.data| + target <= |ds|
    ensures forall k :: 0 <= k < |w.data| ==>
              w.data[k] == ds[lo + k - h .. lo + k] && w.labels[k] == ds[lo + k .. lo + k + target]
  {
    forall k | 0 <= k < |w.data|
      ensures w.data[k] == ds[lo + k - h .. lo + k] && w.labels[k] == ds[lo + k .. lo + k + target]
    {
      SampleAtInRange(ds, lo + k, h, target, w.data[k], w.labels[k]);
    }
  }

  /** Inside the dataset and with a non-empty history, no step of the sampling fails. */
  lemma {:induction false} SamplesOkInRange(ds: seq<real>, lo: int, hi: int, h: nat, target: nat)
    requires 1 <= h <= lo && hi + target <= |ds|
    ensures Samples(ds, lo, hi, h, target).Ok?
    decreases hi - lo
  {
    if hi > lo {
      SamplesOkInRange(ds, lo, hi - 1, h, target);
      var i := hi - 1;
      assert |PySlice(ds, i - h, i)| == h && |PySlice(ds, i, i + target)| == target;
    }
  }

  /** Inside the dataset the Python slices of a sample are the plain ones. */
  lemma SampleAtInRange(ds: seq<real>, i: int, h: nat, target: nat, x: seq<real>, y: seq<real>)
    requires SampleAt(ds, i, h, target, x, y) && h <= i && i + target <= |ds|
    ensures x == ds[i - h .. i] && y == ds[i .. i + target]
  {
  }

  /** With no history (`history_size == 0`) a non-empty sample range raises IndexError. */
  lemma {:induction false} SamplesNoHistory(ds: seq<real>, lo: int, hi: int, target: nat)
    requires lo < hi
    ensures Samples(ds, lo, hi, 0, target) == Err(IndexError)
    decreases hi - lo
  {
    if lo < hi - 1 {
      SamplesNoHistory(ds, lo, hi - 1, target);
    }
  }

  /**
   * `univariate_data` on a dataset it stays inside: `max(0, end - (start+h))`
   * samples, sample k the h values before position start+h+k and the
   * `target` values from it.
   */
  lemma UnivariateWindows(ds: seq<real>, start: int, end: Option<int>, h: nat, target: nat)
    requires 1 <= h && 0 <= start && SampleEnd(ds, end, target) + target <= |ds|
    ensures var r := UnivariateSpec(ds, start, end, h, target);
            var hi := SampleEnd(ds, end, target);
            r.Ok? &&
            |r.value.data| == |r.value.labels| == (if hi > start + h then hi - (start + h) else 0) &&
            forall k :: 0 <= k < |r.value.data| ==>
              r.value.data[k] == ds[start + k .. start + h + k] &&
              r.value.labels[k] == ds[start + h + k .. start + h + k + target]
  {
    var lo, hi := start + h, SampleEnd(ds, end, target);
    SamplesInRange(ds, lo, hi, h, target);
    var w := Samples(ds, lo, hi, h, target).value;
    assert UnivariateSpec(ds, start, end, h, target) == Ok(w);
    forall k | 0 <= k < |w.data|
      ensures w.data[k] == ds[start + k .. start + h + k]
      ensures w.labels[k] == ds[start + h + k .. start + h + k + target]
    {
      assert lo + k - h == start + k && lo + k == start + h + k;
    }
  }

  /** One more step of the sample loop, after a successful prefix. */
  lemma SamplesStep(ds: seq<real>, lo: int, i: int, h: nat, target: nat, prev: Windows)
    requires lo <= i && Samples(ds, lo, i, h, target) == Ok(prev)
    ensures var x, y := PySlice(ds, i - h, i), PySlice(ds, i, i + target);
            Samples(ds, lo, i + 1, h, target) ==
              if h == 0 then Err(IndexError)
              else if |x| != h || |y| != target then Err(ValueError)
              else Ok(Windows(prev.data + [x], prev.labels + [y]))
  {
  }

  /** A step that raises ends the whole sampling with that exception. */
  lemma SamplesFailFrom(ds: seq<real>, lo: int, i: int, hi: int, h: nat, target: nat, prev: Windows)
    requires lo <= i < hi && Samples(ds, lo, i, h, target) == Ok(prev)
    requires h == 0 || |PySlice(ds, i - h, i)| != h || |PySlice(ds, i, i + target)| != target
    ensures Samples(ds, lo, hi, h, target) == if h == 0 then Err(IndexError) else Err(ValueError)
  {
    SamplesStep(ds, lo, i, h, target, prev);
    SamplesStopAtError(ds, lo, i + 1, hi, h, target);
  }

  /**
   * `univariate_data`: the loop over `range(start_index + history_size,
   * end_index)` appending one history window and one target window per
   * step; the whole call fails with the first exception raised.
   */
  method UnivariateData(ds: seq<real>, start: int, end: Option<int>, h: nat, target: nat)
    returns (r: Result<Windows, PyError>)
    ensures r == UnivariateSpec(ds, start, end, h, target)
  {
    var lo := start + h;
    var hi := SampleEnd(ds, end, target);
    assert UnivariateSpec(ds, start, end, h, target) == Samples(ds, lo, hi, h, target);
    var data: seq<seq<real>> := [];
    var labels: seq<seq<real>> := [];
    var i := lo;
    while i < hi
      invariant lo <= i && (lo < hi ==> i <= hi) && (hi <= lo ==> i == lo)
      invariant Samples(ds, lo, i, h, target) == Ok(Windows(data, labels))
    {
      if h == 0 {
        SamplesFailFrom(ds, lo, i, hi, h, target, Windows(data, labels));
        return Err(IndexError);
      }
      var x := PySlice(ds, i - h, i);
      var y := PySlice(ds, i, i + target);
      if |x| != h || |y| != target {
        SamplesFailFrom(ds, lo, i, hi, h, target, Windows(data, labels));
        return Err(ValueError);
      }
      SamplesStep(ds, lo, i, h, target, Windows(data, labels));
      data := data + [x];
      labels := labels + [y];
      i := i + 1;
    }
    assert i == hi || hi <= lo;
    assert Samples(ds, lo, hi, h, target) == Samples(ds, lo, i, h, target);
    r := Ok(Windows(data, labels));
  }

  /** `create_time_steps(length)`: the steps -length .. -1 leading up to the present. */
  function CreateTimeSteps(length: int): (r: seq<int>)
    ensures |r| == if length > 0 then length else 0
    ensures forall k :: 0 <= k < |r| ==> r[k] == k - length
    ensures |r| > 0 ==> r[|r| - 1] == -1
  {
    if length <= 0 then [] else [-length] + CreateTimeSteps(length - 1)
  }

  /**
   * `ms_val` over the first i windows of `y`: every window but the last
   * contributes its first value, the last window contributes all of its
   * values; taking the first value of an empty window raises IndexError.
   */
  function MsValUpTo(y: seq<seq<real>>, i: nat): Result<seq<real>, PyError>
    requires i <= |y|
  {
    if i == 0 then Ok([])
    else
      var prev := MsValUpTo(y, i - 1);
      var k := i - 1;
      if prev.Err? then prev
      else if k == |y| - 1 then Ok(prev.value + y[k])
      else if |y[k]| == 0 then Err(IndexError)
      else Ok(prev.value + [y[k][0]])
  }

  /** `ms_val(y_val)`: the flattening of all the windows. */
  function MsValSpec(y: seq<seq<real>>): Result<seq<real>, PyError>
  {
    MsValUpTo(y, |y|)
  }
  /** A failure while flattening is final. */
  lemma {:induction false} MsValStopAtError(y: seq<seq<real>>, i: nat, j: nat)
    requires i <= j <= |y|
    requires MsValUpTo(y, i).Err?
    ensures MsValUpTo(y, j) == MsValUpTo(y, i)
    decreases j - i
  {
    if i < j {
      MsValStopAtError(y, i, j - 1);
    }
  }

  /** Before the last window: one first value per window, failing exactly when some window is empty. */
  lemma {:induction false} MsValUpToHeads(y: seq<seq<real>>, i: nat)
    requires i < |y|
    ensures MsValUpTo(y, i).Ok? <==> forall k :: 0 <= k < i ==> |y[k]| > 0
    ensures MsValUpTo(y, i).Ok? ==>
              |MsValUpTo(y, i).value| == i && forall k :: 0 <= k < i ==> MsValUpTo(y, i).value[k] == y[k][0]
  {
    if i > 0 {
      MsValUpToHeads(y, i - 1);
      if MsValUpTo(y, i - 1).Err? {
        MsValStopAtError(y, i - 1, i);
      }
    }
  }

  /**
   * `ms_val` succeeds exactly when every window but the last is non-empty;
   * it then yields the first value of each earlier window followed by the
   * whole last window, (n-1) + len(last) values in all.
   */
  lemma MsValShape(y: seq<seq<real>>)
    requires |y| > 0
    ensures MsValSpec(y).Ok? <==> forall k :: 0 <= k < |y| - 1 ==> |y[k]| > 0
    ensures var n := |y| - 1;
            MsValSpec(y).Ok? ==>
              |MsValSpec(y).value| == n + |y[n]| &&
              (forall k :: 0 <= k < n ==> MsValSpec(y).value[k] == y[k][0]) &&
              (forall j :: 0 <= j < |y[n]| ==> MsValSpec(y).value[n + j] == y[n][j])
  {
    MsValUpToHeads(y, |y| - 1);
  }

  /**
   * Flattening the overlapping windows `series[i:i+f]`, i = 0 .. n-1,
   * gives back the series they cover, `series[:n-1+f]`.
   */
  lemma MsValSliding(y: seq<seq<real>>, series: seq<real>, f: nat)
    requires f >= 1 && |y| >= 1 && |y| - 1 + f <= |series|
    requires forall i :: 0 <= i < |y| ==> y[i] == series[i .. i + f]
    ensures MsValSpec(y) == Ok(series[.. |y| - 1 + f])
  {
    var n := |y| - 1;
    forall k | 0 <= k < n
      ensures |y[k]| > 0 && y[k][0] == series[k]
    {
      assert y[k] == series[k .. k + f];
    }
    MsValShape(y);
    var v := MsValSpec(y).value;
    assert y[n] == series[n .. n + f];
    forall k | 0 <= k < n + f
      ensures v[k] == series[k]
    {
      if k < n {
        assert v[k] == y[k][0];
      } else {
        assert v[n + (k - n)] == y[n][k - n];
      }
    }
    assert v == series[.. n + f];
  }

  /**
   * The target windows `univariate_data` cuts from a dataset it stays
   * inside are consecutive and overlapping, so `ms_val` of them is the
   * contiguous stretch of the dataset they cover: the true series the
   * forecast is plotted against.
   */
  lemma UnivariateLabelsFlatten(ds: seq<real>, start: int, end: Option<int>, h: nat, target: nat)
    requires 1 <= h && 0 <= start && SampleEnd(ds, end, target) + target <= |ds|
    requires 1 <= target && start + h < SampleEnd(ds, end, target)
    ensures var r := UnivariateSpec(ds, start, end, h, target);
            var lo, hi := start + h, SampleEnd(ds, end, target);
            r.Ok? && MsValSpec(r.value.labels) == Ok(ds[lo .. hi - 1 + target])
  {
    var lo, hi := start + h, SampleEnd(ds, end, target);
    UnivariateWindows(ds, start, end, h, target);
    var labels := UnivariateSpec(ds, start, end, h, target).value.labels;
    var series := ds[lo .. hi - 1 + target];
    forall k | 0 <= k < |labels|
      ensures labels[k] == series[k .. k + target]
    {
      assert labels[k] == ds[lo + k .. lo + k + target];
      assert k + target <= |series|;
      assert series[k .. k + target] == ds[lo + k .. lo + k + target];
    }
    MsValSliding(labels, series, target);
    assert series[.. |labels| - 1 + target] == series;
  }

  /**
   * `ms_val`: every window but the last contributes its first value, the
   * last window all of its values.
   */
  method MsVal(y: seq<seq<real>>) returns (r: Result<seq<real>, PyError>)
    ensures r == MsValSpec(y)
  {
    var plot: seq<real> := [];
    var i := 0;
    while i < |y|
      invariant 0 <= i <= |y|
      invariant MsValUpTo(y, i) == Ok(plot)
    {
      if i == |y| - 1 {
        var before := plot;
        var j := 0;
        while j < |y[i]|
          invariant 0 <= j <= |y[i]|
          invariant plot == before + y[i][..j]
        {
          assert y[i][..j + 1] == y[i][..j] + [y[i][j]];
          plot := plot + [y[i][j]];
          j := j + 1;
        }
        assert y[i][..j] == y[i];
      } else {
        if |y[i]| == 0 {
          r := Err(IndexError);
          assert MsValUpTo(y, i + 1) == r;
          MsValStopAtError(y, i + 1, |y|);
          return;
        }
        plot := plot + [y[i][0]];
      }
      i := i + 1;
    }
    r := Ok(plot);
  }
  // ----- avg_pred: averaging overlapping multi-step forecasts -----

  /** `y_pred` is a 2-D array: every forecast window has `f_steps` values. */
  predicate Uniform(y: seq<seq<real>>, f: nat)
  {
    forall r :: 0 <= r < |y| ==> |y[r]| == f
  }

  /**
   * The sum, over the first m windows, of their forecasts for time step s:
   * window r forecasts steps r .. r+f-1, step s being its value s - r.
   */
  function StepSum(y: seq<seq<real>>, f: nat, s: int, m: nat): real
    requires Uniform(y, f) && m <= |y|
  {
    if m == 0 then 0.0
    else
      var r := m - 1;
      StepSum(y, f, s, r) + (if r <= s < r + f then y[r][s - r] else 0.0)
  }

  /** How many of the first m windows forecast time step s; at least one when some window covers s. */
  function CountRows(f: nat, s: int, m: nat): (c: nat)
    ensures f >= 1 && m >= 1 && 0 <= s < m - 1 + f ==> c >= 1
  {
    if m == 0 then 0
    else
      var r := m - 1;
      CountRows(f, s, r) + (if r <= s < r + f then 1 else 0)
  }

  /**
   * What the iteration for window idx appends: the running sum for step
   * idx divided by f once f windows overlap it; at the last window, while
   * fewer than f windows have been seen, all f pending sums divided by
   * f, f-1, ..., 1; otherwise the sum divided by idx + 1.
   */
  function Emit(y: seq<seq<real>>, f: nat, idx: nat): seq<real>
    requires Uniform(y, f) && f >= 1 && idx < |y|
  {
    if idx >= f - 1 then [StepSum(y, f, idx, idx + 1) / (f as real)]
    else if idx == |y| - 1 then seq(f, j requires 0 <= j < f => StepSum(y, f, idx + j, idx + 1) / ((f - j) as real))
    else [StepSum(y, f, idx, idx + 1) / ((idx + 1) as real)]
  }

  /** The values `avg_pred` has appended after its first i iterations. */
  function AvgPredUpTo(y: seq<seq<real>>, f: nat, i: nat): seq<real>
    requires Uniform(y, f) && i <= |y| && (f >= 1 || i == 0)
  {
    if i == 0 then [] else AvgPredUpTo(y, f, i - 1) + Emit(y, f, i - 1)
  }

  /** `avg_pred` as written: with zero forecast steps, reading `w[0]` raises IndexError. */
  function AvgPredSpec(y: seq<seq<real>>, f: nat): Result<seq<real>, PyError>
    requires Uniform(y, f)
  {
    if |y| > 0 && f == 0 then Err(IndexError) else Ok(AvgPredUpTo(y, f, |y|))
  }

  /** A window that starts after step s contributes nothing to it. */
  lemma {:induction false} StepSumSettled(y: seq<seq<real>>, f: nat, s: int, m: nat)
    requires Uniform(y, f) && 0 <= s < m <= |y|
    ensures StepSum(y, f, s, m) == StepSum(y, f, s, s + 1)
  {
    if m > s + 1 {
      StepSumSettled(y, f, s, m - 1);
    }
  }

  /** No window among the first m reaches step s when all of them end before it. */
  lemma {:induction false} StepSumBeyond(y: seq<seq<real>>, f: nat, s: int, m: nat)
    requires Uniform(y, f) && m <= |y| && m - 1 + f <= s
    ensures StepSum(y, f, s, m) == 0.0
  {
    if m > 0 {
      StepSumBeyond(y, f, s, m - 1);
    }
  }

  /** Windows 0 .. m-1 with m <= s + 1 forecast step s exactly when they start after s - f. */
  lemma {:induction false} CountRowsEarly(f: nat, s: int, m: nat)
    requires m <= s + 1
    ensures CountRows(f, s, m) == if m <= s - f + 1 then 0 else m - (if s - f + 1 > 0 then s - f + 1 else 0)
  {
    if m > 0 {
      CountRowsEarly(f, s, m - 1);
    }
  }

  /** Step s is forecast by min(s + 1, f) windows once all windows up to s are in. */
  lemma {:induction false} CountRowsSettled(f: nat, s: nat, m: nat)
    requires s < m
    ensures CountRows(f, s, m) == if s + 1 < f then s + 1 else f
  {
    if m > s + 1 {
      CountRowsSettled(f, s, m - 1);
    } else {
      CountRowsEarly(f, s, m);
    }
  }

  /** Before the last window, each iteration appends exactly one value. */
  lemma {:induction false} AvgPredUpToEarly(y: seq<seq<real>>, f: nat, i: nat)
    requires Uniform(y, f) && f >= 1 && i < |y|
    ensures |AvgPredUpTo(y, f, i)| == i
  {
    if i > 0 {
      AvgPredUpToEarly(y, f, i - 1);
    }
  }

  /**
   * `avg_pred` returns one value per window when there are at least
   * f_steps windows, and n - 1 + f_steps values when there are fewer.
   */
  lemma AvgPredLength(y: seq<seq<real>>, f: nat)
    requires Uniform(y, f) && f >= 1
    ensures AvgPredSpec(y, f).Ok?
    ensures |y| >= f ==> |AvgPredSpec(y, f).value| == |y|
    ensures 1 <= |y| < f ==> |AvgPredSpec(y, f).value| == |y| - 1 + f
  {
    if |y| > 0 {
      AvgPredUpToEarly(y, f, |y| - 1);
    }
  }

  /** The running sums `w` hold after the first idx iterations: `w[k]` is the sum so far for step idx + k. */
  predicate Pending(y: seq<seq<real>>, f: nat, idx: nat, w: seq<real>)
    requires Uniform(y, f) && idx <= |y|
  {
    |w| == f && forall k :: 0 <= k < f ==> w[k] == StepSum(y, f, idx + k, idx)
  }

  /** The running sums once window idx has been added: `w[k]` is the sum for step idx + k over windows 0 .. idx. */
  predicate Summed(y: seq<seq<real>>, f: nat, idx: nat, w: seq<real>)
    requires Uniform(y, f) && idx < |y|
  {
    |w| == f && forall k :: 0 <= k < f ==> w[k] == StepSum(y, f, idx + k, idx + 1)
  }

  /** `w += y_pred[idx]` turns the pending sums into the sums over windows 0 .. idx. */
  lemma PendingAdd(y: seq<seq<real>>, f: nat, idx: nat, w: seq<real>, w': seq<real>)
    requires Uniform(y, f) && idx < |y| && Pending(y, f, idx, w)
    requires |w'| == f && forall k :: 0 <= k < f ==> w'[k] == w[k] + y[idx][k]
    ensures Summed(y, f, idx, w')
  {
  }

  /** Rolling left and zeroing the last slot leaves the pending sums for the next window. */
  lemma SummedRoll(y: seq<seq<real>>, f: nat, idx: nat, w: seq<real>)
    requires Uniform(y, f) && idx < |y| && f >= 1 && Summed(y, f, idx, w)
    ensures Pending(y, f, idx + 1, w[1..] + [0.0])
  {
    StepSumBeyond(y, f, idx + f, idx + 1);
  }

  /** `w += p` on the running sums. */
  method AddInto(w: array<real>, p: seq<real>)
    requires |p| == w.Length
    modifies w
    ensures forall k :: 0 <= k < w.Length ==> w[k] == old(w[k]) + p[k]
  {
    var k := 0;
    while k < w.Length
      invariant 0 <= k <= w.Length
      invariant forall j :: 0 <= j < k ==> w[j] == old(w[j]) + p[j]
      invariant forall j :: k <= j < w.Length ==> w[j] == old(w[j])
    {
      w[k] := w[k] + p[k];
      k := k + 1;
    }
  }

  /** `np.roll(w, -1)`: every value moves one place left, the first wraps to the end. */
  method RollLeft(w: array<real>)
    requires w.Length > 0
    modifies w
    ensures w[..] == old(w[1..]) + [old(w[0])]
  {
    var first := w[0];
    var k := 0;
    while k < w.Length - 1
      invariant 0 <= k <= w.Length - 1
      invariant forall j :: 0 <= j < k ==> w[j] == old(w[j + 1])
      invariant forall j :: k <= j < w.Length ==> w[j] == old(w[j])
    {
      w[k] := w[k + 1];
      k := k + 1;
    }
    w[w.Length - 1] := first;
  }

  /** The values the iteration for window idx appends, read off the running sums. */
  method EmitValues(y: seq<seq<real>>, f: nat, idx: nat, w: array<real>) returns (e: seq<real>)
    requires Uniform(y, f) && f >= 1 && idx < |y| && Summed(y, f, idx, w[..])
    ensures e == Emit(y, f, idx)
  {
    if idx >= f - 1 {
      e := [w[0] / (f as real)];
    } else if idx == |y| - 1 {
      e := [];
      var div := f;
      var j := 0;
      while j < |y[idx]|
        invariant 0 <= j <= f && div == f - j && |e| == j
        invariant forall k :: 0 <= k < j ==> e[k] == StepSum(y, f, idx + k, idx + 1) / ((f - k) as real)
      {
        e := e + [w[j] / (div as real)];
        div := div - 1;
        j := j + 1;
      }
    } else {
      e := [w[0] / ((idx + 1) as real)];
    }
  }

  /**
   * The rest of the iteration for window idx: append the values read off
   * the running sums, then `np.roll(w, -1)` and `w[-1] = 0`, which leaves
   * the pending sums for window idx + 1.
   */
  method EmitAndShift(y: seq<seq<real>>, f: nat, idx: nat, w: array<real>) returns (e: seq<real>)
    requires Uniform(y, f) && f >= 1 && idx < |y| && Summed(y, f, idx, w[..])
    modifies w
    ensures e == Emit(y, f, idx)
    ensures Pending(y, f, idx + 1, w[..])
  {
    e := EmitValues(y, f, idx, w);
    ghost var summed := w[..];
    RollLeft(w);
    w[f - 1] := 0.0;
    assert w[..] == summed[1..] + [0.0];
    SummedRoll(y, f, idx, summed);
  }

  /**
   * `avg_pred`: the running sums of the overlapping windows are kept in an
   * f-slot buffer that is rolled left after every window.
   */
  method AvgPred(y: seq<seq<real>>, f: nat) returns (r: Result<seq<real>, PyError>)
    requires Uniform(y, f)
    ensures r == AvgPredSpec(y, f)
  {
    var out: seq<real> := [];
    var w := new real[f](_ => 0.0);
    var idx := 0;
    while idx < |y|
      invariant 0 <= idx <= |y| && w.Length == f
      invariant f == 0 ==> idx == 0
      invariant out == AvgPredUpTo(y, f, idx)
      invariant Pending(y, f, idx, w[..])
    {
      ghost var pending := w[..];
      AddInto(w, y[idx]);
      PendingAdd(y, f, idx, pending, w[..]);
      if f == 0 {
        // `idx >= f_steps - 1` always holds, and `w[0]` of the empty buffer raises IndexError
        r := Err(IndexError);
        return;
      }
      var e := EmitAndShift(y, f, idx, w);
      out := out + e;
      idx := idx + 1;
    }
    r := Ok(out);
  }
  /**
   * The forecast for every step the windows cover, steps 0 .. n-2+f, each
   * the mean of the forecasts of exactly the windows that cover it: the
   * series `ms_val` lays the true windows out as, and what `avg_pred`
   * computes for its first n steps when n >= f.
   */
  function AvgForecast(y: seq<seq<real>>, f: nat): (r: seq<real>)
    requires Uniform(y, f) && f >= 1
    ensures |y| > 0 ==> |r| == |y| - 1 + f
  {
    if |y| == 0 then []
    else seq(|y| - 1 + f, s requires 0 <= s < |y| - 1 + f => StepSum(y, f, s, |y|) / (CountRows(f, s, |y|) as real))
  }

  /** Window r forecasts steps r .. r+f-1 of one and the same series. */
  predicate Consistent(y: seq<seq<real>>, f: nat, series: seq<real>)
  {
    Uniform(y, f) && |y| - 1 + f <= |series| &&
    forall r, k :: 0 <= r < |y| && 0 <= k < f ==> y[r][k] == series[r + k]
  }

  /** On consistent windows, the sum for a step is its value times the number of windows covering it. */
  lemma {:induction false} StepSumConsistent(y: seq<seq<real>>, f: nat, series: seq<real>, s: nat, m: nat)
    requires Consistent(y, f, series) && s < |series| && m <= |y|
    ensures StepSum(y, f, s, m) == (CountRows(f, s, m) as real) * series[s]
  {
    if m > 0 {
      StepSumConsistent(y, f, series, s, m - 1);
      var r := m - 1;
      if r <= s < r + f {
        assert y[r][s - r] == series[r + (s - r)];
      }
    }
  }

  /** Step s of the averaged forecast of consistent windows is step s of the series. */
  lemma AvgForecastAt(y: seq<seq<real>>, f: nat, series: seq<real>, s: nat)
    requires f >= 1 && |y| >= 1 && Consistent(y, f, series) && s < |y| - 1 + f
    ensures AvgForecast(y, f)[s] == series[s]
  {
    var n := |y|;
    StepSumConsistent(y, f, series, s, n);
    var c := CountRows(f, s, n) as real;
    var sum := StepSum(y, f, s, n);
    assert sum == c * series[s];
    MulDivCancel(c, series[s]);
    assert sum / c == series[s];
    assert AvgForecast(y, f)[s] == sum / c;
  }

  /** Dividing a multiple of c by c gives back the factor. */
  lemma MulDivCancel(c: real, v: real)
    requires c != 0.0
    ensures (c * v) / c == v
  {
  }

  /**
   * Averaging windows that all forecast the same series gives that series
   * back, step for step, and it is exactly what `ms_val` lays the windows
   * out as.
   */
  lemma AvgForecastExact(y: seq<seq<real>>, f: nat, series: seq<real>)
    requires f >= 1 && |y| >= 1 && Consistent(y, f, series)
    ensures AvgForecast(y, f) == series[.. |y| - 1 + f]
    ensures MsValSpec(y) == Ok(AvgForecast(y, f))
  {
    var n := |y|;
    var a := AvgForecast(y, f);
    forall s | 0 <= s < n - 1 + f
      ensures a[s] == series[s]
    {
      AvgForecastAt(y, f, series, s);
    }
    assert a == series[.. n - 1 + f];
    forall i | 0 <= i < n
      ensures y[i] == series[i .. i + f]
    {
      assert forall k :: 0 <= k < f ==> y[i][k] == series[i + k];
    }
    MsValSliding(y, series, f);
  }

  /**
   * Every iteration that appends a single value appends the true mean for
   * its step: the value at position s is the average of the windows 0 .. s
   * that cover step s.
   */
  lemma {:induction false} AvgPredUpToIsForecast(y: seq<seq<real>>, f: nat, i: nat)
    requires Uniform(y, f) && f >= 1 && i <= |y| && (i < |y| || |y| >= f)
    ensures AvgPredUpTo(y, f, i) == AvgForecast(y, f)[..i]
  {
    if i > 0 {
      AvgPredUpToIsForecast(y, f, i - 1);
      var s := i - 1;
      EmitIsForecastAt(y, f, s);
      assert AvgForecast(y, f)[..i] == AvgForecast(y, f)[..s] + [AvgForecast(y, f)[s]];
    }
  }

  /** An iteration that appends a single value appends the averaged forecast for its step. */
  lemma EmitIsForecastAt(y: seq<seq<real>>, f: nat, s: nat)
    requires Uniform(y, f) && f >= 1 && s < |y| && (s < |y| - 1 || |y| >= f)
    ensures Emit(y, f, s) == [AvgForecast(y, f)[s]]
  {
    var n := |y|;
    StepSumSettled(y, f, s, n);
    CountRowsSettled(f, s, n);
    var c := CountRows(f, s, n);
    assert AvgForecast(y, f)[s] == StepSum(y, f, s, s + 1) / (c as real);
    if s >= f - 1 {
      assert c == f;
    } else {
      assert c == s + 1;
    }
  }

  /**
   * With at least f_steps windows, `avg_pred` as written returns the first
   * n of the n - 1 + f averaged steps: every value it returns is right, and
   * the forecast's last f - 1 steps are never emitted.
   */
  lemma AvgPredIsForecastPrefix(y: seq<seq<real>>, f: nat)
    requires Uniform(y, f) && f >= 1 && |y| >= f
    ensures AvgPredSpec(y, f) == Ok(AvgForecast(y, f)[..|y|])
  {
    AvgPredUpToIsForecast(y, f, |y|);
  }

  /**
   * Hence, as written, the averaged forecast is shorter than the true
   * series `ms_val` builds from windows of the same shape whenever
   * f_steps >= 2 and there are at least f_steps windows.
   */
  lemma AvgPredShorterThanMsVal(y: seq<seq<real>>, f: nat)
    requires Uniform(y, f) && f >= 2 && |y| >= f
    ensures MsValSpec(y).Ok? && AvgPredSpec(y, f).Ok?
    ensures |AvgPredSpec(y, f).value| + (f - 1) == |MsValSpec(y).value|
  {
    AvgPredLength(y, f);
    MsValShape(y);
  }

  /** Two windows of two steps each, all forecasting 1: `avg_pred` gives two values where there are three steps. */
  lemma AvgPredDropsTail()
    ensures AvgPredSpec([[1.0, 1.0], [1.0, 1.0]], 2) == Ok([1.0, 1.0])
    ensures AvgForecast([[1.0, 1.0], [1.0, 1.0]], 2) == [1.0, 1.0, 1.0]
    ensures MsValSpec([[1.0, 1.0], [1.0, 1.0]]) == Ok([1.0, 1.0, 1.0])
  {
    var y := [[1.0, 1.0], [1.0, 1.0]];
    AvgForecastExact(y, 2, [1.0, 1.0, 1.0]);
    AvgPredIsForecastPrefix(y, 2);
    assert AvgForecast(y, 2)[..2] == [1.0, 1.0];
  }

  /**
   * One window forecasting 2 then 4: the flush for fewer windows than
   * steps divides the first step's sum by 2, though only one window covers
   * it, and returns 1 where the forecast says 2.
   */
  lemma AvgPredShortFlush()
    ensures AvgPredSpec([[2.0, 4.0]], 2) == Ok([1.0, 4.0])
    ensures AvgForecast([[2.0, 4.0]], 2) == [2.0, 4.0]
    ensures MsValSpec([[2.0, 4.0]]) == Ok([2.0, 4.0])
  {
    var y := [[2.0, 4.0]];
    AvgForecastExact(y, 2, [2.0, 4.0]);
    assert StepSum(y, 2, 0, 1) == 2.0 && StepSum(y, 2, 1, 1) == 4.0;
    var e := Emit(y, 2, 0);
    assert |e| == 2 && e[0] == 2.0 / 2.0 && e[1] == 4.0 / 1.0;
    assert e == [1.0, 4.0];
    assert AvgPredUpTo(y, 2, 0) == [];
    assert AvgPredUpTo(y, 2, 1) == e;
    assert AvgPredSpec(y, 2) == Ok(AvgPredUpTo(y, 2, 1));
  }
}
