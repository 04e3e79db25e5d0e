/**
 * The "Top 10 Recovery Opportunities" bar chart: the first ten clients of
 * the list as received, each drawn as a bar whose height is its revenue as
 * a percentage of the largest revenue shown (at least 1), with the first
 * bar highlighted.
 */
module RecoveryFocusChart {
  import opened JsBuiltins
  import opened Records

  const ChartSize := 10

  /** Bars from this index on are hidden on small screens. */
  const CompactBars := 5

  /** `recovery_data_list.slice(0, 10)`: the first ten clients, in the order received. */
  function ChartData(clients: seq<ClientRecord>): (top: seq<ClientRecord>)
    ensures |top| == Min(ChartSize, |clients|)
    ensures top == clients[..|top|]
  {
    Slice(clients, 0, ChartSize)
  }

  function RealMax(a: real, b: real): real { if a < b then b else a }

  /**
   * `Math.max(...revenues, 1)`: the largest revenue shown, but never below
   * 1; it bounds every revenue and is either 1 or one of them.
   */
  function MaxRevenue(top: seq<ClientRecord>): (m: real)
    ensures m >= 1.0
    ensures forall i :: 0 <= i < |top| ==> top[i].totalRevenue <= m
    ensures m == 1.0 || exists i :: 0 <= i < |top| && top[i].totalRevenue == m
  {
    if top == [] then 1.0
    else
      var rest := MaxRevenue(top[1..]);
      assert forall i :: 1 <= i < |top| ==> top[i] == top[1..][i - 1];
      RealMax(top[0].totalRevenue, rest)
  }

  /** `(revenue / maxRevenue) * 100`. */
  function Percentage(revenue: real, maxRevenue: real): (height: real)
    requires maxRevenue >= 1.0
    ensures 0.0 <= revenue <= maxRevenue ==> 0.0 <= height <= 100.0
    ensures revenue == maxRevenue ==> height == 100.0
    ensures revenue < maxRevenue ==> height < 100.0
  {
    (revenue / maxRevenue) * 100.0
  }

  /** One bar of the chart. */
  datatype Bar = Bar(name: string, revenue: real, height: real, highlighted: bool, compactHidden: bool)

  /**
   * The bars drawn for `clients`: one per client of `ChartData`, in order,
   * with its height as a percentage of `MaxRevenue`; only the first bar is
   * highlighted, and bars from the sixth on are hidden on small screens.
   */
  function Bars(clients: seq<ClientRecord>): (bars: seq<Bar>)
    ensures var top := ChartData(clients);
      && |bars| == |top|
      && forall i :: 0 <= i < |bars| ==>
           && bars[i].name == top[i].cliente
           && bars[i].revenue == top[i].totalRevenue
           && bars[i].height == Percentage(top[i].totalRevenue, MaxRevenue(top))
           && (bars[i].highlighted <==> i == 0)
           && (bars[i].compactHidden <==> i >= CompactBars)
  {
    var top := ChartData(clients);
    var maxRevenue := MaxRevenue(top);
    seq(|top|, i requires 0 <= i < |top| =>
      Bar(top[i].cliente, top[i].totalRevenue, Percentage(top[i].totalRevenue, maxRevenue), i == 0, i >= CompactBars))
  }

  /** With non-negative revenues every bar fits the chart: its height lies in [0, 100]. */
  lemma BarsFit(clients: seq<ClientRecord>)
    requires forall c :: c in clients ==> c.totalRevenue >= 0.0
    ensures forall b :: b in Bars(clients) ==> 0.0 <= b.height <= 100.0
  {
    var bars, top := Bars(clients), ChartData(clients);
    forall b | b in bars
      ensures 0.0 <= b.height <= 100.0
    {
      var i :| 0 <= i < |bars| && bars[i] == b;
      assert top[i] in clients;
    }
  }

  /** A client shown who earns at least 1 makes the largest earner's bar full height. */
  lemma SomeBarIsFull(clients: seq<ClientRecord>, j: nat)
    requires j < |ChartData(clients)| && ChartData(clients)[j].totalRevenue >= 1.0
    ensures exists b :: b in Bars(clients) && b.height == 100.0
  {
    var bars, top := Bars(clients), ChartData(clients);
    var m := MaxRevenue(top);
    assert top[j].totalRevenue <= m;
    var i :| 0 <= i < |top| && top[i].totalRevenue == m;
    assert bars[i] in bars;
  }

  /** A full-height bar belongs to a client who earns at least 1. */
  lemma FullBarEarnsOne(clients: seq<ClientRecord>, i: nat)
    requires i < |Bars(clients)| && Bars(clients)[i].height == 100.0
    ensures ChartData(clients)[i].totalRevenue >= 1.0
  {
    var top := ChartData(clients);
    assert Bars(clients)[i].height == Percentage(top[i].totalRevenue, MaxRevenue(top));
  }

  /**
   * Some bar is exactly full height if and only if some client shown earns
   * at least 1 (the floor of the scale); below that every bar stays short.
   */
  lemma TallestBarIsFull(clients: seq<ClientRecord>)
    ensures (exists i :: 0 <= i < |ChartData(clients)| && ChartData(clients)[i].totalRevenue >= 1.0)
        <==> (exists b :: b in Bars(clients) && b.height == 100.0)
  {
    var bars, top := Bars(clients), ChartData(clients);
    if j :| 0 <= j < |top| && top[j].totalRevenue >= 1.0 {
      SomeBarIsFull(clients, j);
    }
    if b :| b in bars && b.height == 100.0 {
      var i :| 0 <= i < |bars| && bars[i] == b;
      FullBarEarnsOne(clients, i);
    }
  }
}
