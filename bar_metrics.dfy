/** Intrabar tick metrics: the largest single-tick volume and the volume
    profile's Point of Control (the price bin with the most traded volume).
    Prices and volumes are exact reals, and the bin edges are the exact evenly
    spaced grid from the bar's lowest to its highest price (numpy's linspace). */
module BarMetrics {
  import opened Outcomes
  import opened RealSums

  /** Why a volume profile cannot be computed. */
  datatype MetricsError =
    | EmptyPrices      // the bar has no ticks: its price range is undefined
    | NonPositiveBins  // fewer than one bin: there is no bin to report

  /** The Point of Control and where it sits in the bar's price range. */
  datatype PointOfControl = Poc(price: real, position: real)

  // ---------------------------------------------------------------------------
  // Reductions over a bar's ticks

  /** The lowest price of a non-empty series. */
  function SeqMin(s: seq<real>): (m: real)
    requires |s| > 0
    ensures forall i :: 0 <= i < |s| ==> m <= s[i]
    ensures m in s
    decreases |s|
  {
    if |s| == 1 then s[0]
    else
      var m' := SeqMin(s[..|s| - 1]);
      assert m' in s[..|s| - 1];
      if s[|s| - 1] < m' then s[|s| - 1] else m'
  }

  /** The highest price of a non-empty series. */
  function SeqMax(s: seq<real>): (m: real)
    requires |s| > 0
    ensures forall i :: 0 <= i < |s| ==> s[i] <= m
    ensures m in s
    decreases |s|
  {
    if |s| == 1 then s[0]
    else
      var m' := SeqMax(s[..|s| - 1]);
      assert m' in s[..|s| - 1];
      if s[|s| - 1] > m' then s[|s| - 1] else m'
  }

  /** k holds a largest entry of s, and every entry before k is strictly smaller:
      k is the first occurrence of the maximum. */
  predicate IsFirstMax(s: seq<real>, k: int) {
    && 0 <= k < |s|
    && (forall i :: 0 <= i < |s| ==> s[i] <= s[k])
    && (forall i :: 0 <= i < k ==> s[i] < s[k])
  }

  /** The index of the first maximum (argmax with first-occurrence tie-break). */
  function FirstMaxIndex(s: seq<real>): (k: nat)
    requires |s| > 0
    ensures IsFirstMax(s, k)
    decreases |s|
  {
    if |s| == 1 then 0
    else
      var k' := FirstMaxIndex(s[..|s| - 1]);
      if s[|s| - 1] > s[k'] then |s| - 1 else k'
  }

  /** The first maximum is unique, so any index with that property is FirstMaxIndex. */
  lemma FirstMaxUnique(s: seq<real>, k1: int, k2: int)
    requires IsFirstMax(s, k1) && IsFirstMax(s, k2)
    ensures k1 == k2
  {
    assert s[k1] == s[k2];
  }

  // ---------------------------------------------------------------------------
  // max_traded_volume

  /** The largest single-tick volume and the price of the first tick that traded it;
      (0, 0) for a bar without ticks. */
  method MaxTradedVolume(prices: array<real>, volumes: array<real>)
    returns (maxVolume: real, priceAtMax: real)
    requires volumes.Length == 0 || FirstMaxIndex(volumes[..]) < prices.Length
    ensures volumes.Length == 0 ==> maxVolume == 0.0 && priceAtMax == 0.0
    ensures volumes.Length > 0 ==>
      var k := FirstMaxIndex(volumes[..]);
      maxVolume == volumes[k] && priceAtMax == prices[k]
    ensures forall i :: 0 <= i < volumes.Length ==> volumes[i] <= maxVolume
  {
    var n := volumes.Length;
    if n == 0 {
      return 0.0, 0.0;
    }
    var maxIdx := 0;
    maxVolume := volumes[0];
    for i := 1 to n
      invariant maxIdx < i
      invariant maxVolume == volumes[maxIdx]
      invariant forall j :: 0 <= j < i ==> volumes[j] <= maxVolume
      invariant forall j :: 0 <= j < maxIdx ==> volumes[j] < maxVolume
    {
      if volumes[i] > maxVolume {
        maxVolume := volumes[i];
        maxIdx := i;
      }
    }
    FirstMaxUnique(volumes[..], maxIdx, FirstMaxIndex(volumes[..]));
    priceAtMax := prices[maxIdx];
  }

  // ---------------------------------------------------------------------------
  // Price bins

  /** The j-th of n + 1 evenly spaced edges from lo to hi. */
  function Edge(lo: real, hi: real, n: nat, j: nat): real
    requires n > 0
  {
    lo + (j as real) * ((hi - lo) / (n as real))
  }

  /** The n + 1 bin edges; they run exactly from lo to hi. */
  function BinEdges(lo: real, hi: real, n: nat): (e: seq<real>)
    requires n > 0
    ensures |e| == n + 1
    ensures e[0] == lo && e[n] == hi
    ensures forall j :: 0 <= j <= n ==> e[j] == Edge(lo, hi, n, j)
  {
    EdgeLast(lo, hi, n);
    seq(n + 1, j requires 0 <= j <= n => Edge(lo, hi, n, j))
  }

  /** The grid ends exactly at hi, as linspace's last point does. */
  lemma EdgeLast(lo: real, hi: real, n: nat)
    requires n > 0
    ensures Edge(lo, hi, n, n) == hi
  {
  }

  /** Edges grow with their index when lo <= hi, strictly when lo < hi. */
  lemma EdgeMonotone(lo: real, hi: real, n: nat, a: nat, b: nat)
    requires n > 0 && lo <= hi && a <= b
    ensures Edge(lo, hi, n, a) <= Edge(lo, hi, n, b)
    ensures lo < hi && a < b ==> Edge(lo, hi, n, a) < Edge(lo, hi, n, b)
  {
  }

  /** Every edge up to the n-th lies in [lo, hi]. */
  lemma EdgeInRange(lo: real, hi: real, n: nat, j: nat)
    requires n > 0 && lo <= hi && j <= n
    ensures lo <= Edge(lo, hi, n, j) <= hi
  {
  }

  /** The inner bin search, from bin j on: the first bin whose half-open interval
      [Edge(j), Edge(j+1)) holds p, or the last bin when p is the top edge. */
  function BinScan(p: real, lo: real, hi: real, n: nat, j: nat): (b: Option<nat>)
    requires n > 0 && j <= n
    ensures b.Some? ==> j <= b.value < n
    decreases n - j
  {
    if j == n then None
    else if Edge(lo, hi, n, j) <= p < Edge(lo, hi, n, j + 1) then Some(j)
    else if j == n - 1 && p == Edge(lo, hi, n, n) then Some(j)
    else BinScan(p, lo, hi, n, j + 1)
  }

  /** The bin a tick at price p adds its volume to, if any. */
  function BinOf(p: real, lo: real, hi: real, n: nat): (b: Option<nat>)
    requires n > 0
    ensures b.Some? ==> b.value < n
  {
    BinScan(p, lo, hi, n, 0)
  }

  /** A scan started at a bin whose lower edge is at most p <= hi finds a bin,
      and that bin's edges enclose p. */
  lemma {:induction false} BinScanLands(p: real, lo: real, hi: real, n: nat, j: nat)
    requires n > 0 && j < n
    requires Edge(lo, hi, n, j) <= p <= hi
    ensures BinScan(p, lo, hi, n, j).Some?
    ensures var b := BinScan(p, lo, hi, n, j).value;
      Edge(lo, hi, n, b) <= p <= Edge(lo, hi, n, b + 1)
    decreases n - j
  {
    EdgeLast(lo, hi, n);
    if Edge(lo, hi, n, j) <= p < Edge(lo, hi, n, j + 1) {
    } else if j == n - 1 {
      assert p == Edge(lo, hi, n, n);
    } else {
      BinScanLands(p, lo, hi, n, j + 1);
    }
  }

  /** Every tick inside the price range lands in a bin, and that bin's edges
      enclose its price; this includes p == hi and the case lo == hi. */
  lemma BinLands(p: real, lo: real, hi: real, n: nat)
    requires n > 0 && lo <= p <= hi
    ensures BinOf(p, lo, hi, n).Some?
    ensures var b := BinOf(p, lo, hi, n).value;
      b < n && Edge(lo, hi, n, b) <= p <= Edge(lo, hi, n, b + 1)
  {
    BinScanLands(p, lo, hi, n, 0);
  }

  /** A tick lands in some bin exactly when its price lies in [lo, hi]. */
  lemma BinOfSomeIff(p: real, lo: real, hi: real, n: nat)
    requires n > 0 && lo <= hi
    ensures BinOf(p, lo, hi, n).Some? <==> lo <= p <= hi
  {
    if lo <= p <= hi {
      BinLands(p, lo, hi, n);
    } else {
      BinScanOutside(p, lo, hi, n, 0);
    }
  }

  /** A price outside [lo, hi] matches no bin, wherever the scan starts. */
  lemma {:induction false} BinScanOutside(p: real, lo: real, hi: real, n: nat, j: nat)
    requires n > 0 && lo <= hi && j <= n
    requires p < lo || hi < p
    ensures BinScan(p, lo, hi, n, j).None?
    decreases n - j
  {
    if j < n {
      EdgeInRange(lo, hi, n, j);
      EdgeInRange(lo, hi, n, j + 1);
      EdgeLast(lo, hi, n);
      BinScanOutside(p, lo, hi, n, j + 1);
    }
  }

  /** With a proper range, a scan started at or before bin j reaches bin j when
      p lies in [Edge(j), Edge(j+1)): no earlier bin matches. */
  lemma {:induction false} BinScanReaches(p: real, lo: real, hi: real, n: nat, i: nat, j: nat)
    requires n > 0 && lo < hi && i <= j < n
    requires Edge(lo, hi, n, j) <= p < Edge(lo, hi, n, j + 1)
    ensures BinScan(p, lo, hi, n, i) == Some(j)
    decreases j - i
  {
    if i < j {
      EdgeMonotone(lo, hi, n, i + 1, j);
      BinScanReaches(p, lo, hi, n, i + 1, j);
    }
  }

  /** With a proper range the half-open bins do not overlap: a tick in
      [Edge(j), Edge(j+1)) goes to bin j and to no other. */
  lemma BinOfInterior(p: real, lo: real, hi: real, n: nat, j: nat)
    requires n > 0 && lo < hi && j < n
    requires Edge(lo, hi, n, j) <= p < Edge(lo, hi, n, j + 1)
    ensures BinOf(p, lo, hi, n) == Some(j)
  {
    BinScanReaches(p, lo, hi, n, 0, j);
  }

  /** A scan of the price hi from any bin ends in the last bin. */
  lemma {:induction false} BinScanTop(lo: real, hi: real, n: nat, i: nat)
    requires n > 0 && lo <= hi && i < n
    ensures BinScan(hi, lo, hi, n, i) == Some(n - 1)
    decreases n - i
  {
    EdgeLast(lo, hi, n);
    if i < n - 1 {
      EdgeInRange(lo, hi, n, i + 1);
      BinScanTop(lo, hi, n, i + 1);
    }
  }

  /** A tick at the highest price goes to the last bin, also when every
      edge coincides (lo == hi). */
  lemma BinOfTop(lo: real, hi: real, n: nat)
    requires n > 0 && lo <= hi
    ensures BinOf(hi, lo, hi, n) == Some(n - 1)
  {
    BinScanTop(lo, hi, n, 0);
  }

  // ---------------------------------------------------------------------------
  // The volume profile

  /** The volume per bin after the ticks prices[..] with volumes volumes[..|prices|]
      have each added their volume to the bin BinOf chooses. */
  function Profile(prices: seq<real>, volumes: seq<real>, lo: real, hi: real, n: nat): (bins: seq<real>)
    requires n > 0 && |prices| <= |volumes|
    ensures |bins| == n
    decreases |prices|
  {
    if |prices| == 0 then seq(n, _ => 0.0)
    else
      var last := |prices| - 1;
      Deposit(Profile(prices[..last], volumes, lo, hi, n), BinOf(prices[last], lo, hi, n), volumes[last])
  }

  /** One tick's contribution: its volume added to the bin it landed in, if any. */
  function Deposit(bins: seq<real>, b: Option<nat>, volume: real): (r: seq<real>)
    requires b.Some? ==> b.value < |bins|
    ensures |r| == |bins|
    ensures forall i :: 0 <= i < |bins| && b != Some(i) ==> r[i] == bins[i]
    ensures b.Some? ==> r[b.value] == bins[b.value] + volume
    ensures Sum(r) == Sum(bins) + (if b.Some? then volume else 0.0)
  {
    match b
    case None => bins
    case Some(j) =>
      SumAddAt(bins, j, volume);
      bins[j := bins[j] + volume]
  }

  /** Volume is conserved: when every price lies in [lo, hi], the bins
      together hold exactly the ticks' total volume. */
  lemma {:induction false} ProfileConservesVolume(prices: seq<real>, volumes: seq<real>, lo: real, hi: real, n: nat)
    requires n > 0 && |prices| <= |volumes|
    requires forall i :: 0 <= i < |prices| ==> lo <= prices[i] <= hi
    ensures Sum(Profile(prices, volumes, lo, hi, n)) == Sum(volumes[..|prices|])
    decreases |prices|
  {
    if |prices| == 0 {
      SumZeros(n);
    } else {
      var last := |prices| - 1;
      var acc := Profile(prices[..last], volumes, lo, hi, n);
      ProfileConservesVolume(prices[..last], volumes, lo, hi, n);
      BinLands(prices[last], lo, hi, n);
      var j := BinOf(prices[last], lo, hi, n).value;
      SumAddAt(acc, j, volumes[last]);
      SumPrefixStep(volumes, last);
    }
  }

  /** When every tick trades at one price, all of the volume sits in the last bin. */
  lemma {:induction false} ProfileFlatRange(prices: seq<real>, volumes: seq<real>, p: real, n: nat)
    requires n > 0 && |prices| <= |volumes|
    requires forall i :: 0 <= i < |prices| ==> prices[i] == p
    ensures forall j :: 0 <= j < n - 1 ==> Profile(prices, volumes, p, p, n)[j] == 0.0
    ensures Profile(prices, volumes, p, p, n)[n - 1] == Sum(volumes[..|prices|])
    decreases |prices|
  {
    if |prices| > 0 {
      var last := |prices| - 1;
      ProfileFlatRange(prices[..last], volumes, p, n);
      BinOfTop(p, p, n);
      SumPrefixStep(volumes, last);
    }
  }

  /** volume_profile_features as a function of the bar's ticks: the midpoint of
      the first bin with the most volume, and its relative position in the range. */
  function VolumeProfile(prices: seq<real>, volumes: seq<real>, nBins: int := 20): (r: Result<PointOfControl, MetricsError>)
    requires |prices| <= |volumes|
    ensures r == Err(EmptyPrices) <==> |prices| == 0
    ensures r == Err(NonPositiveBins) <==> |prices| > 0 && nBins < 1
  {
    if |prices| == 0 then Err(EmptyPrices)
    else if nBins < 1 then Err(NonPositiveBins)
    else
      var lo, hi := SeqMin(prices), SeqMax(prices);
      var k := FirstMaxIndex(Profile(prices, volumes, lo, hi, nBins));
      var price := (Edge(lo, hi, nBins, k) + Edge(lo, hi, nBins, k + 1)) / 2.0;
      Ok(Poc(price, if hi > lo then (price - lo) / (hi - lo) else 0.0))
  }

  /** The Point of Control price lies in the bar's price range; its position is
      the centre of bin k out of n, (2k + 1) / 2n, hence in [0, 1], and 0 when
      the range is a single price (then the price is that price). */
  lemma VolumeProfileInRange(prices: seq<real>, volumes: seq<real>, nBins: int)
    requires |prices| <= |volumes| && |prices| > 0 && nBins >= 1
    ensures VolumeProfile(prices, volumes, nBins).Ok?
    ensures var poc := VolumeProfile(prices, volumes, nBins).value;
      var lo, hi := SeqMin(prices), SeqMax(prices);
      var k := FirstMaxIndex(Profile(prices, volumes, lo, hi, nBins));
      && lo <= poc.price <= hi
      && 0.0 <= poc.position <= 1.0
      && (hi == lo ==> poc.price == lo && poc.position == 0.0)
      && (hi > lo ==> poc.position == (2 * k + 1) as real / (2 * nBins) as real)
  {
    var lo, hi := SeqMin(prices), SeqMax(prices);
    var k := FirstMaxIndex(Profile(prices, volumes, lo, hi, nBins));
    var poc := VolumeProfile(prices, volumes, nBins).value;
    EdgeInRange(lo, hi, nBins, k);
    EdgeInRange(lo, hi, nBins, k + 1);
    if hi > lo {
      PositionOfMidpoint(lo, hi, nBins, k);
    }
  }

  /** The reported price is the midpoint of the first bin holding the most volume:
      whichever index has that property (it is unique), the price is its midpoint. */
  lemma VolumeProfileIsFirstFullestBin(prices: seq<real>, volumes: seq<real>, nBins: int, k: int)
    requires |prices| <= |volumes| && |prices| > 0 && nBins >= 1
    requires IsFirstMax(Profile(prices, volumes, SeqMin(prices), SeqMax(prices), nBins), k)
    ensures VolumeProfile(prices, volumes, nBins).Ok?
    ensures var lo, hi := SeqMin(prices), SeqMax(prices);
      VolumeProfile(prices, volumes, nBins).value.price
        == (Edge(lo, hi, nBins, k) + Edge(lo, hi, nBins, k + 1)) / 2.0
  {
  }

  lemma PositionOfMidpoint(lo: real, hi: real, n: nat, k: nat)
    requires n > 0 && lo < hi && k < n
    ensures var mid := (Edge(lo, hi, n, k) + Edge(lo, hi, n, k + 1)) / 2.0;
      var pos := (mid - lo) / (hi - lo);
      pos == (2 * k + 1) as real / (2 * n) as real && 0.0 <= pos <= 1.0
  {
  }

  /** The inner loop of volume_profile_features for one tick: scan the bins in
      order and add the volume to the first one that matches, then stop. */
  method AddTick(bins: array<real>, edges: seq<real>, lo: real, hi: real, price: real, volume: real)
    requires bins.Length > 0 && edges == BinEdges(lo, hi, bins.Length)
    modifies bins
    ensures bins[..] == Deposit(old(bins[..]), BinOf(price, lo, hi, bins.Length), volume)
  {
    var n := bins.Length;
    var j := 0;
    while j < n
      invariant 0 <= j <= n
      invariant BinOf(price, lo, hi, n) == BinScan(price, lo, hi, n, j)
      invariant bins[..] == old(bins[..])
    {
      if edges[j] <= price < edges[j + 1] {
        bins[j] := bins[j] + volume;
        break;
      } else if j == n - 1 && price == edges[n] {
        bins[j] := bins[j] + volume;
        break;
      }
      j := j + 1;
    }
  }

  /** volume_profile_features: fills a fresh bin array tick by tick, then reports
      the midpoint of the first fullest bin and its position in the price range. */
  method VolumeProfileFeatures(prices: array<real>, volumes: array<real>, nBins: int := 20)
    returns (r: Result<PointOfControl, MetricsError>)
    requires prices.Length <= volumes.Length
    ensures r == VolumeProfile(prices[..], volumes[..], nBins)
  {
    if prices.Length == 0 {
      return Err(EmptyPrices);
    }
    var lo := SeqMin(prices[..]);
    var hi := SeqMax(prices[..]);
    if nBins < 1 {
      return Err(NonPositiveBins);
    }
    var edges := BinEdges(lo, hi, nBins);
    var bins := new real[nBins](_ => 0.0);
    assert bins[..] == seq(nBins, _ => 0.0);
    for i := 0 to prices.Length
      invariant bins[..] == Profile(prices[..i], volumes[..], lo, hi, nBins)
    {
      assert prices[..i + 1][..i] == prices[..i];
      AddTick(bins, edges, lo, hi, prices[i], volumes[i]);
    }
    assert prices[..prices.Length] == prices[..];
    var k := FirstMaxIndex(bins[..]);
    var pocPrice := (edges[k] + edges[k + 1]) / 2.0;
    var pocPosition := if hi > lo then (pocPrice - lo) / (hi - lo) else 0.0;
    return Ok(Poc(pocPrice, pocPosition));
  }
}
