/** The dashboard statistics over the products table: totals, low stock and
    products added today, each for everyone and for the caller, and the series
    of products added per day over the last few days. Days are UTC days and the
    current instant is given as `now` (milliseconds). */
module Stats {
  import opened Common
  import opened Records
  import opened Schemas
  import opened Products

  /** `utcnow().replace(hour=0, minute=0, second=0, microsecond=0)`: the first
      instant of the UTC day holding `t`. */
  function DayStart(t: int): (r: int)
    ensures r <= t < r + DayMs
    ensures r % DayMs == 0
  {
    t - t % DayMs
  }

  /** How many rows satisfy `p`: a `count(...)` query, with `or 0` never needed. */
  function Count(rows: seq<Product>, p: Product -> bool): (n: nat)
    ensures n <= |rows|
  {
    |Filter(rows, p)|
  }

  /** Restricting a count to the caller's products never raises it. */
  lemma MineAtMostAll(rows: seq<Product>, caller: TokenData, p: Product -> bool)
    ensures Count(rows, (x: Product) => Owns(caller, x) && p(x)) <= Count(rows, p)
  {
    FilterCountMono(rows, (x: Product) => Owns(caller, x) && p(x), p);
  }

  /** The query parameters' defaults. */
  const DefaultThreshold: int := 10
  const DefaultDays: int := 7

  datatype Pair = Pair(all: int, mine: int)

  datatype LowStockCount = LowStockCount(all: int, mine: int, threshold: int)

  datatype StatsReply = StatsReply(totals: Pair, lowStock: LowStockCount, addedToday: Pair)

  /** Every product: the unfiltered `count(Product.id)`. */
  function AnyProduct(): Product -> bool
  {
    (p: Product) => true
  }

  function IsLow(threshold: int): Product -> bool
  {
    (p: Product) => p.quantity < threshold
  }

  function AddedSince(start: int): Product -> bool
  {
    (p: Product) => p.createdAt >= start
  }

  /** `owner_id == current_user.user_id` together with the criterion `p`. */
  function Mine(caller: TokenData, p: Product -> bool): Product -> bool
  {
    (x: Product) => Owns(caller, x) && p(x)
  }

  /** `get_stats`: the three counts for everyone and for the caller. Low stock
      is strictly below the threshold, which is echoed back; "today" starts at
      the first instant of the current UTC day. The caller's counts are the
      same criteria restricted to the products the caller owns; the role plays
      no part. */
  function GetStats(rows: seq<Product>, caller: TokenData, threshold: int, now: int): (s: StatsReply)
    ensures s.totals.all == |rows|
    ensures s.lowStock.threshold == threshold
    ensures s.lowStock.all == Count(rows, IsLow(threshold))
    ensures s.addedToday.all == Count(rows, AddedSince(DayStart(now)))
    ensures s.totals.mine == Count(rows, Mine(caller, AnyProduct()))
    ensures s.lowStock.mine == Count(rows, Mine(caller, IsLow(threshold)))
    ensures s.addedToday.mine == Count(rows, Mine(caller, AddedSince(DayStart(now))))
    ensures s.totals.mine <= s.totals.all
    ensures s.lowStock.mine <= s.lowStock.all
    ensures s.addedToday.mine <= s.addedToday.all
    ensures s.addedToday.all <= s.totals.all && s.lowStock.all <= s.totals.all
  {
    FilterKeepsAll(rows, AnyProduct());
    MineAtMostAll(rows, caller, AnyProduct());
    MineAtMostAll(rows, caller, IsLow(threshold));
    MineAtMostAll(rows, caller, AddedSince(DayStart(now)));
    StatsReply(
      Pair(Count(rows, AnyProduct()), Count(rows, Mine(caller, AnyProduct()))),
      LowStockCount(Count(rows, IsLow(threshold)), Count(rows, Mine(caller, IsLow(threshold))), threshold),
      Pair(Count(rows, AddedSince(DayStart(now))), Count(rows, Mine(caller, AddedSince(DayStart(now))))))
  }

  /** The products the caller owns. */
  function OwnedBy(caller: TokenData): Product -> bool
  {
    (p: Product) => Owns(caller, p)
  }

  /** Each of the caller's counts is the matching count for everyone taken over
      the caller's own products only. */
  lemma MineCountsOwnRows(rows: seq<Product>, caller: TokenData, threshold: int, now: int)
    ensures var s := GetStats(rows, caller, threshold, now);
      var own := GetStats(Filter(rows, OwnedBy(caller)), caller, threshold, now);
      s.totals.mine == own.totals.all &&
      s.lowStock.mine == own.lowStock.all &&
      s.addedToday.mine == own.addedToday.all
  {
    FilterExt(rows, OwnedBy(caller), Mine(caller, AnyProduct()));
    FilterTwice(rows, OwnedBy(caller), IsLow(threshold), Mine(caller, IsLow(threshold)));
    FilterTwice(rows, OwnedBy(caller), AddedSince(DayStart(now)), Mine(caller, AddedSince(DayStart(now))));
  }

  /** The dashboard's low-stock count (`quantity < threshold`) is the length of
      the low-stock listing (`quantity <= threshold`) one below the threshold,
      for a caller who sees every product. */
  lemma LowStockCountVsListing(inv: Inventory, caller: TokenData, threshold: int, now: int)
    requires !IsPlainUser(caller)
    ensures GetStats(inv.rows, caller, threshold, now).lowStock.all == |inv.GetLowStock(caller, threshold - 1)|
  {
    FilterExt(inv.rows, IsLow(threshold), (p: Product) => p.quantity <= threshold - 1 && SeesProduct(caller, p));
  }

  /** A visible product whose stock equals the threshold is on the low-stock
      listing but is not among the dashboard's low-stock products; for a caller
      who sees every product the dashboard's count is then strictly below the
      listing's length at the same threshold. */
  lemma AtThresholdListedNotCounted(inv: Inventory, caller: TokenData, p: Product, threshold: int, now: int)
    requires p in inv.rows && SeesProduct(caller, p) && p.quantity == threshold
    ensures p in inv.GetLowStock(caller, threshold)
    ensures p !in Filter(inv.rows, IsLow(threshold))
    ensures !IsPlainUser(caller) ==>
      GetStats(inv.rows, caller, threshold, now).lowStock.all < |inv.GetLowStock(caller, threshold)|
  {
    if !IsPlainUser(caller) {
      FilterCountStrict(inv.rows, IsLow(threshold), (q: Product) => q.quantity <= threshold && SeesProduct(caller, q), p);
    }
  }

  // ---------------------------------------------------------------------------
  // Products added per day
  // ---------------------------------------------------------------------------

  /** One day of the series: the first instant of the day (its ISO date is
      rendered from it) and the products created within it. */
  datatype DailyStat = DailyStat(dayStart: int, countAll: int, countMine: int)

  /** `days` outside 1..30 becomes the default of 7. */
  function NormalDays(days: int): (n: int)
    ensures 1 <= n <= 30
    ensures 1 <= days <= 30 ==> n == days
    ensures days < 1 || days > 30 ==> n == DefaultDays
  {
    if days < 1 || days > 30 then DefaultDays else days
  }

  /** Created within the half-open window `[lo, hi)`. */
  predicate CreatedIn(p: Product, lo: int, hi: int)
  {
    lo <= p.createdAt < hi
  }

  /** The number of rows created within `[lo, hi)`. */
  function CountIn(rows: seq<Product>, lo: int, hi: int): (c: nat)
    ensures c <= |rows|
  {
    if rows == [] then 0
    else (if CreatedIn(rows[0], lo, hi) then 1 else 0) + CountIn(rows[1..], lo, hi)
  }

  /** The number of the caller's rows created within `[lo, hi)`. */
  function CountMineIn(rows: seq<Product>, caller: TokenData, lo: int, hi: int): (c: nat)
    ensures c <= CountIn(rows, lo, hi)
  {
    if rows == [] then 0
    else (if Owns(caller, rows[0]) && CreatedIn(rows[0], lo, hi) then 1 else 0) + CountMineIn(rows[1..], caller, lo, hi)
  }

  /** A window count is the count of the rows the window's filter keeps. */
  lemma {:induction false} CountInIsFilterCount(rows: seq<Product>, lo: int, hi: int)
    ensures CountIn(rows, lo, hi) == Count(rows, (p: Product) => CreatedIn(p, lo, hi))
  {
    if rows != [] {
      CountInIsFilterCount(rows[1..], lo, hi);
    }
  }

  /** A window count of the caller's rows is the count of the rows the
      owner-and-window filter keeps. */
  lemma {:induction false} CountMineInIsFilterCount(rows: seq<Product>, caller: TokenData, lo: int, hi: int)
    ensures CountMineIn(rows, caller, lo, hi) == Count(rows, (p: Product) => Owns(caller, p) && CreatedIn(p, lo, hi))
  {
    if rows != [] {
      CountMineInIsFilterCount(rows[1..], caller, lo, hi);
    }
  }

  /** The entry for the day beginning at `start`. */
  function DayEntry(rows: seq<Product>, caller: TokenData, start: int): DailyStat
  {
    DailyStat(start, CountIn(rows, start, start + DayMs), CountMineIn(rows, caller, start, start + DayMs))
  }

  /** The `n` days ending with the day that begins at `today`, oldest first. */
  function DailySeries(rows: seq<Product>, caller: TokenData, n: nat, today: int): (s: seq<DailyStat>)
    ensures |s| == n
  {
    seq(n, k requires 0 <= k < n => DayEntry(rows, caller, today - (n - 1 - k) * DayMs))
  }

  /** Day `k` of the series starts `n - 1 - k` days before today. */
  lemma SeriesAt(rows: seq<Product>, caller: TokenData, n: nat, today: int, k: int)
    requires 0 <= k < n
    ensures DailySeries(rows, caller, n, today)[k] == DayEntry(rows, caller, today - (n - 1 - k) * DayMs)
    ensures DailySeries(rows, caller, n, today)[k].dayStart == today - (n - 1 - k) * DayMs
  {
  }

  /** `daily_added_stats`: for `i` from `days - 1` down to 0, the day `i` days
      before today is counted and appended. */
  method DailyAddedStats(rows: seq<Product>, caller: TokenData, days: int, now: int)
    returns (out: seq<DailyStat>)
    ensures |out| == NormalDays(days)
    ensures out == DailySeries(rows, caller, NormalDays(days), DayStart(now))
  {
    var n := days;
    if n < 1 || n > 30 {
      n := DefaultDays;
    }
    ghost var series := DailySeries(rows, caller, n, DayStart(now));
    out := [];
    var i := n - 1;
    while i >= 0
      invariant -1 <= i <= n - 1
      invariant |out| == n - 1 - i
      invariant out == series[..n - 1 - i]
      decreases i + 1
    {
      var dayStart := DayStart(now) - i * DayMs;
      var dayEnd := dayStart + DayMs;
      var countAll := CountIn(rows, dayStart, dayEnd);
      var countMine := CountMineIn(rows, caller, dayStart, dayEnd);
      var k := n - 1 - i;
      SeriesAt(rows, caller, n, DayStart(now), k);
      assert n - 1 - k == i;
      assert series[k] == DayEntry(rows, caller, dayStart);
      TakeOneMore(series, k);
      out := out + [DailyStat(dayStart, countAll, countMine)];
      i := i - 1;
    }
    assert series[..n] == series;
  }

  /** The series runs oldest to newest, one day apart, and ends with today. */
  lemma SeriesDays(rows: seq<Product>, caller: TokenData, n: nat, today: int)
    requires n >= 1
    ensures var s := DailySeries(rows, caller, n, today);
      s[n - 1].dayStart == today &&
      s[0].dayStart == today - (n - 1) * DayMs &&
      forall k :: 0 <= k < n - 1 ==> s[k + 1].dayStart == s[k].dayStart + DayMs
  {
    var s := DailySeries(rows, caller, n, today);
    SeriesAt(rows, caller, n, today, 0);
    SeriesAt(rows, caller, n, today, n - 1);
    forall k | 0 <= k < n - 1
      ensures s[k + 1].dayStart == s[k].dayStart + DayMs
    {
      SeriesAt(rows, caller, n, today, k);
      SeriesAt(rows, caller, n, today, k + 1);
      assert (n - 1 - k) * DayMs == (n - 1 - (k + 1)) * DayMs + DayMs;
    }
  }

  /** For every day, the caller's count is at most everyone's. */
  lemma SeriesMineAtMostAll(rows: seq<Product>, caller: TokenData, n: nat, today: int)
    ensures forall k :: 0 <= k < n ==>
      DailySeries(rows, caller, n, today)[k].countMine <= DailySeries(rows, caller, n, today)[k].countAll
  {
    var s := DailySeries(rows, caller, n, today);
    forall k | 0 <= k < n
      ensures s[k].countMine <= s[k].countAll
    {
      SeriesAt(rows, caller, n, today, k);
    }
  }

  /** Two days of the series share no instant, so no product is counted on
      two days. */
  lemma WindowsDisjoint(rows: seq<Product>, caller: TokenData, n: nat, today: int, j: int, k: int, p: Product)
    requires 0 <= j < n && 0 <= k < n
    requires CreatedIn(p, DailySeries(rows, caller, n, today)[j].dayStart, DailySeries(rows, caller, n, today)[j].dayStart + DayMs)
    requires CreatedIn(p, DailySeries(rows, caller, n, today)[k].dayStart, DailySeries(rows, caller, n, today)[k].dayStart + DayMs)
    ensures j == k
  {
    SeriesAt(rows, caller, n, today, j);
    SeriesAt(rows, caller, n, today, k);
  }

  /** Counting over two adjacent windows adds up to counting over their union. */
  lemma {:induction false} CountSplit(rows: seq<Product>, lo: int, mid: int, hi: int)
    requires lo <= mid <= hi
    ensures CountIn(rows, lo, hi) == CountIn(rows, lo, mid) + CountIn(rows, mid, hi)
  {
    if rows != [] {
      CountSplit(rows[1..], lo, mid, hi);
    }
  }

  /** The total of everyone's counts over the first `m` days. */
  function SumAll(s: seq<DailyStat>): int
  {
    if s == [] then 0 else SumAll(s[..|s| - 1]) + s[|s| - 1].countAll
  }

  lemma {:induction false} CountEmptyWindow(rows: seq<Product>, t: int)
    ensures CountIn(rows, t, t) == 0
  {
    if rows != [] {
      CountEmptyWindow(rows[1..], t);
    }
  }

  lemma TakeOneMore<T>(s: seq<T>, j: int)
    requires 0 <= j < |s|
    ensures s[..j + 1] == s[..j] + [s[j]]
  {
  }

  lemma SumAllSnoc(s: seq<DailyStat>, d: DailyStat)
    ensures SumAll(s + [d]) == SumAll(s) + d.countAll
  {
    assert (s + [d])[..|s|] == s;
  }

  /** Adding up the first `m` days counts every product created from the first
      day's start to the end of day `m`, each exactly once. */
  lemma {:induction false} SeriesSum(rows: seq<Product>, caller: TokenData, n: nat, today: int, m: nat)
    requires m <= n
    ensures var first := today - (n - 1) * DayMs;
      SumAll(DailySeries(rows, caller, n, today)[..m]) == CountIn(rows, first, first + m * DayMs)
  {
    var s := DailySeries(rows, caller, n, today);
    var first := today - (n - 1) * DayMs;
    if m == 0 {
      CountEmptyWindow(rows, first);
      assert s[..0] == [];
    } else {
      var start := first + (m - 1) * DayMs;
      var end := first + m * DayMs;
      assert start + DayMs == end;
      SeriesSum(rows, caller, n, today, m - 1);
      assert SumAll(s[..m - 1]) == CountIn(rows, first, start);
      TakeOneMore(s, m - 1);
      SeriesAt(rows, caller, n, today, m - 1);
      assert s[m - 1] == DayEntry(rows, caller, start);
      SumAllSnoc(s[..m - 1], s[m - 1]);
      CountSplit(rows, first, start, end);
    }
  }

  /** The whole series counts each product created from the first day's start
      up to the end of today once. */
  lemma SeriesCountsEachProductOnce(rows: seq<Product>, caller: TokenData, n: nat, today: int)
    ensures SumAll(DailySeries(rows, caller, n, today)) ==
      CountIn(rows, today - (n - 1) * DayMs, today + DayMs)
  {
    SeriesSum(rows, caller, n, today, n);
    var s := DailySeries(rows, caller, n, today);
    assert s[..n] == s;
    assert today - (n - 1) * DayMs + n * DayMs == today + DayMs;
  }
}
