/** The annotation records of the chart annotator and the pure computations
    the script makes over them: the colour of a category, the "Trade Group"
    options, the "View Trade" filter, deletion by region id and the size of a
    marked region. */
module Regions {
  import opened SeqUtil

  /** The `time` column of the price series, carried as text. */
  type Timestamp = string

  /** The key price a user types in; a float the model only stores. */
  type Price(==, !new)

  datatype Option<T> = None | Some(value: T)

  datatype Category = BullishRunUp | BearishRunDown | EntryRegion

  /** The text of each category as the "Category" select box offers it. */
  function Label(c: Category): string
  {
    match c
    case BullishRunUp => "Bullish Run-Up"
    case BearishRunDown => "Bearish Run-Down"
    case EntryRegion => "Entry Region"
  }

  /** The colour dictionary that Save Region indexes with the category. */
  const ColourTable: map<string, string> :=
    map["Bullish Run-Up" := "green", "Bearish Run-Down" := "red", "Entry Region" := "blue"]

  /** The colour a saved region gets. The dictionary lookup cannot fail: every
      category the select box offers is a key of the table. */
  function ColourOf(c: Category): (colour: string)
    ensures Label(c) in ColourTable && colour == ColourTable[Label(c)]
  {
    ColourTable[Label(c)]
  }

  /** Each category has its own colour, so the colour of a region tells its
      category: green, red and blue for run-up, run-down and entry. */
  lemma ColourDeterminesCategory(c: Category, d: Category)
    ensures ColourOf(BullishRunUp) == "green"
    ensures ColourOf(BearishRunDown) == "red"
    ensures ColourOf(EntryRegion) == "blue"
    ensures ColourOf(c) == ColourOf(d) <==> c == d
  {
  }

  /** One saved annotation. `tags` and `notes` are free text; the constant
      symbol and interval and the empty event list of the record are not
      carried. */
  datatype Region = Region(
    regionId: int,
    tradeId: int,
    category: Category,
    keyPrice: Price,
    tags: string,
    notes: string,
    startIdx: int,
    endIdx: int,
    startTime: Timestamp,
    endTime: Timestamp,
    colour: string)

  /** What Save Region stores for the current markers: the times are the
      series' timestamps at the two markers, the colour comes from the
      category. */
  ghost predicate WellFormed(r: Region, series: seq<Timestamp>)
  {
    && 1 <= r.regionId
    && 0 <= r.startIdx < r.endIdx < |series|
    && r.startTime == series[r.startIdx]
    && r.endTime == series[r.endIdx]
    && r.colour == ColourOf(r.category)
  }

  /** The "Trade Group" choice: start a new trade or join an existing one. */
  datatype TradeChoice = NewTrade | Existing(id: int)

  /** The trade id a save uses: the counter for a new trade, else the chosen id. */
  function ResolveTradeId(choice: TradeChoice, counter: int): (id: int)
    ensures choice.NewTrade? ==> id == counter
    ensures choice.Existing? ==> id == choice.id
  {
    match choice
    case NewTrade => counter
    case Existing(id) => id
  }

  predicate HasTrade(regions: seq<Region>, id: int)
  {
    exists r :: r in regions && r.tradeId == id
  }

  /** The "Trade Group" options: "New Trade" first, then every trade id that
      occurs in the regions, once each, in increasing order. */
  function TradeOptions(regions: seq<Region>): (opts: seq<TradeChoice>)
    ensures |opts| >= 1 && opts[0] == NewTrade
    ensures forall i :: 1 <= i < |opts| ==> opts[i].Existing?
    ensures forall i, j :: 1 <= i < j < |opts| ==> opts[i].id < opts[j].id
    ensures forall id :: Existing(id) in opts <==> HasTrade(regions, id)
  {
    var used := seq(|regions|, i requires 0 <= i < |regions| => regions[i].tradeId);
    var ids := SortedDistinct(used);
    var existing := seq(|ids|, i requires 0 <= i < |ids| => Existing(ids[i]));
    assert forall id :: Existing(id) in existing <==> id in ids by {
      forall id ensures Existing(id) in existing <==> id in ids {
        if id in ids {
          var k :| 0 <= k < |ids| && ids[k] == id;
          assert existing[k] == Existing(id);
        }
      }
    }
    assert forall id :: id in used <==> HasTrade(regions, id) by {
      forall id ensures id in used <==> HasTrade(regions, id) {
        if HasTrade(regions, id) {
          var r :| r in regions && r.tradeId == id;
          var k :| 0 <= k < |regions| && regions[k] == r;
          assert used[k] == id;
        }
      }
    }
    [NewTrade] + existing
  }

  /** The trade id a save picks is one the regions already use, or the
      counter; when every used id is below the counter, a new trade's id is
      used by no region yet. */
  lemma {:induction false} NewTradeIdIsFresh(regions: seq<Region>, counter: int)
    requires forall r :: r in regions ==> r.tradeId < counter
    ensures Existing(counter) !in TradeOptions(regions)
    ensures forall c :: c in TradeOptions(regions) ==>
              ResolveTradeId(c, counter) <= counter
  {
  }

  /** The "View Trade" choice: every region, or the regions of one trade. */
  datatype ViewChoice = AllTrades | OneTrade(id: int)

  /** The regions drawn on the chart. */
  function ViewFilter(regions: seq<Region>, view: ViewChoice): (shown: seq<Region>)
    ensures view.AllTrades? ==> shown == regions
    ensures view.OneTrade? ==>
              forall r :: r in shown <==> r in regions && r.tradeId == view.id
    ensures |shown| <= |regions|
  {
    match view
    case AllTrades => regions
    case OneTrade(id) => Filter(regions, (r: Region) => r.tradeId == id)
  }

  /** The view keeps the order in which regions were saved: the shown regions
      of an earlier part of the list come before those of a later part. */
  lemma {:induction false} ViewFilterKeepsOrder(a: seq<Region>, b: seq<Region>, view: ViewChoice)
    ensures ViewFilter(a + b, view) == ViewFilter(a, view) + ViewFilter(b, view)
  {
    if view.OneTrade? {
      FilterConcat(a, b, (r: Region) => r.tradeId == view.id);
    }
  }

  /** The "View Trade" box offers the trade ids the regions use; choosing one
      never shows an empty chart. */
  lemma {:induction false} OfferedTradeIsShown(regions: seq<Region>, id: int)
    requires HasTrade(regions, id)
    ensures |ViewFilter(regions, OneTrade(id))| > 0
  {
    var r :| r in regions && r.tradeId == id;
    assert r in ViewFilter(regions, OneTrade(id));
  }

  /** What the Delete button leaves: every region whose id differs from `id`,
      and no other. */
  function WithoutRegion(regions: seq<Region>, id: int): (kept: seq<Region>)
    ensures forall r :: r in kept <==> r in regions && r.regionId != id
    ensures |kept| <= |regions|
    ensures (forall r :: r in regions ==> r.regionId != id) ==> kept == regions
  {
    Filter(regions, (r: Region) => r.regionId != id)
  }

  /** Delete keeps every other region as often as it occurred. */
  lemma {:induction false} DeleteKeepsCount(regions: seq<Region>, id: int, r: Region)
    requires r.regionId != id
    ensures multiset(WithoutRegion(regions, id))[r] == multiset(regions)[r]
  {
    FilterKeepsCount(regions, (x: Region) => x.regionId != id, r);
  }

  /** Delete keeps the survivors in their old order. */
  lemma {:induction false} WithoutRegionKeepsOrder(a: seq<Region>, b: seq<Region>, id: int)
    ensures WithoutRegion(a + b, id) == WithoutRegion(a, id) + WithoutRegion(b, id)
  {
    FilterConcat(a, b, (r: Region) => r.regionId != id);
  }

  /** Region ids as they are before any delete: position plus one. */
  predicate Numbered(regions: seq<Region>)
  {
    forall i :: 0 <= i < |regions| ==> regions[i].regionId == i + 1
  }

  /** Before any delete, deleting id `k` removes exactly the `k`-th region. */
  lemma {:induction false} DeleteNumbered(regions: seq<Region>, k: int)
    requires Numbered(regions)
    requires 1 <= k <= |regions|
    ensures WithoutRegion(regions, k) == regions[..k - 1] + regions[k..]
  {
    var keep := (r: Region) => r.regionId != k;
    assert regions == regions[..k - 1] + [regions[k - 1]] + regions[k..];
    forall r | r in regions[..k - 1] ensures keep(r) {
      var i :| 0 <= i < k - 1 && regions[..k - 1][i] == r;
      assert regions[i] == r;
    }
    forall r | r in regions[k..] ensures keep(r) {
      var i :| 0 <= i < |regions| - k && regions[k..][i] == r;
      assert regions[k + i] == r;
    }
    FilterRemovesOne(regions[..k - 1], regions[k - 1], regions[k..], keep);
  }

  /** Before any delete, deleting an id below the last keeps the last region
      as the last one, after regions with smaller ids. */
  lemma {:induction false} DeleteKeepsLast(regions: seq<Region>, k: int)
    requires Numbered(regions)
    requires 1 <= k < |regions|
    ensures |WithoutRegion(regions, k)| == |regions| - 1
    ensures WithoutRegion(regions, k)[|regions| - 2] == regions[|regions| - 1]
    ensures forall i :: 0 <= i < |regions| - 2 ==> WithoutRegion(regions, k)[i].regionId < |regions|
  {
    DeleteNumbered(regions, k);
  }

  /** Deleting the id that the last region of `kept` shares with a region
      saved after it removes both; the regions before them stay. */
  lemma {:induction false} DeleteRemovesBoth(kept: seq<Region>, saved: Region, id: int)
    requires |kept| >= 1
    requires forall i :: 0 <= i < |kept| - 1 ==> kept[i].regionId != id
    requires kept[|kept| - 1].regionId == id && saved.regionId == id
    ensures WithoutRegion(kept + [saved], id) == kept[..|kept| - 1]
  {
    var early, last := kept[..|kept| - 1], kept[|kept| - 1];
    assert kept + [saved] == early + [last] + [saved];
    assert WithoutRegion(early, id) == early by {
      forall r | r in early ensures r.regionId != id {
        var i :| 0 <= i < |early| && early[i] == r;
      }
    }
    assert WithoutRegion([last], id) == [] by {
      assert last !in WithoutRegion([last], id);
    }
    assert WithoutRegion([saved], id) == [] by {
      assert saved !in WithoutRegion([saved], id);
    }
    WithoutRegionKeepsOrder(early, [last], id);
    WithoutRegionKeepsOrder(early + [last], [saved], id);
  }

  /** Region ids are `len(regions) + 1`, not a counter. After deleting any
      region but the last, the next save gets the id of the last region,
      which is still there, and deleting that id then removes both. */
  lemma {:induction false} DeleteThenSaveRepeatsId(regions: seq<Region>, k: int, saved: Region)
    requires Numbered(regions)
    requires 1 <= k < |regions|
    requires saved.regionId == |WithoutRegion(regions, k)| + 1
    ensures var kept := WithoutRegion(regions, k);
            && |kept| == |regions| - 1
            && kept[|kept| - 1] == regions[|regions| - 1]
            && saved.regionId == kept[|kept| - 1].regionId
            && |WithoutRegion(kept + [saved], saved.regionId)| == |kept| - 1
  {
    DeleteKeepsLast(regions, k);
    DeleteRemovesBoth(WithoutRegion(regions, k), saved, |regions|);
  }

  /** The "Region Size" the sidebar shows. */
  function RegionSize(startIdx: int, endIdx: int): (size: int)
    ensures startIdx < endIdx ==> size >= 2
  {
    endIdx - startIdx + 1
  }

  /** The size is the number of candles from the start marker to the end
      marker, both included. */
  lemma RegionSizeCountsCandles(series: seq<Timestamp>, startIdx: int, endIdx: int)
    requires 0 <= startIdx <= endIdx < |series|
    ensures RegionSize(startIdx, endIdx) == |series[startIdx..endIdx + 1]|
  {
  }
}
