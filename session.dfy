/** The annotation session of the chart annotator: the state the script keeps
    across reruns (saved regions, the next new-trade id, the selected trade and
    the two candle markers) and the handlers that update it. */
module AnnotationSession {
  import opened SeqUtil
  import opened Regions

  /** The marker reset rule: a marker at or past `maxIdx` goes back to its
      default. */
  function ResetMarker(idx: int, maxIdx: int, default: int): (r: int)
    ensures idx < maxIdx ==> r == idx
    ensures idx >= maxIdx ==> r == default
  {
    if idx >= maxIdx then default else idx
  }

  /** The reset keeps ordered markers ordered exactly when the end marker is
      below `maxIdx`, or the start marker is below the end default 20 and 20
      is a candle. An end marker on the last candle is reset although it is
      in range, which puts it before a start marker at 20 or later. */
  lemma ResetKeepsOrderIff(startIdx: int, endIdx: int, maxIdx: int)
    requires 0 <= startIdx < endIdx <= maxIdx
    ensures ResetMarker(startIdx, maxIdx, 10) == startIdx
    ensures var s, e := ResetMarker(startIdx, maxIdx, 10), ResetMarker(endIdx, maxIdx, 20);
            (0 <= s < e <= maxIdx) <==> (endIdx < maxIdx || (startIdx < 20 && 20 <= maxIdx))
  {
  }

  class Session {
    /** The timestamps of the price series, by candle index. The script loads
        the series once and never changes it. */
    const series: seq<Timestamp>
    var regions: seq<Region>
    var tradeIdCounter: int
    /** Initialised, but no handler reads or writes it. */
    var selectedTradeId: Option<int>
    var startIdx: int
    var endIdx: int

    /** The index of the last candle. */
    function MaxIdx(): int
    {
      |series| - 1
    }

    /** Every saved region is as Save Region records it, and the counter is
        above every trade id in use, so a new trade never reuses one. */
    ghost predicate Valid()
      reads this
    {
      && 1 <= tradeIdCounter
      && forall r :: r in regions ==> WellFormed(r, series) && 1 <= r.tradeId < tradeIdCounter
    }

    /** The order the marker widgets keep: `0 <= start < end <= max_idx`. */
    predicate MarkersOrdered()
      reads this
    {
      0 <= startIdx < endIdx <= MaxIdx()
    }

    /** A fresh session: no regions, the counter at 1, no trade selected.
        The markers are not stored yet; reading them gives 10 and 20. */
    constructor (series: seq<Timestamp>)
      ensures Valid()
      ensures this.series == series
      ensures regions == [] && tradeIdCounter == 1 && selectedTradeId == None
      ensures startIdx == 10 && endIdx == 20
    {
      this.series := series;
      regions := [];
      tradeIdCounter := 1;
      selectedTradeId := None;
      startIdx := 10;
      endIdx := 20;
    }

    /** The two index inputs: the start input offers `[0, max_idx]`, the end
        input `[start + 1, max_idx]`; both values are stored. */
    method EnterMarkers(s: int, e: int)
      requires 0 <= s <= MaxIdx()
      requires s + 1 <= e <= MaxIdx()
      modifies this`startIdx, this`endIdx
      ensures startIdx == s && endIdx == e
      ensures MarkersOrdered()
    {
      startIdx := s;
      endIdx := e;
    }

    /** Send a marker at or past the last candle back to its default. */
    method ResetOutOfRange()
      modifies this`startIdx, this`endIdx
      ensures startIdx == ResetMarker(old(startIdx), MaxIdx(), 10)
      ensures endIdx == ResetMarker(old(endIdx), MaxIdx(), 20)
    {
      if startIdx >= MaxIdx() {
        startIdx := 10;
      }
      if endIdx >= MaxIdx() {
        endIdx := 20;
      }
    }

    /** The start marker's "−" button. */
    method DecStart()
      modifies this`startIdx
      ensures startIdx == Max(0, old(startIdx) - 1)
      ensures old(MarkersOrdered()) ==> MarkersOrdered()
      ensures old(MarkersOrdered()) ==> old(startIdx) - 1 <= startIdx <= old(startIdx)
    {
      startIdx := Max(0, startIdx - 1);
    }

    /** The start marker's slider, which offers `[0, end - 1]`. */
    method SlideStart(v: int)
      requires 0 <= v <= endIdx - 1
      modifies this`startIdx
      ensures startIdx == v
      ensures 0 <= startIdx < endIdx
      ensures old(MarkersOrdered()) ==> MarkersOrdered()
    {
      startIdx := v;
    }

    /** The start marker's "+" button. */
    method IncStart()
      modifies this`startIdx
      ensures startIdx == Min(endIdx - 1, old(startIdx) + 1)
      ensures old(MarkersOrdered()) ==> MarkersOrdered()
      ensures old(MarkersOrdered()) ==> old(startIdx) <= startIdx <= old(startIdx) + 1
    {
      startIdx := Min(endIdx - 1, startIdx + 1);
    }

    /** The end marker's "−" button. */
    method DecEnd()
      modifies this`endIdx
      ensures endIdx == Max(startIdx + 1, old(endIdx) - 1)
      ensures old(MarkersOrdered()) ==> MarkersOrdered()
      ensures old(MarkersOrdered()) ==> old(endIdx) - 1 <= endIdx <= old(endIdx)
    {
      endIdx := Max(startIdx + 1, endIdx - 1);
    }

    /** The end marker's slider, which offers `[start + 1, max_idx]`. */
    method SlideEnd(v: int)
      requires startIdx + 1 <= v <= MaxIdx()
      modifies this`endIdx
      ensures endIdx == v
      ensures startIdx < endIdx <= MaxIdx()
      ensures old(MarkersOrdered()) ==> MarkersOrdered()
    {
      endIdx := v;
    }

    /** The end marker's "+" button. */
    method IncEnd()
      modifies this`endIdx
      ensures endIdx == Min(MaxIdx(), old(endIdx) + 1)
      ensures old(MarkersOrdered()) ==> MarkersOrdered()
      ensures old(MarkersOrdered()) ==> old(endIdx) <= endIdx <= old(endIdx) + 1
    {
      endIdx := Min(MaxIdx(), endIdx + 1);
    }

    /** Save Region: append a region for the current markers. Its id is the
        list length plus one; a new trade takes the counter, which then moves
        on by one, and an existing trade keeps its id. Returns the trade id
        the region was saved to. */
    method Save(choice: TradeChoice, category: Category, keyPrice: Price, tags: string, notes: string)
      returns (tradeId: int)
      requires Valid()
      requires MarkersOrdered()
      requires choice in TradeOptions(regions)
      modifies this`regions, this`tradeIdCounter
      ensures Valid()
      ensures tradeId == ResolveTradeId(choice, old(tradeIdCounter))
      ensures choice.NewTrade? ==> !HasTrade(old(regions), tradeId)
      ensures regions == old(regions) + [Region(
                |old(regions)| + 1, tradeId, category, keyPrice, tags, notes,
                startIdx, endIdx, series[startIdx], series[endIdx], ColourOf(category))]
      ensures tradeIdCounter == old(tradeIdCounter) + (if choice.NewTrade? then 1 else 0)
      ensures old(Numbered(regions)) ==> Numbered(regions)
    {
      if choice.NewTrade? {
        tradeId := tradeIdCounter;
      } else {
        tradeId := choice.id;
        assert HasTrade(regions, tradeId);
      }
      var region := Region(
        |regions| + 1, tradeId, category, keyPrice, tags, notes,
        startIdx, endIdx, series[startIdx], series[endIdx], ColourOf(category));
      regions := regions + [region];
      if choice.NewTrade? {
        tradeIdCounter := tradeIdCounter + 1;
      }
    }

    /** The Delete button of a region row: drop every region with that id. */
    method Delete(id: int)
      requires Valid()
      modifies this`regions
      ensures Valid()
      ensures regions == WithoutRegion(old(regions), id)
    {
      regions := WithoutRegion(regions, id);
    }
  }
}
