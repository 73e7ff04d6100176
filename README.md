# Chart region annotator: session model

A Dafny model of the state that the chart annotator's Streamlit script `ca.py`
keeps across reruns in its session state. The user marks a span of candles
with a start and an end marker, then saves it as a region. Each region has a
category, a trade group, a key price, tags and notes. Saved regions can be
shown all together or for one trade, and deleted by region id.

- `SeqUtil` (`seq_util.dfy`) holds `Max` and `Min` and two list helpers. `Filter` is the
  order-preserving list comprehension with an `if`. `SortedDistinct` gives
  the same list as `sorted(set(...))` on integers.
- `Regions` (`regions.dfy`) holds the region record and the pure
  computations over it:
  - the colour dictionary;
  - the "Trade Group" option list;
  - the "View Trade" filter;
  - the list that remains after a delete;
  - the region size shown in the sidebar.
- `AnnotationSession` (`session.dfy`) holds the class `Session`. Its fields
  are the session entries:
  - `regions` and `trade_id_counter`;
  - `selected_trade_id`, which is never used;
  - the markers `start_idx` and `end_idx`.

  The price series is a constant of the session. It is only the sequence of
  candle timestamps, so `max_idx` is its length minus one. Each button,
  slider and input that changes these entries is a method with `modifies`.

The model records two behaviours of the code as facts. It does not change
them:

- A region id is the list length plus one, not a counter. After a delete, a
  save can repeat an id that is still in the list, and the next delete of
  that id removes both regions (`Regions.DeleteThenSaveRepeatsId`). The row
  widgets of the region table are keyed by region id, so two rows with the
  same id also give two widgets the same key.
- The reset rule sends an end marker to 20 when it is `>= max_idx`. That
  includes an end marker on the last candle, which is in range. If the start
  marker is 20 or later, the reset leaves it after the end marker
  (`AnnotationSession.ResetKeepsOrderIff`).

`ca.py` is simpler than a full annotation tool:

- `ca.py` has no trade entity with a name or a visibility flag. A trade is
  only an integer id carried by its regions.
- Region ids are assigned over the whole list, not per trade.
- Delete works by region id, not by list position, and removes every region
  with that id.
- Nothing is validated beyond what the widgets' bounds give.

## Model

| member | source | states |
|---|---|---|
| `SeqUtil.Filter` | ca.py:200 | The result holds exactly the elements that pass the test. It is never longer than the input, and it equals the input when every element passes. |
| `SeqUtil.FilterKeepsCount` | ca.py:200 | An element that passes the test occurs in the result as often as in the input. |
| `SeqUtil.FilterConcat` | ca.py:150 | Filtering a concatenation is the concatenation of the filtered parts. So the survivors keep their relative order. |
| `SeqUtil.InsertSorted` | ca.py:103 | Inserting into a strictly increasing list keeps it strictly increasing. Its elements become the old ones plus the new value. |
| `SeqUtil.SortedDistinct` | ca.py:103 | `sorted(set(xs))`: a strictly increasing list whose elements are exactly the values of `xs`. |
| `SeqUtil.SortedUnique` | ca.py:103 | Two strictly increasing lists with the same elements are equal. So the sorted distinct list is the only such list. |
| `Regions.ColourOf` | ca.py:132 | The colour lookup never fails. Every category has a key in the colour dictionary, and the colour is that entry. |
| `Regions.ColourDeterminesCategory` | ca.py:132 | Bullish Run-Up is green, Bearish Run-Down is red and Entry Region is blue. Two categories share a colour only if they are the same category. |
| `Regions.TradeOptions` | ca.py:103 | "New Trade" comes first. Then come trade ids in strictly increasing order. An id is offered if and only if some saved region carries it. |
| `Regions.ResolveTradeId` | ca.py:106-109 | "New Trade" resolves to the counter; an existing choice resolves to its own id. |
| `Regions.NewTradeIdIsFresh` | ca.py:106-109 | When the counter is above every trade id in use, "New Trade" resolves to an id that is not among the options. No chosen option resolves above the counter. |
| `Regions.ViewFilter` | ca.py:147-150 | "All" shows the region list unchanged. One trade shows exactly the regions with that trade id, and never more regions than are saved. |
| `Regions.ViewFilterKeepsOrder` | ca.py:150 | The view keeps the saved order: the view of a concatenation is the concatenation of the views. |
| `Regions.OfferedTradeIsShown` | ca.py:144-150 | Choosing a trade id that some region carries shows at least one region. |
| `Regions.WithoutRegion` | ca.py:200 | Delete keeps exactly the regions whose id differs from the given one. The result is never longer. When no region has that id, the list is unchanged. |
| `Regions.DeleteKeepsCount` | ca.py:200 | Every region whose id differs from the deleted one occurs after the delete as often as before. |
| `Regions.WithoutRegionKeepsOrder` | ca.py:200 | Delete keeps the survivors in their original relative order. |
| `Regions.DeleteNumbered` | ca.py:200 | While ids are still positions plus one, deleting id `k` removes exactly the `k`-th region. |
| `Regions.DeleteRemovesBoth` | ca.py:200 | Deleting an id that two trailing regions share removes both. The earlier regions stay. |
| `Regions.DeleteThenSaveRepeatsId` | ca.py:120 | After deleting any region but the last, the next save's id (length plus one) equals the id of the last region, which is still there. Deleting that id then drops two regions. |
| `Regions.RegionSize` | ca.py:93 | A region whose start is before its end spans at least 2 candles. |
| `Regions.RegionSizeCountsCandles` | ca.py:50 | The shown size is the number of candles from the start marker to the end marker, both included. |
| `AnnotationSession.ResetMarker` | ca.py:60-63 | A marker below `max_idx` is kept. A marker at or past it becomes its default. |
| `AnnotationSession.ResetKeepsOrderIff` | ca.py:62-63 | For ordered markers, the reset never moves the start marker. The markers stay ordered if and only if the end marker is below `max_idx`, or the start marker is below 20 and 20 is a candle. |
| `AnnotationSession.Session.constructor` | ca.py:18-25 | The initial session has no regions, a counter of 1 and no selected trade. The markers read as their defaults, 10 and 20. |
| `AnnotationSession.Session.EnterMarkers` | ca.py:41-46 | The index inputs store a start in `[0, max_idx]` and an end in `[start + 1, max_idx]`. The markers are then ordered. |
| `AnnotationSession.Session.ResetOutOfRange` | ca.py:60-63 | Each marker is replaced by the reset rule with its own default, 10 for start and 20 for end. |
| `AnnotationSession.Session.DecStart` | ca.py:67-68 | Start becomes `max(0, start - 1)`. Ordered markers stay ordered, start moves by at most 1, and only start changes. |
| `AnnotationSession.Session.SlideStart` | ca.py:70-73 | Start takes the slider value in `[0, end - 1]`. So `0 <= start < end`, and ordered markers stay ordered. |
| `AnnotationSession.Session.IncStart` | ca.py:75-76 | Start becomes `min(end - 1, start + 1)`. Ordered markers stay ordered, start moves by at most 1, and only start changes. |
| `AnnotationSession.Session.DecEnd` | ca.py:80-81 | End becomes `max(start + 1, end - 1)`. Ordered markers stay ordered, end moves by at most 1, and only end changes. |
| `AnnotationSession.Session.SlideEnd` | ca.py:83-86 | End takes the slider value in `[start + 1, max_idx]`. So `start < end <= max_idx`. |
| `AnnotationSession.Session.IncEnd` | ca.py:88-89 | End becomes `min(max_idx, end + 1)`. Ordered markers stay ordered, end moves by at most 1, and only end changes. |
| `AnnotationSession.Session.Save` | ca.py:118-137 | Exactly one region is appended at the end and earlier regions are unchanged. Its id is the old length plus one. Its indices are the markers, its times are the timestamps at those indices, and its colour comes from its category. "New Trade" takes the counter, an id unused so far, and raises the counter by exactly 1. An existing choice keeps its id and leaves the counter alone. The session invariant holds afterwards. |
| `AnnotationSession.Session.Delete` | ca.py:199-201 | The region list becomes the list without every region of that id. The counter is untouched and the session invariant holds afterwards. |

## Left out

- Streamlit widgets, layout, messages and `st.experimental_rerun` are left out: they are user interface. Each widget read is a parameter that lies within the widget's bounds. Streamlit raises an error when a widget's default value is outside its bounds, for example after a reset has put the start marker past the end marker; that error is not modelled.
- Loading the CSV and caching it are left out because they are input. The series is given as its sequence of timestamps.
- The OHLC prices, the Plotly figure, its rectangles and lines are left out: they are rendering.
- The key price is a float. It is an opaque type `Price` that the model only stores.
- The constant `symbol` and `interval` fields and the empty `events` list of a saved region are not carried. `tags` and `notes` are carried as text.
- Trade ids are modelled as integers. Save always stores the counter or a chosen integer, so the `is not None` test when the options are built never removes anything.
- The "View Trade" options are sorted as decimal strings. The order of that list is not modelled. A choice is modelled as a trade id, because equality of decimal strings is equality of the integers.
- `AnnotationSession.Session.Save` requires ordered markers. Only the marker controls that run before the button establish this; no single member runs them as one sequence.
- Trade visibility, region update, clearing the selection on delete and empty-name checks are not modelled: `ca.py` has none of them.
