/** The selection history: a list persisted in synced storage that every
    selection appends to, dropping its oldest entry once it holds more than
    ten. Storage is not modelled: the stored list comes in as a parameter and
    the list to write back goes out as the result. */
module History {
  import opened Records

  /** The number of selections the history keeps. */
  const MaxHistory: nat := 10

  /** The entry recorded for a selected restaurant at a given time. */
  function NewEntry(restaurant: WheelOption, timestamp: string): (e: HistoryEntry)
    ensures e.name == restaurant.name && e.googleMapsLink == restaurant.googleMapsLink
    ensures e.timestamp == timestamp
  {
    HistoryEntry(restaurant.name, timestamp, restaurant.googleMapsLink)
  }

  /** The history after recording `entry`: appended at the end, and the
      oldest entry evicted once, if the list then exceeds the cap. */
  function Recorded(history: seq<HistoryEntry>, entry: HistoryEntry): (r: seq<HistoryEntry>)
    ensures |r| > 0 && r[|r| - 1] == entry
    ensures |history| < MaxHistory ==> r == history + [entry]
    ensures |history| >= MaxHistory ==> r == history[1..] + [entry]
    ensures |history| <= MaxHistory ==> |r| <= MaxHistory
    ensures |history| > MaxHistory ==> |r| == |history|
  {
    var pushed := history + [entry];
    if |pushed| > MaxHistory then pushed[1..] else pushed
  }

  /** Records the selected restaurant in the stored history and returns the
      list to save. A missing stored history counts as an empty one. */
  method AddToHistory(stored: Option<seq<HistoryEntry>>, restaurant: WheelOption, timestamp: string)
    returns (saved: seq<HistoryEntry>)
    ensures stored.None? ==> saved == [NewEntry(restaurant, timestamp)]
    ensures stored.Some? ==> saved == Recorded(stored.value, NewEntry(restaurant, timestamp))
    ensures saved[|saved| - 1].name == restaurant.name
    ensures saved[|saved| - 1].googleMapsLink == restaurant.googleMapsLink
  {
    var history := if stored.Some? then stored.value else [];
    history := history + [HistoryEntry(restaurant.name, timestamp, restaurant.googleMapsLink)];
    if |history| > MaxHistory {
      history := history[1..];
    }
    saved := history;
  }

  /** The history after recording `entries` one after another. */
  function RecordAll(history: seq<HistoryEntry>, entries: seq<HistoryEntry>): seq<HistoryEntry>
    decreases |entries|
  {
    if entries == [] then history
    else RecordAll(Recorded(history, entries[0]), entries[1..])
  }

  /** The last `n` elements of `s`, or all of `s` when it is shorter. */
  function Newest<T>(s: seq<T>, n: nat): (r: seq<T>)
    ensures |r| == if |s| <= n then |s| else n
    ensures r == s[|s| - |r|..]
  {
    if |s| <= n then s else s[|s| - n..]
  }

  /** Cutting a list to its newest `n` elements before extending it does not
      change the newest `n` elements of the extended list. */
  lemma NewestOfNewest<T>(s: seq<T>, t: seq<T>, n: nat)
    ensures Newest(Newest(s, n) + t, n) == Newest(s + t, n)
  {
    var r := Newest(s, n);
    var a, b := Newest(r + t, n), Newest(s + t, n);
    assert |a| == |b|;
    forall k | 0 <= k < |a| ensures a[k] == b[k] {
      if |r + t| - |a| + k < |r| {
        assert a[k] == r[|r + t| - |a| + k];
      }
    }
  }

  /** Within the cap, one recording keeps exactly the newest entries. */
  lemma RecordedIsNewest(history: seq<HistoryEntry>, entry: HistoryEntry)
    requires |history| <= MaxHistory
    ensures Recorded(history, entry) == Newest(history + [entry], MaxHistory)
  {
  }

  /** Starting from a history within the cap, any run of recordings leaves
      exactly the newest ten entries of everything recorded, in insertion
      order: the history never exceeds the cap and evicts oldest first. */
  lemma {:induction false} RecordAllKeepsNewest(history: seq<HistoryEntry>, entries: seq<HistoryEntry>)
    requires |history| <= MaxHistory
    ensures RecordAll(history, entries) == Newest(history + entries, MaxHistory)
    ensures |RecordAll(history, entries)| <= MaxHistory
    decreases |entries|
  {
    if entries == [] {
      assert history + entries == history;
    } else {
      var first, rest := entries[0], entries[1..];
      var next := Recorded(history, first);
      RecordedIsNewest(history, first);
      RecordAllKeepsNewest(next, rest);
      NewestOfNewest(history + [first], rest, MaxHistory);
      calc {
        RecordAll(history, entries);
        RecordAll(next, rest);
        Newest(next + rest, MaxHistory);
        Newest(Newest(history + [first], MaxHistory) + rest, MaxHistory);
        Newest(history + [first] + rest, MaxHistory);
        { assert history + [first] + rest == history + entries; }
        Newest(history + entries, MaxHistory);
      }
    }
  }

  /** Each recording reads the stored history and writes it back later, and
      nothing orders two recordings that overlap. One after the other, two
      selections are both kept; when both recordings read the same history,
      the later write carries only its own entry and the first is lost. */
  lemma OverlappingRecordingsLoseEntry(history: seq<HistoryEntry>, first: HistoryEntry, second: HistoryEntry)
    requires |history| < MaxHistory - 1
    requires first !in history
    ensures Recorded(Recorded(history, first), second) == history + [first, second]
    ensures first !in Recorded(history, second) || first == second
  {
    var h1 := Recorded(history, first);
    assert h1 == history + [first];
    assert h1 + [second] == history + [first, second];
    var lost := Recorded(history, second);
    assert forall x :: x in lost ==> x in history || x == second;
  }
}
