/**
 * The ten-bar purchase timeline drawn in each client row: empty bars,
 * then the client's earlier purchase dates, then the last purchase, cut to
 * the ten most recent bars.
 */
module TableTimeline {
  import opened JsBuiltins
  import opened Records

  /** One bar of the timeline. */
  datatype Slot = Slot(date: Option<string>, isEmpty: bool, isLast: bool)

  const TotalBars := 10

  /** The bars before the last-purchase bar. */
  const HistoryBars := TotalBars - 1

  const EmptySlot := Slot(None, true, false)

  function HistorySlot(date: string): Slot { Slot(Some(date), false, false) }

  function LastSlot(date: string): Slot { Slot(Some(date), false, true) }

  /** `history.filter(d => d !== lastDate)`. */
  function WithoutDate(history: seq<string>, lastDate: string): (kept: seq<string>)
    ensures lastDate !in kept
    ensures forall d :: d != lastDate ==> multiset(kept)[d] == multiset(history)[d]
    ensures |kept| <= |history|
  {
    if history == [] then []
    else
      assert history == [history[0]] + history[1..];
      (if history[0] == lastDate then [] else [history[0]]) + WithoutDate(history[1..], lastDate)
  }

  /** The filter keeps order: filtering a concatenation concatenates the filtered parts. */
  lemma {:induction false} WithoutDateDistributes(front: seq<string>, back: seq<string>, lastDate: string)
    ensures WithoutDate(front + back, lastDate) == WithoutDate(front, lastDate) + WithoutDate(back, lastDate)
  {
    if front == [] {
      assert front + back == back;
    } else {
      assert (front + back)[0] == front[0];
      assert (front + back)[1..] == front[1..] + back;
      WithoutDateDistributes(front[1..], back, lastDate);
    }
  }

  /**
   * `Math.max(0, 9 - historyDates.length)`: the padding that, with a short
   * history, makes up the nine bars before the last one; none for a long one.
   */
  function EmptyCount(historyCount: nat): (empties: nat)
    ensures historyCount <= HistoryBars ==> empties + historyCount == HistoryBars
    ensures historyCount >= HistoryBars ==> empties == 0
  {
    Max(0, HistoryBars - historyCount)
  }

  /**
   * The bars laid out before the cut: `EmptyCount(|dates|)` empty bars, a
   * history bar per date, and the last-purchase bar.
   */
  ghost predicate LaidOut(slots: seq<Slot>, dates: seq<string>, lastDate: string) {
    var empties := EmptyCount(|dates|);
    && |slots| == empties + |dates| + 1
    && (forall k :: 0 <= k < empties ==> slots[k] == EmptySlot)
    && (forall k :: 0 <= k < |dates| ==> slots[empties + k] == HistorySlot(dates[k]))
    && slots[|slots| - 1] == LastSlot(lastDate)
  }

  /**
   * The shape of a finished timeline for the history `dates`: ten bars; the
   * tenth is the only last-purchase bar and carries `lastDate`; empty bars
   * come before all others; the first nine bars are `EmptyCount(|dates|)`
   * empty bars followed by the most recent dates, in their original order.
   */
  ghost predicate TenBars(timeline: seq<Slot>, dates: seq<string>, lastDate: string) {
    && |timeline| == TotalBars
    && timeline[TotalBars - 1] == LastSlot(lastDate)
    && (forall i :: 0 <= i < HistoryBars ==> !timeline[i].isLast)
    && (forall i, j :: 0 <= i < j < TotalBars && timeline[j].isEmpty ==> timeline[i].isEmpty)
    && (forall i :: 0 <= i < EmptyCount(|dates|) ==> timeline[i] == EmptySlot)
    && (forall i :: EmptyCount(|dates|) <= i < HistoryBars ==> timeline[i] == HistorySlot(dates[|dates| - HistoryBars + i]))
  }

  /** Keeping the last ten bars of a laid-out timeline gives the ten-bar shape. */
  lemma LastTenBars(slots: seq<Slot>, dates: seq<string>, lastDate: string)
    requires LaidOut(slots, dates, lastDate)
    ensures TenBars(Slice(slots, -TotalBars, |slots|), dates, lastDate)
  {
    var timeline := Slice(slots, -TotalBars, |slots|);
    var empties := EmptyCount(|dates|);
    var cut := |slots| - TotalBars;
    assert |timeline| == TotalBars;
    forall i | 0 <= i < HistoryBars
      ensures i < empties ==> timeline[i] == EmptySlot
      ensures empties <= i ==> timeline[i] == HistorySlot(dates[|dates| - HistoryBars + i])
    {
      assert timeline[i] == slots[cut + i];
      if empties <= i {
        assert slots[empties + (|dates| - HistoryBars + i)] == HistorySlot(dates[|dates| - HistoryBars + i]);
      }
    }
  }

  /** A date that is not in the history is carried by none of the first nine bars. */
  lemma AbsentDateNotShown(timeline: seq<Slot>, dates: seq<string>, lastDate: string, date: string)
    requires TenBars(timeline, dates, lastDate) && date !in dates
    ensures forall i :: 0 <= i < HistoryBars ==> timeline[i].date != Some(date)
  {
    forall i | EmptyCount(|dates|) <= i < HistoryBars
      ensures timeline[i].date != Some(date)
    {
      assert dates[|dates| - HistoryBars + i] in dates;
    }
  }

  /**
   * The timeline of one client row (`timelineData`). `lastDate` is the
   * client's last purchase date as the row displays it; the history is the
   * client's purchase history, or none, without the entries equal to
   * `lastDate`, so no bar but the last carries `lastDate`.
   */
  method Timeline(client: ClientRecord, lastDate: string) returns (timeline: seq<Slot>)
    ensures TenBars(timeline, WithoutDate(client.purchaseHistory.GetOr([]), lastDate), lastDate)
    ensures forall i :: 0 <= i < HistoryBars ==> timeline[i].date != Some(lastDate)
  {
    var historyDates := WithoutDate(client.purchaseHistory.GetOr([]), lastDate);
    var slots := LayOutBars(historyDates, lastDate);
    timeline := Slice(slots, -TotalBars, |slots|);
    LastTenBars(slots, historyDates, lastDate);
    AbsentDateNotShown(timeline, historyDates, lastDate, lastDate);
  }

  /**
   * The row compares the history with the last purchase date as displayed
   * (formatted for pt-BR), while the history holds dates as received, in
   * the same form as `lastPurchaseDate`. Whenever the two forms differ, the
   * last purchase stays in the history and is drawn twice: as the ninth bar
   * and as the last bar.
   */
  lemma LastPurchaseDrawnTwice(client: ClientRecord, shown: string, timeline: seq<Slot>)
    requires client.purchaseHistory == Some([client.lastPurchaseDate]) && shown != client.lastPurchaseDate
    requires TenBars(timeline, WithoutDate(client.purchaseHistory.GetOr([]), shown), shown)
    ensures timeline[HistoryBars - 1] == HistorySlot(client.lastPurchaseDate)
    ensures timeline[TotalBars - 1] == LastSlot(shown)
  {
    assert WithoutDate([client.lastPurchaseDate], shown) == [client.lastPurchaseDate];
  }

  /**
   * The timeline with the history filtered against the last purchase date
   * as received and the last bar showing it as displayed: no earlier bar
   * repeats the last purchase, whatever the display form.
   */
  method TimelineWithoutRepeat(client: ClientRecord, shown: string) returns (timeline: seq<Slot>)
    ensures TenBars(timeline, WithoutDate(client.purchaseHistory.GetOr([]), client.lastPurchaseDate), shown)
    ensures forall i :: 0 <= i < HistoryBars ==> timeline[i].date != Some(client.lastPurchaseDate)
  {
    var historyDates := WithoutDate(client.purchaseHistory.GetOr([]), client.lastPurchaseDate);
    var slots := LayOutBars(historyDates, shown);
    timeline := Slice(slots, -TotalBars, |slots|);
    LastTenBars(slots, historyDates, shown);
    AbsentDateNotShown(timeline, historyDates, shown, client.lastPurchaseDate);
  }

  /** The padding, history and last-purchase pushes that fill `slots` before the cut. */
  method LayOutBars(historyDates: seq<string>, lastDate: string) returns (slots: seq<Slot>)
    ensures LaidOut(slots, historyDates, lastDate)
  {
    var emptyCount := EmptyCount(|historyDates|);
    slots := [];
    var i := 0;
    while i < emptyCount
      invariant 0 <= i <= emptyCount
      invariant |slots| == i
      invariant forall k :: 0 <= k < i ==> slots[k] == EmptySlot
    {
      slots := slots + [EmptySlot];
      i := i + 1;
    }
    var n := 0;
    while n < |historyDates|
      invariant 0 <= n <= |historyDates|
      invariant |slots| == emptyCount + n
      invariant forall k :: 0 <= k < emptyCount ==> slots[k] == EmptySlot
      invariant forall k :: 0 <= k < n ==> slots[emptyCount + k] == HistorySlot(historyDates[k])
    {
      slots := slots + [HistorySlot(historyDates[n])];
      n := n + 1;
    }
    slots := slots + [LastSlot(lastDate)];
  }
}
