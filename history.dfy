/** The history log of overall scores and the chart series derived from it. */
module History {
  import opened Wrappers

  /** Milliseconds in a day; a day number d starts at instant d · MS_PER_DAY (UTC). */
  const MS_PER_DAY := 86400000

  /** One snapshot `{ date, progress }`; `date` is a day number. */
  datatype Entry = Entry(date: int, progress: int)

  /** `findIndex(entry => entry.date === d)`: the first index dated d, or -1. */
  function FindDate(h: seq<Entry>, d: int): (k: int)
    ensures -1 <= k < |h|
    ensures k == -1 <==> forall i :: 0 <= i < |h| ==> h[i].date != d
    ensures 0 <= k ==> h[k].date == d && forall i :: 0 <= i < k ==> h[i].date != d
  {
    if h == [] then -1
    else if h[0].date == d then 0
    else
      var k := FindDate(h[1..], d);
      if k == -1 then -1 else k + 1
  }

  /** The log after `saveProgressToLocalStorage` records `overall` for day `today`:
      the first entry dated today is overwritten, or else a new entry is pushed. */
  function Upsert(h: seq<Entry>, today: int, overall: int): (r: seq<Entry>)
    ensures (forall i :: 0 <= i < |h| ==> h[i].date != today) ==> r == h + [Entry(today, overall)]
    ensures forall k :: 0 <= k < |h| && h[k].date == today && (forall i :: 0 <= i < k ==> h[i].date != today) ==>
              |r| == |h| && r[k] == Entry(today, overall) && forall i :: 0 <= i < |h| && i != k ==> r[i] == h[i]
  {
    var k := FindDate(h, today);
    if k == -1 then h + [Entry(today, overall)] else h[k := h[k].(progress := overall)]
  }

  /** At most one entry per date. */
  ghost predicate UniqueDates(h: seq<Entry>) {
    forall i, j :: 0 <= i < j < |h| ==> h[i].date != h[j].date
  }

  /** The log holds an entry for day d. */
  ghost predicate Recorded(h: seq<Entry>, d: int) {
    exists k :: 0 <= k < |h| && h[k].date == d
  }

  /** Recording keeps the log free of duplicate dates, and today is recorded afterwards. */
  lemma UpsertKeepsDatesUnique(h: seq<Entry>, today: int, overall: int)
    requires UniqueDates(h)
    ensures UniqueDates(Upsert(h, today, overall))
    ensures Recorded(Upsert(h, today, overall), today)
  {
    var k := FindDate(h, today);
    var r := Upsert(h, today, overall);
    if k == -1 {
      assert r[|h|].date == today;
    } else {
      assert r[k].date == today;
      forall i, j | 0 <= i < j < |r| ensures r[i].date != r[j].date {
        assert r[i].date == h[i].date && r[j].date == h[j].date;
      }
    }
  }

  /** The progress of the LAST entry dated d: what `progressMap[d]` holds once the
      forEach of `prepareProgressData` has run, so a later entry wins. */
  function LatestProgress(h: seq<Entry>, d: int): (p: Option<int>)
    ensures p.Some? <==> Recorded(h, d)
  {
    if h == [] then None
    else if h[|h| - 1].date == d then Some(h[|h| - 1].progress)
    else
      var p := LatestProgress(h[..|h| - 1], d);
      assert Recorded(h[..|h| - 1], d) ==> Recorded(h, d);
      assert Recorded(h, d) ==> Recorded(h[..|h| - 1], d) by {
        if Recorded(h, d) {
          var k :| 0 <= k < |h| && h[k].date == d;
          assert h[..|h| - 1][k].date == d;
        }
      }
      p
  }

  /** For duplicate dates the last entry of the log is the one the chart shows. */
  lemma {:induction false} LastEntryWins(h: seq<Entry>, d: int, k: nat)
    requires k < |h| && h[k].date == d
    requires forall j :: k < j < |h| ==> h[j].date != d
    ensures LatestProgress(h, d) == Some(h[k].progress)
  {
    if k < |h| - 1 {
      LastEntryWins(h[..|h| - 1], d, k);
    }
  }

  /** With unique dates, the chart shows what was last recorded for today. */
  lemma UpsertIsShown(h: seq<Entry>, today: int, overall: int)
    requires UniqueDates(h)
    ensures LatestProgress(Upsert(h, today, overall), today) == Some(overall)
  {
    var r := Upsert(h, today, overall);
    var k := FindDate(h, today);
    if k == -1 {
      LastEntryWins(r, today, |h|);
    } else {
      LastEntryWins(r, today, k);
    }
  }

  /** Recording twice on the same day leaves one entry with the second value. */
  lemma UpsertTwice(h: seq<Entry>, today: int, v: int, w: int)
    ensures Upsert(Upsert(h, today, v), today, w) == Upsert(h, today, w)
  {
    var k := FindDate(h, today);
    if k == -1 {
      var once := Upsert(h, today, v);
      assert once == h + [Entry(today, v)];
      assert once[|h|].date == today;
      assert forall i :: 0 <= i < |h| ==> once[i].date != today;
      assert FindDate(once, today) == |h|;
    } else {
      assert FindDate(Upsert(h, today, v), today) == k;
    }
  }

  /** The overwrite goes to the FIRST entry dated today while the chart reads the
      LAST one, so in a log that already holds two entries for a day a new
      value for that day does not reach the chart. */
  lemma UpsertShadowedByLaterDuplicate()
    ensures Upsert([Entry(5, 10), Entry(5, 20)], 5, 70) == [Entry(5, 70), Entry(5, 20)]
    ensures LatestProgress(Upsert([Entry(5, 10), Entry(5, 20)], 5, 70), 5) == Some(20)
  {
  }

  /** The consecutive days start, start + 1, ..., end (empty when start > end). */
  function DateRange(start: int, end: int): seq<int> {
    if start <= end then seq(end - start + 1, i => start + i) else []
  }

  /** `generateDateLabels`: the while loop pushes the current day and advances it
      by one until it passes `end`. */
  method GenerateDateLabels(start: int, end: int) returns (labels: seq<int>)
    ensures |labels| == if start <= end then end - start + 1 else 0
    ensures forall i :: 0 <= i < |labels| ==> labels[i] == start + i
    ensures forall i, j :: 0 <= i < j < |labels| ==> labels[i] < labels[j]
    ensures labels == DateRange(start, end)
  {
    labels := [];
    var current := start;
    while current <= end
      invariant current == start || (start <= current <= end + 1)
      invariant |labels| == current - start
      invariant forall i :: 0 <= i < |labels| ==> labels[i] == start + i
      decreases end - current
    {
      labels := labels + [current];
      current := current + 1;
    }
  }

  /** The forEach of lines 590-592: a map from each logged date to its latest progress. */
  method BuildProgressMap(h: seq<Entry>) returns (progressMap: map<int, int>)
    ensures forall d :: d in progressMap <==> Recorded(h, d)
    ensures forall d :: d in progressMap ==> Some(progressMap[d]) == LatestProgress(h, d)
  {
    progressMap := map[];
    var i := 0;
    while i < |h|
      invariant 0 <= i <= |h|
      invariant forall d :: d in progressMap <==> LatestProgress(h[..i], d).Some?
      invariant forall d :: d in progressMap ==> Some(progressMap[d]) == LatestProgress(h[..i], d)
    {
      assert h[..i + 1][..i] == h[..i];
      progressMap := progressMap[h[i].date := h[i].progress];
      i := i + 1;
    }
    assert h[..i] == h;
  }

  /** A label for day d is in the future iff its UTC midnight is after `now`,
      that is, iff d comes after the day that contains `now`. */
  predicate IsFuture(d: int, now: int): (future: bool)
    ensures future <==> d > now / MS_PER_DAY
  {
    DayOfInstant(d, now);
    d * MS_PER_DAY > now
  }

  lemma DayOfInstant(d: int, now: int)
    ensures d * MS_PER_DAY > now <==> d > now / MS_PER_DAY
  {
    var q, r := now / MS_PER_DAY, now % MS_PER_DAY;
    assert now == q * MS_PER_DAY + r && 0 <= r < MS_PER_DAY;
    if d > q {
      assert d * MS_PER_DAY >= (q + 1) * MS_PER_DAY;
    } else {
      assert d * MS_PER_DAY <= q * MS_PER_DAY;
    }
  }

  /** The value of `lastProgress` once the first n labels have been visited: the
      progress of the latest of them that has an entry, 0 before any has. */
  function CarriedProgress(labels: seq<int>, h: seq<Entry>, n: nat): int
    requires n <= |labels|
  {
    if n == 0 then 0
    else match LatestProgress(h, labels[n - 1])
      case Some(p) => p
      case None => CarriedProgress(labels, h, n - 1)
  }

  /** The series `prepareProgressData` returns: `null` for a future label, the
      carried value otherwise. */
  function Series(labels: seq<int>, h: seq<Entry>, now: int): seq<Option<int>> {
    seq(|labels|, i requires 0 <= i < |labels| =>
      if IsFuture(labels[i], now) then None else Some(CarriedProgress(labels, h, i + 1)))
  }

  /** `prepareProgressData`: build the map, then walk the labels carrying the last
      known value forward and masking future days. */
  method PrepareProgressData(labels: seq<int>, h: seq<Entry>, now: int) returns (data: seq<Option<int>>)
    ensures |data| == |labels|
    ensures forall i :: 0 <= i < |labels| ==> (data[i] == None <==> IsFuture(labels[i], now))
    ensures data == Series(labels, h, now)
  {
    var progressMap := BuildProgressMap(h);
    data := [];
    var lastProgress := 0;
    var i := 0;
    while i < |labels|
      invariant 0 <= i <= |labels|
      invariant lastProgress == CarriedProgress(labels, h, i)
      invariant |data| == i
      invariant forall j :: 0 <= j < i ==> data[j] == Series(labels, h, now)[j]
    {
      var date := labels[i];
      if date in progressMap {
        lastProgress := progressMap[date];
      }
      if IsFuture(date, now) {
        data := data + [None];
      } else {
        data := data + [Some(lastProgress)];
      }
      i := i + 1;
    }
  }

  lemma {:induction false} CarriedFromLastRecordedLabel(labels: seq<int>, h: seq<Entry>, n: nat, k: nat)
    requires k < n <= |labels|
    requires Recorded(h, labels[k])
    requires forall j :: k < j < n ==> !Recorded(h, labels[j])
    ensures CarriedProgress(labels, h, n) == LatestProgress(h, labels[k]).value
  {
    if k < n - 1 {
      CarriedFromLastRecordedLabel(labels, h, n - 1, k);
    }
  }

  lemma {:induction false} CarriedZeroBeforeAnyRecord(labels: seq<int>, h: seq<Entry>, n: nat)
    requires n <= |labels|
    requires forall j :: 0 <= j < n ==> !Recorded(h, labels[j])
    ensures CarriedProgress(labels, h, n) == 0
  {
    if n > 0 {
      CarriedZeroBeforeAnyRecord(labels, h, n - 1);
    }
  }

  /** Fill-forward over the chart's days: a day that is not in the future shows
      the latest progress of the most recent recorded day d with start <= d <= it. */
  lemma FillForward(start: int, end: int, h: seq<Entry>, now: int, i: nat, d: int)
    requires start + i <= end && !IsFuture(start + i, now)
    requires start <= d <= start + i && Recorded(h, d)
    requires forall d' :: d < d' <= start + i ==> !Recorded(h, d')
    ensures Series(DateRange(start, end), h, now)[i] == Some(LatestProgress(h, d).value)
  {
    var labels := DateRange(start, end);
    assert labels[i] == start + i;
    assert labels[d - start] == d;
    forall j | d - start < j < i + 1 ensures !Recorded(h, labels[j]) {
      assert labels[j] == start + j;
    }
    CarriedFromLastRecordedLabel(labels, h, i + 1, d - start);
  }

  /** A day that is not in the future and has no recorded day from `start` up to
      it shows 0; entries dated before `start` are never carried in. */
  lemma FillForwardNothingRecorded(start: int, end: int, h: seq<Entry>, now: int, i: nat)
    requires start + i <= end && !IsFuture(start + i, now)
    requires forall d :: start <= d <= start + i ==> !Recorded(h, d)
    ensures Series(DateRange(start, end), h, now)[i] == Some(0)
  {
    var labels := DateRange(start, end);
    forall j | 0 <= j < i + 1 ensures !Recorded(h, labels[j]) {
      assert labels[j] == start + j;
    }
    CarriedZeroBeforeAnyRecord(labels, h, i + 1);
  }

  /** Entries on days 1 and 3 at 20 and 60, days 1..4, "now" on day 3: day 2
      carries day 1's value and day 4 is in the future. */
  lemma SeriesExample()
    ensures Series(DateRange(1, 4), [Entry(1, 20), Entry(3, 60)], 3 * MS_PER_DAY) == [Some(20), Some(20), Some(60), None]
  {
    var labels, h := DateRange(1, 4), [Entry(1, 20), Entry(3, 60)];
    assert labels == [1, 2, 3, 4];
    assert LatestProgress(h, 1) == Some(20);
    assert LatestProgress(h, 2) == None;
    assert LatestProgress(h, 3) == Some(60);
    assert CarriedProgress(labels, h, 2) == 20;
  }
}
