/** The settings dialog (`SettingsModal.tsx`): the weight field's
    acceptance rule, the statistics it derives from stored workouts (total
    sessions, today's record, the seven most recent days) and the
    two-step reset confirmation. */
module SettingsModal {
  import opened Base
  import opened JsObject
  import opened WorkoutData

  const MaxDisplayedDays: nat := 7
  const MaxWeightKg: real := 500.0

  // ---------------------------------------------------------------------
  // Weight

  /** `handleWeightUpdate`: the typed text is passed on when `parseFloat`
      gives a number strictly between 0 and 500. */
  function AcceptedWeight(text: string): (r: Option<real>)
    ensures r.Some? <==> ParseFloat(text).Finite? && 0.0 < ParseFloat(text).value < MaxWeightKg
    ensures r.Some? ==> r.value == ParseFloat(text).value
  {
    match ParseFloat(text)
    case Finite(w) => if 0.0 < w < MaxWeightKg then Some(w) else None
    case _ => None
  }

  /** The weight stored after the field loses focus. */
  function Blur(w: Workout, text: string): (r: Workout)
    ensures AcceptedWeight(text).None? ==> r == w
    ensures AcceptedWeight(text).Some? ==> r == UpdateUserWeight(w, AcceptedWeight(text).value)
  {
    match AcceptedWeight(text)
    case Some(kg) => UpdateUserWeight(w, kg)
    case None => w
  }

  /** A whole number of kilograms typed in is stored exactly when it is
      below 500 and not zero. */
  lemma WholeWeightsRoundTrip(n: nat)
    ensures 0 < n < 500 ==> AcceptedWeight(NatToString(n)) == Some(n as real)
    ensures n == 0 || n >= 500 ==> AcceptedWeight(NatToString(n)) == None
  {
    ParseFloatWhole(NatToString(n));
    NatToStringRoundTrip(n);
  }

  // ---------------------------------------------------------------------
  // Statistics

  /** `getTotalSessions`: the sessions of every stored day added up. */
  function TotalSessions(days: Obj<DailyRecord>): int {
    if days == [] then 0 else days[0].val.sessions + TotalSessions(days[1..])
  }

  /** Assigning a day replaces its old session count in the total. */
  lemma {:induction false} TotalSessionsAfterSet(days: Obj<DailyRecord>, k: string, v: DailyRecord)
    ensures TotalSessions(Set(days, k, v)) == TotalSessions(days) - Get(days, k).GetOr(EmptyDay).sessions + v.sessions
  {
    if days != [] && days[0].key != k {
      TotalSessionsAfterSet(days[1..], k, v);
      assert Set(days, k, v)[1..] == Set(days[1..], k, v);
    } else if days != [] {
      assert Set(days, k, v)[1..] == days[1..];
    }
  }

  /** Every banked session raises the total shown by exactly one. */
  lemma BankingCountsOneSession(days: Obj<DailyRecord>, today: string, d: real, duration: real)
    ensures TotalSessions(BankDay(days, today, d, duration)) == TotalSessions(days) + 1
  {
    TotalSessionsAfterSet(days, today, BankedDay(Get(days, today), d, duration));
  }

  /** `getTodaysData` is the hook's `getTodaysWorkout`: the stored record,
      or zeros. */
  function TodaysData(st: Storage, today: string): (r: DailyRecord)
    ensures r == TodaysWorkout(st, today)
    ensures Get(st.dailyRecords, today).None? ==> r == EmptyDay
  {
    Get(st.dailyRecords, today).GetOr(EmptyDay)
  }

  // ---------------------------------------------------------------------
  // Recent records: `Object.keys(...).sort().reverse().slice(0, 7)`

  predicate Ascending(s: seq<string>) {
    forall i, j :: 0 <= i < j < |s| ==> StringLessEq(s[i], s[j])
  }

  predicate Descending(s: seq<string>) {
    forall i, j :: 0 <= i < j < |s| ==> StringLessEq(s[j], s[i])
  }

  function Insert(x: string, s: seq<string>): (r: seq<string>)
    ensures |r| == |s| + 1
    ensures multiset(r) == multiset(s) + multiset{x}
  {
    if s == [] then [x]
    else if StringLessEq(x, s[0]) then [x] + s
    else
      assert s == [s[0]] + s[1..];
      [s[0]] + Insert(x, s[1..])
  }

  lemma {:induction false} InsertAscending(x: string, s: seq<string>)
    requires Ascending(s)
    ensures Ascending(Insert(x, s))
  {
    if s != [] {
      if StringLessEq(x, s[0]) {
        forall j | 0 <= j < |s|
          ensures StringLessEq(x, s[j])
        {
          if j > 0 {
            StringLessEqTransitive(x, s[0], s[j]);
          }
        }
        assert Ascending([x] + s);
      } else {
        StringLessEqTotal(x, s[0]);
        InsertAscending(x, s[1..]);
        var tail := Insert(x, s[1..]);
        forall j | 0 <= j < |tail|
          ensures StringLessEq(s[0], tail[j])
        {
          assert tail[j] in multiset(tail);
          if tail[j] != x {
            assert tail[j] in multiset(s[1..]);
            var k :| 0 <= k < |s[1..]| && s[1..][k] == tail[j];
            assert s[k + 1] == tail[j];
          }
        }
        assert Ascending([s[0]] + tail);
      }
    }
  }

  /** `Array.prototype.sort()` with no comparator orders strings by code
      units. */
  function Sort(s: seq<string>): (r: seq<string>)
    ensures |r| == |s|
    ensures multiset(r) == multiset(s)
  {
    if s == [] then [] else
      assert s == [s[0]] + s[1..];
      Insert(s[0], Sort(s[1..]))
  }

  lemma {:induction false} SortAscending(s: seq<string>)
    ensures Ascending(Sort(s))
  {
    if s != [] {
      SortAscending(s[1..]);
      InsertAscending(s[0], Sort(s[1..]));
    }
  }

  function Reverse<T>(s: seq<T>): (r: seq<T>)
    ensures |r| == |s| && forall i :: 0 <= i < |s| ==> r[i] == s[|s| - 1 - i]
  {
    if s == [] then [] else Reverse(s[1..]) + [s[0]]
  }

  /** The dates shown, newest first. */
  function RecentDates(days: Obj<DailyRecord>): (r: seq<string>)
    ensures |r| == if |days| < MaxDisplayedDays then |days| else MaxDisplayedDays
  {
    var sorted := NewestFirst(days);
    sorted[..if |sorted| < MaxDisplayedDays then |sorted| else MaxDisplayedDays]
  }

  datatype DayRow = DayRow(date: string, record: DailyRecord)

  /** `getRecentRecords`: each shown date with its own stored record. */
  function RecentRecords(days: Obj<DailyRecord>): (r: seq<DayRow>)
    ensures |r| == |RecentDates(days)|
    ensures forall i :: 0 <= i < |r| ==> r[i].date == RecentDates(days)[i]
    ensures forall i :: 0 <= i < |r| ==> r[i].date in Keys(days) ==> Get(days, r[i].date) == Some(r[i].record)
  {
    var dates := RecentDates(days);
    seq(|dates|, i requires 0 <= i < |dates| => DayRow(dates[i], Get(days, dates[i]).GetOr(EmptyDay)))
  }

  /** The stored dates, newest first. */
  function NewestFirst(days: Obj<DailyRecord>): seq<string> {
    Reverse(Sort(Keys(days)))
  }

  lemma NewestFirstOrdered(days: Obj<DailyRecord>)
    ensures |NewestFirst(days)| == |days|
    ensures Descending(NewestFirst(days))
    ensures multiset(NewestFirst(days)) == multiset(Keys(days))
  {
    SortAscending(Keys(days));
    ReverseOfAscending(Sort(Keys(days)));
    ReverseKeepsMultiset(Sort(Keys(days)));
  }

  lemma ReverseOfAscending(s: seq<string>)
    requires Ascending(s)
    ensures Descending(Reverse(s))
  {
    var d := Reverse(s);
    forall i, j | 0 <= i < j < |d|
      ensures StringLessEq(d[j], d[i])
    {
      assert d[j] == s[|s| - 1 - j] && d[i] == s[|s| - 1 - i];
    }
  }

  lemma {:induction false} ReverseKeepsMultiset<T>(s: seq<T>)
    ensures multiset(Reverse(s)) == multiset(s)
  {
    if s != [] {
      ReverseKeepsMultiset(s[1..]);
      assert s == [s[0]] + s[1..];
    }
  }

  /** Every shown date is stored, the shown dates are newest first, and
      with seven shown no stored date left out is newer than the last. */
  lemma RecentDatesAreNewest(days: Obj<DailyRecord>)
    ensures var dates := RecentDates(days);
            && (forall i :: 0 <= i < |dates| ==> dates[i] in Keys(days))
            && (forall i, j :: 0 <= i < j < |dates| ==> StringLessEq(dates[j], dates[i]))
            && (forall k :: k in Keys(days) && |dates| == MaxDisplayedDays ==>
                  k in dates || StringLessEq(k, dates[|dates| - 1]))
  {
    NewestFirstOrdered(days);
    var desc := NewestFirst(days);
    var dates := RecentDates(days);
    assert dates == desc[..|dates|];
    forall i | 0 <= i < |dates|
      ensures dates[i] in Keys(days)
    {
      assert desc[i] in multiset(desc);
    }
    forall k | k in Keys(days) && |dates| == MaxDisplayedDays
      ensures k in dates || StringLessEq(k, dates[|dates| - 1])
    {
      assert k in multiset(desc);
      var q :| 0 <= q < |desc| && desc[q] == k;
      if q < MaxDisplayedDays {
        assert dates[q] == k;
      }
    }
  }

  /** The rows are at most seven stored dates, newest first, each paired
      with its own record; with seven shown, no stored date left out is
      newer than the last row. */
  lemma RecentRecordsAreNewest(days: Obj<DailyRecord>)
    ensures |RecentRecords(days)| <= MaxDisplayedDays
    ensures |days| > 0 <==> |RecentRecords(days)| > 0
    ensures forall i, j :: 0 <= i < j < |RecentRecords(days)| ==>
              StringLessEq(RecentRecords(days)[j].date, RecentRecords(days)[i].date)
    ensures forall i :: 0 <= i < |RecentRecords(days)| ==>
              Get(days, RecentRecords(days)[i].date) == Some(RecentRecords(days)[i].record)
    ensures forall k :: k in Keys(days) && |RecentRecords(days)| == MaxDisplayedDays ==>
              (exists i :: 0 <= i < |RecentRecords(days)| && RecentRecords(days)[i].date == k)
              || StringLessEq(k, RecentRecords(days)[MaxDisplayedDays - 1].date)
  {
    RecentRowsOrdered(days);
    RecentRowsCoverNewest(days);
  }

  lemma RecentRowsOrdered(days: Obj<DailyRecord>)
    ensures var r := RecentRecords(days);
            && (forall i, j :: 0 <= i < j < |r| ==> StringLessEq(r[j].date, r[i].date))
            && (forall i :: 0 <= i < |r| ==> Get(days, r[i].date) == Some(r[i].record))
  {
    RecentDatesAreNewest(days);
    var r := RecentRecords(days);
    var dates := RecentDates(days);
    forall i, j | 0 <= i < j < |r|
      ensures StringLessEq(r[j].date, r[i].date)
    {
      assert r[j].date == dates[j] && r[i].date == dates[i];
    }
    forall i | 0 <= i < |r|
      ensures Get(days, r[i].date) == Some(r[i].record)
    {
      assert r[i].date == dates[i] && dates[i] in Keys(days);
    }
  }

  lemma RecentRowsCoverNewest(days: Obj<DailyRecord>)
    ensures var r := RecentRecords(days);
            forall k :: k in Keys(days) && |r| == MaxDisplayedDays ==>
              (exists i :: 0 <= i < |r| && r[i].date == k) || StringLessEq(k, r[MaxDisplayedDays - 1].date)
  {
    var r := RecentRecords(days);
    forall k | k in Keys(days) && |r| == MaxDisplayedDays
      ensures (exists i :: 0 <= i < |r| && r[i].date == k) || StringLessEq(k, r[MaxDisplayedDays - 1].date)
    {
      RecentRowCovers(days, k);
    }
  }

  lemma RecentRowCovers(days: Obj<DailyRecord>, k: string)
    requires k in Keys(days) && |RecentRecords(days)| == MaxDisplayedDays
    ensures var r := RecentRecords(days);
            (exists i :: 0 <= i < |r| && r[i].date == k) || StringLessEq(k, r[MaxDisplayedDays - 1].date)
  {
    RecentDatesAreNewest(days);
    var r := RecentRecords(days);
    var dates := RecentDates(days);
    if k in dates {
      var i :| 0 <= i < |dates| && dates[i] == k;
      assert r[i].date == k;
    } else {
      assert r[MaxDisplayedDays - 1].date == dates[|dates| - 1];
    }
  }

  // ---------------------------------------------------------------------
  // Reset confirmation

  datatype ResetEvent = AskReset | ConfirmReset | CancelReset

  /** Only the button on screen can be pressed: `AskReset` while the
      confirmation is hidden, the other two while it is shown. */
  function ResetStep(confirmShown: bool, e: ResetEvent): (r: (bool, bool))
    ensures r.1 <==> confirmShown && e == ConfirmReset
    ensures r.1 ==> !r.0
    ensures e == CancelReset ==> !r.0
  {
    match e
    case AskReset => (true, false)
    case ConfirmReset => if confirmShown then (false, true) else (confirmShown, false)
    case CancelReset => (false, false)
  }

  function CountAsks(es: seq<ResetEvent>): nat {
    if es == [] then 0 else CountAsks(es[..|es| - 1]) + (if es[|es| - 1] == AskReset then 1 else 0)
  }

  /** Run a sequence of presses from a hidden confirmation: whether it is
      shown at the end, and how many resets happened. */
  function ResetRun(es: seq<ResetEvent>): (bool, nat) {
    if es == [] then (false, 0)
    else
      var prev := ResetRun(es[..|es| - 1]);
      var step := ResetStep(prev.0, es[|es| - 1]);
      (step.0, prev.1 + if step.1 then 1 else 0)
  }

  /** Each reset needs its own `AskReset` before it: a stray confirm
      does nothing, and a cancelled confirmation must be asked again. */
  lemma {:induction false} ResetNeedsAsking(es: seq<ResetEvent>)
    ensures ResetRun(es).1 + (if ResetRun(es).0 then 1 else 0) <= CountAsks(es)
  {
    if es != [] {
      ResetNeedsAsking(es[..|es| - 1]);
    }
  }
}
