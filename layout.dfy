/**
 * The timetable rows of the preview and the PDF (app.js, renderPreview and
 * generatePdf) and the per-day notes (app.js, notesForDay).
 */
module Layout {
  import opened Time
  import opened Catalog
  import opened Seqs

  /** DAYS_ORDER: the weekdays in table order. */
  const DaysOrder: seq<string> := ["Pazartesi", "Salı", "Çarşamba", "Perşembe", "Cuma", "Cumartesi/Pazar"]

  /** The sort key of a row: start minutes, with null (and NaN, see README) as 99999. */
  function StartKey(s: Resolved): int
  {
    match TimeToMin(s.session.start)
    case Null => 99999
    case Value(n) => if n.Finite? then n.v else 99999
  }

  /** Inserts x after every element whose key is not greater than its own. */
  function Insert(sorted: seq<Resolved>, x: Resolved): seq<Resolved>
  {
    if sorted == [] then [x]
    else
      var last := sorted[|sorted| - 1];
      if StartKey(last) <= StartKey(x) then sorted + [x]
      else Insert(sorted[..|sorted| - 1], x) + [last]
  }

  /** dayItems.sort(byStart): Array.prototype.sort is stable, modelled as a stable insertion sort. */
  function SortByStart(xs: seq<Resolved>): seq<Resolved>
  {
    if xs == [] then [] else Insert(SortByStart(xs[..|xs| - 1]), xs[|xs| - 1])
  }

  predicate SortedByStart(xs: seq<Resolved>)
  {
    forall a, b :: 0 <= a < b < |xs| ==> StartKey(xs[a]) <= StartKey(xs[b])
  }

  /** The elements of xs with key k, in order. */
  function WithKey(xs: seq<Resolved>, k: int): seq<Resolved>
  {
    if xs == [] then []
    else
      var last := xs[|xs| - 1];
      WithKey(xs[..|xs| - 1], k) + (if StartKey(last) == k then [last] else [])
  }

  /** Insertion adds x and keeps everything else. */
  lemma {:induction false} InsertPerm(sorted: seq<Resolved>, x: Resolved)
    ensures multiset(Insert(sorted, x)) == multiset(sorted) + multiset{x}
  {
    if sorted != [] {
      var front := sorted[..|sorted| - 1];
      assert sorted == front + [sorted[|sorted| - 1]];
      InsertPerm(front, x);
    }
  }

  /** Insertion into a sorted list keeps it sorted. */
  lemma {:induction false} InsertSorted(sorted: seq<Resolved>, x: Resolved)
    requires SortedByStart(sorted)
    ensures SortedByStart(Insert(sorted, x))
  {
    if sorted != [] {
      var front := sorted[..|sorted| - 1];
      var last := sorted[|sorted| - 1];
      if StartKey(last) > StartKey(x) {
        InsertSorted(front, x);
        InsertPerm(front, x);
        var ins := Insert(front, x);
        forall y | y in ins ensures StartKey(y) <= StartKey(last) {
          assert y in multiset(ins);
          if y != x {
            assert y in multiset(front);
            var a :| 0 <= a < |front| && front[a] == y;
            assert sorted[a] == y;
          }
        }
        SortedSnoc(ins, last);
      }
    }
  }

  /** A sorted list followed by an element no smaller than any of its own is sorted. */
  lemma SortedSnoc(xs: seq<Resolved>, last: Resolved)
    requires SortedByStart(xs)
    requires forall y :: y in xs ==> StartKey(y) <= StartKey(last)
    ensures SortedByStart(xs + [last])
  {
    var r := xs + [last];
    forall a, b | 0 <= a < b < |r| ensures StartKey(r[a]) <= StartKey(r[b]) {
      if b == |r| - 1 {
        assert r[a] in xs;
      } else {
        assert r[a] == xs[a] && r[b] == xs[b];
      }
    }
  }

  lemma {:induction false} WithKeyAppend(xs: seq<Resolved>, ys: seq<Resolved>, k: int)
    ensures WithKey(xs + ys, k) == WithKey(xs, k) + WithKey(ys, k)
    decreases |ys|
  {
    if ys == [] {
      assert xs + ys == xs;
    } else {
      var front := ys[..|ys| - 1];
      var last := ys[|ys| - 1];
      assert (xs + ys)[..|xs + ys| - 1] == xs + front;
      assert (xs + ys)[|xs + ys| - 1] == last;
      WithKeyAppend(xs, front, k);
    }
  }

  /** WithKey of a list extended by one element. */
  lemma WithKeySnoc(xs: seq<Resolved>, y: Resolved, k: int)
    ensures WithKey(xs + [y], k) == WithKey(xs, k) + (if StartKey(y) == k then [y] else [])
  {
    assert (xs + [y])[..|xs|] == xs;
  }

  /** Insertion puts x after every element with the same key: equal keys keep their order. */
  lemma {:induction false} InsertStable(sorted: seq<Resolved>, x: Resolved, k: int)
    ensures WithKey(Insert(sorted, x), k) == WithKey(sorted, k) + (if StartKey(x) == k then [x] else [])
  {
    if sorted == [] {
      WithKeySnoc([], x, k);
    } else {
      var front := sorted[..|sorted| - 1];
      var last := sorted[|sorted| - 1];
      assert sorted == front + [last];
      WithKeySnoc(front, last, k);
      if StartKey(last) <= StartKey(x) {
        WithKeySnoc(sorted, x, k);
      } else {
        InsertStable(front, x, k);
        WithKeySnoc(Insert(front, x), last, k);
      }
    }
  }

  /**
   * The day sort orders by start key, is a permutation, and is stable: for
   * every key, the elements with that key keep their input order.
   */
  lemma {:induction false} SortByStartSpec(xs: seq<Resolved>)
    ensures SortedByStart(SortByStart(xs))
    ensures multiset(SortByStart(xs)) == multiset(xs)
    ensures forall k :: WithKey(SortByStart(xs), k) == WithKey(xs, k)
  {
    if xs != [] {
      var front := xs[..|xs| - 1];
      var last := xs[|xs| - 1];
      assert xs == front + [last];
      SortByStartSpec(front);
      InsertSorted(SortByStart(front), last);
      InsertPerm(SortByStart(front), last);
      forall k ensures WithKey(SortByStart(xs), k) == WithKey(xs, k) {
        InsertStable(SortByStart(front), last, k);
      }
    }
  }

  /** A table row: a session under its day, or the PDF's single "nothing selected" row. */
  datatype Row = Placeholder | SessionRow(day: string, item: Resolved)

  function RowsOf(day: string, items: seq<Resolved>): seq<Row>
  {
    seq(|items|, i requires 0 <= i < |items| => SessionRow(day, items[i]))
  }

  /** The rows of one day: its sessions in start order. */
  function DayRows(ss: seq<Resolved>, day: string): seq<Row>
  {
    RowsOf(day, SortByStart(OnDay(ss, day)))
  }

  function DayRowsFn(ss: seq<Resolved>): string -> seq<Row>
  {
    (d: string) => DayRows(ss, d)
  }

  /** The rows of the preview and the PDF table: the days in DAYS_ORDER, each in start order. */
  function TableRows(ss: seq<Resolved>): seq<Row>
  {
    FlatMap(DaysOrder, DayRowsFn(ss))
  }

  /** The PDF table: one placeholder row when there is nothing else (app.js line 261). */
  function PdfRows(ss: seq<Resolved>): seq<Row>
  {
    var rows := TableRows(ss);
    if rows == [] then [Placeholder] else rows
  }

  /** The preview: a message when there are no rows, the table otherwise. */
  datatype Preview = NothingSelected | Table(rows: seq<Row>)

  function PreviewOf(ss: seq<Resolved>): Preview
  {
    var rows := TableRows(ss);
    if rows == [] then NothingSelected else Table(rows)
  }

  /** The position of d in DAYS_ORDER (|DaysOrder| when absent). */
  function DayRank(d: string): nat
  {
    RankIn(DaysOrder, d)
  }

  function RankIn(ds: seq<string>, d: string): nat
  {
    if ds == [] || ds[0] == d then 0 else 1 + RankIn(ds[1..], d)
  }

  lemma {:induction false} RankOfDistinct(ds: seq<string>, i: nat)
    requires Distinct(ds) && i < |ds|
    ensures RankIn(ds, ds[i]) == i
  {
    if i > 0 {
      assert ds[0] != ds[i];
      assert ds[1..][i - 1] == ds[i];
      RankOfDistinct(ds[1..], i - 1);
    }
  }

  lemma DaysOrderDistinct()
    ensures Distinct(DaysOrder)
  {
    assert DaysOrder[0][0] == 'P' && DaysOrder[1][0] == 'S' && DaysOrder[2][0] == 'Ç';
    assert DaysOrder[3][0] == 'P' && DaysOrder[4][0] == 'C' && DaysOrder[5][0] == 'C';
    assert DaysOrder[0][1] == 'a' && DaysOrder[3][1] == 'e';
    assert |DaysOrder[4]| == 4 && |DaysOrder[5]| == 15;
  }

  /** The rows come in table order: a row's day ranks no earlier than its predecessors'; within a day, by start. */
  predicate TableOrder(rows: seq<Row>)
  {
    (forall r :: r in rows ==> r.SessionRow? && r.day in DaysOrder && r.item.session.day == r.day) &&
    (forall a, b :: 0 <= a < b < |rows| ==>
       DayRank(rows[a].day) <= DayRank(rows[b].day) &&
       (rows[a].day == rows[b].day ==> StartKey(rows[a].item) <= StartKey(rows[b].item)))
  }

  lemma DayRowsShape(ss: seq<Resolved>, d: string)
    ensures forall r :: r in DayRows(ss, d) ==> r.SessionRow? && r.day == d && r.item.session.day == d
    ensures forall a, b :: 0 <= a < b < |DayRows(ss, d)| ==>
      StartKey(DayRows(ss, d)[a].item) <= StartKey(DayRows(ss, d)[b].item)
  {
    SortByStartSpec(OnDay(ss, d));
    OnDaySpec(ss, d);
    forall r | r in DayRows(ss, d) ensures r.item.session.day == d {
      var sorted := SortByStart(OnDay(ss, d));
      var a :| 0 <= a < |sorted| && r == SessionRow(d, sorted[a]);
      assert sorted[a] in multiset(sorted);
    }
  }

  lemma {:induction false} TableOrderPrefix(ss: seq<Resolved>, n: nat)
    requires n <= |DaysOrder|
    ensures TableOrder(FlatMap(DaysOrder[..n], DayRowsFn(ss)))
    ensures forall r :: r in FlatMap(DaysOrder[..n], DayRowsFn(ss)) ==> DayRank(r.day) < n
  {
    if n > 0 {
      var front := FlatMap(DaysOrder[..n - 1], DayRowsFn(ss));
      var d := DaysOrder[n - 1];
      var block := DayRows(ss, d);
      TableOrderPrefix(ss, n - 1);
      FlatMapStep(DaysOrder, n - 1, DayRowsFn(ss));
      DayRowsShape(ss, d);
      DaysOrderDistinct();
      RankOfDistinct(DaysOrder, n - 1);
      var all := front + block;
      assert all == FlatMap(DaysOrder[..n], DayRowsFn(ss));
      forall a, b | 0 <= a < b < |all|
        ensures DayRank(all[a].day) <= DayRank(all[b].day)
        ensures all[a].day == all[b].day ==> StartKey(all[a].item) <= StartKey(all[b].item)
      {
        if b < |front| {
          assert all[a] == front[a] && all[b] == front[b];
        } else if a < |front| {
          assert all[a] in front && all[b] == block[b - |front|] && all[b] in block;
        } else {
          assert all[a] == block[a - |front|] && all[b] == block[b - |front|];
        }
      }
    }
  }

  /**
   * Rows come grouped in DAYS_ORDER order whatever the input order; each row
   * is under its own session's day; within a day they ascend by start key.
   */
  lemma TableRowsOrdered(ss: seq<Resolved>)
    ensures TableOrder(TableRows(ss))
  {
    TableOrderPrefix(ss, |DaysOrder|);
    assert DaysOrder[..|DaysOrder|] == DaysOrder;
  }

  /** Within a day, a session with a null start comes after every session that starts before minute 99999. */
  lemma NullStartsLast(ss: seq<Resolved>)
    ensures var rows := TableRows(ss);
      forall a, b ::
        (0 <= a < |rows| && 0 <= b < |rows| && rows[a].SessionRow? && rows[b].SessionRow? &&
         rows[a].day == rows[b].day && TimeToMin(rows[a].item.session.start) == Null &&
         rows[b].item.session.start.HM? && Mins(rows[b].item.session.start) < 99999) ==> b < a
  {
    TableRowsOrdered(ss);
  }

  /** The sessions a list of rows shows, in row order. */
  function ItemsOf(rows: seq<Row>): seq<Resolved>
  {
    if rows == [] then []
    else
      var last := rows[|rows| - 1];
      ItemsOf(rows[..|rows| - 1]) + (if last.SessionRow? then [last.item] else [])
  }

  lemma {:induction false} ItemsOfAppend(xs: seq<Row>, ys: seq<Row>)
    ensures ItemsOf(xs + ys) == ItemsOf(xs) + ItemsOf(ys)
    decreases |ys|
  {
    if ys == [] {
      assert xs + ys == xs;
    } else {
      var front := ys[..|ys| - 1];
      assert (xs + ys)[..|xs + ys| - 1] == xs + front;
      assert (xs + ys)[|xs + ys| - 1] == ys[|ys| - 1];
      ItemsOfAppend(xs, front);
    }
  }

  lemma {:induction false} ItemsOfRows(day: string, items: seq<Resolved>)
    ensures ItemsOf(RowsOf(day, items)) == items
  {
    if items != [] {
      var front := items[..|items| - 1];
      assert RowsOf(day, items)[..|items| - 1] == RowsOf(day, front);
      ItemsOfRows(day, front);
      assert items == front + [items[|items| - 1]];
    }
  }

  /** A day's rows show exactly that day's sessions, each as often as it is selected. */
  lemma DayRowsItems(ss: seq<Resolved>, d: string)
    ensures forall x :: multiset(ItemsOf(DayRows(ss, d)))[x] == if x.session.day == d then multiset(ss)[x] else 0
  {
    ItemsOfRows(d, SortByStart(OnDay(ss, d)));
    SortByStartSpec(OnDay(ss, d));
    OnDaySpec(ss, d);
  }

  lemma DaysOrderStep(n: nat)
    requires 0 < n <= |DaysOrder|
    ensures DaysOrder[..n] == DaysOrder[..n - 1] + [DaysOrder[n - 1]]
    ensures DaysOrder[n - 1] !in DaysOrder[..n - 1]
  {
    DaysOrderDistinct();
  }

  /** Counting over the days ds and then over one more day d counts over ds + [d]. */
  lemma CountsOneMoreDay(ss: seq<Resolved>, front: seq<Resolved>, more: seq<Resolved>, ds: seq<string>, d: string)
    requires forall x :: multiset(front)[x] == if x.session.day in ds then multiset(ss)[x] else 0
    requires forall x :: multiset(more)[x] == if x.session.day == d then multiset(ss)[x] else 0
    requires d !in ds
    ensures forall x :: multiset(front + more)[x] == if x.session.day in ds + [d] then multiset(ss)[x] else 0
  {
    forall x ensures multiset(front + more)[x] == if x.session.day in ds + [d] then multiset(ss)[x] else 0 {
      assert multiset(front + more)[x] == multiset(front)[x] + multiset(more)[x];
      assert x.session.day in ds + [d] <==> x.session.day in ds || x.session.day == d;
    }
  }

  lemma {:induction false} TableItemsPrefix(ss: seq<Resolved>, n: nat)
    requires n <= |DaysOrder|
    ensures forall x :: (multiset(ItemsOf(FlatMap(DaysOrder[..n], DayRowsFn(ss))))[x] ==
      if x.session.day in DaysOrder[..n] then multiset(ss)[x] else 0)
  {
    if n > 0 {
      var ds := DaysOrder[..n - 1];
      var d := DaysOrder[n - 1];
      var front := FlatMap(ds, DayRowsFn(ss));
      TableItemsPrefix(ss, n - 1);
      FlatMapStep(DaysOrder, n - 1, DayRowsFn(ss));
      ItemsOfAppend(front, DayRows(ss, d));
      DayRowsItems(ss, d);
      DaysOrderStep(n);
      CountsOneMoreDay(ss, ItemsOf(front), ItemsOf(DayRows(ss, d)), ds, d);
    }
  }

  /**
   * The table shows every session whose day is in DAYS_ORDER, as often as it
   * is selected, and no other: sessions on any other day are omitted.
   */
  lemma TableRowsPermutation(ss: seq<Resolved>)
    ensures forall x :: (multiset(ItemsOf(TableRows(ss)))[x] ==
      if x.session.day in DaysOrder then multiset(ss)[x] else 0)
  {
    TableItemsPrefix(ss, |DaysOrder|);
    assert DaysOrder[..|DaysOrder|] == DaysOrder;
  }

  /** Some selected session is on a day of DAYS_ORDER. */
  predicate AnyOnKnownDay(ss: seq<Resolved>)
  {
    exists s :: s in ss && s.session.day in DaysOrder
  }

  /**
   * The PDF table is exactly one placeholder row when no selected session is on
   * a day of DAYS_ORDER; otherwise it is the session rows, with no placeholder.
   * The preview shows its message in exactly the same case.
   */
  lemma PdfPlaceholder(ss: seq<Resolved>)
    ensures PdfRows(ss) == [Placeholder] <==> !AnyOnKnownDay(ss)
    ensures AnyOnKnownDay(ss) ==> PdfRows(ss) == TableRows(ss) && Placeholder !in PdfRows(ss)
    ensures PreviewOf(ss) == NothingSelected <==> !AnyOnKnownDay(ss)
  {
    TableRowsPermutation(ss);
    TableRowsOrdered(ss);
    var rows := TableRows(ss);
    if s :| s in ss && s.session.day in DaysOrder {
      assert multiset(ss)[s] > 0;
      assert multiset(ItemsOf(rows))[s] > 0;
    }
  }

  /** The row loops of renderPreview and generatePdf: each day of DAYS_ORDER, its sessions sorted by start. */
  method BuildRows(ss: seq<Resolved>) returns (rows: seq<Row>)
    ensures rows == TableRows(ss)
  {
    rows := [];
    for t := 0 to |DaysOrder|
      invariant rows == FlatMap(DaysOrder[..t], DayRowsFn(ss))
    {
      var day := DaysOrder[t];
      FlatMapStep(DaysOrder, t, DayRowsFn(ss));
      var dayItems := SortByStart(OnDay(ss, day));
      ghost var before := rows;
      for i := 0 to |dayItems|
        invariant rows == before + RowsOf(day, dayItems[..i])
      {
        assert RowsOf(day, dayItems[..i + 1]) == RowsOf(day, dayItems[..i]) + [SessionRow(day, dayItems[i])];
        rows := rows + [SessionRow(day, dayItems[i])];
      }
      assert dayItems[..|dayItems|] == dayItems;
    }
    assert DaysOrder[..|DaysOrder|] == DaysOrder;
  }

  /** The PDF table's rows: `if (!rows.length) rows.push(placeholder)`. */
  method BuildPdfRows(ss: seq<Resolved>) returns (rows: seq<Row>)
    ensures rows == PdfRows(ss)
  {
    rows := BuildRows(ss);
    if |rows| == 0 {
      rows := rows + [Placeholder];
    }
  }

  /** renderPreview: the message when there are no rows, the table otherwise. */
  method RenderPreview(ss: seq<Resolved>) returns (p: Preview)
    ensures p == PreviewOf(ss)
  {
    var rows := BuildRows(ss);
    if |rows| == 0 {
      return NothingSelected;
    }
    p := Table(rows);
  }

  /** The note printed for a day in the PDF. */
  datatype Note =
    | Free      // no timed session: a free day
    | Heavy     // 6 hours or more in total
    | Light     // a single session
    | Moderate  // anything else

  /** end minus start, with null as 0 and NaN propagating (`(timeToMin(end) ?? 0) - (timeToMin(start) ?? 0)`). */
  function Duration(s: Resolved): Num
  {
    JsSub(NullToZero(TimeToMin(s.session.end)), NullToZero(TimeToMin(s.session.start)))
  }

  /** items.reduce((acc, s) => acc + duration, 0): a left fold. */
  function TotalMinutes(items: seq<Resolved>): Num
  {
    if items == [] then Finite(0)
    else JsAdd(TotalMinutes(items[..|items| - 1]), Duration(items[|items| - 1]))
  }

  /** notesForDay: classify a day by its sessions not starting "Online". */
  function NotesForDay(day: string, ss: seq<Resolved>): Note
  {
    var items := DayItems(ss, day);
    var total := TotalMinutes(items);
    if |items| == 0 then Free
    else if total.Finite? && total.v >= 6 * 60 then Heavy
    else if |items| == 1 then Light
    else Moderate
  }

  /** A session neither of whose tokens is malformed: each is "HH:MM", "" or "Online". */
  predicate WellFormed(s: Resolved)
  {
    s.session.start != Bad && s.session.end != Bad
  }

  /** The minutes a well-formed token counts for in the total: null ("" or "Online") counts 0. */
  function TokenMins(t: Token): int
    requires t != Bad
  {
    match t
    case HM(h, m) => 60 * h + m
    case _ => 0
  }

  /** The sum of end minus start over well-formed sessions: the reference for the fold. */
  function SumSpans(items: seq<Resolved>): int
    requires forall s :: s in items ==> WellFormed(s)
  {
    if items == [] then 0
    else
      var last := items[|items| - 1];
      assert last in items && WellFormed(last);
      SumSpans(items[..|items| - 1]) + (TokenMins(last.session.end) - TokenMins(last.session.start))
  }

  /** A well-formed session lasts end minus start minutes, null counting as 0. */
  lemma DurationOfWellFormed(s: Resolved)
    requires WellFormed(s)
    ensures Duration(s) == Finite(TokenMins(s.session.end) - TokenMins(s.session.start))
  {
  }

  /** Without malformed tokens the fold is the plain sum of the durations, null counting as 0. */
  lemma {:induction false} TotalOfWellFormed(items: seq<Resolved>)
    requires forall s :: s in items ==> WellFormed(s)
    ensures TotalMinutes(items) == Finite(SumSpans(items))
  {
    if items != [] {
      var front := items[..|items| - 1];
      var last := items[|items| - 1];
      forall s | s in front ensures WellFormed(s) { assert s in items; }
      TotalOfWellFormed(front);
      assert WellFormed(last) by { assert last in items; }
      DurationOfWellFormed(last);
    }
  }

  /** A malformed start or end anywhere makes the total NaN, so such a day is never heavy. */
  lemma {:induction false} MalformedTotalIsNaN(items: seq<Resolved>, s: Resolved)
    requires s in items && (s.session.start == Bad || s.session.end == Bad)
    ensures TotalMinutes(items) == NaN
  {
    var front := items[..|items| - 1];
    var last := items[|items| - 1];
    if s != last {
      assert items == front + [last];
      assert s in front;
      MalformedTotalIsNaN(front, s);
    }
  }

  /** Appending a session adds it to a day's items exactly when it is on that day and not Online. */
  lemma DayItemsSnoc(ss: seq<Resolved>, s: Resolved, day: string)
    ensures DayItems(ss + [s], day) ==
      DayItems(ss, day) + (if s.session.day == day && s.session.start != Online then [s] else [])
  {
    assert (ss + [s])[..|ss|] == ss;
    assert OnDay(ss + [s], day) == OnDay(ss, day) + (if s.session.day == day then [s] else []);
    if s.session.day == day {
      var xs := OnDay(ss, day);
      assert (xs + [s])[..|xs|] == xs;
      assert (xs + [s])[|xs|] == s;
      assert Timed(xs + [s]) == Timed(xs) + (if s.session.start != Online then [s] else []);
      assert DayItems(ss + [s], day) == Timed(xs + [s]);
    } else {
      assert OnDay(ss, day) + [] == OnDay(ss, day);
    }
  }

  /**
   * Only the day's sessions not starting "Online" are considered: adding
   * sessions of other days, or Online ones, never changes the note.
   */
  lemma {:induction false} NotesIgnoreOthers(day: string, ss: seq<Resolved>, extra: seq<Resolved>)
    requires forall s :: s in extra ==> s.session.day != day || s.session.start == Online
    ensures DayItems(ss + extra, day) == DayItems(ss, day)
    ensures NotesForDay(day, ss + extra) == NotesForDay(day, ss)
  {
    if extra == [] {
      assert ss + extra == ss;
    } else {
      var front := extra[..|extra| - 1];
      var last := extra[|extra| - 1];
      assert forall s :: s in front ==> s in extra;
      NotesIgnoreOthers(day, ss, front);
      assert ss + extra == (ss + front) + [last];
      DayItemsSnoc(ss + front, last, day);
    }
  }

  /** A day is free exactly when it has no session outside "Online". */
  lemma NotesFree(day: string, ss: seq<Resolved>)
    ensures NotesForDay(day, ss) == Free <==> !exists s :: s in ss && s.session.day == day && s.session.start != Online
  {
    OnDaySpec(ss, day);
    TimedSpec(OnDay(ss, day));
    if s :| s in ss && s.session.day == day && s.session.start != Online {
      assert s in DayItems(ss, day);
    }
  }

  /** A malformed token makes the total NaN, so a heavy day has none. */
  lemma NotesHeavyWellFormed(day: string, ss: seq<Resolved>)
    ensures NotesForDay(day, ss) == Heavy ==> forall s :: s in DayItems(ss, day) ==> WellFormed(s)
  {
    var items := DayItems(ss, day);
    if s :| s in items && !WellFormed(s) {
      MalformedTotalIsNaN(items, s);
    }
  }

  /**
   * With a malformed token the total is NaN, which fails the 360-minute test:
   * the note is light for a single session and moderate for several.
   */
  lemma NotesMalformed(day: string, ss: seq<Resolved>)
    ensures var items := DayItems(ss, day);
      (exists s :: s in items && !WellFormed(s)) ==>
        (NotesForDay(day, ss) == Light <==> |items| == 1) &&
        (NotesForDay(day, ss) == Moderate <==> |items| > 1)
  {
    var items := DayItems(ss, day);
    if s :| s in items && !WellFormed(s) {
      MalformedTotalIsNaN(items, s);
    }
  }

  /**
   * Without malformed tokens the total is the sum of the durations (null
   * counting as 0): heavy when it reaches 360 minutes, checked before the
   * single-session case; light for one session under that; moderate otherwise.
   */
  lemma NotesByTotal(day: string, ss: seq<Resolved>)
    requires forall s :: s in DayItems(ss, day) ==> WellFormed(s)
    ensures var items := DayItems(ss, day);
      (NotesForDay(day, ss) == Heavy <==> |items| > 0 && SumSpans(items) >= 360) &&
      (NotesForDay(day, ss) == Light <==> |items| == 1 && SumSpans(items) < 360) &&
      (NotesForDay(day, ss) == Moderate <==> |items| > 1 && SumSpans(items) < 360)
  {
    TotalOfWellFormed(DayItems(ss, day));
  }
}
