/**
 * Conflict detection (app.js, detectConflicts): sessions are bucketed by day
 * in order of first appearance, Online sessions are dropped, and every pair
 * i < j of a day's remaining sessions that overlaps is reported, in order.
 */
module Conflicts {
  import opened Time
  import opened Catalog
  import opened Seqs

  /** { day, a, b }: a and b are on day and overlap. */
  datatype Conflict = Conflict(day: string, a: Resolved, b: Resolved)

  /** Positions i < j of two sessions in a day's list. */
  datatype IndexPair = IndexPair(i: nat, j: nat)

  /** Some session is on day d. */
  predicate HasDay(ss: seq<Resolved>, d: string)
  {
    exists s :: s in ss && s.session.day == d
  }

  /** Object.keys(byDay): the distinct days of ss, in order of first appearance. */
  function DaysOf(ss: seq<Resolved>): seq<string>
  {
    if ss == [] then []
    else
      var ds := DaysOf(ss[..|ss| - 1]);
      var d := ss[|ss| - 1].session.day;
      if d in ds then ds else ds + [d]
  }

  /** The bucket keys are exactly the days that occur, each once. */
  lemma {:induction false} DaysOfSpec(ss: seq<Resolved>)
    ensures forall d :: d in DaysOf(ss) <==> HasDay(ss, d)
    ensures Distinct(DaysOf(ss))
  {
    if ss != [] {
      var front := ss[..|ss| - 1];
      var last := ss[|ss| - 1];
      DaysOfSpec(front);
      assert ss == front + [last];
      forall d ensures HasDay(ss, d) <==> HasDay(front, d) || last.session.day == d {
        if s :| s in ss && s.session.day == d && s != last { assert s in front; }
      }
    }
  }

  /** A day that does not occur has no items. */
  lemma NoItemsOffDay(ss: seq<Resolved>, day: string)
    requires !HasDay(ss, day)
    ensures OnDay(ss, day) == [] && DayItems(ss, day) == []
  {
    OnDaySpec(ss, day);
  }

  /** The pairs (i, j), i < j < hi, that the inner loop of row i finds overlapping, in order. */
  function RowPairs(items: seq<Resolved>, i: nat, hi: nat): seq<IndexPair>
    requires hi <= |items|
  {
    if hi <= i + 1 then []
    else
      RowPairs(items, i, hi - 1) +
      (if SessionsOverlap(items[i], items[hi - 1]) then [IndexPair(i, hi - 1)] else [])
  }

  /** The overlapping pairs of rows i < n, in the order the nested loops visit them. */
  function PairsBelow(items: seq<Resolved>, n: nat): seq<IndexPair>
    requires n <= |items|
  {
    if n == 0 then [] else PairsBelow(items, n - 1) + RowPairs(items, n - 1, |items|)
  }

  /** The overlapping pairs of a day's items. */
  function DayPairs(items: seq<Resolved>): seq<IndexPair>
  {
    PairsBelow(items, |items|)
  }

  /** p comes before q in the visiting order of the nested loops. */
  predicate Before(p: IndexPair, q: IndexPair)
  {
    p.i < q.i || (p.i == q.i && p.j < q.j)
  }

  predicate VisitOrder(ps: seq<IndexPair>)
  {
    forall a, b :: 0 <= a < b < |ps| ==> Before(ps[a], ps[b])
  }

  /** Row i yields exactly its overlapping pairs, in increasing j. */
  lemma {:induction false} RowPairsSpec(items: seq<Resolved>, i: nat, hi: nat)
    requires hi <= |items|
    ensures forall p :: p in RowPairs(items, i, hi) <==>
      p.i == i && i < p.j < hi && SessionsOverlap(items[p.i], items[p.j])
    ensures VisitOrder(RowPairs(items, i, hi))
  {
    if hi > i + 1 {
      RowPairsSpec(items, i, hi - 1);
    }
  }

  /** The nested loops visit exactly the overlapping pairs (i, j) with i < n. */
  lemma {:induction false} PairsBelowMembers(items: seq<Resolved>, n: nat)
    requires n <= |items|
    ensures forall p :: p in PairsBelow(items, n) <==>
      p.i < n && p.i < p.j < |items| && SessionsOverlap(items[p.i], items[p.j])
  {
    if n > 0 {
      PairsBelowMembers(items, n - 1);
      RowPairsSpec(items, n - 1, |items|);
    }
  }

  /** The nested loops visit pairs in increasing order, so none twice. */
  lemma {:induction false} PairsBelowOrder(items: seq<Resolved>, n: nat)
    requires n <= |items|
    ensures forall p :: p in PairsBelow(items, n) ==> p.i < n
    ensures VisitOrder(PairsBelow(items, n))
  {
    if n > 0 {
      var front := PairsBelow(items, n - 1);
      var row := RowPairs(items, n - 1, |items|);
      PairsBelowOrder(items, n - 1);
      RowPairsSpec(items, n - 1, |items|);
      var all := front + row;
      assert all == PairsBelow(items, n);
      forall a, b | 0 <= a < b < |all| ensures Before(all[a], all[b]) {
        if b < |front| {
          assert all[a] == front[a] && all[b] == front[b];
        } else if a < |front| {
          assert all[a] in front && all[b] == row[b - |front|] && all[b] in row;
        } else {
          assert all[a] == row[a - |front|] && all[b] == row[b - |front|];
        }
      }
    }
  }

  /** The conflict an overlapping pair reports. */
  function PairConflict(day: string, items: seq<Resolved>, p: IndexPair): seq<Conflict>
  {
    if p.i < |items| && p.j < |items| then [Conflict(day, items[p.i], items[p.j])] else []
  }

  function PairFn(day: string, items: seq<Resolved>): IndexPair -> seq<Conflict>
  {
    (p: IndexPair) => PairConflict(day, items, p)
  }

  /** The conflicts reported for one day's items. */
  function DayConflicts(day: string, items: seq<Resolved>): seq<Conflict>
  {
    FlatMap(DayPairs(items), PairFn(day, items))
  }

  /**
   * Each overlapping pair i < j of a day's items is reported exactly once:
   * the reported conflicts correspond one to one, in loop order, to a list of
   * distinct pairs that holds exactly the overlapping ones.
   */
  lemma DayConflictsExactlyOnce(day: string, items: seq<Resolved>)
    ensures var ps := DayPairs(items);
      (forall p :: p in ps <==> p.i < p.j < |items| && SessionsOverlap(items[p.i], items[p.j])) &&
      VisitOrder(ps) &&
      |DayConflicts(day, items)| == |ps| &&
      (forall k :: 0 <= k < |ps| ==>
         DayConflicts(day, items)[k] == Conflict(day, items[ps[k].i], items[ps[k].j]))
  {
    var ps := DayPairs(items);
    PairsBelowMembers(items, |items|);
    PairsBelowOrder(items, |items|);
    FlatMapSingletons(ps, PairFn(day, items));
  }

  function DayFn(ss: seq<Resolved>): string -> seq<Conflict>
  {
    (d: string) => DayConflicts(d, DayItems(ss, d))
  }

  /** detectConflicts: the conflicts of each day, days in order of first appearance. */
  function Detected(ss: seq<Resolved>): seq<Conflict>
  {
    FlatMap(DaysOf(ss), DayFn(ss))
  }

  /** Every conflict of a day's items is on that day, between two overlapping timed sessions of that day. */
  lemma DayConflictsSound(ss: seq<Resolved>, d: string, c: Conflict)
    requires c in DayConflicts(d, DayItems(ss, d))
    ensures c.day == d && c.a in ss && c.b in ss
    ensures c.a.session.day == d && c.b.session.day == d
    ensures c.a.session.start != Online && c.b.session.start != Online
    ensures SessionsOverlap(c.a, c.b)
  {
    var items := DayItems(ss, d);
    var ps := DayPairs(items);
    DayConflictsExactlyOnce(d, items);
    FlatMapMember(ps, PairFn(d, items), c);
    var p :| p in ps && c in PairConflict(d, items, p);
    assert items[p.i] in items && items[p.j] in items;
    TimedSpec(OnDay(ss, d));
    OnDaySpec(ss, d);
  }

  /**
   * Soundness: every reported conflict has both sessions among the input, on
   * its day, neither starting "Online", and overlapping.
   */
  lemma DetectedSound(ss: seq<Resolved>, c: Conflict)
    requires c in Detected(ss)
    ensures c.a in ss && c.b in ss
    ensures c.a.session.day == c.day && c.b.session.day == c.day
    ensures c.a.session.start != Online && c.b.session.start != Online
    ensures SessionsOverlap(c.a, c.b)
  {
    FlatMapMember(DaysOf(ss), DayFn(ss), c);
    var d :| d in DaysOf(ss) && c in DayConflicts(d, DayItems(ss, d));
    DayConflictsSound(ss, d, c);
  }

  /** conflicts.filter(c => c.day === d) */
  function ConflictsOn(cs: seq<Conflict>, d: string): seq<Conflict>
  {
    if cs == [] then []
    else
      var last := cs[|cs| - 1];
      ConflictsOn(cs[..|cs| - 1], d) + (if last.day == d then [last] else [])
  }

  lemma {:induction false} ConflictsOnAppend(xs: seq<Conflict>, ys: seq<Conflict>, d: string)
    ensures ConflictsOn(xs + ys, d) == ConflictsOn(xs, d) + ConflictsOn(ys, d)
    decreases |ys|
  {
    if ys != [] {
      var front := ys[..|ys| - 1];
      assert (xs + ys)[..|xs + ys| - 1] == xs + front;
      var last := ys[|ys| - 1];
      assert (xs + ys)[|xs + ys| - 1] == last;
      ConflictsOnAppend(xs, front, d);
      assert ConflictsOn(ys, d) == ConflictsOn(front, d) + (if last.day == d then [last] else []);
    } else {
      assert xs + ys == xs;
    }
  }

  /** Keeping the conflicts on d keeps all or none of a list whose conflicts share one day. */
  lemma {:induction false} ConflictsOnOneDay(cs: seq<Conflict>, day: string, d: string)
    requires forall c :: c in cs ==> c.day == day
    ensures ConflictsOn(cs, d) == if day == d then cs else []
  {
    if cs != [] {
      var front := cs[..|cs| - 1];
      assert forall c :: c in front ==> c in cs;
      ConflictsOnOneDay(front, day, d);
      assert cs == front + [cs[|cs| - 1]];
    }
  }

  /** The conflicts of the days ds on day d: those of d's block if d is among them, else none. */
  lemma {:induction false} ConflictsOnDays(ss: seq<Resolved>, ds: seq<string>, d: string)
    requires Distinct(ds)
    ensures ConflictsOn(FlatMap(ds, DayFn(ss)), d) == if d in ds then DayConflicts(d, DayItems(ss, d)) else []
  {
    if ds != [] {
      var front := ds[..|ds| - 1];
      var last := ds[|ds| - 1];
      assert ds == front + [last];
      ConflictsOnDays(ss, front, d);
      ConflictsOnAppend(FlatMap(front, DayFn(ss)), DayFn(ss)(last), d);
      forall c | c in DayFn(ss)(last) ensures c.day == last {
        DayConflictsSound(ss, last, c);
      }
      ConflictsOnOneDay(DayFn(ss)(last), last, d);
    }
  }

  /**
   * Completeness and uniqueness: the conflicts reported on any day d are
   * exactly that day's overlapping pairs, each once (DayConflictsExactlyOnce);
   * bucketing never merges or repeats days.
   */
  lemma DetectedOnDay(ss: seq<Resolved>, d: string)
    ensures ConflictsOn(Detected(ss), d) == DayConflicts(d, DayItems(ss, d))
  {
    DaysOfSpec(ss);
    ConflictsOnDays(ss, DaysOf(ss), d);
    if d !in DaysOf(ss) {
      NoItemsOffDay(ss, d);
    }
  }

  /** detectConflicts as written: fill byDay in input order, then scan each day's bucket. */
  method DetectConflicts(ss: seq<Resolved>) returns (conflicts: seq<Conflict>)
    ensures conflicts == Detected(ss)
  {
    var byDay, days := BucketByDay(ss);
    conflicts := [];
    for t := 0 to |days|
      invariant conflicts == FlatMap(days[..t], DayFn(ss))
    {
      var day := days[t];
      FlatMapStep(days, t, DayFn(ss));
      var items := Timed(byDay[day]);
      conflicts := ScanDay(day, items, conflicts);
    }
    assert days[..|days|] == days;
  }

  /** The byDay buckets (`byDay[s.day] ??= []; byDay[s.day].push(s)`) and their key order. */
  method BucketByDay(ss: seq<Resolved>) returns (byDay: map<string, seq<Resolved>>, days: seq<string>)
    ensures days == DaysOf(ss)
    ensures forall d :: d in byDay <==> d in days
    ensures forall d :: d in byDay ==> byDay[d] == OnDay(ss, d)
  {
    byDay := map[];
    days := [];
    for k := 0 to |ss|
      invariant days == DaysOf(ss[..k])
      invariant forall d :: d in byDay <==> d in days
      invariant forall d :: d in byDay ==> byDay[d] == OnDay(ss[..k], d)
    {
      var s := ss[k];
      var seen := ss[..k];
      assert ss[..k + 1][..k] == seen;
      assert ss[..k + 1][k] == s;
      assert forall d :: OnDay(ss[..k + 1], d) == OnDay(seen, d) + (if s.session.day == d then [s] else []);
      if s.session.day !in byDay {
        DaysOfSpec(seen);
        NoItemsOffDay(seen, s.session.day);
        byDay := byDay[s.session.day := []];
        days := days + [s.session.day];
      }
      byDay := byDay[s.session.day := byDay[s.session.day] + [s]];
    }
    assert ss[..|ss|] == ss;
  }

  /** The nested i < j loops over one day's items, pushing each overlapping pair. */
  method ScanDay(day: string, items: seq<Resolved>, out: seq<Conflict>) returns (r: seq<Conflict>)
    ensures r == out + DayConflicts(day, items)
  {
    r := out;
    for i := 0 to |items|
      invariant r == out + FlatMap(PairsBelow(items, i), PairFn(day, items))
    {
      FlatMapAppend(PairsBelow(items, i), RowPairs(items, i, |items|), PairFn(day, items));
      r := ScanRow(day, items, i, r);
    }
  }

  /** One more column j of row i adds its conflict, if the pair overlaps, at the end. */
  lemma RowPairsStep(day: string, items: seq<Resolved>, i: nat, j: nat)
    requires i < j < |items|
    ensures FlatMap(RowPairs(items, i, j + 1), PairFn(day, items)) ==
      FlatMap(RowPairs(items, i, j), PairFn(day, items)) +
      (if SessionsOverlap(items[i], items[j]) then [Conflict(day, items[i], items[j])] else [])
  {
    var step := if SessionsOverlap(items[i], items[j]) then [IndexPair(i, j)] else [];
    assert RowPairs(items, i, j + 1) == RowPairs(items, i, j) + step;
    FlatMapAppend(RowPairs(items, i, j), step, PairFn(day, items));
    if SessionsOverlap(items[i], items[j]) {
      assert FlatMap(step, PairFn(day, items)) == [Conflict(day, items[i], items[j])];
    } else {
      assert FlatMap(step, PairFn(day, items)) == [];
    }
  }

  /** The inner loop for row i: j runs from i + 1 to the end. */
  method ScanRow(day: string, items: seq<Resolved>, i: nat, out: seq<Conflict>) returns (r: seq<Conflict>)
    requires i < |items|
    ensures r == out + FlatMap(RowPairs(items, i, |items|), PairFn(day, items))
  {
    r := out;
    for j := i + 1 to |items|
      invariant r == out + FlatMap(RowPairs(items, i, j), PairFn(day, items))
    {
      RowPairsStep(day, items, i, j);
      var found := if SessionsOverlap(items[i], items[j]) then [Conflict(day, items[i], items[j])] else [];
      assert (out + FlatMap(RowPairs(items, i, j), PairFn(day, items))) + found ==
        out + (FlatMap(RowPairs(items, i, j), PairFn(day, items)) + found);
      r := r + found;
    }
  }
}
