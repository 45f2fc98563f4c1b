/**
 * The automatic group resolver (app.js, tryAutoResolve): greedy passes that
 * move one conflicting course to its first alternative group, keeping the
 * move only when the number of conflicts strictly drops.
 */
module Resolver {
  import opened Catalog
  import opened Selection
  import opened Conflicts

  /** A committed move: the course's name and the group it was moved to. */
  datatype Change = Change(course: string, group: int)

  /** A committed trial: the new controls, their conflicts and the change note. */
  datatype Step = Step(entries: Entries, conflicts: seq<Conflict>, change: Change)

  /** What the resolver returns: the controls it leaves, the final conflicts and the changes made. */
  datatype Outcome = Outcome(entries: Entries, conflicts: seq<Conflict>, changes: seq<Change>)

  /** detectConflicts(selectedSessions()) for given controls. */
  function ConflictsFor(data: Data, mode: string, e: Entries): seq<Conflict>
  {
    Detected(Selected(data, mode, e))
  }

  /**
   * The recomputation a trial runs, as a function of the controls. The pass
   * logic below takes it as a parameter `recount`: it only ever compares counts.
   */
  function Recount(data: Data, mode: string): Entries -> seq<Conflict>
  {
    (e: Entries) => ConflictsFor(data, mode, e)
  }

  /** groups.find(g => g !== current) */
  function FirstOther(groups: seq<int>, current: int): Option<int>
  {
    if groups == [] then None
    else if groups[0] != current then Some(groups[0])
    else FirstOther(groups[1..], current)
  }

  /**
   * The alternative is a group other than the current one, found exactly when
   * one exists; in an ascending list it is the smallest such group.
   */
  lemma {:induction false} FirstOtherSpec(groups: seq<int>, current: int)
    ensures FirstOther(groups, current).Some? <==> exists g :: g in groups && g != current
    ensures FirstOther(groups, current).Some? ==>
      FirstOther(groups, current).value in groups && FirstOther(groups, current).value != current
    ensures FirstOther(groups, current).Some? && StrictlyAscending(groups) ==>
      forall g :: g in groups && g != current ==> FirstOther(groups, current).value <= g
  {
    if groups != [] {
      if groups[0] == current {
        FirstOtherSpec(groups[1..], current);
        assert forall g :: g in groups && g != current ==> g in groups[1..];
        assert forall g :: g in groups[1..] ==> g in groups;
      } else {
        assert groups[0] in groups;
      }
    }
  }

  /** The controls' id of a conflict side. */
  function ItemRef(item: Resolved): CourseRef
  {
    CourseRef(item.programId, item.courseKey)
  }

  /**
   * The group a conflict side would be tried with, if it is a candidate:
   * its course is found, has at least two groups, its selector exists and is
   * enabled, and some group differs from the current one (app.js lines 151-162).
   */
  function Alternative(data: Data, e: Entries, item: Resolved): Option<int>
  {
    var cdef := GetCourseDef(data, item.programId, item.courseKey);
    if cdef.None? then None
    else
      var groups := Groups(cdef.value.sessions);
      if |groups| < 2 then None
      else if ItemRef(item) !in e || !e[ItemRef(item)].enabled then None
      else
        var alt := FirstOther(groups, e[ItemRef(item)].group);
        if alt.None? || alt.value == 0 then None else alt
  }

  /**
   * A side is a candidate exactly when its course is found, has at least two
   * group options and an enabled selector; its trial group is then the
   * smallest option other than the current group.
   */
  lemma AlternativeSpec(data: Data, e: Entries, item: Resolved)
    ensures var cdef := GetCourseDef(data, item.programId, item.courseKey);
      var id := ItemRef(item);
      Alternative(data, e, item).Some? <==>
        cdef.Some? && |Groups(cdef.value.sessions)| >= 2 && id in e && e[id].enabled
    ensures var cdef := GetCourseDef(data, item.programId, item.courseKey);
      var id := ItemRef(item);
      var alt := Alternative(data, e, item);
      alt.Some? ==>
        cdef.Some? && id in e &&
        alt.value in Groups(cdef.value.sessions) && alt.value != e[id].group &&
        forall g :: g in Groups(cdef.value.sessions) && g != e[id].group ==> alt.value <= g
  {
    var cdef := GetCourseDef(data, item.programId, item.courseKey);
    var id := ItemRef(item);
    if cdef.Some? && id in e {
      var groups := Groups(cdef.value.sessions);
      FirstOtherSpec(groups, e[id].group);
      GroupsSpec(cdef.value.sessions);
      if |groups| >= 2 {
        assert groups[0] in groups && groups[1] in groups && groups[0] != groups[1];
      }
    }
  }

  /** One trial: move the item's course to its alternative and keep it only if the conflict count drops. */
  function TryItem(data: Data, recount: Entries -> seq<Conflict>, e: Entries, conflicts: seq<Conflict>, item: Resolved): Option<Step>
  {
    var alt := Alternative(data, e, item);
    if alt.None? then None
    else
      var id := ItemRef(item);
      var trial := e[id := e[id].(group := alt.value)];
      var testConf := recount(trial);
      if |testConf| < |conflicts| then Some(Step(trial, testConf, Change(item.course, alt.value)))
      else None
  }

  /**
   * A side's trial is kept exactly when it is a candidate and the controls
   * with its alternative group have strictly fewer conflicts; the kept group
   * is then the smallest option of the course other than the current one.
   */
  lemma TryItemCandidate(data: Data, recount: Entries -> seq<Conflict>, e: Entries, conflicts: seq<Conflict>, item: Resolved)
    ensures var st := TryItem(data, recount, e, conflicts, item);
      var alt := Alternative(data, e, item);
      var id := ItemRef(item);
      st.Some? <==> alt.Some? && |recount(e[id := e[id].(group := alt.value)])| < |conflicts|
    ensures var st := TryItem(data, recount, e, conflicts, item);
      var id := ItemRef(item);
      var cdef := GetCourseDef(data, item.programId, item.courseKey);
      st.Some? ==>
        cdef.Some? && |Groups(cdef.value.sessions)| >= 2 &&
        id in e && e[id].enabled &&
        st.value.change.group in Groups(cdef.value.sessions) &&
        st.value.change.group != e[id].group &&
        (forall g :: g in Groups(cdef.value.sessions) && g != e[id].group ==> st.value.change.group <= g)
  {
    AlternativeSpec(data, e, item);
  }

  /**
   * A trial is kept only when the recomputed conflict count is strictly
   * lower; then exactly that course's group changed, and the change note
   * names the course and its new group.
   */
  lemma TryItemKept(data: Data, recount: Entries -> seq<Conflict>, e: Entries, conflicts: seq<Conflict>, item: Resolved)
    ensures var st := TryItem(data, recount, e, conflicts, item);
      var id := ItemRef(item);
      st.Some? ==>
        id in e &&
        st.value.change.course == item.course &&
        st.value.entries == e[id := e[id].(group := st.value.change.group)] &&
        st.value.conflicts == recount(st.value.entries) &&
        |st.value.conflicts| < |conflicts|
  {
  }

  /** One pass: the conflicts cs in order, side a then side b, stopping at the first kept trial. */
  function ScanPass(data: Data, recount: Entries -> seq<Conflict>, e: Entries, conflicts: seq<Conflict>, cs: seq<Conflict>): Option<Step>
  {
    if cs == [] then None
    else
      var sa := TryItem(data, recount, e, conflicts, cs[0].a);
      if sa.Some? then sa
      else
        var sb := TryItem(data, recount, e, conflicts, cs[0].b);
        if sb.Some? then sb
        else ScanPass(data, recount, e, conflicts, cs[1..])
  }

  /** Neither side of any conflict of cs has a trial that is kept. */
  predicate NoneKept(data: Data, recount: Entries -> seq<Conflict>, e: Entries, conflicts: seq<Conflict>, cs: seq<Conflict>)
  {
    forall c :: c in cs ==>
      TryItem(data, recount, e, conflicts, c.a).None? && TryItem(data, recount, e, conflicts, c.b).None?
  }

  /** st is the first kept trial of conflict k of cs, side a before side b, none being kept before k. */
  predicate FirstKeptAt(data: Data, recount: Entries -> seq<Conflict>, e: Entries, conflicts: seq<Conflict>, cs: seq<Conflict>, k: int, st: Option<Step>)
  {
    0 <= k < |cs| && NoneKept(data, recount, e, conflicts, cs[..k]) &&
    ((st == TryItem(data, recount, e, conflicts, cs[k].a)) ||
     (TryItem(data, recount, e, conflicts, cs[k].a).None? && st == TryItem(data, recount, e, conflicts, cs[k].b)))
  }

  /**
   * A pass walks the conflicts in order, side a before side b, and commits
   * the first kept trial; it commits nothing exactly when no trial is kept.
   */
  lemma {:induction false} ScanPassSpec(data: Data, recount: Entries -> seq<Conflict>, e: Entries, conflicts: seq<Conflict>, cs: seq<Conflict>)
    ensures ScanPass(data, recount, e, conflicts, cs).None? <==> NoneKept(data, recount, e, conflicts, cs)
    ensures var st := ScanPass(data, recount, e, conflicts, cs);
      st.Some? ==> exists k :: FirstKeptAt(data, recount, e, conflicts, cs, k, st)
  {
    if cs != [] {
      var rest := cs[1..];
      ScanPassSpec(data, recount, e, conflicts, rest);
      var sa := TryItem(data, recount, e, conflicts, cs[0].a);
      var sb := TryItem(data, recount, e, conflicts, cs[0].b);
      var st := ScanPass(data, recount, e, conflicts, cs);
      if sa.Some? || sb.Some? {
        assert cs[..0] == [];
        assert FirstKeptAt(data, recount, e, conflicts, cs, 0, st);
      } else {
        ScanPassSkip(data, recount, e, conflicts, cs);
      }
    }
  }

  /** When no trial of the first conflict is kept, the pass goes on with the others. */
  lemma ScanPassSkip(data: Data, recount: Entries -> seq<Conflict>, e: Entries, conflicts: seq<Conflict>, cs: seq<Conflict>)
    requires cs != []
    requires TryItem(data, recount, e, conflicts, cs[0].a).None? && TryItem(data, recount, e, conflicts, cs[0].b).None?
    requires ScanPass(data, recount, e, conflicts, cs[1..]).None? <==> NoneKept(data, recount, e, conflicts, cs[1..])
    requires var st := ScanPass(data, recount, e, conflicts, cs[1..]);
      st.Some? ==> exists k :: FirstKeptAt(data, recount, e, conflicts, cs[1..], k, st)
    ensures ScanPass(data, recount, e, conflicts, cs).None? <==> NoneKept(data, recount, e, conflicts, cs)
    ensures ScanPass(data, recount, e, conflicts, cs) == ScanPass(data, recount, e, conflicts, cs[1..])
    ensures var st := ScanPass(data, recount, e, conflicts, cs);
      st.Some? ==> exists k :: FirstKeptAt(data, recount, e, conflicts, cs, k, st)
  {
    var rest := cs[1..];
    var st := ScanPass(data, recount, e, conflicts, cs);
    assert st == ScanPass(data, recount, e, conflicts, rest);
    NoneKeptCons(data, recount, e, conflicts, cs);
    if st.Some? {
      var k :| FirstKeptAt(data, recount, e, conflicts, rest, k, st);
      FirstKeptCons(data, recount, e, conflicts, cs, k, st);
    }
  }

  /** No trial of cs is kept exactly when none of its first conflict is and none of the rest. */
  lemma NoneKeptCons(data: Data, recount: Entries -> seq<Conflict>, e: Entries, conflicts: seq<Conflict>, cs: seq<Conflict>)
    requires cs != []
    ensures NoneKept(data, recount, e, conflicts, cs) <==>
      TryItem(data, recount, e, conflicts, cs[0].a).None? && TryItem(data, recount, e, conflicts, cs[0].b).None? &&
      NoneKept(data, recount, e, conflicts, cs[1..])
  {
    assert forall c :: c in cs <==> c == cs[0] || c in cs[1..];
  }

  /** A first kept trial of the rest is the first kept trial of cs when the first conflict keeps nothing. */
  lemma FirstKeptCons(data: Data, recount: Entries -> seq<Conflict>, e: Entries, conflicts: seq<Conflict>, cs: seq<Conflict>, k: int, st: Option<Step>)
    requires cs != []
    requires TryItem(data, recount, e, conflicts, cs[0].a).None? && TryItem(data, recount, e, conflicts, cs[0].b).None?
    requires FirstKeptAt(data, recount, e, conflicts, cs[1..], k, st)
    ensures FirstKeptAt(data, recount, e, conflicts, cs, k + 1, st)
  {
    var rest := cs[1..];
    assert cs[..k + 1] == [cs[0]] + rest[..k];
    assert cs[k + 1] == rest[k];
    NoneKeptCons(data, recount, e, conflicts, cs[..k + 1]);
    assert cs[..k + 1][1..] == rest[..k];
  }

  /** The passes from pass number `pass` on, at most 8 in all, stopping after a pass without change. */
  function Passes(data: Data, recount: Entries -> seq<Conflict>, e: Entries, conflicts: seq<Conflict>, pass: nat): Outcome
    decreases 8 - pass
  {
    if pass >= 8 || |conflicts| == 0 then Outcome(e, conflicts, [])
    else
      var st := ScanPass(data, recount, e, conflicts, conflicts);
      if st.None? then Outcome(e, conflicts, [])
      else
        var rest := Passes(data, recount, st.value.entries, st.value.conflicts, pass + 1);
        Outcome(rest.entries, rest.conflicts, [st.value.change] + rest.changes)
  }

  /** The outcome o with the changes already made before it. */
  function Prepend(changes: seq<Change>, o: Outcome): Outcome
  {
    Outcome(o.entries, o.conflicts, changes + o.changes)
  }

  /**
   * After one pass from (e, conflicts): a kept trial leaves e2 and newConf and
   * the passes continue from there with its change first; otherwise they stop.
   */
  lemma PassesAfter(data: Data, recount: Entries -> seq<Conflict>, e: Entries, conflicts: seq<Conflict>, pass: nat,
                    changed: bool, change: Change, e2: Entries, newConf: seq<Conflict>)
    requires pass < 8 && |conflicts| > 0
    requires ScanPass(data, recount, e, conflicts, conflicts) == if changed then Some(Step(e2, newConf, change)) else None
    ensures changed ==> (Passes(data, recount, e, conflicts, pass) ==
      Prepend([change], Passes(data, recount, e2, newConf, pass + 1)))
    ensures !changed ==> Passes(data, recount, e, conflicts, pass) == Outcome(e, conflicts, [])
  {
  }

  /** tryAutoResolve from the given controls. */
  function Resolve(data: Data, mode: string, e: Entries): Outcome
  {
    Passes(data, Recount(data, mode), e, Recount(data, mode)(e), 0)
  }

  /** Step st moves exactly the course of side item to st's group, the side's alternative, and touches nothing else. */
  predicate Moves(data: Data, e: Entries, st: Step, item: Resolved)
  {
    ItemRef(item) in e &&
    Alternative(data, e, item) == Some(st.change.group) &&
    st.change.course == item.course &&
    st.entries == e[ItemRef(item) := e[ItemRef(item)].(group := st.change.group)]
  }

  /**
   * A kept step lowers the conflict count and moves exactly one course, a
   * side of one of the conflicts, to its alternative group; every other
   * control, and every checked and enabled flag, stays as it was.
   */
  lemma StepSpec(data: Data, recount: Entries -> seq<Conflict>, e: Entries, conflicts: seq<Conflict>)
    ensures var st := ScanPass(data, recount, e, conflicts, conflicts);
      st.Some? ==>
        |st.value.conflicts| < |conflicts| &&
        st.value.conflicts == recount(st.value.entries) &&
        st.value.entries.Keys == e.Keys &&
        (forall id :: id in e ==> st.value.entries[id].checked == e[id].checked &&
                                  st.value.entries[id].enabled == e[id].enabled) &&
        exists c :: c in conflicts && (Moves(data, e, st.value, c.a) || Moves(data, e, st.value, c.b))
  {
    var st := ScanPass(data, recount, e, conflicts, conflicts);
    ScanPassSpec(data, recount, e, conflicts, conflicts);
    if st.Some? {
      var k :| FirstKeptAt(data, recount, e, conflicts, conflicts, k, st);
      var c := conflicts[k];
      if st == TryItem(data, recount, e, conflicts, c.a) {
        TryItemKept(data, recount, e, conflicts, c.a);
        assert Moves(data, e, st.value, c.a);
      } else {
        TryItemKept(data, recount, e, conflicts, c.b);
        assert Moves(data, e, st.value, c.b);
      }
    }
  }

  /**
   * The passes commit at most one change per pass, each lowering the conflict
   * count, so there are at most 8 - pass changes and no more changes than
   * conflicts removed.
   */
  lemma {:induction false} PassesBounds(data: Data, recount: Entries -> seq<Conflict>, e: Entries, conflicts: seq<Conflict>, pass: nat)
    ensures var r := Passes(data, recount, e, conflicts, pass);
      |r.changes| <= if pass >= 8 then 0 else 8 - pass
    ensures var r := Passes(data, recount, e, conflicts, pass);
      |r.changes| + |r.conflicts| <= |conflicts|
    decreases 8 - pass
  {
    if pass < 8 && |conflicts| > 0 {
      var st := ScanPass(data, recount, e, conflicts, conflicts);
      if st.Some? {
        StepSpec(data, recount, e, conflicts);
        PassesBounds(data, recount, st.value.entries, st.value.conflicts, pass + 1);
      }
    }
  }

  /**
   * tryAutoResolve makes at most 8 changes, never more than the initial
   * number of conflicts, and never ends with more conflicts than it began with.
   */
  lemma ResolveBounds(data: Data, mode: string, e: Entries)
    ensures |Resolve(data, mode, e).changes| <= 8
    ensures |Resolve(data, mode, e).changes| + |Resolve(data, mode, e).conflicts| <= |ConflictsFor(data, mode, e)|
    ensures |Resolve(data, mode, e).conflicts| <= |ConflictsFor(data, mode, e)|
  {
    PassesBounds(data, Recount(data, mode), e, Recount(data, mode)(e), 0);
  }

  /**
   * The passes keep every course's checkbox and selector state and the set of
   * controls; only group values change. The conflicts they end with are those
   * of the controls they leave.
   */
  lemma {:induction false} PassesPreserve(data: Data, recount: Entries -> seq<Conflict>, e: Entries, conflicts: seq<Conflict>, pass: nat)
    requires conflicts == recount(e)
    ensures var r := Passes(data, recount, e, conflicts, pass);
      r.entries.Keys == e.Keys &&
      (forall id :: id in e ==> r.entries[id].checked == e[id].checked && r.entries[id].enabled == e[id].enabled) &&
      r.conflicts == recount(r.entries)
    decreases 8 - pass
  {
    if pass < 8 && |conflicts| > 0 {
      var st := ScanPass(data, recount, e, conflicts, conflicts);
      if st.Some? {
        StepSpec(data, recount, e, conflicts);
        PassesPreserve(data, recount, st.value.entries, st.value.conflicts, pass + 1);
      }
    }
  }

  /**
   * The resolver never checks or unchecks a course and never enables or
   * disables a selector; the conflicts it reports are those of the controls it leaves.
   */
  lemma ResolvePreserves(data: Data, mode: string, e: Entries)
    ensures Resolve(data, mode, e).entries.Keys == e.Keys
    ensures forall id :: id in e ==>
      Resolve(data, mode, e).entries[id].checked == e[id].checked &&
      Resolve(data, mode, e).entries[id].enabled == e[id].enabled
    ensures Resolve(data, mode, e).conflicts == ConflictsFor(data, mode, Resolve(data, mode, e).entries)
  {
    PassesPreserve(data, Recount(data, mode), e, Recount(data, mode)(e), 0);
  }

  /** Passes that stop before the eighth end with no conflicts or with a pass that keeps nothing. */
  lemma {:induction false} PassesStopped(data: Data, recount: Entries -> seq<Conflict>, e: Entries, conflicts: seq<Conflict>, pass: nat)
    requires conflicts == recount(e)
    requires pass + |Passes(data, recount, e, conflicts, pass).changes| < 8
    ensures var r := Passes(data, recount, e, conflicts, pass);
      |r.conflicts| == 0 || ScanPass(data, recount, r.entries, r.conflicts, r.conflicts).None?
    decreases 8 - pass
  {
    if pass < 8 && |conflicts| > 0 {
      var st := ScanPass(data, recount, e, conflicts, conflicts);
      if st.Some? {
        StepSpec(data, recount, e, conflicts);
        PassesStopped(data, recount, st.value.entries, st.value.conflicts, pass + 1);
      }
    }
  }

  /**
   * Running the resolver again after it stopped early (fewer than 8 changes)
   * changes nothing: its result is a fixed point.
   */
  lemma ResolveIdempotent(data: Data, mode: string, e: Entries)
    requires |Resolve(data, mode, e).changes| < 8
    ensures var r := Resolve(data, mode, e);
      Resolve(data, mode, r.entries) == Outcome(r.entries, r.conflicts, [])
  {
    var r := Resolve(data, mode, e);
    PassesPreserve(data, Recount(data, mode), e, Recount(data, mode)(e), 0);
    PassesStopped(data, Recount(data, mode), e, Recount(data, mode)(e), 0);
  }

  /** The passes only ever set a selector to one of its course's group options. */
  lemma {:induction false} PassesGroupsValid(data: Data, recount: Entries -> seq<Conflict>, e: Entries, conflicts: seq<Conflict>, pass: nat)
    requires GroupsValid(data, e)
    ensures GroupsValid(data, Passes(data, recount, e, conflicts, pass).entries)
    decreases 8 - pass
  {
    if pass < 8 && |conflicts| > 0 {
      var st := ScanPass(data, recount, e, conflicts, conflicts);
      if st.Some? {
        StepSpec(data, recount, e, conflicts);
        var c :| c in conflicts && (Moves(data, e, st.value, c.a) || Moves(data, e, st.value, c.b));
        var item := if Moves(data, e, st.value, c.a) then c.a else c.b;
        AlternativeSpec(data, e, item);
        assert GroupsValid(data, st.value.entries);
        PassesGroupsValid(data, recount, st.value.entries, st.value.conflicts, pass + 1);
      }
    }
  }

  /**
   * Every enabled selector holds one of its course's group options after
   * tryAutoResolve when it did before, and so from the controls
   * buildCourseList creates.
   */
  lemma ResolveGroupsValid(data: Data, mode: string, e: Entries)
    requires GroupsValid(data, e)
    ensures GroupsValid(data, Resolve(data, mode, e).entries)
    ensures GroupsValid(data, Resolve(data, mode, InitialEntries(ProgramsByMode(data, mode))).entries)
  {
    PassesGroupsValid(data, Recount(data, mode), e, Recount(data, mode)(e), 0);
    var e0 := InitialEntries(ProgramsByMode(data, mode));
    InitialGroupsValid(data, mode);
    PassesGroupsValid(data, Recount(data, mode), e0, Recount(data, mode)(e0), 0);
  }

  /** `sessions = selectedSessions(); conflicts = detectConflicts(sessions)` on the page's current controls. */
  method Recompute(data: Data, mode: string, store: SelectionStore) returns (sessions: seq<Resolved>, conflicts: seq<Conflict>)
    ensures sessions == Selected(data, mode, store.entries)
    ensures conflicts == Detected(sessions)
  {
    sessions := store.SelectedSessions(data, mode);
    conflicts := DetectConflicts(sessions);
  }

  /**
   * The same recomputation where only its conflicts are used afterwards (the
   * sessions a trial computes are overwritten before they are returned).
   */
  method CountConflicts(data: Data, mode: string, store: SelectionStore) returns (conflicts: seq<Conflict>)
    ensures conflicts == Recount(data, mode)(store.entries)
  {
    var sessions := store.SelectedSessions(data, mode);
    conflicts := DetectConflicts(sessions);
  }

  /**
   * The guards of one candidate: the course is found, has two group options
   * or more and an enabled selector; the trial group is then the smallest
   * option other than the current one.
   */
  method CandidateGroup(data: Data, store: SelectionStore, item: Resolved) returns (alt: Option<int>)
    ensures var cdef := GetCourseDef(data, item.programId, item.courseKey);
      var id := ItemRef(item);
      alt.Some? <==> cdef.Some? && |Groups(cdef.value.sessions)| >= 2 && id in store.entries && store.entries[id].enabled
    ensures var cdef := GetCourseDef(data, item.programId, item.courseKey);
      var id := ItemRef(item);
      alt.Some? ==>
        cdef.Some? && id in store.entries &&
        alt.value in Groups(cdef.value.sessions) && alt.value != store.entries[id].group &&
        forall g :: g in Groups(cdef.value.sessions) && g != store.entries[id].group ==> alt.value <= g
    ensures alt == Alternative(data, store.entries, item)
  {
    AlternativeSpec(data, store.entries, item);
    var cdef := GetCourseDef(data, item.programId, item.courseKey);
    if cdef.None? { return None; }
    var groups := Groups(cdef.value.sessions);
    if |groups| < 2 { return None; }
    var id := ItemRef(item);
    if id !in store.entries || !store.entries[id].enabled { return None; }
    var current := store.entries[id].group;
    alt := FirstOther(groups, current);
    if alt.None? || alt.value == 0 { return None; }
  }

  /** One trial on the page's controls: set the alternative, recompute, keep or restore. */
  method TryCandidate(data: Data, mode: string, store: SelectionStore, conflicts: seq<Conflict>, item: Resolved)
    returns (committed: bool, change: Change, testConf: seq<Conflict>)
    modifies store
    ensures TryItem(data, Recount(data, mode), old(store.entries), conflicts, item) ==
      if committed then Some(Step(store.entries, testConf, change)) else None
    ensures !committed ==> store.entries == old(store.entries)
  {
    committed, change, testConf := false, Change(item.course, 0), [];
    var alt := CandidateGroup(data, store, item);
    if alt.None? { return; }
    var id := ItemRef(item);
    var current := store.entries[id].group;
    ghost var before := store.entries;
    store.SetGroup(id, alt.value);
    var conf := CountConflicts(data, mode, store);
    if |conf| < |conflicts| {
      committed, change, testConf := true, Change(item.course, alt.value), conf;
    } else {
      store.SetGroup(id, current);
      assert store.entries == before;
    }
  }

  /** One pass over the conflicts as they stood at its start: `for (const conf of conflicts)`. */
  method RunPass(data: Data, mode: string, store: SelectionStore, conflicts: seq<Conflict>)
    returns (changed: bool, change: Change, newConf: seq<Conflict>)
    modifies store
    ensures ScanPass(data, Recount(data, mode), old(store.entries), conflicts, conflicts) ==
      if changed then Some(Step(store.entries, newConf, change)) else None
    ensures !changed ==> store.entries == old(store.entries)
  {
    changed, change, newConf := false, Change("", 0), [];
    for k := 0 to |conflicts|
      invariant store.entries == old(store.entries)
      invariant ScanPass(data, Recount(data, mode), old(store.entries), conflicts, conflicts) ==
        ScanPass(data, Recount(data, mode), old(store.entries), conflicts, conflicts[k..])
    {
      var conf := conflicts[k];
      assert conflicts[k..][1..] == conflicts[k + 1..];
      changed, change, newConf := TryCandidate(data, mode, store, conflicts, conf.a);
      if changed { return; }
      changed, change, newConf := TryCandidate(data, mode, store, conflicts, conf.b);
      if changed { return; }
    }
  }

  /** One pass of the loop, stated as the step it takes through Passes. */
  method PassStep(data: Data, mode: string, store: SelectionStore, conflicts: seq<Conflict>, ghost pass: nat)
    returns (changed: bool, change: Change, newConf: seq<Conflict>)
    requires pass < 8 && |conflicts| > 0
    modifies store
    ensures changed ==> (Passes(data, Recount(data, mode), old(store.entries), conflicts, pass) ==
      Prepend([change], Passes(data, Recount(data, mode), store.entries, newConf, pass + 1)))
    ensures !changed ==> (store.entries == old(store.entries) &&
      Passes(data, Recount(data, mode), old(store.entries), conflicts, pass) == Outcome(old(store.entries), conflicts, []))
  {
    changed, change, newConf := RunPass(data, mode, store, conflicts);
    PassesAfter(data, Recount(data, mode), old(store.entries), conflicts, pass, changed, change, store.entries, newConf);
  }

  /** Prepending two batches of changes one after the other prepends them joined. */
  lemma PrependTwice(a: seq<Change>, b: seq<Change>, o: Outcome)
    ensures Prepend(a, Prepend(b, o)) == Prepend(a + b, o)
  {
    assert a + (b + o.changes) == (a + b) + o.changes;
  }

  /** The bounded pass loop of tryAutoResolve, from the conflicts of the current controls. */
  method RunPasses(data: Data, mode: string, store: SelectionStore, initial: seq<Conflict>) returns (changes: seq<Change>)
    modifies store
    ensures store.entries == Passes(data, Recount(data, mode), old(store.entries), initial, 0).entries
    ensures changes == Passes(data, Recount(data, mode), old(store.entries), initial, 0).changes
  {
    ghost var recount := Recount(data, mode);
    ghost var goal := Passes(data, recount, store.entries, initial, 0);
    changes := [];
    var conflicts := initial;
    var pass := 0;
    while pass < 8 && |conflicts| > 0
      invariant 0 <= pass <= 8
      invariant goal == Prepend(changes, Passes(data, recount, store.entries, conflicts, pass))
      decreases 8 - pass
    {
      var changedThisPass, change, testConf := PassStep(data, mode, store, conflicts, pass);
      if !changedThisPass {
        break;
      }
      PrependTwice(changes, [change], Passes(data, recount, store.entries, testConf, pass + 1));
      changes := changes + [change];
      conflicts := testConf;
      pass := pass + 1;
    }
  }

  /**
   * tryAutoResolve on the page's controls: the controls end as Resolve
   * prescribes, the changes are Resolve's, and the returned sessions and
   * conflicts are recomputed from the final controls.
   */
  method TryAutoResolve(data: Data, mode: string, store: SelectionStore)
    returns (sessions: seq<Resolved>, conflicts: seq<Conflict>, changes: seq<Change>)
    modifies store
    ensures store.entries == Resolve(data, mode, old(store.entries)).entries
    ensures changes == Resolve(data, mode, old(store.entries)).changes
    ensures sessions == Selected(data, mode, store.entries)
    ensures conflicts == Detected(sessions)
  {
    var initial := CountConflicts(data, mode, store);
    changes := RunPasses(data, mode, store, initial);
    sessions, conflicts := Recompute(data, mode, store);
  }
}
