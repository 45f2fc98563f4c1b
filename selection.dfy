/**
 * The selection store (each course's checkbox and group selector) and the
 * selection projection (app.js, buildCourseList's initial state and
 * selectedSessions).
 */
module Selection {
  import opened Time
  import opened Catalog
  import opened Seqs

  /** One course's controls: checkbox state, selected group value, selector enabled. */
  datatype Entry = Entry(checked: bool, group: int, enabled: bool)

  /** The controls on the page, keyed by course id. */
  type Entries = map<CourseRef, Entry>

  /** The controls buildCourseList creates for a course (app.js lines 60-61 and 72-81). */
  function InitialEntry(c: Course): Entry
  {
    var groups := Groups(c.sessions);
    if |groups| > 0 then Entry(false, groups[0], true) else Entry(false, 0, false)
  }

  /**
   * A course's controls start unchecked; the selector shows the first option,
   * which is the smallest non-zero group of the course, and is enabled exactly
   * when such a group exists; otherwise it holds the single option 0.
   */
  lemma InitialEntrySpec(c: Course)
    ensures var e := InitialEntry(c);
      !e.checked &&
      (e.enabled <==> exists g :: g != 0 && HasGroup(c.sessions, g)) &&
      (e.enabled ==> e.group != 0 && HasGroup(c.sessions, e.group) &&
                     forall g :: g != 0 && HasGroup(c.sessions, g) ==> e.group <= g) &&
      (!e.enabled ==> e.group == 0)
  {
    var groups := Groups(c.sessions);
    GroupsSpec(c.sessions);
    if |groups| > 0 {
      assert groups[0] in groups;
      forall g | g != 0 && HasGroup(c.sessions, g) ensures groups[0] <= g {
        assert g in groups;
      }
    }
  }

  /**
   * Adds the controls of courses cs of program p, in page order. getElementById
   * returns the first element with an id, so an id already present keeps its
   * first controls.
   */
  function AddCourses(e: Entries, p: Program, cs: seq<Course>): Entries
  {
    if cs == [] then e
    else
      var acc := AddCourses(e, p, cs[..|cs| - 1]);
      var c := cs[|cs| - 1];
      var id := CourseRef(p.id, c.key);
      if id in acc then acc else acc[id := InitialEntry(c)]
  }

  /** The controls for all courses of progs, in page order. */
  function InitialEntries(progs: seq<Program>): Entries
  {
    if progs == [] then map[]
    else
      var p := progs[|progs| - 1];
      AddCourses(InitialEntries(progs[..|progs| - 1]), p, p.courses)
  }

  /** Course j of program i of progs. */
  predicate IsCourseOf(progs: seq<Program>, i: int, j: int)
  {
    0 <= i < |progs| && 0 <= j < |progs[i].courses|
  }

  function RefOf(progs: seq<Program>, i: int, j: int): CourseRef
    requires IsCourseOf(progs, i, j)
  {
    CourseRef(progs[i].id, progs[i].courses[j].key)
  }

  /** Course j of cs has, within program p, the id id. */
  predicate DeclaresAt(p: Program, cs: seq<Course>, j: int, id: CourseRef)
  {
    0 <= j < |cs| && CourseRef(p.id, cs[j].key) == id
  }

  /** The ids with controls after adding cs: the old ones and those the courses declare. */
  lemma {:induction false} AddCoursesKeys(e: Entries, p: Program, cs: seq<Course>)
    ensures forall id :: id in AddCourses(e, p, cs) <==> id in e || exists j :: DeclaresAt(p, cs, j, id)
  {
    if cs != [] {
      var front := cs[..|cs| - 1];
      var n := |cs| - 1;
      AddCoursesKeys(e, p, front);
      var acc := AddCourses(e, p, front);
      var last := CourseRef(p.id, cs[n].key);
      assert AddCourses(e, p, cs) == if last in acc then acc else acc[last := InitialEntry(cs[n])];
      forall id | id in AddCourses(e, p, cs) && id !in e ensures exists j :: DeclaresAt(p, cs, j, id) {
        if id in acc {
          var j :| DeclaresAt(p, front, j, id);
          assert DeclaresAt(p, cs, j, id);
        } else {
          assert DeclaresAt(p, cs, n, id);
        }
      }
      forall id, j | DeclaresAt(p, cs, j, id) ensures id in AddCourses(e, p, cs) {
        if j < n { assert DeclaresAt(p, front, j, id); }
      }
    }
  }

  /** Adding courses never replaces existing controls. */
  lemma {:induction false} AddCoursesKeeps(e: Entries, p: Program, cs: seq<Course>)
    ensures forall id :: id in e ==> id in AddCourses(e, p, cs) && AddCourses(e, p, cs)[id] == e[id]
  {
    if cs != [] {
      AddCoursesKeeps(e, p, cs[..|cs| - 1]);
    }
  }

  /** New controls are the initial controls of a course declaring the id. */
  lemma {:induction false} AddCoursesValues(e: Entries, p: Program, cs: seq<Course>)
    ensures forall id :: id in AddCourses(e, p, cs) && id !in e ==>
      exists j :: DeclaresAt(p, cs, j, id) && AddCourses(e, p, cs)[id] == InitialEntry(cs[j])
  {
    if cs != [] {
      var front := cs[..|cs| - 1];
      var n := |cs| - 1;
      AddCoursesValues(e, p, front);
      var acc := AddCourses(e, p, front);
      var r := AddCourses(e, p, cs);
      forall id | id in r && id !in e ensures exists j :: DeclaresAt(p, cs, j, id) && r[id] == InitialEntry(cs[j]) {
        if id in acc {
          var j :| DeclaresAt(p, front, j, id) && acc[id] == InitialEntry(front[j]);
          assert DeclaresAt(p, cs, j, id) && r[id] == InitialEntry(cs[j]);
        } else {
          assert DeclaresAt(p, cs, n, id);
        }
      }
    }
  }

  /**
   * buildCourseList's state: there are controls exactly for the ids of the
   * courses of progs, all unchecked, each the initial controls of a course
   * with that id.
   */
  lemma {:induction false} InitialEntriesSpec(progs: seq<Program>)
    ensures forall id :: id in InitialEntries(progs) <==>
      exists i, j :: IsCourseOf(progs, i, j) && RefOf(progs, i, j) == id
    ensures forall id :: id in InitialEntries(progs) ==>
      exists i, j :: IsCourseOf(progs, i, j) && RefOf(progs, i, j) == id &&
                     InitialEntries(progs)[id] == InitialEntry(progs[i].courses[j])
  {
    if progs != [] {
      var front := progs[..|progs| - 1];
      var n := |progs| - 1;
      var p := progs[n];
      InitialEntriesSpec(front);
      var acc := InitialEntries(front);
      AddCoursesKeys(acc, p, p.courses);
      AddCoursesKeeps(acc, p, p.courses);
      AddCoursesValues(acc, p, p.courses);
      var r := InitialEntries(progs);
      forall id | id in r ensures exists i, j :: IsCourseOf(progs, i, j) && RefOf(progs, i, j) == id && r[id] == InitialEntry(progs[i].courses[j]) {
        if id in acc {
          assert id in InitialEntries(front);
          var i, j :| IsCourseOf(front, i, j) && RefOf(front, i, j) == id && acc[id] == InitialEntry(front[i].courses[j]);
          assert progs[i] == front[i];
          assert IsCourseOf(progs, i, j) && RefOf(progs, i, j) == id;
        } else {
          var j :| DeclaresAt(p, p.courses, j, id) && r[id] == InitialEntry(p.courses[j]);
          assert IsCourseOf(progs, n, j) && RefOf(progs, n, j) == id;
        }
      }
      forall id | exists i, j :: IsCourseOf(progs, i, j) && RefOf(progs, i, j) == id ensures id in r {
        var i, j :| IsCourseOf(progs, i, j) && RefOf(progs, i, j) == id;
        if i < n {
          assert progs[i] == front[i];
          assert IsCourseOf(front, i, j) && RefOf(front, i, j) == id;
          assert id in acc;
        } else {
          assert DeclaresAt(p, p.courses, j, id);
        }
      }
    }
  }

  /**
   * getElementById finds the first selector with an id: a course of p gets the
   * initial controls of the first course of cs with its key.
   */
  lemma {:induction false} AddCoursesFirst(e: Entries, p: Program, cs: seq<Course>, key: string)
    requires CourseRef(p.id, key) !in e
    requires FindCourse(cs, key).Some?
    ensures CourseRef(p.id, key) in AddCourses(e, p, cs)
    ensures AddCourses(e, p, cs)[CourseRef(p.id, key)] == InitialEntry(FindCourse(cs, key).value)
  {
    var id := CourseRef(p.id, key);
    var front := cs[..|cs| - 1];
    var last := cs[|cs| - 1];
    assert cs == front + [last];
    FindCourseSnoc(front, last, key);
    var acc := AddCourses(e, p, front);
    if FindCourse(front, key).Some? {
      AddCoursesFirst(e, p, front, key);
    } else {
      FindCourseSpec(front, key);
      AddCoursesKeys(e, p, front);
      assert id !in acc;
    }
  }

  /** Program ids of progs are pairwise different (true of the programs of every mode). */
  predicate DistinctIds(progs: seq<Program>)
  {
    forall a, b :: 0 <= a < b < |progs| ==> progs[a].id != progs[b].id
  }

  /** With distinct program ids, each course id has the controls of the first course with its key. */
  lemma {:induction false} InitialEntriesFirst(progs: seq<Program>, i: nat, key: string)
    requires DistinctIds(progs)
    requires i < |progs| && FindCourse(progs[i].courses, key).Some?
    ensures CourseRef(progs[i].id, key) in InitialEntries(progs)
    ensures InitialEntries(progs)[CourseRef(progs[i].id, key)] == InitialEntry(FindCourse(progs[i].courses, key).value)
  {
    var n := |progs| - 1;
    var front := progs[..n];
    var p := progs[n];
    var acc := InitialEntries(front);
    var id := CourseRef(progs[i].id, key);
    if i < n {
      assert progs[i] == front[i];
      InitialEntriesFirst(front, i, key);
      AddCoursesKeeps(acc, p, p.courses);
    } else {
      InitialEntriesSpec(front);
      assert id !in acc;
      AddCoursesFirst(acc, p, p.courses, key);
    }
  }

  /**
   * The selector of every enabled course holds one of the group options of
   * the course getCourseDef finds for its id.
   */
  predicate GroupsValid(data: Data, e: Entries)
  {
    forall id :: id in e && e[id].enabled ==>
      GetCourseDef(data, id.programId, id.courseKey).Some? &&
      e[id].group in Groups(GetCourseDef(data, id.programId, id.courseKey).value.sessions)
  }

  /**
   * buildCourseList gives each course id the initial controls of the course
   * getCourseDef finds for it, so every enabled selector starts on one of its
   * course's group options.
   */
  lemma InitialGroupsValid(data: Data, mode: string)
    ensures var e := InitialEntries(ProgramsByMode(data, mode));
      forall id :: id in e ==>
        GetCourseDef(data, id.programId, id.courseKey).Some? &&
        e[id] == InitialEntry(GetCourseDef(data, id.programId, id.courseKey).value)
    ensures GroupsValid(data, InitialEntries(ProgramsByMode(data, mode)))
  {
    var progs := ProgramsByMode(data, mode);
    var e := InitialEntries(progs);
    ProgramsByModeSpec(data, mode);
    assert DistinctIds(progs);
    InitialEntriesSpec(progs);
    forall id | id in e
      ensures GetCourseDef(data, id.programId, id.courseKey).Some? &&
              e[id] == InitialEntry(GetCourseDef(data, id.programId, id.courseKey).value)
    {
      var i, j :| IsCourseOf(progs, i, j) && RefOf(progs, i, j) == id;
      InitialEntryOfCourse(data, progs, i, j);
    }
    forall id | id in e && e[id].enabled
      ensures e[id].group in Groups(GetCourseDef(data, id.programId, id.courseKey).value.sessions)
    {
      assert Groups(GetCourseDef(data, id.programId, id.courseKey).value.sessions)[0] == e[id].group;
    }
  }

  /** The controls of course j of program i are the initial controls of the course getCourseDef finds. */
  lemma InitialEntryOfCourse(data: Data, progs: seq<Program>, i: nat, j: nat)
    requires DistinctIds(progs) && IsCourseOf(progs, i, j)
    requires FindProgram(data.programs, progs[i].id) == Some(progs[i])
    ensures var id := RefOf(progs, i, j);
      id in InitialEntries(progs) &&
      GetCourseDef(data, id.programId, id.courseKey).Some? &&
      InitialEntries(progs)[id] == InitialEntry(GetCourseDef(data, id.programId, id.courseKey).value)
  {
    var key := progs[i].courses[j].key;
    FindCourseSpec(progs[i].courses, key);
    assert progs[i].courses[j] in progs[i].courses;
    InitialEntriesFirst(progs, i, key);
  }

  /** The filter condition of app.js line 106, as written; it reduces to s.group == grp. */
  predicate InGroup(s: Session, grp: int, enabled: bool)
    ensures InGroup(s, grp, enabled) <==> s.group == grp
  {
    s.group == grp || (enabled && s.group == grp)
  }

  /** c.sessions.filter(...) for the chosen group, in order. */
  function FilterGroup(ss: seq<Session>, grp: int, enabled: bool): seq<Session>
  {
    if ss == [] then []
    else
      var s := ss[|ss| - 1];
      FilterGroup(ss[..|ss| - 1], grp, enabled) + (if InGroup(s, grp, enabled) then [s] else [])
  }

  /**
   * The filter keeps each session of the chosen group as often as it occurs,
   * and no other; it is empty exactly when no session has that group.
   */
  lemma {:induction false} FilterGroupSpec(ss: seq<Session>, grp: int, enabled: bool)
    ensures forall s :: multiset(FilterGroup(ss, grp, enabled))[s] == if s.group == grp then multiset(ss)[s] else 0
    ensures |FilterGroup(ss, grp, enabled)| > 0 <==> HasGroup(ss, grp)
  {
    if ss != [] {
      var front := ss[..|ss| - 1];
      var last := ss[|ss| - 1];
      assert ss == front + [last];
      FilterGroupSpec(front, grp, enabled);
      assert HasGroup(ss, grp) <==> HasGroup(front, grp) || last.group == grp by {
        if x :| x in ss && x.group == grp && x != last { assert x in front; }
      }
    }
  }

  /**
   * The filter keeps session order: filtering a concatenation filters each part
   * in turn, and a single session is kept exactly when it has the chosen group.
   */
  lemma {:induction false} FilterGroupOrder(xs: seq<Session>, ys: seq<Session>, grp: int, enabled: bool)
    ensures FilterGroup(xs + ys, grp, enabled) == FilterGroup(xs, grp, enabled) + FilterGroup(ys, grp, enabled)
    ensures |xs| == 1 ==> FilterGroup(xs, grp, enabled) == if xs[0].group == grp then xs else []
    decreases |ys|
  {
    if |xs| == 1 {
      assert xs[..0] == [];
    }
    if ys == [] {
      assert xs + ys == xs;
    } else {
      var front := ys[..|ys| - 1];
      assert (xs + ys)[..|xs + ys| - 1] == xs + front;
      assert (xs + ys)[|xs + ys| - 1] == ys[|ys| - 1];
      FilterGroupOrder(xs, front, grp, enabled);
    }
  }

  /** The sessions a checked course contributes: its chosen group's, or all when none match. */
  function UseSessions(ss: seq<Session>, grp: int, enabled: bool): (r: seq<Session>)
  {
    var matching := FilterGroup(ss, grp, enabled);
    if |matching| > 0 then matching else ss
  }

  /** Tags each session with its program and course. */
  function Tag(p: Program, c: Course, ss: seq<Session>): (r: seq<Resolved>)
  {
    seq(|ss|, i requires 0 <= i < |ss| => Resolved(p.name, p.id, c.key, c.name, ss[i]))
  }

  function SessionsOf(rs: seq<Resolved>): (r: seq<Session>)
  {
    seq(|rs|, i requires 0 <= i < |rs| => rs[i].session)
  }

  /** What one course of program p contributes to selectedSessions (app.js lines 98-108). */
  function CourseSessions(p: Program, c: Course, e: Entries): seq<Resolved>
  {
    var id := CourseRef(p.id, c.key);
    if id !in e || !e[id].checked then []
    else Tag(p, c, UseSessions(c.sessions, e[id].group, e[id].enabled))
  }

  /**
   * A course contributes nothing when it is unchecked (or has no controls);
   * otherwise exactly its sessions of the chosen group, each as often as it
   * occurs, or all its sessions when no session has that group; every
   * contributed session carries the course's program and course names.
   */
  lemma CourseContribution(p: Program, c: Course, e: Entries)
    ensures var id := CourseRef(p.id, c.key);
      (id !in e || !e[id].checked) ==> CourseSessions(p, c, e) == []
    ensures forall x :: x in CourseSessions(p, c, e) ==>
      x.program == p.name && x.programId == p.id && x.courseKey == c.key && x.course == c.name
    ensures var id := CourseRef(p.id, c.key);
      id in e && e[id].checked && HasGroup(c.sessions, e[id].group) ==>
        forall s :: multiset(SessionsOf(CourseSessions(p, c, e)))[s] ==
                    if s.group == e[id].group then multiset(c.sessions)[s] else 0
    ensures var id := CourseRef(p.id, c.key);
      id in e && e[id].checked && HasGroup(c.sessions, e[id].group) ==>
        SessionsOf(CourseSessions(p, c, e)) == FilterGroup(c.sessions, e[id].group, e[id].enabled) &&
        |SessionsOf(CourseSessions(p, c, e))| > 0
    ensures var id := CourseRef(p.id, c.key);
      id in e && e[id].checked && !HasGroup(c.sessions, e[id].group) ==>
        SessionsOf(CourseSessions(p, c, e)) == c.sessions
  {
    var id := CourseRef(p.id, c.key);
    if id in e && e[id].checked {
      var use := UseSessions(c.sessions, e[id].group, e[id].enabled);
      assert SessionsOf(CourseSessions(p, c, e)) == use;
      FilterGroupSpec(c.sessions, e[id].group, e[id].enabled);
    }
  }

  /** CourseSessions of program p as a function of the course. */
  function CourseFn(p: Program, e: Entries): Course -> seq<Resolved>
  {
    (c: Course) => CourseSessions(p, c, e)
  }

  /** The contributions of the courses cs of program p, in course order. */
  function ProgramSessions(p: Program, cs: seq<Course>, e: Entries): seq<Resolved>
  {
    FlatMap(cs, CourseFn(p, e))
  }

  /** The contributions of a program's own courses, as a function of the program. */
  function ProgramFn(e: Entries): Program -> seq<Resolved>
  {
    (p: Program) => ProgramSessions(p, p.courses, e)
  }

  /** selectedSessions over the given programs, in program order. */
  function SelectedOf(progs: seq<Program>, e: Entries): seq<Resolved>
  {
    FlatMap(progs, ProgramFn(e))
  }

  /** selectedSessions for a mode. */
  function Selected(data: Data, mode: string, e: Entries): seq<Resolved>
  {
    SelectedOf(ProgramsByMode(data, mode), e)
  }

  /** Course order is kept: the contributions of cs1 + cs2 are those of cs1 followed by those of cs2. */
  lemma ProgramSessionsAppend(p: Program, cs1: seq<Course>, cs2: seq<Course>, e: Entries)
    ensures ProgramSessions(p, cs1 + cs2, e) == ProgramSessions(p, cs1, e) + ProgramSessions(p, cs2, e)
  {
    FlatMapAppend(cs1, cs2, CourseFn(p, e));
  }

  /** Program order is kept: the sessions of progs1 + progs2 are those of progs1 followed by those of progs2. */
  lemma SelectedOfAppend(progs1: seq<Program>, progs2: seq<Program>, e: Entries)
    ensures SelectedOf(progs1 + progs2, e) == SelectedOf(progs1, e) + SelectedOf(progs2, e)
  {
    FlatMapAppend(progs1, progs2, ProgramFn(e));
  }

  /** The checkboxes and group selectors of the course list. */
  class SelectionStore {
    var entries: Entries

    /** buildCourseList: fresh controls for every course of the mode's programs. */
    constructor Build(data: Data, mode: string)
      ensures entries == InitialEntries(ProgramsByMode(data, mode))
    {
      var progs := ProgramsByMode(data, mode);
      var m: Entries := map[];
      for i := 0 to |progs|
        invariant m == InitialEntries(progs[..i])
      {
        var prog := progs[i];
        assert progs[..i + 1][..i] == progs[..i];
        ghost var before := m;
        for j := 0 to |prog.courses|
          invariant m == AddCourses(before, prog, prog.courses[..j])
        {
          var c := prog.courses[j];
          assert prog.courses[..j + 1][..j] == prog.courses[..j];
          var id := CourseRef(prog.id, c.key);
          if id !in m {
            m := m[id := InitialEntry(c)];
          }
        }
        assert prog.courses[..|prog.courses|] == prog.courses;
      }
      assert progs[..|progs|] == progs;
      entries := m;
    }

    /** The user ticks or clears a course's checkbox. */
    method SetChecked(id: CourseRef, checked: bool)
      requires id in entries
      modifies this
      ensures entries == old(entries)[id := old(entries)[id].(checked := checked)]
    {
      entries := entries[id := entries[id].(checked := checked)];
    }

    /** sel.value = String(group) */
    method SetGroup(id: CourseRef, group: int)
      requires id in entries
      modifies this
      ensures entries == old(entries)[id := old(entries)[id].(group := group)]
    {
      entries := entries[id := entries[id].(group := group)];
    }

    /** selectedSessions: the sessions in effect for the current controls. */
    method SelectedSessions(data: Data, mode: string) returns (out: seq<Resolved>)
      ensures out == Selected(data, mode, entries)
    {
      out := [];
      var progs := ProgramsByMode(data, mode);
      for i := 0 to |progs|
        invariant out == SelectedOf(progs[..i], entries)
      {
        FlatMapStep(progs, i, ProgramFn(entries));
        out := PushProgram(out, progs[i]);
      }
      assert progs[..|progs|] == progs;
    }

    /** The body of selectedSessions' loop over one program's courses. */
    method PushProgram(out: seq<Resolved>, prog: Program) returns (r: seq<Resolved>)
      ensures r == out + ProgramSessions(prog, prog.courses, entries)
    {
      r := out;
      for j := 0 to |prog.courses|
        invariant r == out + ProgramSessions(prog, prog.courses[..j], entries)
      {
        var c := prog.courses[j];
        FlatMapStep(prog.courses, j, CourseFn(prog, entries));
        var id := CourseRef(prog.id, c.key);
        if id in entries && entries[id].checked {
          var grp := entries[id].group;
          var sessions := FilterGroup(c.sessions, grp, entries[id].enabled);
          var use := if |sessions| > 0 then sessions else c.sessions;
          r := PushTagged(r, prog, c, use);
        }
      }
      assert prog.courses[..|prog.courses|] == prog.courses;
    }
  }

  /** use.forEach(s => out.push({program, programId, courseKey, course, ...s})) */
  method PushTagged(out: seq<Resolved>, prog: Program, c: Course, use: seq<Session>) returns (r: seq<Resolved>)
    ensures r == out + Tag(prog, c, use)
  {
    r := out;
    for k := 0 to |use|
      invariant r == out + Tag(prog, c, use[..k])
    {
      assert Tag(prog, c, use[..k + 1]) == Tag(prog, c, use[..k]) + [Resolved(prog.name, prog.id, c.key, c.name, use[k])];
      r := r + [Resolved(prog.name, prog.id, c.key, c.name, use[k])];
    }
    assert use[..|use|] == use;
  }
}
