/**
 * The immutable, already-parsed catalog (programs -> courses -> sessions),
 * program selection by mode, course ids, course lookup and group extraction.
 */
module Catalog {
  import opened Time

  datatype Option<T> = None | Some(value: T)

  /** One scheduled occurrence of a course. Group 0 means "no grouping". */
  datatype Session = Session(day: string, start: Token, end: Token, room: string, teacher: string, group: int)

  datatype Course = Course(key: string, name: string, sessions: seq<Session>)

  datatype Program = Program(id: string, name: string, courses: seq<Course>)

  datatype Data = Data(programs: seq<Program>)

  /** A session tagged with its program and course, as selectedSessions pushes it. */
  datatype Resolved = Resolved(program: string, programId: string, courseKey: string, course: string, session: Session)

  /** programs.find(p => p.id === id) */
  function FindProgram(ps: seq<Program>, id: string): Option<Program>
  {
    if ps == [] then None
    else if ps[0].id == id then Some(ps[0])
    else FindProgram(ps[1..], id)
  }

  /** find returns the first program with the id, and nothing exactly when there is none. */
  lemma {:induction false} FindProgramSpec(ps: seq<Program>, id: string)
    ensures var r := FindProgram(ps, id);
      (r.Some? <==> exists p :: p in ps && p.id == id) &&
      (r.Some? ==> exists i :: (0 <= i < |ps| && ps[i] == r.value && r.value.id == id &&
                               forall k :: 0 <= k < i ==> ps[k].id != id))
  {
    if ps != [] && ps[0].id != id {
      FindProgramSpec(ps[1..], id);
      var r := FindProgram(ps, id);
      if r.Some? {
        var i :| 0 <= i < |ps[1..]| && ps[1..][i] == r.value && forall k :: 0 <= k < i ==> ps[1..][k].id != id;
        assert ps[i + 1] == r.value;
        forall k | 0 <= k < i + 1 ensures ps[k].id != id { if k > 0 { assert ps[k] == ps[1..][k - 1]; } }
      }
      if p :| p in ps && p.id == id { assert p in ps[1..]; }
    }
  }

  /** courses.find(c => c.key === key) */
  function FindCourse(cs: seq<Course>, key: string): Option<Course>
  {
    if cs == [] then None
    else if cs[0].key == key then Some(cs[0])
    else FindCourse(cs[1..], key)
  }

  /** find returns the first course with the key, and nothing exactly when there is none. */
  lemma {:induction false} FindCourseSpec(cs: seq<Course>, key: string)
    ensures var r := FindCourse(cs, key);
      (r.Some? <==> exists c :: c in cs && c.key == key) &&
      (r.Some? ==> exists i :: (0 <= i < |cs| && cs[i] == r.value && r.value.key == key &&
                               forall k :: 0 <= k < i ==> cs[k].key != key))
  {
    if cs != [] && cs[0].key != key {
      FindCourseSpec(cs[1..], key);
      var r := FindCourse(cs, key);
      if r.Some? {
        var i :| 0 <= i < |cs[1..]| && cs[1..][i] == r.value && forall k :: 0 <= k < i ==> cs[1..][k].key != key;
        assert cs[i + 1] == r.value;
        forall k | 0 <= k < i + 1 ensures cs[k].key != key { if k > 0 { assert cs[k] == cs[1..][k - 1]; } }
      }
      if c :| c in cs && c.key == key { assert c in cs[1..]; }
    }
  }

  /** Appending a course changes find's result only when no earlier course has the key. */
  lemma {:induction false} FindCourseSnoc(cs: seq<Course>, c: Course, key: string)
    ensures FindCourse(cs + [c], key) ==
      if FindCourse(cs, key).Some? then FindCourse(cs, key) else if c.key == key then Some(c) else None
  {
    if cs != [] {
      assert (cs + [c])[1..] == cs[1..] + [c];
      FindCourseSnoc(cs[1..], c, key);
    }
  }

  /** [p].filter(Boolean) */
  function Present(p: Option<Program>): seq<Program>
  {
    if p.Some? then [p.value] else []
  }

  /** getProgramsByMode (app.js lines 28-35). */
  function ProgramsByMode(data: Data, mode: string): seq<Program>
  {
    var p1 := FindProgram(data.programs, "bp1");
    var p2 := FindProgram(data.programs, "bp2");
    if mode == "y1" then Present(p1)
    else if mode == "y2" then Present(p2)
    else Present(p1) + Present(p2)
  }

  /**
   * "y1" keeps program bp1, "y2" keeps bp2, anything else keeps bp1 then bp2;
   * each kept program is the catalog's first with that id, and a program
   * missing from the catalog is dropped.
   */
  lemma ProgramsByModeSpec(data: Data, mode: string)
    ensures var r := ProgramsByMode(data, mode);
      |r| <= 2 &&
      ((mode == "y1" || mode == "y2") ==> |r| <= 1) &&
      (forall p :: p in r ==> p.id == "bp1" || p.id == "bp2") &&
      (forall p :: p in r ==> p in data.programs) &&
      (forall i :: 0 <= i < |r| ==> FindProgram(data.programs, r[i].id) == Some(r[i])) &&
      (mode == "y1" ==> forall p :: p in r ==> p.id == "bp1") &&
      (mode == "y2" ==> forall p :: p in r ==> p.id == "bp2") &&
      (mode != "y1" && mode != "y2" ==> forall i, j :: 0 <= i < j < |r| ==> r[i].id == "bp1" && r[j].id == "bp2") &&
      ((exists p :: p in r && p.id == "bp1") <==> mode != "y2" && exists p :: p in data.programs && p.id == "bp1") &&
      ((exists p :: p in r && p.id == "bp2") <==> mode != "y1" && exists p :: p in data.programs && p.id == "bp2")
  {
    FindProgramSpec(data.programs, "bp1");
    FindProgramSpec(data.programs, "bp2");
  }

  /**
   * The two parts of a course id. The selection store is keyed by these parts
   * rather than by the joined string: CourseIdInjective shows that for program
   * ids without ':' (all the ids getProgramsByMode keeps) the two keyings agree.
   */
  datatype CourseRef = CourseRef(programId: string, courseKey: string)

  /** courseId: "<programId>:<courseKey>", the id of a course's checkbox and selector. */
  function CourseId(programId: string, courseKey: string): string
  {
    programId + ":" + courseKey
  }

  /** Course ids are unambiguous as long as program ids contain no ':' (true of "bp1" and "bp2"). */
  lemma CourseIdInjective(p1: string, k1: string, p2: string, k2: string)
    requires ':' !in p1 && ':' !in p2
    requires CourseId(p1, k1) == CourseId(p2, k2)
    ensures p1 == p2 && k1 == k2
  {
    var s := CourseId(p1, k1);
    ColonAfterProgramId(p1, k1);
    ColonAfterProgramId(p2, k2);
    assert p1 == s[..|p1|] == p2;
    assert k1 == s[|p1| + 1..] == k2;
  }

  /** Position of the first ':' in s (|s| when there is none). */
  function FirstColon(s: string): nat
  {
    if s == [] || s[0] == ':' then 0 else 1 + FirstColon(s[1..])
  }

  lemma {:induction false} ColonAfterProgramId(p: string, k: string)
    requires ':' !in p
    ensures FirstColon(CourseId(p, k)) == |p|
  {
    if p != [] {
      assert CourseId(p, k)[1..] == CourseId(p[1..], k);
      ColonAfterProgramId(p[1..], k);
    }
  }

  /** getCourseDef: the first course with that key in the first program with that id. */
  function GetCourseDef(data: Data, programId: string, courseKey: string): Option<Course>
  {
    match FindProgram(data.programs, programId)
    case None => None
    case Some(p) => FindCourse(p.courses, courseKey)
  }

  /** getCourseDef finds a course exactly when the first program with the id has a course with the key. */
  lemma GetCourseDefSpec(data: Data, programId: string, courseKey: string)
    ensures var r := GetCourseDef(data, programId, courseKey);
      var p := FindProgram(data.programs, programId);
      (r.Some? <==> p.Some? && exists c :: c in p.value.courses && c.key == courseKey) &&
      (r.Some? ==> r.value.key == courseKey && r.value in p.value.courses && p.value in data.programs && p.value.id == programId) &&
      (r.Some? ==> exists i :: (0 <= i < |p.value.courses| && p.value.courses[i] == r.value &&
                               forall k :: 0 <= k < i ==> p.value.courses[k].key != courseKey))
  {
    FindProgramSpec(data.programs, programId);
    var p := FindProgram(data.programs, programId);
    if p.Some? {
      FindCourseSpec(p.value.courses, courseKey);
    }
  }

  predicate StrictlyAscending(xs: seq<int>)
  {
    forall i, j :: 0 <= i < j < |xs| ==> xs[i] < xs[j]
  }

  /** Inserts g into an ascending list of distinct values, keeping it so. */
  function InsertGroup(xs: seq<int>, g: int): (r: seq<int>)
    requires StrictlyAscending(xs)
    ensures StrictlyAscending(r)
    ensures forall x :: x in r <==> x in xs || x == g
  {
    if xs == [] then [g]
    else if g < xs[0] then [g] + xs
    else if g == xs[0] then xs
    else
      var rest := InsertGroup(xs[1..], g);
      assert forall x :: x in rest ==> xs[0] < x;
      ConsAscending(xs[0], rest);
      [xs[0]] + rest
  }

  /** A value below every element of an ascending list of distinct values can go in front. */
  lemma ConsAscending(x: int, xs: seq<int>)
    requires StrictlyAscending(xs)
    requires forall y :: y in xs ==> x < y
    ensures StrictlyAscending([x] + xs)
  {
    var r := [x] + xs;
    forall i, j | 0 <= i < j < |r| ensures r[i] < r[j] {
      assert r[j] == xs[j - 1];
      if i > 0 {
        assert r[i] == xs[i - 1];
      } else {
        assert xs[j - 1] in xs;
      }
    }
  }

  /**
   * The group options of a course: its distinct non-zero group values in
   * ascending numeric order (app.js lines 60 and 153).
   */
  function Groups(ss: seq<Session>): (r: seq<int>)
    ensures StrictlyAscending(r)
  {
    if ss == [] then []
    else
      var rest := Groups(ss[1..]);
      if ss[0].group == 0 then rest else InsertGroup(rest, ss[0].group)
  }

  /** The group options are exactly the non-zero group values of the sessions. */
  lemma {:induction false} GroupsSpec(ss: seq<Session>)
    ensures forall g :: g in Groups(ss) <==> g != 0 && HasGroup(ss, g)
  {
    if ss != [] {
      GroupsSpec(ss[1..]);
      forall g ensures HasGroup(ss, g) <==> g == ss[0].group || HasGroup(ss[1..], g) {
        if s :| s in ss && s.group == g && s != ss[0] {
          assert s in ss[1..];
        }
      }
    }
  }

  /** Some session carries group value g. */
  predicate HasGroup(ss: seq<Session>, g: int)
  {
    exists s :: s in ss && s.group == g
  }

  /** sessions.filter(s => s.day === day), in order. */
  function OnDay(ss: seq<Resolved>, day: string): seq<Resolved>
  {
    if ss == [] then []
    else
      var last := ss[|ss| - 1];
      OnDay(ss[..|ss| - 1], day) + (if last.session.day == day then [last] else [])
  }

  /** The day filter keeps exactly the sessions on that day, each as often as it occurs. */
  lemma {:induction false} OnDaySpec(ss: seq<Resolved>, day: string)
    ensures forall x :: multiset(OnDay(ss, day))[x] == if x.session.day == day then multiset(ss)[x] else 0
    ensures forall x :: x in OnDay(ss, day) <==> x in ss && x.session.day == day
  {
    if ss != [] {
      var front := ss[..|ss| - 1];
      assert ss == front + [ss[|ss| - 1]];
      OnDaySpec(front, day);
    }
  }

  /**
   * The day filter keeps input order: filtering xs + ys filters xs, then ys,
   * and a single session is kept exactly when it is on that day.
   */
  lemma {:induction false} OnDayOrder(xs: seq<Resolved>, ys: seq<Resolved>, day: string)
    ensures OnDay(xs + ys, day) == OnDay(xs, day) + OnDay(ys, day)
    ensures |xs| == 1 ==> OnDay(xs, day) == if xs[0].session.day == day then xs else []
    decreases |ys|
  {
    if |xs| == 1 {
      assert xs[..0] == [];
    }
    if ys == [] {
      assert xs + ys == xs;
    } else {
      var front := ys[..|ys| - 1];
      assert (xs + ys)[..|xs + ys| - 1] == xs + front;
      assert (xs + ys)[|xs + ys| - 1] == ys[|ys| - 1];
      OnDayOrder(xs, front, day);
    }
  }

  /** items.filter(x => x.start !== "Online"), in order. */
  function Timed(ss: seq<Resolved>): seq<Resolved>
  {
    if ss == [] then []
    else
      var last := ss[|ss| - 1];
      Timed(ss[..|ss| - 1]) + (if last.session.start != Online then [last] else [])
  }

  /** The Online filter keeps exactly the sessions not starting "Online". */
  lemma {:induction false} TimedSpec(ss: seq<Resolved>)
    ensures forall x :: multiset(Timed(ss))[x] == if x.session.start != Online then multiset(ss)[x] else 0
    ensures forall x :: x in Timed(ss) <==> x in ss && x.session.start != Online
    ensures |Timed(ss)| <= |ss|
  {
    if ss != [] {
      var front := ss[..|ss| - 1];
      assert ss == front + [ss[|ss| - 1]];
      TimedSpec(front);
    }
  }

  /**
   * The Online filter keeps input order: filtering xs + ys filters xs, then
   * ys, and a single session is kept exactly when it does not start "Online".
   */
  lemma {:induction false} TimedOrder(xs: seq<Resolved>, ys: seq<Resolved>)
    ensures Timed(xs + ys) == Timed(xs) + Timed(ys)
    ensures |xs| == 1 ==> Timed(xs) == if xs[0].session.start != Online then xs else []
    decreases |ys|
  {
    if |xs| == 1 {
      assert xs[..0] == [];
    }
    if ys == [] {
      assert xs + ys == xs;
    } else {
      var front := ys[..|ys| - 1];
      assert (xs + ys)[..|xs + ys| - 1] == xs + front;
      assert (xs + ys)[|xs + ys| - 1] == ys[|ys| - 1];
      TimedOrder(xs, front);
    }
  }

  /** The timed sessions of a day, in order: byDay[day].filter(x => x.start !== "Online"). */
  function DayItems(ss: seq<Resolved>, day: string): seq<Resolved>
  {
    Timed(OnDay(ss, day))
  }

  /** The overlap test applied to two tagged sessions. */
  predicate SessionsOverlap(a: Resolved, b: Resolved)
  {
    Overlap(a.session.start, a.session.end, b.session.start, b.session.end)
  }
}
