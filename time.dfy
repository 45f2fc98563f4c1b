/**
 * Time-of-day tokens and the half-open overlap test (app.js, timeToMin and overlap).
 *
 * JavaScript numbers are modelled as integers plus NaN: every value the
 * source computes from "HH:MM" tokens is an integer, and a malformed token
 * parses to NaN, which compares false with everything.
 */
module Time {

  /** A start/end token of a session as it appears in the catalog. */
  datatype Token =
    | Online            // the sentinel "Online"
    | Empty             // the empty string (falsy in JavaScript)
    | HM(h: nat, m: nat) // a well-formed "HH:MM"
    | Bad               // anything else: Number() of a part gives NaN

  /** A JavaScript number restricted to what the schedule code can produce. */
  datatype Num = Finite(v: int) | NaN

  /** The result of timeToMin: null, or a number (possibly NaN). */
  datatype Minutes = Null | Value(n: Num)

  /** timeToMin: minutes since midnight, null for "" and "Online", NaN for a malformed token. */
  function TimeToMin(t: Token): (r: Minutes)
    ensures r == Null <==> t == Online || t == Empty
    ensures r == Value(NaN) <==> t == Bad
    ensures t.HM? ==> r == Value(Finite(60 * t.h + t.m)) && 0 <= r.n.v
  {
    match t
    case Online => Null
    case Empty => Null
    case HM(h, m) => Value(Finite(h * 60 + m))
    case Bad => Value(NaN)
  }

  /** ToNumber on a timeToMin result: null becomes +0, numbers stay (this is also `?? 0`). */
  function NullToZero(x: Minutes): Num
  {
    match x
    case Null => Finite(0)
    case Value(n) => n
  }

  /** Math.max of two numbers: NaN if either is NaN. */
  function JsMax(a: Num, b: Num): Num
  {
    if a.NaN? || b.NaN? then NaN
    else Finite(if a.v < b.v then b.v else a.v)
  }

  /** Math.min of two numbers: NaN if either is NaN. */
  function JsMin(a: Num, b: Num): Num
  {
    if a.NaN? || b.NaN? then NaN
    else Finite(if a.v < b.v then a.v else b.v)
  }

  /** Addition: NaN if either operand is NaN. */
  function JsAdd(a: Num, b: Num): Num
  {
    if a.NaN? || b.NaN? then NaN else Finite(a.v + b.v)
  }

  /** Subtraction: NaN if either operand is NaN. */
  function JsSub(a: Num, b: Num): Num
  {
    if a.NaN? || b.NaN? then NaN else Finite(a.v - b.v)
  }

  /** The `<` comparison: false whenever NaN is involved. */
  predicate JsLess(a: Num, b: Num)
  {
    a.Finite? && b.Finite? && a.v < b.v
  }

  /** Minutes of a well-formed token. */
  function Mins(t: Token): int
    requires t.HM?
  {
    60 * t.h + t.m
  }

  function Max(x: int, y: int): int { if x < y then y else x }

  function Min(x: int, y: int): int { if x < y then x else y }

  /**
   * overlap(a, b) on the four tokens, with JavaScript's semantics: false when a
   * start is null; a null end is coerced to 0 by Math.min; NaN compares false.
   * Its contract characterises the result completely: the test holds exactly
   * when all four tokens are well formed and the half-open ranges intersect.
   */
  predicate Overlap(aStart: Token, aEnd: Token, bStart: Token, bEnd: Token)
    ensures Overlap(aStart, aEnd, bStart, bEnd) <==>
      aStart.HM? && aEnd.HM? && bStart.HM? && bEnd.HM? &&
      Max(Mins(aStart), Mins(bStart)) < Min(Mins(aEnd), Mins(bEnd))
  {
    var aS, aE := TimeToMin(aStart), TimeToMin(aEnd);
    var bS, bE := TimeToMin(bStart), TimeToMin(bEnd);
    if aS == Null || bS == Null then false
    else JsLess(JsMax(aS.n, bS.n), JsMin(NullToZero(aE), NullToZero(bE)))
  }

  /** A null start (empty or Online) on either side means no overlap. */
  lemma NullStartNeverOverlaps(aStart: Token, aEnd: Token, bStart: Token, bEnd: Token)
    requires TimeToMin(aStart) == Null || TimeToMin(bStart) == Null
    ensures !Overlap(aStart, aEnd, bStart, bEnd)
  {
  }

  /** A null end is coerced to 0, so with non-negative starts there is no overlap. */
  lemma NullEndNeverOverlaps(aStart: Token, aEnd: Token, bStart: Token, bEnd: Token)
    requires TimeToMin(aEnd) == Null || TimeToMin(bEnd) == Null
    ensures !Overlap(aStart, aEnd, bStart, bEnd)
  {
  }

  /** The overlap test is symmetric. */
  lemma OverlapSymmetric(aStart: Token, aEnd: Token, bStart: Token, bEnd: Token)
    ensures Overlap(aStart, aEnd, bStart, bEnd) == Overlap(bStart, bEnd, aStart, aEnd)
  {
  }

  /** Back-to-back sessions (the first ends when the second starts) never overlap. */
  lemma BackToBackNeverOverlaps(aStart: Token, aEnd: Token, bStart: Token, bEnd: Token)
    requires TimeToMin(aEnd) == TimeToMin(bStart)
    ensures !Overlap(aStart, aEnd, bStart, bEnd)
  {
  }
}
