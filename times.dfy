/** Durations of work: a whole number of time units, or the infinite sentinel
    that marks a task no assignment of workers can finish. */
module Times {

  datatype Option<+T> = None | Some(value: T)

  datatype Time = Finite(units: int) | Inf

  /** The total order on durations: every finite duration is below Inf. */
  predicate LessEq(a: Time, b: Time) {
    match (a, b)
    case (_, Inf) => true
    case (Inf, Finite(_)) => false
    case (Finite(x), Finite(y)) => x <= y
  }

  /** A duration compared with zero, as in `work_time > 0`. */
  predicate Positive(t: Time) {
    t.Inf? || t.units > 0
  }

  /** The larger of two durations; Inf absorbs everything. */
  function Max(a: Time, b: Time): (r: Time)
    ensures LessEq(a, r) && LessEq(b, r)
    ensures r == a || r == b
  {
    if LessEq(a, b) then b else a
  }

  /** Python's `max` over a non-empty list of durations. */
  function MaxOf(ts: seq<Time>): (r: Time)
    requires |ts| > 0
    ensures r in ts
    ensures forall t :: t in ts ==> LessEq(t, r)
  {
    if |ts| == 1 then ts[0]
    else
      var init := ts[..|ts| - 1];
      assert forall t :: t in ts ==> t in init || t == ts[|ts| - 1];
      Max(MaxOf(init), ts[|ts| - 1])
  }

  lemma MaxAssociative(a: Time, b: Time, c: Time)
    ensures Max(Max(a, b), c) == Max(a, Max(b, c))
  {
  }

  lemma MaxOfInf(a: Time)
    ensures Max(a, Inf) == Inf && Max(Inf, a) == Inf
  {
  }

  /** Max with a duration already below is the identity. */
  lemma MaxAbsorbs(a: Time, b: Time)
    requires LessEq(b, a)
    ensures Max(a, b) == a && Max(b, a) == a
  {
  }
}
