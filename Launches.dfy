/** The launch records the dashboard reads from `spacex_launch_dash.csv`,
    and the payload bounds computed once from them to seed the range slider. */
module Launches {

  datatype Option<T> = None | Some(value: T)

  /** One row of the dataset: `Launch Site`, `Payload Mass (kg)`, `class`
      (the launch outcome) and `Booster Version Category`. */
  datatype Record = Record(site: string, mass: real, outcome: int, category: string)

  /** Every outcome is 1 (success) or 0 (failure). */
  predicate ValidOutcomes(ds: seq<Record>)
  {
    forall r :: r in ds ==> r.outcome == 0 || r.outcome == 1
  }

  /** `Payload Mass (kg)`.max(): the largest mass, or None (pandas' NaN) on an
      empty dataset. */
  function MaxPayload(ds: seq<Record>): (m: Option<real>)
    ensures m.None? <==> ds == []
    ensures m.Some? ==> exists r :: r in ds && r.mass == m.value
    ensures m.Some? ==> forall r :: r in ds ==> r.mass <= m.value
  {
    if ds == [] then None
    else
      assert ds == [ds[0]] + ds[1..];
      match MaxPayload(ds[1..])
      case None => Some(ds[0].mass)
      case Some(m) => Some(if m < ds[0].mass then ds[0].mass else m)
  }

  /** `Payload Mass (kg)`.min(): the smallest mass, or None (pandas' NaN) on an
      empty dataset. */
  function MinPayload(ds: seq<Record>): (m: Option<real>)
    ensures m.None? <==> ds == []
    ensures m.Some? ==> exists r :: r in ds && r.mass == m.value
    ensures m.Some? ==> forall r :: r in ds ==> m.value <= r.mass
  {
    if ds == [] then None
    else
      assert ds == [ds[0]] + ds[1..];
      match MinPayload(ds[1..])
      case None => Some(ds[0].mass)
      case Some(m) => Some(if ds[0].mass < m then ds[0].mass else m)
  }

  /** The bounds agree with each other: on any dataset the minimum is at most
      the maximum, so the slider's default range is never empty. */
  lemma {:induction false} PayloadBoundsOrdered(ds: seq<Record>)
    requires ds != []
    ensures MinPayload(ds).value <= MaxPayload(ds).value
  {
    assert ds[0] in ds;
  }
}
