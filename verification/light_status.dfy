/**
 * The status a light row can be given, and the fixed severity ordinal of
 * each (LightStatus.py). Severity rises from Found (0) to Undefined (4).
 */
module LightStatus {
  import opened Wrappers

  /** One status per icon: checkmark, exclamation, plus, cross, none. */
  datatype Status = Found | Outdated | Add | Missing | Undefined

  /** The class constants of the source: Found=0 ... Undefined=4. */
  function Ordinal(s: Status): (n: nat)
    ensures n <= 4
    ensures FromOrdinal(n) == Some(s)
  {
    match s
    case Found => 0
    case Outdated => 1
    case Add => 2
    case Missing => 3
    case Undefined => 4
  }

  /** The status whose constant is `n`, if there is one. */
  function FromOrdinal(n: int): (r: Option<Status>)
    ensures r.Some? <==> 0 <= n <= 4
  {
    if n == 0 then Some(Found)
    else if n == 1 then Some(Outdated)
    else if n == 2 then Some(Add)
    else if n == 3 then Some(Missing)
    else if n == 4 then Some(Undefined)
    else None
  }

  /** Every ordinal in 0..4 names exactly one status. */
  lemma FromOrdinalRoundTrip(n: int)
    requires 0 <= n <= 4
    ensures FromOrdinal(n).Some? && Ordinal(FromOrdinal(n).value) == n
  {
  }

  /** Distinct statuses have distinct constants. */
  lemma OrdinalInjective(s: Status, t: Status)
    ensures Ordinal(s) == Ordinal(t) <==> s == t
  {
    assert FromOrdinal(Ordinal(s)) == Some(s);
    assert FromOrdinal(Ordinal(t)) == Some(t);
  }

  /** The constants rise strictly: Found < Outdated < Add < Missing < Undefined. */
  lemma OrdinalsIncreasing()
    ensures Ordinal(Found) < Ordinal(Outdated) < Ordinal(Add) < Ordinal(Missing) < Ordinal(Undefined)
  {
  }

  /** `LightStatus.random()`: some valid status constant, chosen freely. */
  method Random() returns (n: int)
    ensures 0 <= n <= 4
    ensures FromOrdinal(n).Some?
  {
    n :| 0 <= n <= 4;
  }
}
