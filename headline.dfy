/**
 * The headline under the inputs: the youngest age in the table at which
 * net worth is above the target (`fireDiff > 0`). It is undefined when no
 * record qualifies, which here is `None`.
 */
module Headline {
  import opened FireTable
  import opened FireTableProperties

  datatype Option<T> = None | Some(value: T)

  /** The smallest age among the records whose `fireDiff` is positive. */
  function EarliestFireAge(records: seq<Record>): (r: Option<int>)
    ensures r.None? <==> forall i :: 0 <= i < |records| ==> records[i].fireDiff <= 0.0
    ensures r.Some? ==> exists i :: 0 <= i < |records| && records[i].fireDiff > 0.0 && records[i].age == r.value
    ensures r.Some? ==> forall i :: 0 <= i < |records| && records[i].fireDiff > 0.0 ==> r.value <= records[i].age
  {
    if records == [] then None
    else
      var rest := EarliestFireAge(records[1..]);
      if records[0].fireDiff > 0.0 then
        match rest
        case None => Some(records[0].age)
        case Some(a) => Some(if a < records[0].age then a else records[0].age)
      else rest
  }

  /** When ages count up by one per record, the headline age is the age of
      the first record that reaches the target. */
  lemma EarliestIsFirstQualifying(records: seq<Record>, base: int, k: nat)
    requires forall i :: 0 <= i < |records| ==> records[i].age == base + i
    requires k < |records| && records[k].fireDiff > 0.0
    requires forall i :: 0 <= i < k ==> records[i].fireDiff <= 0.0
    ensures EarliestFireAge(records) == Some(base + k)
  {
    var r := EarliestFireAge(records);
    assert r.Some?;
    var j :| 0 <= j < |records| && records[j].fireDiff > 0.0 && records[j].age == r.value;
    assert k <= j;
  }

  /** On the projected table, the headline age is the age in the first year
      whose net worth is above the target. */
  lemma EarliestFireAgeIsFirst(p: Params, es: seq<MajorExpense>, currentYear: int, k: nat)
    requires k < |Projection(p, es, currentYear)|
    requires Projection(p, es, currentYear)[k].fireDiff > 0.0
    requires forall i :: 0 <= i < k ==> Projection(p, es, currentYear)[i].fireDiff <= 0.0
    ensures EarliestFireAge(Projection(p, es, currentYear)) == Some(currentYear + k - p.yearOfBirth)
  {
    YearsAndAges(p, es, currentYear);
    EarliestIsFirstQualifying(Projection(p, es, currentYear), currentYear - p.yearOfBirth, k);
  }
}
