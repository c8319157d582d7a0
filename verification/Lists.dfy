/** Lists without duplicates, some order of a map's keys, and insertion. */
module Lists {

  ghost predicate Distinct(ids: seq<string>) {
    forall i, j | 0 <= i < j < |ids| :: ids[i] != ids[j]
  }

  lemma DistinctAppend(ids: seq<string>, id: string)
    requires Distinct(ids) && id !in ids
    ensures Distinct(ids + [id])
  {}

  /** An order in which ranging over a map may yield its keys. */
  method SomeOrder(ids: set<string>) returns (order: seq<string>)
    ensures Distinct(order) && forall id :: id in order <==> id in ids
  {
    order := [];
    var rest := ids;
    while rest != {}
      invariant rest <= ids && Distinct(order) && forall id :: id in order <==> id in ids && id !in rest
      decreases |rest|
    {
      var id :| id in rest;
      order, rest := order + [id], rest - {id};
    }
  }

  lemma InsertKeepsAll<T>(sorted: seq<T>, k: nat, x: T)
    requires k <= |sorted|
    ensures multiset(sorted[..k] + [x] + sorted[k..]) == multiset(sorted) + multiset{x}
  {
    assert sorted == sorted[..k] + sorted[k..];
  }
}
