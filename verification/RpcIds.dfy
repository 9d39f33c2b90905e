/** The host's memory of handled request ids. */
module RpcIds {
  import opened Text

  /** Ids are made of the prefix of an epoch and a running number. */
  datatype Id = Id(prefix: nat, sequence: nat)

  /** The end of a list: its last `n` entries, or all of it. */
  function LastOf<T>(s: seq<T>, n: nat): seq<T>
  {
    if |s| <= n then s else s[|s| - n..]
  }

  /** A new id goes to the end and pushes the oldest out; a known one changes nothing, not even its own age. */
  function Added(values: seq<Id>, limit: nat, id: Id): seq<Id>
  {
    if id in values then values else LastOf(values + [id], limit)
  }

  function AddedAll(values: seq<Id>, limit: nat, ids: seq<Id>): seq<Id>
    decreases |ids|
  {
    if ids == [] then values else Added(AddedAll(values, limit, ids[..|ids| - 1]), limit, ids[|ids| - 1])
  }

  /** The ids that were new when they came. */
  function Inserted(limit: nat, ids: seq<Id>): seq<Id>
    decreases |ids|
  {
    if ids == [] then []
    else
      var before, id := Inserted(limit, ids[..|ids| - 1]), ids[|ids| - 1];
      if id in LastOf(before, limit) then before else before + [id]
  }

  /** Whatever was added in whatever order, exactly the last `limit` ids that were new are remembered. */
  lemma {:induction false} RemembersTheLastInserted(limit: nat, ids: seq<Id>)
    ensures AddedAll([], limit, ids) == LastOf(Inserted(limit, ids), limit)
    decreases |ids|
  {
    if ids != [] {
      RemembersTheLastInserted(limit, ids[..|ids| - 1]);
      var before, id := Inserted(limit, ids[..|ids| - 1]), ids[|ids| - 1];
      if id !in LastOf(before, limit) {
        LastOfLast(before, [id], limit);
      }
    }
  }

  lemma LastOfLast<T>(a: seq<T>, b: seq<T>, n: nat)
    ensures LastOf(LastOf(a, n) + b, n) == LastOf(a + b, n)
  {
  }

  lemma JustAddedIsRemembered(values: seq<Id>, limit: nat, id: Id)
    requires limit >= 1
    ensures id in Added(values, limit, id)
  {
    if id !in values {
      var all := values + [id];
      assert LastOf(all, limit)[|LastOf(all, limit)| - 1] == id;
    }
  }

  class BoundedProcessedIds {
    const limit: nat
    var values: seq<Id>
    ghost var added: seq<Id>

    ghost predicate Valid()
      reads this
    {
      limit >= 1 && values == AddedAll([], limit, added) && |values| <= limit
    }

    constructor (limit: nat)
      requires limit >= 1
      ensures Valid() && this.limit == limit && values == [] && added == []
    {
      this.limit := limit;
      values, added := [], [];
    }

    method Has(id: Id) returns (known: bool)
      requires Valid()
      ensures known <==> id in LastOf(Inserted(limit, added), limit)
    {
      RemembersTheLastInserted(limit, added);
      return id in values;
    }

    method Add(id: Id)
      requires Valid()
      modifies this
      ensures Valid() && added == old(added) + [id] && values == Added(old(values), limit, id)
    {
      assert (added + [id])[..|added|] == added;
      added := added + [id];
      if id in values {
        return;
      }
      values := values + [id];
      while |values| > limit
        invariant added == old(added) + [id]
        invariant |values| >= 1 && LastOf(values, limit) == LastOf(old(values) + [id], limit)
        invariant |values| <= limit ==> values == LastOf(old(values) + [id], limit)
      {
        values := values[1..];
      }
    }
  }
}
