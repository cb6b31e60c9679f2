/**
 * The food web as the program keeps it: an array of organisms, of which the
 * first `numOrgs` are live, mutated in place by BuildWeb and Extinction.
 */
module FoodWeb {
  import opened WebSpec

  /**
   * The inner loop of the repair: copies the entries of `prey` that are not
   * `index` into a fresh list, decrementing those above `index` on the way.
   */
  method RebuildPreyList(prey: seq<int>, index: int) returns (updated: seq<int>)
    ensures updated == RepairPrey(prey, index)
  {
    var list := prey;
    updated := [];
    var j := 0;
    while j < |list|
      invariant 0 <= j <= |list| == |prey|
      invariant list[j..] == prey[j..]
      invariant updated == RepairPrey(prey[..j], index)
    {
      assert prey[..j + 1][..j] == prey[..j];
      if list[j] != index {
        if list[j] > index {
          list := list[j := list[j] - 1];
        }
        updated := updated + [list[j]];
      }
      j := j + 1;
    }
    assert prey[..j] == prey;
  }

  class Web {
    var web: array<Org>
    var numOrgs: nat

    /** The live prefix of the array, and invariant I1 over it. */
    ghost predicate Valid()
      reads this, web
    {
      numOrgs <= web.Length && IndicesValid(web[..numOrgs])
    }

    /** The organisms of the web, in index order. */
    ghost function Orgs(): seq<Org>
      reads this, web
      requires numOrgs <= web.Length
    {
      web[..numOrgs]
    }

    /** One organism per name, each with an empty prey list. */
    constructor (names: seq<string>)
      ensures Valid() && fresh(web)
      ensures numOrgs == |names|
      ensures forall i :: 0 <= i < |names| ==> Orgs()[i] == Org(names[i], [])
    {
      var n := |names|;
      var a := new Org[n];
      for i := 0 to n
        invariant forall j :: 0 <= j < i ==> a[j] == Org(names[j], [])
      {
        a[i] := Org(names[i], []);
      }
      web := a;
      numOrgs := n;
    }

    /**
     * Appends `preyInd` to the prey list of `predInd`; rejects the call and
     * changes nothing when either index is outside [0, numOrgs).
     */
    method BuildWeb(predInd: int, preyInd: int) returns (ok: bool)
      requires Valid()
      modifies web
      ensures Valid() && numOrgs == old(numOrgs)
      ensures ok == (InRange(predInd, numOrgs) && InRange(preyInd, numOrgs))
      ensures Orgs() == AddEdge(old(Orgs()), predInd, preyInd)
    {
      if predInd < 0 || predInd >= numOrgs || preyInd < 0 || preyInd >= numOrgs {
        return false;
      }
      ghost var before := Orgs();
      var org := web[predInd];
      if org.prey == [] {
        // a predator without prey gets a list of one entry
        web[predInd] := Org(org.name, [preyInd]);
        assert org.prey + [preyInd] == [preyInd];
      } else {
        // otherwise its list grows by one entry at the end
        web[predInd] := Org(org.name, org.prey + [preyInd]);
      }
      assert Orgs() == before[predInd := Org(org.name, org.prey + [preyInd])];
      AddEdgePreservesValid(before, predInd, preyInd);
      ok := true;
    }

    /**
     * Removes the organism at `index`: later organisms move down one slot,
     * the count drops by one, and every survivor's prey list loses the
     * entries equal to `index` and has those above it decremented. Rejects
     * the call and changes nothing when `index` is outside [0, numOrgs).
     * The array itself is kept; only its live prefix shrinks.
     */
    method Extinction(index: int) returns (ok: bool)
      requires Valid()
      modifies this`numOrgs, web
      ensures Valid() && web == old(web)
      ensures ok == InRange(index, old(numOrgs))
      ensures ok ==> numOrgs == old(numOrgs) - 1 && Orgs() == Extinct(old(Orgs()), index)
      ensures !ok ==> numOrgs == old(numOrgs) && Orgs() == old(Orgs())
    {
      if index < 0 || index >= numOrgs {
        return false;
      }
      ghost var before := Orgs();

      // move every later organism down one slot
      var i := index;
      while i < numOrgs - 1
        invariant index <= i <= numOrgs - 1
        invariant numOrgs == |before| <= web.Length
        invariant forall p :: 0 <= p < index ==> web[p] == before[p]
        invariant forall p :: index <= p < i ==> web[p] == before[p + 1]
        invariant forall p :: i < p < numOrgs ==> web[p] == before[p]
      {
        web[i] := web[i + 1];
        i := i + 1;
      }
      numOrgs := numOrgs - 1;
      ghost var shifted := Orgs();
      assert shifted == RemoveAt(before, index);

      // repair every survivor's prey list
      i := 0;
      while i < numOrgs
        invariant 0 <= i <= numOrgs == |shifted| <= web.Length
        invariant forall p :: 0 <= p < i ==>
                    web[p] == Org(shifted[p].name, RepairPrey(shifted[p].prey, index))
        invariant forall p :: i <= p < numOrgs ==> web[p] == shifted[p]
      {
        var updated := RebuildPreyList(web[i].prey, index);
        web[i] := Org(web[i].name, updated);
        i := i + 1;
      }
      assert Orgs() == Extinct(before, index);
      ExtinctPreservesValid(before, index);
      ok := true;
    }
  }
}
