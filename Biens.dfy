/**
 * The property list of src/components/Biens.tsx: `handleAdd` gives the new
 * property the id `max(ids) + 1` (1 for an empty list), appends it and closes
 * the form.
 */
module Biens {

  datatype Bien = Bien(id: int, titre: string, ville: string)

  /** `Math.max(...biens.map(b => b.id))` for a non-empty list. */
  function MaxId(biens: seq<Bien>): (m: int)
    requires |biens| > 0
    ensures forall k :: 0 <= k < |biens| ==> biens[k].id <= m
    ensures exists k :: 0 <= k < |biens| && biens[k].id == m
  {
    if |biens| == 1 then biens[0].id
    else
      var rest := MaxId(biens[1..]);
      assert forall k :: 1 <= k < |biens| ==> biens[k] == biens[1..][k - 1];
      if biens[0].id >= rest then biens[0].id else rest
  }

  /** `biens.length ? Math.max(...ids) + 1 : 1`. */
  function NewId(biens: seq<Bien>): (id: int)
    ensures |biens| == 0 ==> id == 1
    ensures forall k :: 0 <= k < |biens| ==> biens[k].id < id
    ensures |biens| > 0 ==> exists k :: 0 <= k < |biens| && id == biens[k].id + 1
  {
    if |biens| > 0 then MaxId(biens) + 1 else 1
  }

  /** The ids strictly increase along the list (so they are pairwise distinct). */
  ghost predicate IdsIncreasing(biens: seq<Bien>) {
    forall k, l :: 0 <= k < l < |biens| ==> biens[k].id < biens[l].id
  }

  /** The list after one `handleAdd`. */
  function Added(biens: seq<Bien>, titre: string, ville: string): seq<Bien> {
    biens + [Bien(NewId(biens), titre, ville)]
  }

  /** The list after a series of `handleAdd`s, one per submitted (titre, ville). */
  function AddedAll(biens: seq<Bien>, forms: seq<(string, string)>): seq<Bien>
    decreases |forms|
  {
    if |forms| == 0 then biens else AddedAll(Added(biens, forms[0].0, forms[0].1), forms[1..])
  }

  /** An add keeps the ids increasing. */
  lemma AddKeepsIdsIncreasing(biens: seq<Bien>, titre: string, ville: string)
    requires IdsIncreasing(biens)
    ensures IdsIncreasing(Added(biens, titre, ville))
  {
  }

  /**
   * From `1..n` (the ids an empty list acquires), every add allocates the next
   * number: after a series of adds the ids are exactly 1, 2, 3, ...
   */
  lemma {:induction false} IdsAreConsecutive(biens: seq<Bien>, forms: seq<(string, string)>)
    requires forall k :: 0 <= k < |biens| ==> biens[k].id == k + 1
    ensures |AddedAll(biens, forms)| == |biens| + |forms|
    ensures forall k :: 0 <= k < |AddedAll(biens, forms)| ==> AddedAll(biens, forms)[k].id == k + 1
    decreases |forms|
  {
    if |forms| > 0 {
      var next := Added(biens, forms[0].0, forms[0].1);
      assert NewId(biens) == |biens| + 1 by {
        if |biens| > 0 {
          assert biens[|biens| - 1].id == |biens|;
        }
      }
      IdsAreConsecutive(next, forms[1..]);
    }
  }

  /** Starting from the empty list, any series of adds yields ids 1..n, hence strictly increasing. */
  lemma FromEmptyIdsIncreasing(forms: seq<(string, string)>)
    ensures IdsIncreasing(AddedAll([], forms))
  {
    IdsAreConsecutive([], forms);
  }

  /** The component's state. */
  class BiensPage {
    var biens: seq<Bien>
    var showForm: bool

    ghost predicate Valid()
      reads this
    {
      IdsIncreasing(biens)
    }

    constructor ()
      ensures Valid() && biens == [] && !showForm
    {
      biens := [];
      showForm := false;
    }

    /** The "+ Ajouter un bien" button. */
    method OpenForm()
      modifies this`showForm
      ensures showForm
    {
      showForm := true;
    }

    /** `handleAdd` with the submitted `titre` and `ville`. */
    method HandleAdd(titre: string, ville: string)
      requires Valid()
      modifies this
      ensures Valid()
      ensures biens == old(biens) + [Bien(NewId(old(biens)), titre, ville)]
      ensures !showForm
    {
      var newId := if |biens| > 0 then MaxId(biens) + 1 else 1;
      AddKeepsIdsIncreasing(biens, titre, ville);
      biens := biens + [Bien(newId, titre, ville)];
      showForm := false;
    }
  }
}
