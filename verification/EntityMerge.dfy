/** Merging entity updates into the entities of a bid group, in place. */
module EntityMerge {
  import opened Options
  import opened ListMerge

  class Entity {
    const id: int
    const useBaseBid: bool
    const deleted: bool
    var bidAmount: Option<real>

    constructor (id: int, useBaseBid: bool, deleted: bool, bidAmount: Option<real>)
      ensures this.id == id && this.useBaseBid == useBaseBid && this.deleted == deleted && this.bidAmount == bidAmount
    {
      this.id := id;
      this.useBaseBid := useBaseBid;
      this.deleted := deleted;
      this.bidAmount := bidAmount;
    }

    // Two entities are equal when all their fields are.
    predicate Equals(e: Entity)
      reads this, e
    {
      id == e.id && useBaseBid == e.useBaseBid && deleted == e.deleted && bidAmount == e.bidAmount
    }
  }

  const ID: Entity -> int := (e: Entity) => e.id
  const LIVE: Entity -> bool := (e: Entity) => !e.deleted

  class EntityList {
    var items: seq<Entity>

    constructor (items: seq<Entity>)
      ensures this.items == items
    {
      this.items := items;
    }

    ghost predicate Contains(x: Entity)
      reads this, items, x
    {
      exists i :: 0 <= i < |items| && items[i].Equals(x)
    }

    // Where the first entity equal to x is.
    method Find(x: Entity) returns (i: nat)
      ensures i <= |items|
      ensures forall j :: 0 <= j < i ==> !items[j].Equals(x)
      ensures i < |items| ==> items[i].Equals(x)
    {
      i := 0;
      while i < |items| && !items[i].Equals(x)
        invariant i <= |items|
        invariant forall j :: 0 <= j < i ==> !items[j].Equals(x)
      {
        i := i + 1;
      }
    }

    // Drop the first entity equal to x, if there is one. Equality is by value: the entity dropped
    // need not be the object x.
    method RemoveIfPresent(x: Entity) returns (ghost at: Option<nat>)
      modifies this
      ensures at.None? ==> items == old(items) && !old(Contains(x))
      ensures at.Some? ==> at.value < |old(items)| && items == Cut(old(items), at.value)
                           && old(items)[at.value].Equals(x) && forall j :: 0 <= j < at.value ==> !old(items)[j].Equals(x)
    {
      var i := Find(x);
      if i < |items| {
        items := items[..i] + items[i + 1..];
        at := Some(i);
      } else {
        at := None;
      }
    }
  }

  // What dropping the entry for an update does to the entries left so far, when the entry dropped
  // has the update's id and an entry was dropped unless none had it.
  lemma DropTakesIdAway(prev: seq<Entity>, gone: set<int>, id: int, at: Option<nat>)
    requires DistinctKeys(prev, ID)
    requires at.Some? ==> at.value < |Without(prev, ID, gone)| && Without(prev, ID, gone)[at.value].id == id
    requires at.None? ==> LastWith(prev, ID, id).None? || !Has(Without(prev, ID, gone), LastWith(prev, ID, id).value)
    ensures (if at.Some? then Cut(Without(prev, ID, gone), at.value) else Without(prev, ID, gone)) == Without(prev, ID, gone + {id})
  {
    var s := Without(prev, ID, gone);
    LastWithIsTheEntry(prev, ID, id);
    WithoutMembers(prev, ID, gone);
    if at.Some? {
      CutTakesKeyAway(prev, ID, gone, at.value);
    } else {
      forall i | 0 <= i < |s| ensures ID(s[i]) != id {
        var j :| 0 <= j < |prev| && prev[j] == s[i];
        assert Has(s, s[i]);
      }
      WithoutAbsentKey(prev, ID, gone, id);
    }
  }

  // Every update using the base bid gets it; the old entities no update mentions stay, and the live updates
  // follow. The lists may share entities.
  method MergeEntities(prev: EntityList, next: seq<Entity>, baseBid: real) returns (merged: seq<Entity>)
    modifies prev, next
    ensures forall e :: e in next ==> e.bidAmount == if e.useBaseBid then Some(baseBid) else old(e.bidAmount)
    ensures merged == prev.items + Keeping(next, LIVE)
    ensures Without(prev.items, ID, Keys(next, ID)) == Without(old(prev.items), ID, Keys(next, ID))
    ensures DistinctKeys(old(prev.items), ID) ==>
              prev.items == Without(old(prev.items), ID, Keys(next, ID)) && merged == Merged(old(prev.items), next, ID, LIVE)
  {
    var existing := prev.items;
    var added := [];
    WithoutNothing(existing, ID);
    assert Keys(next[..0], ID) == {};
    for i := 0 to |next|
      invariant added == Keeping(next[..i], LIVE)
      invariant forall e :: e in next ==>
                  e.bidAmount == if e in next[..i] && e.useBaseBid then Some(baseBid) else old(e.bidAmount)
      invariant Left(prev.items, existing, next, i)
    {
      var entity := next[i];
      assert next[..i + 1] == next[..i] + [entity];
      if entity.useBaseBid {
        entity.bidAmount := Some(baseBid);
      }
      ghost var before := prev.items;
      ghost var at := DropMapped(prev, existing, entity.id);
      LeftStep(before, existing, next, i, at);
      if !entity.deleted {
        added := added + [entity];
      }
    }
    assert next[..|next|] == next;
    merged := prev.items + added;
  }

  // Drop an entity equal to what the dictionary of the old entities has for the id.
  method DropMapped(prev: EntityList, existing: seq<Entity>, id: int) returns (ghost at: Option<nat>)
    modifies prev
    ensures at.Some? ==> at.value < |old(prev.items)| && prev.items == Cut(old(prev.items), at.value) && old(prev.items)[at.value].id == id
    ensures at.None? ==> prev.items == old(prev.items)
                         && (LastWith(existing, ID, id).None? || !Has(prev.items, LastWith(existing, ID, id).value))
  {
    var mapped := LastWith(existing, ID, id);
    LastWithIsTheEntry(existing, ID, id);
    at := None;
    if mapped.Some? {
      at := prev.RemoveIfPresent(mapped.value);
    }
  }

  // What is left of the old entities after the first n updates.
  ghost predicate Left(items: seq<Entity>, existing: seq<Entity>, next: seq<Entity>, n: nat)
    requires n <= |next|
  {
    && Without(items, ID, Keys(next, ID)) == Without(existing, ID, Keys(next, ID))
    && (DistinctKeys(existing, ID) ==> items == Without(existing, ID, Keys(next[..n], ID)))
  }

  lemma LeftStep(items: seq<Entity>, existing: seq<Entity>, next: seq<Entity>, n: nat, at: Option<nat>)
    requires n < |next| && Left(items, existing, next, n)
    requires at.Some? ==> at.value < |items| && items[at.value].id == next[n].id
    requires at.None? ==> LastWith(existing, ID, next[n].id).None? || !Has(items, LastWith(existing, ID, next[n].id).value)
    ensures Left(if at.Some? then Cut(items, at.value) else items, existing, next, n + 1)
  {
    assert next[..n + 1] == next[..n] + [next[n]];
    assert ID(next[n]) in Keys(next, ID);
    KeysSnoc(next[..n], ID, next[n]);
    if at.Some? {
      CutKeepsTheOthers(items, ID, Keys(next, ID), at.value);
    }
    if DistinctKeys(existing, ID) {
      DropTakesIdAway(existing, Keys(next[..n], ID), next[n].id, at);
    }
  }
}
