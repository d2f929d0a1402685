/** The inventory store (`InventoryManager`) and its slots (`InventorySlot`).
    The store is a fixed-length sequence of slots; an item goes into the
    first empty slot, a full store silently drops it, and a slot once filled
    is never emptied again. */
module Inventory {
  import opened Common

  /** The length of the slot array the manager allocates. */
  const Capacity: nat := 8

  /** One slot. `name`/`description`/`icon` are meaningful only when
      `hasItem` holds. */
  datatype Slot = Slot(hasItem: bool, name: string, description: string, icon: Option<Handle>)

  /** What a click on an occupied slot asks the description panel to show. */
  datatype DescriptionRequest = DescriptionRequest(name: string, description: string, icon: Option<Handle>)

  type Store = seq<Slot>

  /** A freshly created slot: nothing stored, `HasItem` false. */
  const EmptySlot: Slot := Slot(false, "", "", None)

  /** `InventorySlot.SetItem`: stores the item, whatever the slot held before. */
  function SetItem(s: Slot, icon: Option<Handle>, name: string, description: string): (r: Slot)
    ensures r.hasItem
    ensures r.name == name && r.description == description && r.icon == icon
  {
    s.(hasItem := true, name := name, description := description, icon := icon)
  }

  /** `InventorySlot.OnClick`: an occupied slot forwards exactly its own
      contents to the description panel; an empty one asks for nothing. */
  function OnClick(s: Slot): (r: Option<DescriptionRequest>)
    ensures r.Some? <==> s.hasItem
    ensures r.Some? ==> r.value.name == s.name && r.value.description == s.description
                        && r.value.icon == s.icon
  {
    if s.hasItem then Some(DescriptionRequest(s.name, s.description, s.icon)) else None
  }

  /** The store as the manager allocates it. */
  function Initial(): (r: Store)
    ensures |r| == Capacity
    ensures forall i :: 0 <= i < |r| ==> !r[i].hasItem
  {
    seq(Capacity, _ => EmptySlot)
  }

  /** Some occupied slot carries exactly this name. */
  ghost predicate Holds(st: Store, name: string) {
    exists i :: 0 <= i < |st| && st[i].hasItem && st[i].name == name
  }

  /** Slot `i` is the lowest-index slot without an item. */
  ghost predicate IsFirstFree(st: Store, i: int) {
    && 0 <= i < |st|
    && !st[i].hasItem
    && forall k :: 0 <= k < i ==> st[k].hasItem
  }

  /** Every slot is occupied. */
  ghost predicate Full(st: Store) {
    forall i :: 0 <= i < |st| ==> st[i].hasItem
  }

  /** The number of occupied slots. */
  function Occupied(st: Store): (n: nat)
    ensures n <= |st|
  {
    if |st| == 0 then 0 else (if st[0].hasItem then 1 else 0) + Occupied(st[1..])
  }

  /** `InventoryManager.HasItem`: the linear scan over the slots. */
  function HasItem(st: Store, name: string): (r: bool)
    ensures r <==> Holds(st, name)
  {
    if |st| == 0 then false
    else if st[0].hasItem && st[0].name == name then true
    else
      var rest := HasItem(st[1..], name);
      assert Holds(st[1..], name) ==> Holds(st, name) by {
        if Holds(st[1..], name) {
          var i :| 0 <= i < |st[1..]| && st[1..][i].hasItem && st[1..][i].name == name;
          assert st[i + 1] == st[1..][i];
        }
      }
      assert Holds(st, name) ==> Holds(st[1..], name) by {
        if Holds(st, name) {
          var i :| 0 <= i < |st| && st[i].hasItem && st[i].name == name;
          assert i != 0;
          assert st[1..][i - 1] == st[i];
        }
      }
      rest
  }

  /** `InventoryManager.AddItem`: the first slot without an item receives it
      and no other slot changes; when every slot is taken nothing changes. */
  function AddItem(st: Store, icon: Option<Handle>, name: string, description: string): (r: Store)
    ensures |r| == |st|
    ensures forall i :: 0 <= i < |st| && IsFirstFree(st, i) ==> r[i] == SetItem(st[i], icon, name, description)
    ensures forall i :: 0 <= i < |st| && !IsFirstFree(st, i) ==> r[i] == st[i]
  {
    if |st| == 0 then st
    else if !st[0].hasItem then [SetItem(st[0], icon, name, description)] + st[1..]
    else
      var rest := AddItem(st[1..], icon, name, description);
      var r := [st[0]] + rest;
      assert forall i :: 1 <= i < |st| ==> (IsFirstFree(st, i) <==> IsFirstFree(st[1..], i - 1)) by {
        forall i | 1 <= i < |st|
          ensures IsFirstFree(st, i) <==> IsFirstFree(st[1..], i - 1)
        {
          if IsFirstFree(st[1..], i - 1) {
            forall k | 0 <= k < i ensures st[k].hasItem {
              if k > 0 { assert st[k] == st[1..][k - 1]; }
            }
          }
          if IsFirstFree(st, i) {
            forall k | 0 <= k < i - 1 ensures st[1..][k].hasItem {
              assert st[1..][k] == st[k + 1];
            }
          }
        }
      }
      assert forall i :: 1 <= i < |st| ==> r[i] == rest[i - 1] && st[i] == st[1..][i - 1];
      r
  }

  /** A free slot exists exactly when the store is not full, and then the
      first one is unique. */
  lemma FirstFreeExists(st: Store)
    ensures !Full(st) <==> exists i :: IsFirstFree(st, i)
  {
    if !Full(st) {
      var j :| 0 <= j < |st| && !st[j].hasItem;
      var i := j;
      while i > 0 && !forall k :: 0 <= k < i ==> st[k].hasItem
        invariant 0 <= i <= j && !st[i].hasItem
        decreases i
      {
        var k :| 0 <= k < i && !st[k].hasItem;
        i := k;
      }
      assert IsFirstFree(st, i);
    }
  }

  /** A full store drops the item: every slot is left as it was. */
  lemma AddItemWhenFull(st: Store, icon: Option<Handle>, name: string, description: string)
    requires Full(st)
    ensures AddItem(st, icon, name, description) == st
  {
    var r := AddItem(st, icon, name, description);
    assert forall i :: 0 <= i < |st| ==> !IsFirstFree(st, i);
    assert forall i :: 0 <= i < |st| ==> r[i] == st[i];
  }

  /** Occupied slots are never modified, and no slot is ever emptied. */
  lemma AddItemKeepsOccupied(st: Store, icon: Option<Handle>, name: string, description: string)
    ensures forall i :: 0 <= i < |st| && st[i].hasItem ==> AddItem(st, icon, name, description)[i] == st[i]
    ensures forall i :: 0 <= i < |st| && st[i].hasItem ==> AddItem(st, icon, name, description)[i].hasItem
  {
  }

  /** The occupied count rises by exactly one when a free slot existed, and
      stays put otherwise. */
  lemma {:induction false} AddItemCount(st: Store, icon: Option<Handle>, name: string, description: string)
    ensures Occupied(AddItem(st, icon, name, description)) == Occupied(st) + (if Full(st) then 0 else 1)
  {
    var r := AddItem(st, icon, name, description);
    if |st| == 0 {
    } else if !st[0].hasItem {
      assert IsFirstFree(st, 0);
      assert r[1..] == st[1..];
    } else {
      assert !IsFirstFree(st, 0);
      AddItemCount(st[1..], icon, name, description);
      assert r[1..] == AddItem(st[1..], icon, name, description);
      assert Full(st) <==> Full(st[1..]) by {
        if Full(st[1..]) {
          forall i | 0 <= i < |st| ensures st[i].hasItem {
            if i > 0 { assert st[i] == st[1..][i - 1]; }
          }
        }
      }
    }
  }

  /** After adding an item to a store with room, the store reports holding it. */
  lemma AddThenHas(st: Store, icon: Option<Handle>, name: string, description: string)
    requires !Full(st)
    ensures HasItem(AddItem(st, icon, name, description), name)
  {
    FirstFreeExists(st);
    var i :| IsFirstFree(st, i);
    var r := AddItem(st, icon, name, description);
    assert r[i].hasItem && r[i].name == name;
  }

  /** Adding an item never makes the store forget one it held. */
  lemma AddKeepsHoldings(st: Store, icon: Option<Handle>, name: string, description: string, other: string)
    requires HasItem(st, other)
    ensures HasItem(AddItem(st, icon, name, description), other)
  {
    var i :| 0 <= i < |st| && st[i].hasItem && st[i].name == other;
    AddItemKeepsOccupied(st, icon, name, description);
    assert AddItem(st, icon, name, description)[i] == st[i];
  }

  /** With the default capacity, a ninth item after eight is dropped. */
  lemma NinthItemDropped(names: seq<string>, extra: string)
    requires |names| == Capacity
    ensures var st := AddAll(Initial(), names);
            Full(st) && AddItem(st, None, extra, "") == st
  {
    NoneOccupied(Initial());
    AddAllFills(Initial(), names);
    var st := AddAll(Initial(), names);
    AddItemWhenFull(st, None, extra, "");
  }

  /** Adds the named items in order (no icon, no description). */
  function AddAll(st: Store, names: seq<string>): (r: Store)
    ensures |r| == |st|
    decreases |names|
  {
    if |names| == 0 then st else AddAll(AddItem(st, None, names[0], ""), names[1..])
  }

  /** Adding n items to a store with at least n free slots occupies n more. */
  lemma {:induction false} AddAllFills(st: Store, names: seq<string>)
    requires Occupied(st) + |names| <= |st|
    ensures Occupied(AddAll(st, names)) == Occupied(st) + |names|
    ensures Occupied(st) + |names| == |st| ==> Full(AddAll(st, names))
    decreases |names|
  {
    if |names| > 0 {
      OccupiedFull(st);
      AddItemCount(st, None, names[0], "");
      AddAllFills(AddItem(st, None, names[0], ""), names[1..]);
    } else {
      OccupiedFull(st);
    }
  }

  /** A store without items has no occupied slot. */
  lemma {:induction false} NoneOccupied(st: Store)
    requires forall i :: 0 <= i < |st| ==> !st[i].hasItem
    ensures Occupied(st) == 0
  {
    if |st| > 0 {
      assert forall i :: 0 <= i < |st[1..]| ==> st[1..][i] == st[i + 1];
      NoneOccupied(st[1..]);
    }
  }

  /** A store is full exactly when every slot counts as occupied. */
  lemma {:induction false} OccupiedFull(st: Store)
    ensures Full(st) <==> Occupied(st) == |st|
  {
    if |st| > 0 {
      OccupiedFull(st[1..]);
      assert Full(st) <==> st[0].hasItem && Full(st[1..]) by {
        if st[0].hasItem && Full(st[1..]) {
          forall i | 0 <= i < |st| ensures st[i].hasItem {
            if i > 0 { assert st[i] == st[1..][i - 1]; }
          }
        }
      }
    }
  }
}
