// The message object of utils/TSPMessage.cpp: a fixed array of items searched by name.  Nested
// messages are held as values.
module TSPMessages {
  import opened Wrappers
  import opened Messages

  const MAX_NUM_ITEMS := 64

  datatype Status = OK | BadIndex | BadValue | AlreadyExists

  lemma {:induction false} ExtendedGrows(items: seq<Item>, more: seq<Item>, m: nat, n: nat)
    requires m <= n <= |more|
    ensures |Extended(items, more, m)| <= |Extended(items, more, n)|
  {
    if m >= n {
    } else {
      ExtendedGrows(items, more, m, n - 1);
    }
  }

  lemma {:induction false} DifferencesFit(m: Msg, other: Msg, deep: bool, n: nat)
    requires n <= |m.items|
    ensures |Differences(m, other, deep, n)| <= n
  {
    if n == 0 {
    } else {
      DifferencesFit(m, other, deep, n - 1);
    }
  }

  lemma {:induction false} PutAgain(items: seq<Item>, name: string, v: Value, w: Value)
    ensures var i, items' := IndexOf(items, name), Put(items, name, v);
            i < |items'| && items'[i := items'[i].(value := w)] == Put(items, name, w)
  {
  }

  class TSPMessage {
    var what: int
    var handler: Ref
    const items: array<Item>
    var numItems: nat

    ghost predicate Valid()
      reads this, items
    {
      items.Length == MAX_NUM_ITEMS && numItems <= MAX_NUM_ITEMS && Unique(items[..numItems])
    }

    ghost function Entries(): seq<Item>
      requires Valid()
      reads this, items
    {
      items[..numItems]
    }

    ghost function Contents(): Msg
      requires Valid()
      reads this, items
    {
      Msg(what, handler, Entries())
    }

    constructor ()
      ensures Valid() && fresh(items) && Contents() == Msg(0, 0, [])
    {
      what, handler, numItems := 0, 0, 0;
      items := new Item[MAX_NUM_ITEMS](i => Item("", Int32(0)));
    }

    method FindItemIndex(name: string) returns (i: nat)
      requires Valid()
      ensures i == IndexOf(Entries(), name)
    {
      i := 0;
      while i < numItems
        invariant i <= numItems && forall k :: 0 <= k < i ==> items[k].name != name
      {
        if items[i].name == name {
          break;
        }
        i := i + 1;
      }
      IndexIs(Entries(), name, i);
    }

    // There is no check for the end of the array.  The value is left undefined.
    method AllocateItem(name: string) returns (i: nat)
      requires Valid() && |Put(Entries(), name, Int32(0))| <= MAX_NUM_ITEMS
      modifies this`numItems, items
      ensures Valid() && i < numItems && items[i].name == name
      ensures Entries() == Put(old(Entries()), name, items[i].value) && i == IndexOf(old(Entries()), name)
    {
      ghost var b := Entries();
      i := FindItemIndex(name);
      var garbage: int := *;
      if i < numItems {
        items[i] := items[i].(value := Int32(garbage));
      } else {
        items[i] := Item(name, Int32(garbage));
        numItems := numItems + 1;
      }
      PutFinds(b, name, Int32(garbage), name);
      assert items[..numItems] == Put(b, name, Int32(garbage));
    }

    // setInt32, setInt64, setSize, setPointer, setRect, setObject and setMessage.
    method SetItem(name: string, value: Value)
      requires Valid() && |Put(Entries(), name, value)| <= MAX_NUM_ITEMS
      modifies this`numItems, items
      ensures Valid() && Entries() == Put(old(Entries()), name, value)
    {
      ghost var b := Entries();
      var i := AllocateItem(name);
      PutFinds(b, name, value, name);
      items[i] := Item(name, value);
      assert items[..numItems] == Put(b, name, value);
    }

    method FindItem(name: string) returns (value: Option<Value>)
      requires Valid()
      ensures value == Find(Entries(), name)
    {
      var i := FindItemIndex(name);
      value := if i < numItems then Some(items[i].value) else None;
    }

    method SetEntryAt(index: nat, item: Option<Value>) returns (r: Status)
      requires Valid()
      modifies items
      ensures Valid()
      ensures r == if index >= numItems then BadIndex else if item.None? then BadValue else OK
      ensures Entries() == if r == OK then old(Entries())[index := old(Entries())[index].(value := item.value)]
                           else old(Entries())
    {
      if index >= numItems {
        return BadIndex;
      }
      if item.None? {
        return BadValue;
      }
      items[index] := items[index].(value := item.value);
      assert items[..numItems] == old(Entries())[index := old(Entries())[index].(value := item.value)];
      return OK;
    }

    method GetEntryAt(index: nat) returns (item: Option<Value>)
      requires Valid()
      ensures item == if index < numItems then Some(Entries()[index].value) else None
    {
      item := if index < numItems then Some(items[index].value) else None;
    }

    method SetEntryNameAt(index: nat, name: Option<string>) returns (r: Status)
      requires Valid()
      modifies items
      ensures Valid()
      ensures r == if index >= numItems then BadIndex else if name.None? then BadValue
                   else if old(Entries())[index].name == name.value then OK
                   else if Find(old(Entries()), name.value).Some? then AlreadyExists else OK
      ensures Entries() == if r == OK then old(Entries())[index := old(Entries())[index].(name := name.value)]
                           else old(Entries())
    {
      if index >= numItems {
        return BadIndex;
      }
      if name.None? {
        return BadValue;
      }
      if items[index].name == name.value {
        return OK;
      }
      var i := FindItemIndex(name.value);
      if i < numItems {
        return AlreadyExists;
      }
      items[index] := items[index].(name := name.value);
      assert items[..numItems] == old(Entries())[index := old(Entries())[index].(name := name.value)];
      return OK;
    }

    // The last entry takes the place of the removed one.
    method RemoveEntryAt(index: nat) returns (r: Status)
      requires Valid()
      modifies this`numItems, items
      ensures Valid() && r == if index >= old(numItems) then BadIndex else OK
      ensures Entries() == if r == OK then Remove(old(Entries()), index) else old(Entries())
    {
      if index >= numItems {
        return BadIndex;
      }
      ghost var b := Entries();
      RemoveFinds(b, index, "");
      numItems := numItems - 1;
      if index < numItems {
        items[index] := items[numItems];
      }
      assert items[..numItems] == Remove(b, index);
      return OK;
    }

    method ExtendEntry(other: TSPMessage, ix: nat)
      requires Valid() && other.Valid() && other != this && other.items != items && ix < other.numItems
      requires |Put(Entries(), other.items[ix].name, other.items[ix].value)| <= MAX_NUM_ITEMS
      modifies this`numItems, items
      ensures Valid() && other.Valid() && other.Contents() == old(other.Contents())
      ensures Entries() == Put(old(Entries()), other.items[ix].name, other.items[ix].value)
    {
      ghost var b := Entries();
      var it := AllocateItem(other.items[ix].name);
      PutAgain(b, other.items[ix].name, items[it].value, other.items[ix].value);
      var data := other.GetEntryAt(ix);
      var ignored := SetEntryAt(it, data);
    }

    // Adds or replaces all entries of other, which is not this message itself.
    method Extend(other: TSPMessage?)
      requires Valid() && other != this
      requires other != null ==> other.Valid() && other.items != items
      requires other != null ==> |Messages.Extend(Contents(), other.Contents()).items| <= MAX_NUM_ITEMS
      modifies this`numItems, items
      ensures Valid()
      ensures other == null ==> Contents() == old(Contents())
      ensures other != null ==> other.Valid() && other.Contents() == old(other.Contents())
                                && Contents() == Messages.Extend(old(Contents()), other.Contents())
    {
      if other == null {
        return;
      }
      ghost var b, more := Entries(), other.Entries();
      var ix := 0;
      while ix < other.numItems
        invariant ix <= |more| && Valid() && other.Valid() && other.Contents() == old(other.Contents())
        invariant Entries() == Extended(b, more, ix)
      {
        ExtendedGrows(b, more, ix + 1, |more|);
        ExtendEntry(other, ix);
        ix := ix + 1;
      }
    }

    // The message a difference starts as.
    method StartDifference(other: TSPMessage) returns (diff: TSPMessage)
      requires Valid() && other.Valid()
      ensures diff.Valid() && fresh(diff) && fresh(diff.items)
      ensures diff.Contents() == Difference(Contents(), Some(other.Contents()), false).(items := [])
    {
      diff := new TSPMessage();
      if what != other.what {
        diff.what := what;
      }
      if handler != other.handler {
        diff.handler := handler;
      }
    }

    // One round of the loop of changesFrom.
    method AddChange(diff: TSPMessage, other: TSPMessage, deep: bool, i: nat)
      requires Valid() && other.Valid() && diff.Valid() && i < numItems
      requires diff != this && diff != other && diff.items != items && diff.items != other.items
      requires diff.Entries() == Differences(Contents(), other.Contents(), deep, i)
      modifies diff`numItems, diff.items
      ensures diff.Valid() && diff.Entries() == Differences(Contents(), other.Contents(), deep, i + 1)
      ensures Valid() && other.Valid() && Contents() == old(Contents()) && other.Contents() == old(other.Contents())
    {
      DifferencesFit(Contents(), other.Contents(), deep, i + 1);
      var oitem := other.FindItem(items[i].name);
      var change := Change(items[i].value, oitem, deep);
      if change.Some? {
        diff.SetItem(items[i].name, change.value);
      }
    }

    // A new message with the entries that other does not have, or this message if there is no other.
    method ChangesFrom(other: TSPMessage?, deep: bool) returns (diff: TSPMessage)
      requires Valid() && (other != null ==> other.Valid())
      ensures diff.Valid() && (if other == null then diff == this else fresh(diff) && fresh(diff.items))
      ensures diff.Contents() == Difference(Contents(), if other == null then None else Some(other.Contents()), deep)
    {
      if other == null {
        return this;
      }
      diff := StartDifference(other);
      ghost var m, o := Contents(), other.Contents();
      var i := 0;
      while i < numItems
        invariant i <= numItems && diff.Valid() && fresh(diff) && fresh(diff.items)
        invariant Valid() && other.Valid() && Contents() == m && other.Contents() == o
        invariant diff.Contents() == Difference(m, Some(o), deep).(items := Differences(m, o, deep, i))
      {
        AddChange(diff, other, deep, i);
        i := i + 1;
      }
    }

    // The token is taken out of the message, so that only the first caller gets it.
    method SenderAwaitsResponse() returns (r: bool, token: Ref)
      requires Valid()
      modifies this`numItems, items
      ensures Valid() && forall x :: Find(Entries(), "replyID") == Some(Object(x)) ==> x == 0
      ensures r <==> Find(old(Entries()), "replyID") == Some(Object(token)) && token != 0
      ensures !r ==> forall x :: Find(old(Entries()), "replyID") == Some(Object(x)) ==> x == 0
      ensures forall name :: name != "replyID" ==> Find(Entries(), name) == Find(old(Entries()), name)
    {
      var v := FindItem("replyID");
      if v.None? || !v.value.Object? {
        return false, 0;
      }
      token := v.value.obj;
      ghost var b := Entries();
      SetItem("replyID", Object(0));
      forall name ensures Find(Entries(), name) == if name == "replyID" then Some(Object(0)) else Find(b, name) {
        PutFinds(b, "replyID", Object(0), name);
      }
      return token != 0, token;
    }
  }
}
