// The contents of a TSPMessage as values: a dictionary of typed entries with nested messages, the
// difference changesFrom computes, and the patch law that relates it to extend.
module Messages {
  import opened Wrappers

  type Ref = int                  // an object, a handler or a pointer; 0 is null

  datatype Value =
    | Int32(i32: int)
    | Int64(i64: int)
    | Size(size: nat)
    | Pointer(ptr: Ref)
    | Rect(left: int, top: int, right: int, bottom: int)
    | Object(obj: Ref)
    | Message(msg: Option<Msg>)   // None is a null message

  datatype Item = Item(name: string, value: Value)

  datatype Msg = Msg(what: int, handler: Ref, items: seq<Item>)

  predicate SameType(a: Value, b: Value) {
    || (a.Int32? && b.Int32?) || (a.Int64? && b.Int64?) || (a.Size? && b.Size?) || (a.Pointer? && b.Pointer?)
    || (a.Rect? && b.Rect?) || (a.Object? && b.Object?) || (a.Message? && b.Message?)
  }

  // findItemIndex: |items| when there is none.
  function IndexOf(items: seq<Item>, name: string): (i: nat)
    ensures i <= |items| && (i < |items| ==> items[i].name == name)
    ensures forall k :: 0 <= k < i ==> items[k].name != name
  {
    if items == [] || items[0].name == name then 0 else 1 + IndexOf(items[1..], name)
  }

  function Find(items: seq<Item>, name: string): Option<Value> {
    var i := IndexOf(items, name);
    if i < |items| then Some(items[i].value) else None
  }

  // An entry is replaced where it is, or added at the end.
  function Put(items: seq<Item>, name: string, value: Value): seq<Item> {
    var i := IndexOf(items, name);
    if i < |items| then items[i := Item(name, value)] else items + [Item(name, value)]
  }

  predicate Unique(items: seq<Item>) {
    forall i, j :: 0 <= i < j < |items| ==> items[i].name != items[j].name
  }

  // Names are unique, in nested messages too.
  ghost predicate WellFormed(m: Msg)
    decreases m
  {
    && Unique(m.items)
    && forall i :: 0 <= i < |m.items| ==>
         m.items[i].value.Message? && m.items[i].value.msg.Some? ==> WellFormed(m.items[i].value.msg.value)
  }

  // The one index that fits.
  lemma {:induction false} IndexIs(items: seq<Item>, name: string, i: nat)
    requires i <= |items| && (i < |items| ==> items[i].name == name)
    requires forall j :: 0 <= j < i ==> items[j].name != name
    ensures IndexOf(items, name) == i
  {
  }

  lemma FindAt(items: seq<Item>, i: nat)
    requires Unique(items) && i < |items|
    ensures IndexOf(items, items[i].name) == i && Find(items, items[i].name) == Some(items[i].value)
  {
  }

  // A dictionary.
  lemma {:induction false} PutFinds(items: seq<Item>, name: string, value: Value, k: string)
    ensures Find(Put(items, name, value), k) == if k == name then Some(value) else Find(items, k)
    ensures Unique(items) ==> Unique(Put(items, name, value))
    ensures forall j :: 0 <= j < |items| ==>
              Put(items, name, value)[j] == items[j] || (j == IndexOf(items, name) && items[j].name == name)
  {
    var i, items' := IndexOf(items, name), Put(items, name, value);
    if k == name {
      IndexIs(items', k, i);
    } else {
      var a := IndexOf(items, k);
      IndexIs(items', k, if a < |items| then a else |items'|);
    }
  }

  // removeEntryAt: the last entry takes the place.
  function Remove(items: seq<Item>, index: nat): seq<Item>
    requires index < |items|
  {
    var last := |items| - 1;
    if index < last then items[..last][index := items[last]] else items[..last]
  }

  lemma RemoveFinds(items: seq<Item>, index: nat, k: string)
    requires Unique(items) && index < |items|
    ensures Unique(Remove(items, index))
    ensures Find(Remove(items, index), k) == if k == items[index].name then None else Find(items, k)
    ensures forall j :: 0 <= j < |items| - 1 ==> Remove(items, index)[j] == items[if j == index then |items| - 1 else j]
  {
    var items' := Remove(items, index);
    var a, b := IndexOf(items, k), IndexOf(items', k);
    if k == items[index].name {
      assert forall j :: 0 <= j < |items'| ==> items'[j].name != k;
    } else if a < |items| {
      var at := if a == |items| - 1 then index else a;
      FindAt(items', at);
    } else {
      assert forall j :: 0 <= j < |items'| ==> items'[j].name != k;
    }
  }

  // extend adds or replaces the first n entries of more.
  function Extended(items: seq<Item>, more: seq<Item>, n: nat): seq<Item>
    requires n <= |more|
  {
    if n == 0 then items else Put(Extended(items, more, n - 1), more[n - 1].name, more[n - 1].value)
  }

  function Extend(m: Msg, more: Msg): Msg {
    m.(items := Extended(m.items, more.items, |more.items|))
  }

  lemma {:induction false} FindLast(before: seq<Item>, last: Item, k: string)
    ensures Find(before + [last], k) ==
              if Find(before, k).Some? then Find(before, k) else if last.name == k then Some(last.value) else None
  {
    var a, b := IndexOf(before, k), before + [last];
    IndexIs(b, k, if a < |before| || last.name == k then a else |b|);
  }

  lemma {:induction false} FindOneMore(more: seq<Item>, n: nat, k: string)
    requires 0 < n <= |more| && Unique(more)
    ensures Find(more[..n], k) == if more[n - 1].name == k then Some(more[n - 1].value) else Find(more[..n - 1], k)
  {
    var before, last := more[..n - 1], more[n - 1];
    assert more[..n] == before + [last];
    FindLast(before, last, k);
    assert forall j :: 0 <= j < |before| ==> before[j].name != last.name;
  }

  lemma {:induction false} ExtendFinds(items: seq<Item>, more: seq<Item>, n: nat, k: string)
    requires n <= |more| && Unique(more)
    ensures Find(Extended(items, more, n), k) == if Find(more[..n], k).Some? then Find(more[..n], k) else Find(items, k)
    ensures Unique(items) ==> Unique(Extended(items, more, n))
  {
    if n == 0 {
    } else {
      ExtendFinds(items, more, n - 1, k);
      PutFinds(Extended(items, more, n - 1), more[n - 1].name, more[n - 1].value, k);
      FindOneMore(more, n, k);
    }
  }

  // What changesFrom stores for an entry v, when the other message has o under that name.
  function Change(v: Value, o: Option<Value>, deep: bool): Option<Value>
    decreases v
  {
    var same := if o.Some? && SameType(v, o.value) then o else None;
    match v
    case Message(None) =>
      if same.None? || same.value.msg.Some? then Some(v) else None
    case Message(Some(mine)) =>
      var changes := Difference(mine, if same.None? then None else same.value.msg, deep);
      if changes.items == [] then None else Some(Message(Some(if deep then changes else mine)))
    case _ =>
      if same == Some(v) then None else Some(v)
  }

  // The first n entries of the difference.
  function Differences(m: Msg, other: Msg, deep: bool, n: nat): seq<Item>
    requires n <= |m.items|
    decreases m, 0, n
  {
    if n == 0 then []
    else
      var item := m.items[n - 1];
      var before := Differences(m, other, deep, n - 1);
      var change := Change(item.value, Find(other.items, item.name), deep);
      if change.Some? then Put(before, item.name, change.value) else before
  }

  // changesFrom.
  function Difference(m: Msg, other: Option<Msg>, deep: bool): Msg
    decreases m, 1
  {
    if other.None? then m
    else
      var o := other.value;
      Msg(if m.what != o.what then m.what else 0, if m.handler != o.handler then m.handler else 0,
          Differences(m, o, deep, |m.items|))
  }

  // m's entries are all in other, nested messages recursively; a null message only as a null message.
  ghost predicate Covers(other: Msg, m: Msg)
    decreases m, 1
  {
    forall i :: 0 <= i < |m.items| ==> CoversValue(Find(other.items, m.items[i].name), m.items[i].value)
  }

  ghost predicate CoversValue(o: Option<Value>, v: Value)
    decreases v, 0
  {
    match v
    case Message(Some(mine)) => o.Some? && o.value.Message? && o.value.msg.Some? && Covers(o.value.msg.value, mine)
    case _ => o == Some(v)
  }

  // The guard of the branch that drops an entry: an empty nested message without a counterpart,
  // here or in nested messages that do not differ.
  ghost predicate Matched(m: Msg, other: Msg)
    decreases m, 1
  {
    forall i :: 0 <= i < |m.items| ==> MatchedValue(m.items[i].value, Find(other.items, m.items[i].name))
  }

  ghost predicate MatchedValue(v: Value, o: Option<Value>)
    decreases v, 0
  {
    match v
    case Message(Some(mine)) =>
      if o.Some? && o.value.Message? && o.value.msg.Some?
      then Difference(mine, o.value.msg, false).items == [] ==> Matched(mine, o.value.msg.value)
      else mine.items != []
    case _ => true
  }

  lemma {:induction false} DifferencesFind(m: Msg, other: Msg, deep: bool, n: nat, k: string)
    requires Unique(m.items) && n <= |m.items|
    ensures var i := IndexOf(m.items, k);
            && Find(Differences(m, other, deep, n), k) ==
                 (if i < n then Change(m.items[i].value, Find(other.items, k), deep) else None)
            && Unique(Differences(m, other, deep, n))
  {
    if n == 0 {
    } else {
      var item := m.items[n - 1];
      DifferencesFind(m, other, deep, n - 1, k);
      FindAt(m.items, n - 1);
      var change := Change(item.value, Find(other.items, item.name), deep);
      if change.Some? {
        PutFinds(Differences(m, other, deep, n - 1), item.name, change.value, k);
      }
    }
  }

  lemma {:induction false} NoDifferences(m: Msg, other: Msg, deep: bool)
    requires Unique(m.items)
    ensures Difference(m, Some(other), deep).items == [] <==>
              forall i :: 0 <= i < |m.items| ==>
                Change(m.items[i].value, Find(other.items, m.items[i].name), deep).None?
  {
    var d := Difference(m, Some(other), deep).items;
    forall i | 0 <= i < |m.items|
      ensures Find(d, m.items[i].name) == Change(m.items[i].value, Find(other.items, m.items[i].name), deep)
    {
      DifferencesFind(m, other, deep, |m.items|, m.items[i].name);
      FindAt(m.items, i);
    }
    if d != [] {
      var k := d[0].name;
      DifferencesFind(m, other, deep, |m.items|, k);
      assert IndexOf(d, k) == 0 && Find(d, k).Some?;
      assert m.items[IndexOf(m.items, k)].name == k;
    }
  }

  lemma {:induction false} CoversItself(m: Msg)
    requires WellFormed(m)
    ensures Covers(m, m)
    decreases m
  {
    forall i | 0 <= i < |m.items| ensures CoversValue(Find(m.items, m.items[i].name), m.items[i].value) {
      FindAt(m.items, i);
      var v := m.items[i].value;
      if v.Message? && v.msg.Some? {
        CoversItself(v.msg.value);
      }
    }
  }

  // Without a difference, other already covers m, unless an entry was dropped.
  lemma {:induction false} EmptyDifference(m: Msg, other: Msg)
    requires WellFormed(m) && Difference(m, Some(other), false).items == []
    ensures Covers(other, m) <==> Matched(m, other)
    decreases m, 1
  {
    NoDifferences(m, other, false);
    forall i | 0 <= i < |m.items|
      ensures var o := Find(other.items, m.items[i].name);
              CoversValue(o, m.items[i].value) <==> MatchedValue(m.items[i].value, o)
    {
      ValuePatched(m.items[i].value, Find(other.items, m.items[i].name));
    }
  }

  // What becomes of one entry: the stored change, or else what was there, covers it.
  lemma {:induction false} ValuePatched(v: Value, o: Option<Value>)
    requires v.Message? && v.msg.Some? ==> WellFormed(v.msg.value)
    ensures var c := Change(v, o, false);
            CoversValue(if c.Some? then c else o, v) <==> MatchedValue(v, o)
    decreases v, 0
  {
    if v.Message? && v.msg.Some? {
      var mine := v.msg.value;
      CoversItself(mine);
      if o.Some? && o.value.Message? && o.value.msg.Some? && Difference(mine, o.value.msg, false).items == [] {
        EmptyDifference(mine, o.value.msg.value);
      }
    }
  }

  // The patch law: extending other by m's difference from it makes it cover m, exactly when no
  // entry is dropped.
  lemma {:induction false} PatchLaw(m: Msg, other: Msg)
    requires WellFormed(m)
    ensures Covers(Extend(other, Difference(m, Some(other), false)), m) <==> Matched(m, other)
  {
    var d := Difference(m, Some(other), false);
    var patched := Extend(other, d);
    forall i | 0 <= i < |m.items|
      ensures var o := Find(other.items, m.items[i].name);
              CoversValue(Find(patched.items, m.items[i].name), m.items[i].value) <==> MatchedValue(m.items[i].value, o)
    {
      var k := m.items[i].name;
      DifferencesFind(m, other, false, |m.items|, k);
      FindAt(m.items, i);
      assert d.items[..|d.items|] == d.items;
      ExtendFinds(other.items, d.items, |d.items|, k);
      ValuePatched(m.items[i].value, Find(other.items, k));
    }
  }

  // What remains of a field when a message is patched: the field of the difference unless that is 0.
  function Patched(field: int, change: int): int {
    if change != 0 then change else field
  }

  // The patch law of what and handler: a patch brings them to m's, exactly when they are not to
  // become 0; and the difference has them exactly when they differ and m's is not 0.  Extending by
  // a difference leaves them alone.
  lemma HeadPatchLaw(m: Msg, other: Msg, deep: bool)
    ensures var d := Difference(m, Some(other), deep);
            && (Patched(other.what, d.what) == m.what <==> m.what == other.what || m.what != 0)
            && (Patched(other.handler, d.handler) == m.handler <==> m.handler == other.handler || m.handler != 0)
            && (d.what == 0 <==> m.what == 0 || m.what == other.what)
            && (d.handler == 0 <==> m.handler == 0 || m.handler == other.handler)
            && Extend(other, d).what == other.what && Extend(other, d).handler == other.handler
  {
  }

  // No nested message is empty, at any depth.
  ghost predicate NoneEmpty(m: Msg)
    decreases m
  {
    forall i :: 0 <= i < |m.items| ==>
      m.items[i].value.Message? && m.items[i].value.msg.Some? ==>
        m.items[i].value.msg.value.items != [] && NoneEmpty(m.items[i].value.msg.value)
  }

  lemma {:induction false} NoneEmptyIsMatched(m: Msg, other: Msg)
    requires NoneEmpty(m)
    ensures Matched(m, other)
    decreases m
  {
    forall i | 0 <= i < |m.items| ensures MatchedValue(m.items[i].value, Find(other.items, m.items[i].name)) {
      var v, o := m.items[i].value, Find(other.items, m.items[i].name);
      if v.Message? && v.msg.Some? && o.Some? && o.value.Message? && o.value.msg.Some? {
        NoneEmptyIsMatched(v.msg.value, o.value.msg.value);
      }
    }
  }

  // A message does not differ from itself.
  lemma {:induction false} NoSelfDifference(m: Msg, deep: bool)
    requires WellFormed(m)
    ensures Difference(m, Some(m), deep) == Msg(0, 0, [])
    decreases m
  {
    forall i | 0 <= i < |m.items|
      ensures Change(m.items[i].value, Find(m.items, m.items[i].name), deep).None?
    {
      FindAt(m.items, i);
      var v := m.items[i].value;
      if v.Message? && v.msg.Some? {
        NoSelfDifference(v.msg.value, deep);
      }
    }
    NoDifferences(m, m, deep);
  }

  // Every entry of m is different in o, or missing there, nested messages all the way down.
  ghost predicate AllDiffer(m: Msg, o: Msg)
    decreases m, 1
  {
    forall i :: 0 <= i < |m.items| ==> Differs(m.items[i].value, Find(o.items, m.items[i].name))
  }

  ghost predicate Differs(v: Value, o: Option<Value>)
    decreases v, 0
  {
    match v
    case Message(Some(mine)) =>
      if o.Some? && o.value.Message? && o.value.msg.Some?
      then Difference(mine, o.value.msg, true).items != [] && AllDiffer(mine, o.value.msg.value)
      else mine.items != []
    case _ => o != Some(v)
  }

  // A deep difference has all of m exactly when no entry is the same.
  lemma {:induction false} DeepCovers(m: Msg, o: Msg)
    requires WellFormed(m)
    ensures Covers(Difference(m, Some(o), true), m) <==> AllDiffer(m, o)
    decreases m
  {
    var d := Difference(m, Some(o), true);
    forall i | 0 <= i < |m.items|
      ensures CoversValue(Find(d.items, m.items[i].name), m.items[i].value)
              <==> Differs(m.items[i].value, Find(o.items, m.items[i].name))
    {
      DifferencesFind(m, o, true, |m.items|, m.items[i].name);
      FindAt(m.items, i);
      DeepChangeCovers(m.items[i].value, Find(o.items, m.items[i].name));
    }
  }

  lemma {:induction false} DeepChangeCovers(v: Value, o: Option<Value>)
    requires v.Message? && v.msg.Some? ==> WellFormed(v.msg.value)
    ensures CoversValue(Change(v, o, true), v) <==> Differs(v, o)
    decreases v, 0
  {
    if v.Message? && v.msg.Some? {
      var mine := v.msg.value;
      CoversItself(mine);
      if o.Some? && o.value.Message? && o.value.msg.Some? {
        DeepCovers(mine, o.value.msg.value);
      }
    }
  }

  // Whether anything differs does not depend on deep.
  lemma {:induction false} SameChanges(v: Value, o: Option<Value>)
    requires v.Message? && v.msg.Some? ==> WellFormed(v.msg.value)
    ensures Change(v, o, true).None? <==> Change(v, o, false).None?
    decreases v, 0
  {
    if v.Message? && v.msg.Some? && o.Some? && o.value.Message? && o.value.msg.Some? {
      EmptyEitherWay(v.msg.value, o.value.msg.value);
    }
  }

  lemma {:induction false} EmptyEitherWay(m: Msg, other: Msg)
    requires WellFormed(m)
    ensures Difference(m, Some(other), true).items == [] <==> Difference(m, Some(other), false).items == []
    decreases m, 1
  {
    NoDifferences(m, other, true);
    NoDifferences(m, other, false);
    forall i | 0 <= i < |m.items|
      ensures var v, o := m.items[i].value, Find(other.items, m.items[i].name);
              Change(v, o, true).None? <==> Change(v, o, false).None?
    {
      SameChanges(m.items[i].value, Find(other.items, m.items[i].name));
    }
  }

  // What the deep difference asks of each nested message: all of it is different from its
  // counterpart, or nothing is and no entry was dropped.
  ghost predicate DeepMatched(m: Msg, other: Msg) {
    forall i :: 0 <= i < |m.items| ==> DeepMatchedValue(m.items[i].value, Find(other.items, m.items[i].name))
  }

  ghost predicate DeepMatchedValue(v: Value, o: Option<Value>) {
    match v
    case Message(Some(mine)) =>
      if o.Some? && o.value.Message? && o.value.msg.Some? then
        if Difference(mine, o.value.msg, true).items == [] then Matched(mine, o.value.msg.value)
        else AllDiffer(mine, o.value.msg.value)
      else mine.items != []
    case _ => true
  }

  lemma {:induction false} DeepValuePatched(v: Value, o: Option<Value>)
    requires v.Message? && v.msg.Some? ==> WellFormed(v.msg.value)
    ensures var c := Change(v, o, true);
            CoversValue(if c.Some? then c else o, v) <==> DeepMatchedValue(v, o)
  {
    DeepChangeCovers(v, o);
    if v.Message? && v.msg.Some? && o.Some? && o.value.Message? && o.value.msg.Some? {
      var mine, theirs := v.msg.value, o.value.msg.value;
      EmptyEitherWay(mine, theirs);
      if Difference(mine, Some(theirs), true).items == [] {
        EmptyDifference(mine, theirs);
      }
    }
  }

  // The patch law of the deep difference.
  lemma {:induction false} DeepPatchLaw(m: Msg, other: Msg)
    requires WellFormed(m)
    ensures Covers(Extend(other, Difference(m, Some(other), true)), m) <==> DeepMatched(m, other)
  {
    var d := Difference(m, Some(other), true);
    var patched := Extend(other, d);
    forall i | 0 <= i < |m.items|
      ensures CoversValue(Find(patched.items, m.items[i].name), m.items[i].value)
              <==> DeepMatchedValue(m.items[i].value, Find(other.items, m.items[i].name))
    {
      var k := m.items[i].name;
      DifferencesFind(m, other, true, |m.items|, k);
      FindAt(m.items, i);
      assert d.items[..|d.items|] == d.items;
      ExtendFinds(other.items, d.items, |d.items|, k);
      DeepValuePatched(m.items[i].value, Find(other.items, k));
    }
  }

  // So a nested message with one entry that differs and one that does not makes it fail.
  lemma {:induction false} DeepDifferenceLoses(m: Msg, other: Msg, i: nat, j: nat)
    requires WellFormed(m) && i < |m.items| && m.items[i].value.Message? && m.items[i].value.msg.Some?
    requires var o := Find(other.items, m.items[i].name); o.Some? && o.value.Message? && o.value.msg.Some?
    requires var mine, theirs := m.items[i].value.msg.value, Find(other.items, m.items[i].name).value.msg.value;
             && Difference(mine, Some(theirs), true).items != []
             && j < |mine.items| && !mine.items[j].value.Message?
             && Find(theirs.items, mine.items[j].name) == Some(mine.items[j].value)
    ensures !Covers(Extend(other, Difference(m, Some(other), true)), m)
  {
    DeepPatchLaw(m, other);
    var mine, theirs := m.items[i].value.msg.value, Find(other.items, m.items[i].name).value.msg.value;
    assert !Differs(mine.items[j].value, Find(theirs.items, mine.items[j].name));
    assert !DeepMatchedValue(m.items[i].value, Find(other.items, m.items[i].name));
  }
}
