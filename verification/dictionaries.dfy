/**
 * The Dictionary<string, string> that holds the current selections, laid out
 * as .NET lays it out, because its enumeration order decides the order of the
 * composed prompt. Entries live in an array filled up to a high-water mark;
 * Remove frees an entry and pushes its index on a free list; adding a new key
 * reuses the most recently freed index before extending the array; enumeration
 * walks the array in index order and skips freed entries. Resizing copies the
 * array in order, so it does not show here.
 */
module Dictionaries {
  import opened Wrappers

  datatype Entry = Entry(key: string, value: string)

  /** `slots`: the entries array up to its high-water mark (None = freed); `freeList`: freed indices, most recent first. */
  datatype Dict = Dict(slots: seq<Option<Entry>>, freeList: seq<nat>)

  function Empty(): Dict {
    Dict([], [])
  }

  predicate DistinctKeys(slots: seq<Option<Entry>>) {
    forall i, j :: 0 <= i < j < |slots| && slots[i].Some? && slots[j].Some? ==> slots[i].value.key != slots[j].value.key
  }

  /** The representation invariant: keys are unique and the free list names exactly the freed entries, once each. */
  predicate Valid(d: Dict) {
    DistinctKeys(d.slots) &&
    (forall k :: 0 <= k < |d.freeList| ==> d.freeList[k] < |d.slots| && d.slots[d.freeList[k]].None?) &&
    (forall i :: 0 <= i < |d.slots| && d.slots[i].None? ==> i in d.freeList) &&
    (forall a, b :: 0 <= a < b < |d.freeList| ==> d.freeList[a] != d.freeList[b])
  }

  /** The index of the entry holding `key`, if any. */
  function IndexOf(slots: seq<Option<Entry>>, key: string): (r: Option<nat>)
    ensures r.Some? ==> r.value < |slots| && slots[r.value].Some? && slots[r.value].value.key == key
    ensures r.None? ==> forall i :: 0 <= i < |slots| && slots[i].Some? ==> slots[i].value.key != key
  {
    if |slots| == 0 then None
    else if slots[0].Some? && slots[0].value.key == key then Some(0)
    else
      match IndexOf(slots[1..], key)
      case Some(i) => Some(i + 1)
      case None => None
  }

  /** The value stored under `key` (TryGetValue). */
  function Get(d: Dict, key: string): Option<string> {
    match IndexOf(d.slots, key)
    case Some(i) => Some(d.slots[i].value.value)
    case None => None
  }

  /** A key is found exactly when a live entry holds it, and the value found is that entry's value. */
  lemma {:induction false} GetFindsLiveEntry(d: Dict, key: string)
    ensures Get(d, key).None? <==> forall i :: 0 <= i < |d.slots| && d.slots[i].Some? ==> d.slots[i].value.key != key
    ensures Get(d, key).Some? ==> exists i :: 0 <= i < |d.slots| && d.slots[i] == Some(Entry(key, Get(d, key).value))
  {
    if Get(d, key).Some? {
      var i := IndexOf(d.slots, key).value;
      assert d.slots[i] == Some(Entry(key, Get(d, key).value));
    }
  }

  /** The entries in enumeration order: freed entries skipped, the rest in index order. */
  function Occupied(slots: seq<Option<Entry>>): seq<Entry> {
    if |slots| == 0 then []
    else Occupied(slots[..|slots| - 1]) + Present(slots[|slots| - 1])
  }

  /** Enumeration yields at most one entry per slot, and exactly the live entries. */
  lemma {:induction false} OccupiedLive(slots: seq<Option<Entry>>)
    ensures |Occupied(slots)| <= |slots|
    ensures forall e :: e in Occupied(slots) <==> Some(e) in slots
  {
    if |slots| > 0 {
      var front := slots[..|slots| - 1];
      OccupiedLive(front);
      assert slots == front + [slots[|slots| - 1]];
    }
  }

  function Present(slot: Option<Entry>): seq<Entry> {
    if slot.Some? then [slot.value] else []
  }

  lemma {:induction false} IndexOfAt(slots: seq<Option<Entry>>, key: string, i: nat)
    requires DistinctKeys(slots)
    requires i < |slots| && slots[i].Some? && slots[i].value.key == key
    ensures IndexOf(slots, key) == Some(i)
  {
  }

  /** Writing entry `i`, which holds `key` or is free while `key` is absent, affects the lookup of `key` only. */
  lemma {:induction false} WriteSlot(d: Dict, r: Dict, i: nat, key: string, x: Option<Entry>)
    requires DistinctKeys(d.slots) && i < |d.slots| && r.slots == d.slots[i := x]
    requires x.Some? ==> x.value.key == key
    requires d.slots[i].Some? ==> d.slots[i].value.key == key
    requires d.slots[i].None? ==> IndexOf(d.slots, key).None?
    ensures DistinctKeys(r.slots)
    ensures Get(r, key) == if x.Some? then Some(x.value.value) else None
    ensures forall k :: k != key ==> Get(r, k) == Get(d, k)
  {
    assert forall j :: 0 <= j < |r.slots| && j != i ==> r.slots[j] == d.slots[j];
    assert DistinctKeys(r.slots);
    if x.Some? {
      IndexOfAt(r.slots, key, i);
    }
    forall k | k != key ensures Get(r, k) == Get(d, k) {
      if IndexOf(d.slots, k).Some? {
        var j := IndexOf(d.slots, k).value;
        assert j != i && r.slots[j] == d.slots[j];
        IndexOfAt(r.slots, k, j);
      }
    }
  }

  /** dictionary[key] = value: overwrites an existing entry where it is, else fills the latest freed entry, else appends. */
  function Set(d: Dict, key: string, value: string): (r: Dict)
    requires Valid(d)
    ensures Valid(r)
    ensures Get(r, key) == Some(value)
    ensures forall k :: k != key ==> Get(r, k) == Get(d, k)
  {
    var e := Some(Entry(key, value));
    match IndexOf(d.slots, key)
    case Some(i) =>
      var r := Dict(d.slots[i := e], d.freeList);
      WriteSlot(d, r, i, key, e);
      r
    case None =>
      if |d.freeList| > 0 then
        var r := Dict(d.slots[d.freeList[0] := e], d.freeList[1..]);
        FillFreed(d, r, key, value);
        r
      else
        var r := Dict(d.slots + [e], []);
        AppendNew(d, r, key, value);
        r
  }

  lemma {:induction false} FillFreed(d: Dict, r: Dict, key: string, value: string)
    requires Valid(d) && IndexOf(d.slots, key).None? && |d.freeList| > 0
    requires r == Dict(d.slots[d.freeList[0] := Some(Entry(key, value))], d.freeList[1..])
    ensures Valid(r)
    ensures Get(r, key) == Some(value)
    ensures forall k :: k != key ==> Get(r, k) == Get(d, k)
  {
    var f := d.freeList[0];
    WriteSlot(d, r, f, key, Some(Entry(key, value)));
    forall i | 0 <= i < |r.slots| && r.slots[i].None? ensures i in r.freeList {
      assert i in d.freeList && i != f;
      var k :| 0 <= k < |d.freeList| && d.freeList[k] == i;
      assert r.freeList[k - 1] == i;
    }
  }

  lemma {:induction false} AppendNew(d: Dict, r: Dict, key: string, value: string)
    requires Valid(d) && IndexOf(d.slots, key).None? && |d.freeList| == 0
    requires r == Dict(d.slots + [Some(Entry(key, value))], [])
    ensures Valid(r)
    ensures Get(r, key) == Some(value)
    ensures forall k :: k != key ==> Get(r, k) == Get(d, k)
  {
    IndexOfAt(r.slots, key, |d.slots|);
    forall k | k != key ensures Get(r, k) == Get(d, k) {
      if IndexOf(d.slots, k).Some? {
        IndexOfAt(r.slots, k, IndexOf(d.slots, k).value);
      }
    }
  }

  /** dictionary.Remove(key): frees the entry holding `key`; an absent key changes nothing. */
  function Remove(d: Dict, key: string): (r: Dict)
    requires Valid(d)
    ensures Valid(r)
    ensures Get(r, key) == None
    ensures forall k :: k != key ==> Get(r, k) == Get(d, k)
    ensures Get(d, key) == None ==> r == d
  {
    match IndexOf(d.slots, key)
    case Some(i) =>
      var r := Dict(d.slots[i := None], [i] + d.freeList);
      WriteSlot(d, r, i, key, None);
      r
    case None => d
  }

  // ---------------------------------------------------------------------------
  // Enumeration order

  lemma {:induction false} OccupiedAppend(a: seq<Option<Entry>>, b: seq<Option<Entry>>)
    ensures Occupied(a + b) == Occupied(a) + Occupied(b)
    decreases |b|
  {
    if |b| > 0 {
      var b' := b[..|b| - 1];
      assert (a + b)[..|a + b| - 1] == a + b';
      OccupiedAppend(a, b');
    } else {
      assert a + b == a;
    }
  }

  /** Entry `i` sits between the entries before it and the entries after it, in enumeration order. */
  lemma {:induction false} OccupiedSplit(s: seq<Option<Entry>>, i: nat)
    requires i < |s|
    ensures Occupied(s) == Occupied(s[..i]) + Present(s[i]) + Occupied(s[i + 1..])
  {
    var front := s[..i + 1];
    assert s == front + s[i + 1..];
    OccupiedAppend(front, s[i + 1..]);
    assert front[..|front| - 1] == s[..i];
    assert Occupied(front) == Occupied(s[..i]) + Present(s[i]);
  }

  /** Replacing the entry for `key` at index `i` changes that one position of the enumeration and nothing around it. */
  lemma {:induction false} OccupiedReplace(s: seq<Option<Entry>>, key: string, i: nat, x: Option<Entry>)
    requires i < |s| && s[i].Some? && s[i].value.key == key
    ensures Occupied(s) == Occupied(s[..i]) + [Entry(key, s[i].value.value)] + Occupied(s[i + 1..])
    ensures Occupied(s[i := x]) == Occupied(s[..i]) + Present(x) + Occupied(s[i + 1..])
  {
    var t := s[i := x];
    OccupiedSplit(s, i);
    OccupiedSplit(t, i);
    assert t[..i] == s[..i] && t[i + 1..] == s[i + 1..];
  }

  /** Overwriting an existing key keeps its entry where it was: no duplicate, no move, nothing else changed. */
  lemma {:induction false} SetOverwritesInPlace(d: Dict, key: string, value: string)
    requires Valid(d) && Get(d, key).Some?
    ensures var i := IndexOf(d.slots, key).value;
      Occupied(d.slots) == Occupied(d.slots[..i]) + [Entry(key, Get(d, key).value)] + Occupied(d.slots[i + 1..]) &&
      Occupied(Set(d, key, value).slots) == Occupied(d.slots[..i]) + [Entry(key, value)] + Occupied(d.slots[i + 1..])
  {
    var i := IndexOf(d.slots, key).value;
    assert Get(d, key) == Some(d.slots[i].value.value);
    OccupiedReplace(d.slots, key, i, Some(Entry(key, value)));
    assert Set(d, key, value).slots == d.slots[i := Some(Entry(key, value))];
  }

  /** Removing a present key drops exactly its entry and keeps the others in their order. */
  lemma {:induction false} RemoveDropsOnlyThatEntry(d: Dict, key: string)
    requires Valid(d) && Get(d, key).Some?
    ensures var i := IndexOf(d.slots, key).value;
      Occupied(d.slots) == Occupied(d.slots[..i]) + [Entry(key, Get(d, key).value)] + Occupied(d.slots[i + 1..]) &&
      Occupied(Remove(d, key).slots) == Occupied(d.slots[..i]) + Occupied(d.slots[i + 1..])
  {
    var s := d.slots;
    var i := IndexOf(s, key).value;
    assert Get(d, key) == Some(s[i].value.value);
    OccupiedReplace(s, key, i, None);
    OccupiedFreed(s, key, i);
    RemoveFrees(d, key, i);
  }

  lemma {:induction false} OccupiedFreed(s: seq<Option<Entry>>, key: string, i: nat)
    requires i < |s| && s[i].Some? && s[i].value.key == key
    ensures Occupied(s[i := None]) == Occupied(s[..i]) + Occupied(s[i + 1..])
  {
    OccupiedReplace(s, key, i, None);
    var before, after := Occupied(s[..i]), Occupied(s[i + 1..]);
    assert Present(None) == [];
    assert before + [] + after == before + after;
  }

  lemma {:induction false} RemoveFrees(d: Dict, key: string, i: nat)
    requires Valid(d) && IndexOf(d.slots, key) == Some(i)
    ensures Remove(d, key).slots == d.slots[i := None]
  {
  }

  /** Clearing a key and choosing it again, with nothing in between, puts it back in its old place. */
  lemma {:induction false} ReinsertReusesFreedEntry(d: Dict, key: string, value: string)
    requires Valid(d) && Get(d, key).Some?
    ensures Set(Remove(d, key), key, value) == Set(d, key, value)
  {
    var i := IndexOf(d.slots, key).value;
    var r := Remove(d, key);
    assert r == Dict(d.slots[i := None], [i] + d.freeList);
    assert IndexOf(r.slots, key).None?;
    assert r.slots[i := Some(Entry(key, value))] == d.slots[i := Some(Entry(key, value))];
  }

  /**
   * After a removal, enumeration order is not insertion order: "c", added after "b",
   * is enumerated before it because it takes the entry "a" freed.
   */
  lemma {:induction false} FreedEntryTakenByNewKey()
    ensures var d := Set(Set(Empty(), "a", "1"), "b", "2");
      Occupied(Set(Remove(d, "a"), "c", "3").slots) == [Entry("c", "3"), Entry("b", "2")]
  {
    ExampleTwoInsertions();
    ExampleRemoveThenInsert();
    OccupiedPair(Entry("c", "3"), Entry("b", "2"));
  }

  lemma {:induction false} OccupiedPair(a: Entry, b: Entry)
    ensures Occupied([Some(a), Some(b)]) == [a, b]
  {
    var t := [Some(a), Some(b)];
    assert t[..1] == [Some(a)] && t[..1][..0] == [];
    assert Occupied(t[..1]) == [a];
  }

  lemma {:induction false} ExampleTwoInsertions()
    ensures Set(Set(Empty(), "a", "1"), "b", "2") == Dict([Some(Entry("a", "1")), Some(Entry("b", "2"))], [])
  {
    var d1 := Set(Empty(), "a", "1");
    assert d1 == Dict([Some(Entry("a", "1"))], []) by {
      assert IndexOf(Empty().slots, "a").None?;
    }
    assert IndexOf(d1.slots, "b").None?;
  }

  lemma {:induction false} ExampleRemoveThenInsert()
    ensures var d := Dict([Some(Entry("a", "1")), Some(Entry("b", "2"))], []);
      Valid(d) && Set(Remove(d, "a"), "c", "3").slots == [Some(Entry("c", "3")), Some(Entry("b", "2"))]
  {
    var d := Dict([Some(Entry("a", "1")), Some(Entry("b", "2"))], []);
    assert Valid(d);
    assert IndexOf(d.slots, "a") == Some(0);
    var r := Remove(d, "a");
    assert r == Dict([None, Some(Entry("b", "2"))], [0]);
    assert IndexOf(r.slots, "c").None? by {
      assert r.slots[1].value.key != "c";
    }
  }

  // ---------------------------------------------------------------------------
  // Histories without removals: insertion order

  /** Reference semantics for an insertion-ordered map: overwrite in place, else append. */
  function Assign(entries: seq<Entry>, key: string, value: string): (r: seq<Entry>)
  {
    if |entries| == 0 then [Entry(key, value)]
    else if entries[0].key == key then [Entry(key, value)] + entries[1..]
    else [entries[0]] + Assign(entries[1..], key, value)
  }

  lemma {:induction false} AssignAt(entries: seq<Entry>, key: string, value: string, i: nat)
    requires i < |entries| && entries[i].key == key
    requires forall j :: 0 <= j < i ==> entries[j].key != key
    ensures Assign(entries, key, value) == entries[i := Entry(key, value)]
  {
    if i > 0 {
      AssignAt(entries[1..], key, value, i - 1);
    }
  }

  lemma {:induction false} AssignAbsent(entries: seq<Entry>, key: string, value: string)
    requires forall j :: 0 <= j < |entries| ==> entries[j].key != key
    ensures Assign(entries, key, value) == entries + [Entry(key, value)]
  {
    if |entries| > 0 {
      AssignAbsent(entries[1..], key, value);
      assert entries == [entries[0]] + entries[1..];
    }
  }

  predicate NoFreedEntries(slots: seq<Option<Entry>>) {
    forall i :: 0 <= i < |slots| ==> slots[i].Some?
  }

  lemma {:induction false} OccupiedNoFreed(s: seq<Option<Entry>>)
    requires NoFreedEntries(s)
    ensures |Occupied(s)| == |s|
    ensures forall i :: 0 <= i < |s| ==> Occupied(s)[i] == s[i].value
  {
    if |s| > 0 {
      OccupiedNoFreed(s[..|s| - 1]);
    }
  }

  lemma {:induction false} OverwriteAssigns(s: seq<Option<Entry>>, key: string, value: string, i: nat)
    requires NoFreedEntries(s) && i < |s| && s[i].value.key == key
    requires forall j :: 0 <= j < i ==> s[j].value.key != key
    ensures Occupied(s[i := Some(Entry(key, value))]) == Assign(Occupied(s), key, value)
  {
    var t := s[i := Some(Entry(key, value))];
    OccupiedNoFreed(s);
    assert NoFreedEntries(t);
    OccupiedNoFreed(t);
    AssignAt(Occupied(s), key, value, i);
  }

  lemma {:induction false} AppendAssigns(s: seq<Option<Entry>>, key: string, value: string)
    requires NoFreedEntries(s)
    requires forall j :: 0 <= j < |s| ==> s[j].value.key != key
    ensures Occupied(s + [Some(Entry(key, value))]) == Assign(Occupied(s), key, value)
  {
    var t := s + [Some(Entry(key, value))];
    OccupiedNoFreed(s);
    AssignAbsent(Occupied(s), key, value);
    assert t[..|t| - 1] == s;
  }

  /** Without an earlier removal, dictionary[key] = value enumerates like an insertion-ordered map. */
  lemma {:induction false} SetWithoutRemovals(d: Dict, key: string, value: string)
    requires Valid(d) && d.freeList == []
    ensures Set(d, key, value).freeList == []
    ensures Occupied(Set(d, key, value).slots) == Assign(Occupied(d.slots), key, value)
  {
    assert NoFreedEntries(d.slots);
    match IndexOf(d.slots, key)
    case Some(i) =>
      OverwriteAssigns(d.slots, key, value, i);
    case None =>
      AppendAssigns(d.slots, key, value);
  }

  /** Applies the assignments in order, as a run of SelectionChanged events that never clear. */
  function SetAll(d: Dict, assignments: seq<(string, string)>): (r: Dict)
    requires Valid(d)
    ensures Valid(r)
  {
    if |assignments| == 0 then d
    else
      var last := assignments[|assignments| - 1];
      Set(SetAll(d, assignments[..|assignments| - 1]), last.0, last.1)
  }

  function AssignAll(entries: seq<Entry>, assignments: seq<(string, string)>): seq<Entry> {
    if |assignments| == 0 then entries
    else
      var last := assignments[|assignments| - 1];
      Assign(AssignAll(entries, assignments[..|assignments| - 1]), last.0, last.1)
  }

  /** A history of assignments from an empty dictionary enumerates in first-insertion order with the latest values. */
  lemma {:induction false} SetAllInsertionOrder(assignments: seq<(string, string)>)
    ensures SetAll(Empty(), assignments).freeList == []
    ensures Occupied(SetAll(Empty(), assignments).slots) == AssignAll([], assignments)
  {
    if |assignments| > 0 {
      var prefix := assignments[..|assignments| - 1];
      var last := assignments[|assignments| - 1];
      SetAllInsertionOrder(prefix);
      SetWithoutRemovals(SetAll(Empty(), prefix), last.0, last.1);
    }
  }
}
