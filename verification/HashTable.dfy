/** cutil/hash_table.c: string-keyed tables as multimaps in insertion order. */
module HashTable {
  import opened Sums
  import opened BucketModel
  import opened UtHash
  import opened Wrappers
  import CursorList

  function Pairs<V>(items: seq<Entry<V>>): (r: seq<(string, V)>)
    ensures |r| == |items|
  {
    seq(|items|, i requires 0 <= i < |items| => (items[i].key, items[i].data))
  }

  ghost predicate HasKey<V>(pairs: seq<(string, V)>, key: string) {
    exists i :: 0 <= i < |pairs| && pairs[i].0 == key
  }

  /** No key occurs twice. */
  ghost predicate Unique<V>(pairs: seq<(string, V)>) {
    forall i, j :: 0 <= i < j < |pairs| ==> pairs[i].0 != pairs[j].0
  }

  /** The map a table without duplicate keys stands for. */
  ghost function AsMap<V>(pairs: seq<(string, V)>): map<string, V> {
    if pairs == [] then map[] else AsMap(pairs[..|pairs| - 1])[pairs[|pairs| - 1].0 := pairs[|pairs| - 1].1]
  }

  lemma {:induction false} AsMapLookup<V>(pairs: seq<(string, V)>, key: string)
    requires Unique(pairs)
    ensures key in AsMap(pairs) <==> HasKey(pairs, key)
    ensures forall i :: 0 <= i < |pairs| && pairs[i].0 == key ==> AsMap(pairs)[key] == pairs[i].1
  {
    if pairs != [] {
      var front, last := pairs[..|pairs| - 1], pairs[|pairs| - 1];
      AsMapLookup(front, key);
      assert forall i :: 0 <= i < |front| ==> front[i] == pairs[i];
      if HasKey(front, key) {
        var i :| 0 <= i < |front| && front[i].0 == key;
        assert pairs[i].0 == key;
      }
      if HasKey(pairs, key) && last.0 != key {
        var i :| 0 <= i < |pairs| && pairs[i].0 == key;
        assert front[i].0 == key;
      }
    }
  }

  /** Appending a pair with a new key is a map update. */
  lemma AsMapAppend<V>(pairs: seq<(string, V)>, key: string, data: V)
    requires Unique(pairs) && !HasKey(pairs, key)
    ensures Unique(pairs + [(key, data)])
    ensures AsMap(pairs + [(key, data)]) == AsMap(pairs)[key := data]
  {
    var r := pairs + [(key, data)];
    assert r[..|r| - 1] == pairs;
  }

  lemma WithoutKey<V>(pairs: seq<(string, V)>, i: nat, key: string)
    requires Unique(pairs) && i < |pairs|
    ensures HasKey(Without(pairs, i), key) <==> HasKey(pairs, key) && key != pairs[i].0
  {
    var r := Without(pairs, i);
    assert forall j :: 0 <= j < |r| ==> r[j] == pairs[if j < i then j else j + 1];
    if HasKey(pairs, key) && key != pairs[i].0 {
      var j :| 0 <= j < |pairs| && pairs[j].0 == key;
      assert r[if j < i then j else j - 1].0 == key;
    }
  }

  lemma WithoutValue<V>(pairs: seq<(string, V)>, i: nat, key: string)
    requires Unique(pairs) && i < |pairs| && Unique(Without(pairs, i)) && HasKey(Without(pairs, i), key)
    ensures key in AsMap(pairs) && key in AsMap(Without(pairs, i))
    ensures AsMap(Without(pairs, i))[key] == AsMap(pairs)[key]
  {
    var r := Without(pairs, i);
    AsMapLookup(pairs, key);
    AsMapLookup(r, key);
    var j :| 0 <= j < |r| && r[j].0 == key;
    assert r[j] == pairs[if j < i then j else j + 1];
  }

  lemma StillUnique<V>(pairs: seq<(string, V)>, i: nat)
    requires Unique(pairs) && i < |pairs|
    ensures Unique(Without(pairs, i))
  {
    var r := Without(pairs, i);
    assert forall j :: 0 <= j < |r| ==> r[j] == pairs[if j < i then j else j + 1];
  }

  /** Dropping a pair is a map removal. */
  lemma AsMapWithout<V>(pairs: seq<(string, V)>, i: nat)
    requires Unique(pairs) && i < |pairs|
    ensures Unique(Without(pairs, i))
    ensures AsMap(Without(pairs, i)) == AsMap(pairs) - {pairs[i].0}
  {
    hide AsMap, Unique, HasKey, Without;
    var r := Without(pairs, i);
    StillUnique(pairs, i);
    forall key ensures key in AsMap(r) <==> key in AsMap(pairs) && key != pairs[i].0 {
      AsMapLookup(pairs, key);
      AsMapLookup(r, key);
      WithoutKey(pairs, i, key);
    }
    forall key | key in AsMap(r) ensures key in AsMap(pairs) && AsMap(r)[key] == AsMap(pairs)[key] {
      AsMapLookup(r, key);
      WithoutValue(pairs, i, key);
    }
  }

  lemma PairsWithout<V>(items: seq<Entry<V>>, i: nat)
    requires i < |items|
    ensures Pairs(Without(items, i)) == Without(Pairs(items), i)
  {
  }

  function Datas<V>(items: seq<Entry<V>>): (r: seq<V>)
    ensures |r| == |items|
  {
    seq(|items|, i requires 0 <= i < |items| => items[i].data)
  }

  /** The items whose data passes a test, in order. */
  function KeptItems<V>(items: seq<Entry<V>>, keep: V -> bool): (r: seq<Entry<V>>)
    ensures |r| <= |items|
  {
    if items == [] then []
    else
      KeptItems(items[..|items| - 1], keep) + (if keep(items[|items| - 1].data) then [items[|items| - 1]] else [])
  }

  lemma {:induction false} KeptOthers<V>(items: seq<Entry<V>>, keep: V -> bool, key: string)
    requires forall i :: 0 <= i < |items| ==> items[i].key != key
    ensures forall i :: 0 <= i < |KeptItems(items, keep)| ==> KeptItems(items, keep)[i].key != key
  {
    if items != [] {
      KeptOthers(items[..|items| - 1], keep, key);
    }
  }

  lemma KeptStep<V>(items: seq<Entry<V>>, k: nat, keep: V -> bool)
    requires k < |items|
    ensures KeptItems(items[..k + 1], keep) == KeptItems(items[..k], keep) + (if keep(items[k].data) then [items[k]] else [])
  {
    assert items[..k + 1][..k] == items[..k];
  }

  lemma {:induction false} KeptPairs<V>(items: seq<Entry<V>>, keep: V -> bool)
    ensures Pairs(KeptItems(items, keep)) == Kept(Pairs(items), keep)
  {
    if items != [] {
      var front := items[..|items| - 1];
      KeptPairs(front, keep);
      assert Pairs(items)[..|items| - 1] == Pairs(front);
    }
  }

  /** The pairs whose data passes a test, in order. */
  function Kept<V>(pairs: seq<(string, V)>, keep: V -> bool): seq<(string, V)> {
    if pairs == [] then []
    else Kept(pairs[..|pairs| - 1], keep) + (if keep(pairs[|pairs| - 1].1) then [pairs[|pairs| - 1]] else [])
  }

  lemma NameIsUnique<V>(items: seq<Entry<V>>, k: nat, keep: V -> bool)
    requires Unique(Pairs(items)) && k < |items|
    ensures forall i :: 0 <= i < |KeptItems(items[..k], keep)| ==> KeptItems(items[..k], keep)[i].key != items[k].key
    ensures var rest := items[k + 1..]; forall i :: 0 <= i < |rest| ==> rest[i].key != items[k].key
  {
    var pairs := Pairs(items);
    assert forall i :: 0 <= i < |items| ==> pairs[i].0 == items[i].key;
    forall i | 0 <= i < |items| && i != k ensures items[i].key != items[k].key {
      assert pairs[i].0 != pairs[k].0;
    }
    KeptOthers(items[..k], keep, items[k].key);
  }

  lemma OnlyNamed<V>(kept: seq<Entry<V>>, entry: Entry<V>, rest: seq<Entry<V>>, key: string)
    requires entry.key == key
    requires forall i :: 0 <= i < |kept| ==> kept[i].key != key
    requires forall i :: 0 <= i < |rest| ==> rest[i].key != key
    ensures HasKey(Pairs(kept + [entry] + rest), key) && !HasKey(Pairs(kept + rest), key)
    ensures var s := kept + [entry] + rest; forall i :: 0 <= i < |s| && s[i].key == key ==> i == |kept|
    ensures Without(kept + [entry] + rest, |kept|) == kept + rest
  {
    assert Pairs(kept + [entry] + rest)[|kept|].0 == key;
  }

  class HashTable<V> {
    const h: Table<V>

    ghost predicate Valid()
      reads this, h, h.buckets, Items(h.m)
    {
      h.Valid()
    }

    ghost function Footprint(): set<object>
      reads this, h
    {
      {h, h.buckets} + (set e | e in Items(h.m))
    }

    ghost function Contents(): (r: seq<(string, V)>)
      reads this, h
    {
      Pairs(Items(h.m))
    }

    /** ht_create. */
    constructor (fcn: HashFcn)
      ensures Valid() && Contents() == [] && fresh(Footprint())
    {
      h := new Table<V>(fcn);
    }

    /** ht_entry_count. */
    method EntryCount() returns (n: nat)
      requires Valid()
      ensures n == |Contents()|
    {
      n := if h.head != null then h.numItems else 0;
    }

    /** ht_add_entry: no check for duplicates. */
    method AddEntry(key: string, data: V)
      requires Valid()
      modifies Footprint()
      ensures Valid() && fresh(Footprint() - old(Footprint()))
      ensures Contents() == old(Contents()) + [(key, data)]
    {
      hide WellFormed, BucketsHold, AllChained, Listed, Hashed;
      var entry := new Entry<V>(key, data);
      h.Add(entry);
    }

    /** ht_has_entry. */
    method HasEntry(key: string) returns (res: bool)
      requires Valid()
      ensures res <==> HasKey(Contents(), key)
    {
      var entry := h.Find(key);
      res := entry != null;
      if entry != null {
        assert Contents()[IndexOf(Items(h.m), entry)].0 == key;
      }
    }

    /** ht_get_entry: some entry with the key, `None` for the error return. */
    method GetEntry(key: string) returns (res: Option<V>)
      requires Valid()
      ensures res.None? <==> !HasKey(Contents(), key)
      ensures res.Some? ==> (key, res.value) in Contents()
      ensures Unique(Contents()) ==>
                res == if key in AsMap(Contents()) then Some(AsMap(Contents())[key]) else None
    {
      var entry := h.Find(key);
      res := None;
      if entry != null {
        res := Some(entry.data);
        assert Contents()[IndexOf(Items(h.m), entry)] == (key, entry.data);
      }
      if Unique(Contents()) {
        AsMapLookup(Contents(), key);
      }
    }

    /** ht_add_unique_entry: the first entry of a key wins. */
    method AddUniqueEntry(key: string, data: V) returns (err: int)
      requires Valid()
      modifies Footprint()
      ensures Valid() && fresh(Footprint() - old(Footprint()))
      ensures err == if HasKey(old(Contents()), key) then -1 else 0
      ensures Contents() == if err == 0 then old(Contents()) + [(key, data)] else old(Contents())
    {
      hide WellFormed, BucketsHold, AllChained, Listed, Hashed, HasKey;
      err := -1;
      var found := HasEntry(key);
      if !found {
        AddEntry(key, data);
        err := 0;
      }
    }

    /** HASH_DEL and free of one entry. */
    method DeleteEntry(entry: Entry<V>)
      requires Valid() && entry in Items(h.m)
      modifies Footprint()
      ensures Valid() && Footprint() <= old(Footprint())
      ensures Items(h.m) == Without(old(Items(h.m)), IndexOf(old(Items(h.m)), entry))
    {
      hide WellFormed, BucketsHold, AllChained, Listed, Hashed;
      h.Delete(entry);
    }

    /** ht_remove_entry: drops one entry with the key, if there is one. */
    method RemoveEntry(key: string) returns (err: int, ghost i: nat)
      requires Valid()
      modifies Footprint()
      ensures Valid() && Footprint() <= old(Footprint())
      ensures err == if HasKey(old(Contents()), key) then 0 else -1
      ensures err == 0 ==> i < |old(Items(h.m))| && old(Items(h.m))[i].key == key
                           && Items(h.m) == Without(old(Items(h.m)), i) && Contents() == Without(old(Contents()), i)
      ensures err != 0 ==> Items(h.m) == old(Items(h.m))
    {
      hide WellFormed, BucketsHold, AllChained, Listed, Hashed;
      err, i := -1, 0;
      var entry := h.Find(key);
      if entry != null {
        i := IndexOf(Items(h.m), entry);
        assert Contents()[i].0 == key;
        PairsWithout(Items(h.m), i);
        DeleteEntry(entry);
        err := 0;
      }
    }

    /** ht_free: HASH_ITER reads the successor before each deletion, and empties the table. */
    method Free()
      requires Valid()
      modifies Footprint()
      ensures Valid() && h.head == null && Contents() == []
    {
      hide WellFormed, BucketsHold, AllChained, Hashed, Listed, Without;
      ghost var rest := Items(h.m);
      NextAfter([], rest);
      var entry := h.head;
      var tmp := if entry != null then entry.next else null;
      while entry != null
        invariant Valid() && Footprint() <= old(Footprint())
        invariant Items(h.m) == rest && entry == Nth(rest, 0) && tmp == Nth(rest, 1)
        decreases |rest|
      {
        FirstGone(rest);
        DeleteEntry(entry);
        rest := rest[1..];
        NextAfter([], rest);
        entry := tmp;
        tmp := if tmp != null then tmp.next else null;
      }
    }

    /** ht_to_list: prepending each entry in turn yields the data in reverse insertion order. */
    method ToList() returns (l: CursorList.List<V>)
      requires Valid()
      ensures fresh(l) && l.Valid() && l.drift == 0
      ensures l.Contents() == Reversed(Datas(Items(h.m)))
    {
      hide WellFormed, BucketsHold, AllChained, Hashed;
      ghost var items := Items(h.m);
      l := new CursorList.List<V>();
      var entry := h.head;
      ghost var k := 0;
      while entry != null
        invariant k <= |items| && entry == Nth(items, k)
        invariant fresh(l) && fresh(l.nodes) && l.Valid() && l.drift == 0 && l.curpos == 0
        invariant l.Contents() == Reversed(Datas(items[..k]))
        decreases |items| - k
      {
        l.Add(entry.data);
        assert Datas(items[..k + 1]) == Datas(items[..k]) + [entry.data];
        ReversedAppend(Datas(items[..k]), entry.data);
        entry, k := entry.next, k + 1;
      }
      assert items[..k] == items;
    }

    /** Removal by name of the entry between `kept` and `rest`, if it is still there. */
    method RemoveNamed(key: string, ghost there: bool, ghost kept: seq<Entry<V>>, ghost entry: Entry<V>,
                       ghost rest: seq<Entry<V>>)
      requires Valid() && entry.key == key && Items(h.m) == if there then kept + [entry] + rest else kept + rest
      requires forall i :: 0 <= i < |kept| ==> kept[i].key != key
      requires forall i :: 0 <= i < |rest| ==> rest[i].key != key
      modifies Footprint()
      ensures Valid() && Footprint() <= old(Footprint()) && Items(h.m) == kept + rest
    {
      hide WellFormed, BucketsHold, AllChained, Listed, Hashed, HasKey, Pairs, Without;
      OnlyNamed(kept, entry, rest, key);
      var err, at := RemoveEntry(key);
    }

    lemma NextAfter(kept: seq<Entry<V>>, rest: seq<Entry<V>>)
      requires Valid() && Items(h.m) == kept + rest
      ensures rest != [] ==> rest[0].next == Nth(rest, 1)
      ensures h.head == Nth(Items(h.m), 0)
    {
      if rest != [] {
        assert Items(h.m)[|kept|] == rest[0];
      }
    }
  }

  lemma FirstGone<V>(s: seq<Entry<V>>)
    requires s != []
    ensures Without(s, IndexOf(s, s[0])) == s[1..]
  {
  }

  /** A pruning iteration over `items` that has come to `rest`. */
  ghost predicate Progress<V>(items: seq<Entry<V>>, keep: V -> bool, kept: seq<Entry<V>>, rest: seq<Entry<V>>) {
    && |rest| <= |items| && rest == items[|items| - |rest|..]
    && kept == KeptItems(items[..|items| - |rest|], keep)
  }

  lemma NoProgress<V>(items: seq<Entry<V>>, keep: V -> bool)
    ensures Progress(items, keep, [], items) && [] + items == items
  {
  }

  lemma MoreProgress<V>(items: seq<Entry<V>>, keep: V -> bool, kept: seq<Entry<V>>, rest: seq<Entry<V>>)
    requires Progress(items, keep, kept, rest) && rest != [] && Unique(Pairs(items))
    ensures Progress(items, keep, kept + (if keep(rest[0].data) then [rest[0]] else []), rest[1..])
    ensures forall i :: 0 <= i < |kept| ==> kept[i].key != rest[0].key
    ensures forall i :: 1 <= i < |rest| ==> rest[i].key != rest[0].key
  {
    var k := |items| - |rest|;
    hide KeptItems, Unique, Pairs;
    KeptStep(items, k, keep);
    NameIsUnique(items, k, keep);
    assert rest[1..] == items[k + 1..];
    assert forall i :: 1 <= i < |rest| ==> rest[i] == items[k + 1..][i - 1];
  }

  lemma AllDone<V>(items: seq<Entry<V>>, keep: V -> bool, kept: seq<Entry<V>>, rest: seq<Entry<V>>)
    requires Progress(items, keep, kept, rest) && rest == []
    ensures kept + rest == KeptItems(items, keep)
  {
    assert items[..|items|] == items;
  }
}
