/** The fuse_sqlite3 version: tags and files in three SQL tables, and the queries over them. */
module SqlTags {
  import opened Sums
  import Tags
  import TagReaddir

  /** SELECT COUNT(t_id) FROM tag_file WHERE f_id = fid AND t_id IN (ids). The primary key makes the
      rows a set of pairs. */
  function Count(pairs: set<(int, int)>, fid: int, ids: seq<int>): nat {
    |set p | p in pairs && p.1 == fid && p.0 in ids|
  }

  ghost predicate HasAll(pairs: set<(int, int)>, fid: int, ids: seq<int>) {
    forall i :: 0 <= i < |ids| ==> (ids[i], fid) in pairs
  }

  lemma {:induction false} DistinctCount<T>(s: seq<T>)
    ensures |set x | x in s| <= |s|
    ensures |set x | x in s| == |s| <==> NoDup(s)
  {
    if s != [] {
      var init, last := s[..|s| - 1], s[|s| - 1];
      DistinctCount(init);
      assert s == init + [last];
      var before, all := set x | x in init, set x | x in s;
      assert all == before + {last};
      if last in init {
        var i :| 0 <= i < |init| && init[i] == last;
        assert s[i] == s[|s| - 1];
        assert all == before;
      } else {
        assert forall i :: 0 <= i < |init| ==> s[i] == init[i];
      }
      assert NoDup(s) <==> NoDup(init) && last !in init;
    }
  }

  lemma SubsetOfSameSize<T>(a: set<T>, b: set<T>)
    requires a <= b
    ensures |a| <= |b| && (|a| == |b| <==> a == b)
  {
    assert b == a + (b - a);
  }

  lemma PairsCounted(pairs: set<(int, int)>, fid: int, ids: seq<int>)
    ensures Count(pairs, fid, ids) == |set i | i in ids && (i, fid) in pairs|
  {
    var rows := set p | p in pairs && p.1 == fid && p.0 in ids;
    var found := set i | i in ids && (i, fid) in pairs;
    FirstsCounted(rows, found, fid);
  }

  lemma Member<T>(s: set<T>) returns (x: T)
    requires |s| != 0
    ensures x in s
  {
    x :| x in s;
  }

  lemma {:induction false} FirstsCounted(rows: set<(int, int)>, firsts: set<int>, fid: int)
    requires forall p :: p in rows ==> p.1 == fid && p.0 in firsts
    requires forall i :: i in firsts ==> (i, fid) in rows
    ensures |rows| == |firsts|
    decreases firsts
  {
    if |firsts| == 0 {
      assert firsts == {};
      assert forall p :: p in rows ==> p.0 in firsts;
      assert rows == {};
    } else {
      var i := Member(firsts);
      forall p | p in rows - {(i, fid)} ensures p.0 in firsts - {i} {
        assert p == (p.0, p.1);
      }
      FirstsCounted(rows - {(i, fid)}, firsts - {i}, fid);
    }
  }

  /** The counting test is the subset test exactly for selections without repetition; a selection that
      repeats a tag matches no file. */
  lemma CountingTest(pairs: set<(int, int)>, fid: int, ids: seq<int>)
    ensures Count(pairs, fid, ids) == |ids| <==> HasAll(pairs, fid, ids) && NoDup(ids)
  {
    var all := set i | i in ids;
    var found := set i | i in ids && (i, fid) in pairs;
    PairsCounted(pairs, fid, ids);
    DistinctCount(ids);
    SubsetOfSameSize(found, all);
    if HasAll(pairs, fid, ids) {
      forall i | i in all ensures i in found {
        var k :| 0 <= k < |ids| && ids[k] == i;
      }
    }
    if found == all {
      forall k | 0 <= k < |ids| ensures (ids[k], fid) in pairs {
        assert ids[k] in all;
      }
    }
  }

  // ----- the remaining tags ---------------------------------------------------------------------------

  /** build_selected_file_query: files with at least one of the named tags. */
  ghost function AnySelected(rows: map<int, string>, pairs: set<(int, int)>, names: set<string>): set<int> {
    set p | p in pairs && p.0 in rows && rows[p.0] in names :: p.1
  }

  /** build_remaining_tags_query. */
  ghost function SqlRemaining(rows: map<int, string>, pairs: set<(int, int)>, names: set<string>): set<string> {
    set p | p in pairs && p.0 in rows && p.1 in AnySelected(rows, pairs, names) && rows[p.0] !in names :: rows[p.0]
  }

  ghost predicate CarriesName(rows: map<int, string>, pairs: set<(int, int)>, fid: int, name: string) {
    exists i :: i in rows && rows[i] == name && (i, fid) in pairs
  }

  ghost predicate CarriesAll(rows: map<int, string>, pairs: set<(int, int)>, fid: int, names: set<string>) {
    forall c :: c in names ==> CarriesName(rows, pairs, fid, c)
  }

  /** What the hash table version offers: tags of files that have all the named tags. */
  ghost function HashRemaining(rows: map<int, string>, pairs: set<(int, int)>, names: set<string>): set<string> {
    set p | p in pairs && p.0 in rows && CarriesAll(rows, pairs, p.1, names) && rows[p.0] !in names :: rows[p.0]
  }

  /** The relation of the other versions: names of files paired with names of their tags. */
  ghost function ByName(rows: map<int, string>, pairs: set<(int, int)>, fileName: int -> string): Tags.Relation {
    set p | p in pairs && p.0 in rows :: (fileName(p.1), rows[p.0])
  }

  lemma CarriesByName(rows: map<int, string>, pairs: set<(int, int)>, fileName: int -> string, fid: int, c: string)
    requires forall p, q :: p in pairs && q in pairs && fileName(p.1) == fileName(q.1) ==> p.1 == q.1
    requires exists p :: p in pairs && p.1 == fid
    ensures (fileName(fid), c) in ByName(rows, pairs, fileName) <==> CarriesName(rows, pairs, fid, c)
  {
    if CarriesName(rows, pairs, fid, c) {
      var i :| i in rows && rows[i] == c && (i, fid) in pairs;
      assert (fileName((i, fid).1), rows[(i, fid).0]) in ByName(rows, pairs, fileName);
    }
    if (fileName(fid), c) in ByName(rows, pairs, fileName) {
      var p :| p in pairs && p.0 in rows && fileName(p.1) == fileName(fid) && rows[p.0] == c;
      var q :| q in pairs && q.1 == fid;
      var i := p.0;
      assert p == (i, fid);
      assert i in rows && rows[i] == c && (i, fid) in pairs;
    }
  }

  /** That is what the listing of the hash table version shows for that relation, whatever names the files have,
      as long as no two have the same. */
  lemma HashRemainingIsListed(rows: map<int, string>, pairs: set<(int, int)>, names: set<string>, fileName: int -> string)
    requires forall p, q :: p in pairs && q in pairs && fileName(p.1) == fileName(q.1) ==> p.1 == q.1
    ensures HashRemaining(rows, pairs, names) == TagReaddir.Remaining(ByName(rows, pairs, fileName), names)
  {
    var rel := ByName(rows, pairs, fileName);
    forall p | p in pairs
      ensures CarriesAll(rows, pairs, p.1, names) <==> forall c :: c in names ==> (fileName(p.1), c) in rel
    {
      forall c ensures (fileName(p.1), c) in rel <==> CarriesName(rows, pairs, p.1, c) {
        CarriesByName(rows, pairs, fileName, p.1, c);
      }
    }
    SameTagsOffered(rows, pairs, names, fileName);
  }

  lemma SameTagsOffered(rows: map<int, string>, pairs: set<(int, int)>, names: set<string>, fileName: int -> string)
    requires forall p :: p in pairs ==>
               (CarriesAll(rows, pairs, p.1, names)
                <==> forall c :: c in names ==> (fileName(p.1), c) in ByName(rows, pairs, fileName))
    ensures HashRemaining(rows, pairs, names) == TagReaddir.Remaining(ByName(rows, pairs, fileName), names)
  {
    hide CarriesAll;
    var rel := ByName(rows, pairs, fileName);
    forall v | v in HashRemaining(rows, pairs, names) ensures v in TagReaddir.Remaining(rel, names) {
      var p :| p in pairs && p.0 in rows && CarriesAll(rows, pairs, p.1, names) && rows[p.0] !in names && rows[p.0] == v;
      assert (fileName(p.1), rows[p.0]) in rel;
      assert (fileName(p.1), rows[p.0]).1 == v;
    }
    forall v | v in TagReaddir.Remaining(rel, names) ensures v in HashRemaining(rows, pairs, names) {
      var r :| r in rel && r.1 !in names && (forall c :: c in names ==> (r.0, c) in rel) && r.1 == v;
      var p :| p in pairs && p.0 in rows && r == (fileName(p.1), rows[p.0]);
      assert CarriesAll(rows, pairs, p.1, names);
    }
  }

  /** The SQL query: the tags, not in the path, of files that have at least one tag of the path. */
  lemma SqlOffers(rows: map<int, string>, pairs: set<(int, int)>, names: set<string>, v: string)
    ensures v in SqlRemaining(rows, pairs, names)
            <==> v !in names && exists f, c :: c in names && CarriesName(rows, pairs, f, v) && CarriesName(rows, pairs, f, c)
  {
    if v in SqlRemaining(rows, pairs, names) {
      var p :| p in pairs && p.0 in rows && p.1 in AnySelected(rows, pairs, names) && rows[p.0] == v;
      var q :| q in pairs && q.0 in rows && rows[q.0] in names && q.1 == p.1;
      var i, j := p.0, q.0;
      assert p == (i, p.1) && q == (j, p.1);
      assert i in rows && rows[i] == v && (i, p.1) in pairs && CarriesName(rows, pairs, p.1, v);
      assert j in rows && rows[j] in names && (j, p.1) in pairs && CarriesName(rows, pairs, p.1, rows[j]);
    }
    if v !in names && exists f, c :: c in names && CarriesName(rows, pairs, f, v) && CarriesName(rows, pairs, f, c) {
      var f, c :| c in names && CarriesName(rows, pairs, f, v) && CarriesName(rows, pairs, f, c);
      var i :| i in rows && rows[i] == v && (i, f) in pairs;
      var j :| j in rows && rows[j] == c && (j, f) in pairs;
      assert (j, f).1 in AnySelected(rows, pairs, names);
      assert rows[(i, f).0] in SqlRemaining(rows, pairs, names);
    }
  }

  /** SQL offers at least what the hash table version offers. */
  lemma SqlOffersMore(rows: map<int, string>, pairs: set<(int, int)>, names: set<string>)
    requires names != {}
    ensures HashRemaining(rows, pairs, names) <= SqlRemaining(rows, pairs, names)
  {
    forall v | v in HashRemaining(rows, pairs, names) ensures v in SqlRemaining(rows, pairs, names) {
      var p :| p in pairs && p.0 in rows && CarriesAll(rows, pairs, p.1, names) && rows[p.0] !in names && rows[p.0] == v;
      var c :| c in names;
      assert CarriesName(rows, pairs, p.1, c);
      var i :| i in rows && rows[i] == c && (i, p.1) in pairs;
      assert (i, p.1).1 in AnySelected(rows, pairs, names);
    }
  }

  /** Below a single tag both offer the same. */
  lemma SingleTagAgrees(rows: map<int, string>, pairs: set<(int, int)>, name: string)
    ensures SqlRemaining(rows, pairs, {name}) == HashRemaining(rows, pairs, {name})
  {
    SqlOffersMore(rows, pairs, {name});
    forall v | v in SqlRemaining(rows, pairs, {name}) ensures v in HashRemaining(rows, pairs, {name}) {
      var p :| p in pairs && p.0 in rows && p.1 in AnySelected(rows, pairs, {name}) && rows[p.0] != name && rows[p.0] == v;
      var q :| q in pairs && q.0 in rows && rows[q.0] in {name} && q.1 == p.1;
      var i := q.0;
      assert q == (i, p.1);
      assert i in rows && rows[i] == name && (i, p.1) in pairs;
      assert CarriesName(rows, pairs, p.1, name);
      assert CarriesAll(rows, pairs, p.1, {name});
    }
  }

  ghost predicate OfferTheSame(rows: map<int, string>, pairs: set<(int, int)>, names: set<string>) {
    SqlRemaining(rows, pairs, names) == HashRemaining(rows, pairs, names)
  }

  /** Below two tags SQL offers a tag that leads nowhere, when a file has only one of them and that tag. */
  lemma OneOfTwoOffered(names: set<string>, a: string, b: string, v: string)
    requires a in names && b in names && a != b && v !in names
    ensures var rows, pairs := map[0 := a, 1 := b, 2 := v], {(0, 0), (2, 0)};
            SqlRemaining(rows, pairs, names) == {v} && HashRemaining(rows, pairs, names) == {}
  {
    var rows, pairs := map[0 := a, 1 := b, 2 := v], {(0, 0), (2, 0)};
    assert (0, 0).1 in AnySelected(rows, pairs, names);
    assert rows[(2, 0).0] in SqlRemaining(rows, pairs, names);
    assert !CarriesName(rows, pairs, 0, b);
  }

  lemma TwoTagsDisagree()
    ensures var rows, pairs := map[0 := "a", 1 := "b", 2 := "c"], {(0, 0), (2, 0)};
            SqlRemaining(rows, pairs, {"a", "b"}) == {"c"} && HashRemaining(rows, pairs, {"a", "b"}) == {}
  {
    OneOfTwoOffered({"a", "b"}, "a", "b", "c");
  }

  /** Without a tag SQL offers nothing, the hash table version everything. */
  lemma NoTagDisagrees()
    ensures !OfferTheSame(map[0 := "a"], {(0, 0)}, {})
  {
    var rows, pairs := map[0 := "a"], {(0, 0)};
    assert rows[(0, 0).0] in HashRemaining(rows, pairs, {});
    assert AnySelected(rows, pairs, {}) == {};
  }

  ghost function Longest(names: set<string>): (n: nat)
    ensures forall x :: x in names ==> |x| <= n
  {
    if names == {} then 0
    else
      var x :| x in names;
      var n := Longest(names - {x});
      if |x| <= n then n else |x|
  }

  /** Both versions offer the same on every database exactly below a single tag. */
  lemma OnlyOneTagAgrees(names: set<string>)
    ensures (forall rows, pairs :: OfferTheSame(rows, pairs, names)) <==> |names| == 1
  {
    if |names| == 1 {
      var a := Member(names);
      SubsetOfSameSize({a}, names);
      forall rows, pairs ensures OfferTheSame(rows, pairs, names) {
        SingleTagAgrees(rows, pairs, a);
      }
    } else if |names| == 0 {
      NoTagDisagrees();
    } else {
      var a := Member(names);
      assert names - {a} + {a} == names;
      var b := Member(names - {a});
      var v: string := seq(Longest(names) + 1, _ => 'a');
      OneOfTwoOffered(names, a, b, v);
      assert !OfferTheSame(map[0 := a, 1 := b, 2 := v], {(0, 0), (2, 0)}, names);
    }
  }

  // ----- the tables and the hash table beside them ---------------------------------------------------------

  class Database {
    /** Table `tag` by its primary key. */
    var rows: map<int, string>
    /** Table `tag_file`. */
    var pairs: set<(int, int)>
    /** The hash table of tags, by name. */
    var tags: map<string, int>
    var nextId: nat

    ghost predicate Valid()
      reads this
    {
      && (forall i :: i in rows ==> 0 <= i < nextId)
      && (forall i, j :: i in rows && j in rows && i != j ==> rows[i] != rows[j])
      && (forall c :: c in tags ==> 0 <= tags[c] < nextId)
      && (forall c, d :: c in tags && d in tags && c != d ==> tags[c] != tags[d])
    }

    /** The hash table and the table `tag` say the same about every tag. */
    ghost predicate Synced()
      reads this
    {
      forall c :: c in tags ==> tags[c] in rows && rows[tags[c]] == c
    }

    constructor ()
      ensures Valid() && Synced() && rows == map[] && pairs == {} && tags == map[]
    {
      rows, pairs, tags, nextId := map[], {}, map[], 0;
    }

    /** db_add_tag: the insertion fails when the name is there already. */
    method InsertTag(name: string, id: int) returns (ok: bool)
      modifies `rows
      ensures ok == (id !in old(rows) && name !in old(rows).Values)
      ensures rows == if ok then old(rows)[id := name] else old(rows)
    {
      ok := id !in rows && name !in rows.Values;
      if ok {
        rows := rows[id := name];
      }
    }

    /** tag_get_or_create; the failure of the insertion is not looked at. */
    method GetOrCreate(name: string) returns (id: int)
      requires Valid()
      modifies `rows, `tags, `nextId
      ensures Valid() && name in tags && tags[name] == id && tags == old(tags)[name := id]
      ensures name in old(tags) ==> tags == old(tags) && rows == old(rows)
      ensures rows == if name in old(tags) || name in old(rows).Values then old(rows) else old(rows)[id := name]
      ensures old(Synced()) ==> (Synced() <==> name in old(tags) || name !in old(rows).Values)
    {
      if name in tags {
        return tags[name];
      }
      id := nextId;
      nextId := nextId + 1;
      ghost var rows0 := rows;
      assert id !in rows;
      var ok := InsertTag(name, id);
      forall i, j | i in rows && j in rows && i != j ensures rows[i] != rows[j] {
        assert i in rows0 ==> rows0[i] in rows0.Values;
        assert j in rows0 ==> rows0[j] in rows0.Values;
      }
      tags := tags[name := id];
    }

    /** tag_remove: only the hash table forgets the tag. */
    method Remove(name: string)
      requires Valid()
      modifies `tags
      ensures Valid() && tags == old(tags) - {name} && (old(Synced()) ==> Synced())
    {
      tags := tags - {name};
    }

    /** db_tag_file: the primary key refuses a pair that is there. */
    method TagFile(id: int, fid: int) returns (ok: bool)
      modifies `pairs
      ensures pairs == old(pairs) + {(id, fid)} && ok == ((id, fid) !in old(pairs))
    {
      ok := (id, fid) !in pairs;
      pairs := pairs + {(id, fid)};
    }

    /** db_untag_file. */
    method UntagFile(id: int, fid: int)
      modifies `pairs
      ensures pairs == old(pairs) - {(id, fid)}
    {
      pairs := pairs - {(id, fid)};
    }

    /** db_file_match_tags for a path of existing tags. */
    method FileMatches(fid: int, components: seq<string>) returns (match_: bool)
      requires Valid() && forall i :: 0 <= i < |components| ==> components[i] in tags
      ensures match_ <==> NoDup(components) && forall i :: 0 <= i < |components| ==> (tags[components[i]], fid) in pairs
    {
      var table := tags;
      var ids := seq(|components|, i requires 0 <= i < |components| && components[i] in table => table[components[i]]);
      match_ := Count(pairs, fid, ids) == |ids|;
      CountingTest(pairs, fid, ids);
      assert forall i :: 0 <= i < |ids| ==> ids[i] == tags[components[i]];
      if NoDup(components) {
        forall i, j | 0 <= i < j < |ids| ensures ids[i] != ids[j] {
          assert components[i] != components[j];
        }
      }
      if NoDup(ids) {
        forall i, j | 0 <= i < j < |components| ensures components[i] != components[j] {
          assert ids[i] != ids[j];
        }
      }
    }

    /** With the tables in step, ids and names agree on who carries what. */
    lemma SyncedCarries(fid: int, name: string)
      requires Valid() && Synced() && name in tags
      ensures CarriesName(rows, pairs, fid, name) <==> (tags[name], fid) in pairs
    {
      if CarriesName(rows, pairs, fid, name) {
        var i :| i in rows && rows[i] == name && (i, fid) in pairs;
        assert i == tags[name];
      }
    }
  }

  /** A tag that is removed and made again is out of step for good: files get its new id, which the
      table `tag` does not know, so the test by id accepts a file that the query by name misses. */
  method RecreatedTag() returns (db: Database, match_: bool)
    ensures db.Valid() && !db.Synced()
    ensures match_ && "a" in db.tags && "b" in db.tags && (db.tags["b"], 0) in db.pairs
    ensures SqlRemaining(db.rows, db.pairs, {"a"}) == {}
  {
    var a;
    db, a := Remade();
    var b := db.GetOrCreate("b");
    var ok := db.TagFile(a, 0);
    ok := db.TagFile(b, 0);
    match_ := db.FileMatches(0, ["a"]);
    assert ["a"][0] == "a";
    NoneCarries(db, a, b);
  }

  /** A new database where the tag "a" was made, removed and made again. */
  method Remade() returns (db: Database, a: int)
    ensures fresh(db) && db.Valid() && db.pairs == {} && db.tags == map["a" := a]
    ensures a !in db.rows && "b" !in db.rows.Values && "a" in db.rows.Values
  {
    db := new Database();
    var first := db.GetOrCreate("a");
    ghost var rows := db.rows;
    assert rows == map[first := "a"];
    db.Remove("a");
    assert rows[first] == "a" && "a" in rows.Values;
    a := db.GetOrCreate("a");
  }

  lemma NoneCarries(db: Database, a: int, b: int)
    requires a !in db.rows && (b in db.rows ==> db.rows[b] == "b") && db.pairs == {(a, 0), (b, 0)}
    ensures SqlRemaining(db.rows, db.pairs, {"a"}) == {}
  {
    forall p | p in db.pairs && p.0 in db.rows ensures db.rows[p.0] != "a" {
      assert p == (a, 0) || p == (b, 0);
    }
    assert AnySelected(db.rows, db.pairs, {"a"}) == {};
  }
}
