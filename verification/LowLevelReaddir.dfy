/** readdir_get_selected_files of the low-level version: it prunes the table of the files found while that
    table is being walked. */
module LowLevelReaddir {
  import opened BucketModel
  import opened HashTable
  import opened Tags
  import opened TagFs
  import opened TagReaddir
  import opened UtHash

  ghost function KeysOf(pairs: seq<(string, File)>): set<string> {
    set i | 0 <= i < |pairs| :: pairs[i].0
  }

  /** Distinct files under their own names. */
  ghost predicate Named(pairs: seq<(string, File)>, files: map<string, File>) {
    && Unique(pairs)
    && forall i :: 0 <= i < |pairs| ==>
         pairs[i].0 == pairs[i].1.name && pairs[i].0 in files && pairs[i].1 == files[pairs[i].0]
  }

  // ----- the union ------------------------------------------------------------------------------------

  /** One tag of the first pass. It walks the tag's files and writes the table of the files found. */
  method AddFilesOf(t: Tag, h: HashTable<File>, ghost files: map<string, File>, ghost locks: Locks)
    returns (ghost locks': Locks)
    requires h.Valid() && Named(h.Contents(), files) && FoundFiles !in locks.walked
    requires forall n :: n in t.files ==> n in files && t.files[n] == files[n] && t.files[n].name == n
    modifies h.Footprint()
    ensures h.Valid() && Named(h.Contents(), files) && locks' == locks
    ensures forall o :: o in h.Footprint() ==> o in old(h.Footprint()) || fresh(o)
    ensures KeysOf(h.Contents()) == old(KeysOf(h.Contents())) + old(t.files.Keys)
  {
    hide *;
    ghost var keys, made := KeysOf(h.Contents()), h.Footprint();
    var listed := t.files;
    var names := listed.Keys;
    ghost var during := locks.Walking(FilesOf(t));
    while names != {}
      invariant names <= listed.Keys && during == locks.Walking(FilesOf(t))
      invariant h.Valid() && Named(h.Contents(), files)
      invariant forall o :: o in h.Footprint() ==> o in made || fresh(o)
      invariant KeysOf(h.Contents()) == keys + (listed.Keys - names)
      decreases |names|
    {
      var n :| n in names;
      assert n in listed;
      OneKeyLess(keys, listed.Keys, names, n);
      KeyAdded(h.Contents(), files, listed[n]);
      HarmlessWrite(locks, t);
      during := during.Written(FoundFiles);
      ghost var made1 := h.Footprint();
      label Before:
      var err := h.AddUniqueEntry(listed[n].name, listed[n]);
      forall o | o in h.Footprint() ensures o in made || fresh(o) {
        if o !in made1 {
          assert o in h.Footprint() - made1;
          assert fresh@Before(o);
        }
      }
      names := names - {n};
    }
    locks' := during.(walked := locks.walked);
    WalkEnds(locks, FilesOf(t));
  }

  /** The table of the files found is not being walked yet. */
  lemma HarmlessWrite(locks: Locks, t: Tag)
    requires FoundFiles !in locks.walked
    ensures locks.Walking(FilesOf(t)).Written(FoundFiles) == locks.Walking(FilesOf(t))
  {
  }

  lemma WalkEnds(locks: Locks, id: TableId)
    ensures locks.Walking(id).(walked := locks.walked) == locks
    ensures FoundFiles !in locks.walked && id != FoundFiles ==> FoundFiles !in locks.Walking(id).walked
  {
  }

  lemma OneKeyLess(keys: set<string>, all: set<string>, names: set<string>, n: string)
    requires n in names && names <= all
    ensures keys + (all - names) + {n} == keys + (all - (names - {n}))
  {
  }

  lemma KeyAdded(pairs: seq<(string, File)>, files: map<string, File>, f: File)
    requires Named(pairs, files) && f.name in files && files[f.name] == f
    ensures HasKey(pairs, f.name) <==> f.name in KeysOf(pairs)
    ensures if HasKey(pairs, f.name) then KeysOf(pairs) == KeysOf(pairs) + {f.name}
            else Named(pairs + [(f.name, f)], files) && KeysOf(pairs + [(f.name, f)]) == KeysOf(pairs) + {f.name}
  {
    var r := pairs + [(f.name, f)];
    if i :| 0 <= i < |pairs| && pairs[i].0 == f.name {
      assert f.name in KeysOf(pairs);
    } else {
      forall k ensures k in KeysOf(r) <==> k in KeysOf(pairs) || k == f.name {
        if k in KeysOf(pairs) {
          var i :| 0 <= i < |pairs| && pairs[i].0 == k;
          assert r[i].0 == k;
        }
        assert r[|pairs|].0 == f.name;
      }
    }
  }

  /** The first pass. */
  method UnionTable(fs: Store, selected: seq<Tag>, fcn: HashFcn, ghost locks: Locks)
    returns (h: HashTable<File>, ghost locks': Locks)
    requires fs.Indexed() && FoundFiles !in locks.walked
    requires forall i :: 0 <= i < |selected| ==> selected[i] in fs.known
    ensures fresh(h) && h.Valid() && Named(h.Contents(), fs.files)
    ensures forall o :: o in h.Footprint() ==> fresh(o)
    ensures (forall n :: n in KeysOf(h.Contents()) <==> Lists(selected, n)) && locks' == locks
  {
    hide *;
    h := new HashTable<File>(fcn);
    NothingFound(fs.files);
    ListsAre(selected);
    WalkEnds(locks, OfPath);
    ghost var during := locks.Walking(OfPath);
    for i := 0 to |selected|
      invariant fresh(h) && h.Valid() && Named(h.Contents(), fs.files)
      invariant forall o :: o in h.Footprint() ==> fresh(o)
      invariant forall n :: n in KeysOf(h.Contents()) <==> exists j :: 0 <= j < i && n in selected[j].files
      invariant during == locks.Walking(OfPath)
    {
      ListedByName(fs, selected[i]);
      during := AddFilesOf(selected[i], h, fs.files, during);
    }
    locks' := during.(walked := locks.walked);
  }

  lemma ListsAre(selected: seq<Tag>)
    ensures forall n :: Lists(selected, n) <==> exists j :: 0 <= j < |selected| && n in selected[j].files
  {
  }

  lemma NothingFound(files: map<string, File>)
    ensures Named([], files) && KeysOf([]) == {}
  {
  }

  lemma ListedByName(fs: Store, t: Tag)
    requires fs.Indexed() && t in fs.known
    ensures forall n :: n in t.files ==> n in fs.files && t.files[n] == fs.files[n] && t.files[n].name == n
  {
  }

  // ----- the prune ------------------------------------------------------------------------------------

  /** The comparison of one file with the tags of the path. It removes the file by name once for each tag
      that the file lacks, and each time writes the table that is being walked. */
  method PruneFile(f: File, selected: seq<Tag>, h: HashTable<File>, ghost kept: seq<Entry<File>>,
                   ghost entry: Entry<File>, ghost rest: seq<Entry<File>>, ghost locks: Locks)
    returns (ghost locks': Locks)
    requires h.Valid() && entry.key == f.name && Items(h.h.m) == kept + [entry] + rest && FoundFiles in locks.walked
    requires forall i :: 0 <= i < |kept| ==> kept[i].key != f.name
    requires forall i :: 0 <= i < |rest| ==> rest[i].key != f.name
    modifies h.Footprint()
    ensures h.Valid() && h.Footprint() <= old(h.Footprint())
    ensures var stays := old(forall i :: 0 <= i < |selected| ==> selected[i].value in f.tags);
            && Items(h.h.m) == (if stays then kept + [entry] + rest else kept + rest)
            && locks' == if stays then locks else locks.Written(FoundFiles)
  {
    hide *;
    NotAnEntry(h, f);
    ghost var there, tags := true, f.tags;
    ghost var during := locks.Walking(OfPath);
    for i := 0 to |selected|
      invariant h.Valid() && h.Footprint() <= old(h.Footprint()) && f.tags == tags
      invariant there <==> forall j :: 0 <= j < i ==> selected[j].value in tags
      invariant Items(h.h.m) == if there then kept + [entry] + rest else kept + rest
      invariant during == if there then locks.Walking(OfPath) else locks.Walking(OfPath).Written(FoundFiles)
    {
      NotAnEntry(h, f);
      WrittenTwice(locks);
      if selected[i].value !in f.tags {
        during := during.Written(FoundFiles);
        h.RemoveNamed(f.name, there, kept, entry, rest);
        there := false;
      }
    }
    locks' := during.(walked := locks.walked);
    WalkEnds(locks, OfPath);
    WrittenTwice(locks);
  }

  lemma WrittenTwice(locks: Locks)
    ensures var during := locks.Walking(OfPath).Written(FoundFiles);
            during.Written(FoundFiles) == during && during.(walked := locks.walked) == locks.Written(FoundFiles)
  {
  }

  lemma NotAnEntry(h: HashTable<File>, f: File)
    ensures f !in h.Footprint()
  {
  }

  /** Whether a file carries all tags of a path. */
  ghost function CarriesAll(rel: Relation, names: seq<string>): File -> bool {
    (f: File) => Carries(rel, f.name, names)
  }

  /** Where the walk stands: behind it the entries whose file carries all tags, before it the rest. */
  ghost predicate Pruning(items: seq<Entry<File>>, files: map<string, File>, keep: File -> bool,
                          kept: seq<Entry<File>>, rest: seq<Entry<File>>, locks: Locks, during: Locks) {
    && Named(Pairs(items), files) && Progress(items, keep, kept, rest) && |rest| <= |items|
    && during == locks.Walking(FoundFiles).(deadlocked :=
                   locks.deadlocked || SomeLacks(Pairs(items)[..|items| - |rest|], keep))
  }

  lemma PruningStarts(items: seq<Entry<File>>, files: map<string, File>, keep: File -> bool, locks: Locks)
    requires Named(Pairs(items), files)
    ensures Pruning(items, files, keep, [], items, locks, locks.Walking(FoundFiles)) && [] + items == items
  {
    NoProgress(items, keep);
  }

  /** An entry is a file under its own name, and the only one of that name. */
  lemma PruningStep(items: seq<Entry<File>>, files: map<string, File>, keep: File -> bool,
                    kept: seq<Entry<File>>, rest: seq<Entry<File>>, locks: Locks, during: Locks)
    requires Pruning(items, files, keep, kept, rest, locks, during) && rest != []
    ensures rest[0].key == rest[0].data.name && rest[0].key in files && rest[0].data == files[rest[0].key]
    ensures kept + [rest[0]] + rest[1..] == kept + rest && FoundFiles in during.walked
    ensures forall i :: 0 <= i < |kept| ==> kept[i].key != rest[0].key
    ensures forall i :: 1 <= i < |rest| ==> rest[i].key != rest[0].key
    ensures var stays := keep(rest[0].data);
            Pruning(items, files, keep, kept + (if stays then [rest[0]] else []), rest[1..], locks,
                    if stays then during else during.Written(FoundFiles))
  {
    hide KeptItems, SomeLacks, Progress;
    var pairs, k := Pairs(items), |items| - |rest|;
    ProgressAt(items, keep, kept, rest);
    assert pairs[k] == (items[k].key, items[k].data);
    assert rest == [rest[0]] + rest[1..];
    MoreProgress(items, keep, kept, rest);
    SomeLacksStep(pairs, keep, k);
  }

  lemma ProgressAt(items: seq<Entry<File>>, keep: File -> bool, kept: seq<Entry<File>>, rest: seq<Entry<File>>)
    requires Progress(items, keep, kept, rest) && rest != []
    ensures |rest| <= |items| && rest[0] == items[|items| - |rest|]
  {
  }

  lemma PruningEnds(items: seq<Entry<File>>, files: map<string, File>, keep: File -> bool,
                    kept: seq<Entry<File>>, locks: Locks, during: Locks)
    requires Pruning(items, files, keep, kept, [], locks, during)
    ensures Pairs(kept + []) == Kept(Pairs(items), keep)
    ensures during.(walked := locks.walked)
            == locks.(deadlocked := locks.deadlocked || SomeLacks(Pairs(items), keep))
  {
    hide Named, KeptItems, Kept, SomeLacks;
    AllDone(items, keep, kept, []);
    KeptPairs(items, keep);
    assert Pairs(items)[..|items|] == Pairs(items);
  }

  /** What file_matches_tags says of a file in the table. */
  lemma CarriedByName(fs: Store, f: File, selected: seq<Tag>)
    requires fs.Indexed() && f.name in fs.files && fs.files[f.name] == f
    ensures CarriesAll(fs.rel, Names(selected))(f) <==> forall i :: 0 <= i < |selected| ==> selected[i].value in f.tags
  {
    CarriesNames(fs.rel, f.name, selected);
    forall v ensures v in f.tags <==> (f.name, v) in fs.rel {
    }
  }

  /** One entry of the second pass. */
  method PruneNext(fs: Store, f: File, selected: seq<Tag>, h: HashTable<File>, ghost items: seq<Entry<File>>,
                   ghost kept: seq<Entry<File>>, ghost rest: seq<Entry<File>>, ghost locks: Locks, ghost during: Locks)
    returns (ghost kept': seq<Entry<File>>, ghost during': Locks)
    requires fs.Indexed() && h.Valid() && Items(h.h.m) == kept + rest && rest != [] && f == rest[0].data
    requires Pruning(items, fs.files, CarriesAll(fs.rel, Names(selected)), kept, rest, locks, during)
    modifies h.Footprint()
    ensures unchanged(fs) && fs.Indexed() && h.Valid() && h.Footprint() <= old(h.Footprint())
    ensures Items(h.h.m) == kept' + rest[1..]
    ensures Pruning(items, fs.files, CarriesAll(fs.rel, Names(selected)), kept', rest[1..], locks, during')
  {
    hide *;
    ghost var keep := CarriesAll(fs.rel, Names(selected));
    PruningStep(items, fs.files, keep, kept, rest, locks, during);
    CarriedByName(fs, f, selected);
    Elsewhere(fs, h);
    during' := PruneFile(f, selected, h, kept, rest[0], rest[1..], during);
    kept' := kept + (if keep(f) then [rest[0]] else []);
    assert kept + [] == kept;
  }

  /** A table of files is made of other objects than the store, its tags and its files. */
  lemma Elsewhere(fs: Store, h: HashTable<File>)
    ensures fs !in h.Footprint()
    ensures (forall f: File :: f !in h.Footprint()) && forall t: Tag :: t !in h.Footprint()
  {
  }

  /** Some file found lacks a tag of the path. */
  ghost predicate SomeLacks(pairs: seq<(string, File)>, keep: File -> bool) {
    exists i :: 0 <= i < |pairs| && !keep(pairs[i].1)
  }

  lemma SomeLacksStep(pairs: seq<(string, File)>, keep: File -> bool, k: nat)
    requires k < |pairs|
    ensures SomeLacks(pairs[..k + 1], keep) <==> SomeLacks(pairs[..k], keep) || !keep(pairs[k].1)
  {
    if SomeLacks(pairs[..k], keep) {
      var i :| 0 <= i < k && !keep(pairs[..k][i].1);
      assert pairs[..k + 1][i] == pairs[..k][i];
    }
    if !keep(pairs[k].1) {
      assert pairs[..k + 1][k] == pairs[k];
    }
    if SomeLacks(pairs[..k + 1], keep) && keep(pairs[k].1) {
      var i :| 0 <= i < k + 1 && !keep(pairs[..k + 1][i].1);
      assert pairs[..k][i] == pairs[..k + 1][i];
    }
  }

  /** The second pass: the table is pruned while it is being walked. Every entry is visited once and those
      stay whose file carries all tags of the path. */
  method PruneTable(fs: Store, selected: seq<Tag>, h: HashTable<File>, ghost locks: Locks) returns (ghost locks': Locks)
    requires fs.Indexed() && h.Valid() && Named(h.Contents(), fs.files)
    modifies h.Footprint()
    ensures unchanged(fs) && h.Valid()
    ensures h.Contents() == Kept(old(h.Contents()), CarriesAll(fs.rel, Names(selected)))
    ensures locks' == locks.(deadlocked := locks.deadlocked
                                           || SomeLacks(old(h.Contents()), CarriesAll(fs.rel, Names(selected))))
  {
    hide *;
    ghost var items, keep := Items(h.h.m), CarriesAll(fs.rel, Names(selected));
    ghost var kept, rest, during := [], items, locks.Walking(FoundFiles);
    PairsAre(h);
    PruningStarts(items, fs.files, keep, locks);
    h.NextAfter([], items);
    NthIs(items);
    var entry := h.h.head;
    var tmp := if entry != null then entry.next else null;
    while entry != null
      invariant h.Valid() && h.Footprint() <= old(h.Footprint())
      invariant Items(h.h.m) == kept + rest && entry == Nth(rest, 0) && tmp == Nth(rest, 1)
      invariant fs.Indexed() && unchanged(fs) && Pruning(items, fs.files, keep, kept, rest, locks, during)
      decreases |rest|
    {
      NthIs(rest);
      kept, during := PruneNext(fs, entry.data, selected, h, items, kept, rest, locks, during);
      rest := rest[1..];
      h.NextAfter(kept, rest);
      NthIs(rest);
      entry := tmp;
      tmp := if tmp != null then tmp.next else null;
    }
    NthIs(rest);
    PairsAre(h);
    PruningEnds(items, fs.files, keep, kept, locks, during);
    locks' := during.(walked := locks.walked);
  }

  lemma PairsAre(h: HashTable<File>)
    ensures h.Contents() == Pairs(Items(h.h.m))
  {
  }

  lemma NthIs(rest: seq<Entry<File>>)
    ensures Nth(rest, 0) == null <==> rest == []
    ensures rest != [] ==> Nth(rest, 0) == rest[0] && Nth(rest, 1) == Nth(rest[1..], 0)
    ensures rest == [] ==> Nth(rest, 1) == null
  {
  }

  lemma {:induction false} KeptKeys(pairs: seq<(string, File)>, files: map<string, File>, keep: File -> bool)
    requires Named(pairs, files)
    ensures Named(Kept(pairs, keep), files) && forall n :: n in KeysOf(pairs) ==> n in files
    ensures forall n :: n in KeysOf(Kept(pairs, keep)) <==> n in KeysOf(pairs) && keep(files[n])
  {
    hide Named, KeysOf, HasKey;
    if pairs == [] {
      assert KeysOf([]) == {} by { NothingFound(files); }
    } else {
      var front, f := pairs[..|pairs| - 1], pairs[|pairs| - 1].1;
      LastOf(pairs, files);
      KeptKeys(front, files, keep);
      KeyAdded(front, files, f);
      KeyAdded(Kept(front, keep), files, f);
      assert Kept(pairs, keep) == if keep(f) then Kept(front, keep) + [(f.name, f)] else Kept(front, keep);
    }
  }

  lemma LastOf(pairs: seq<(string, File)>, files: map<string, File>)
    requires Named(pairs, files) && pairs != []
    ensures var front, f := pairs[..|pairs| - 1], pairs[|pairs| - 1].1;
            && Named(front, files) && pairs == front + [(f.name, f)] && f.name in files && files[f.name] == f
            && f.name !in KeysOf(front)
    ensures forall n :: n in KeysOf(pairs) ==> n in files
  {
    var front := pairs[..|pairs| - 1];
    assert forall i :: 0 <= i < |front| ==> front[i] == pairs[i];
    assert pairs[|pairs| - 1] == (pairs[|pairs| - 1].1.name, pairs[|pairs| - 1].1);
  }

  /** readdir_get_selected_files. It yields the same files as the version that lists the others first; but
      it writes a table that it is walking exactly when some tag of the path is on a file that lacks
      another. */
  method SelectedFiles(fs: Store, selected: seq<Tag>, fcn: HashFcn, ghost locks: Locks)
    returns (h: HashTable<File>, ghost locks': Locks)
    requires fs.Indexed() && FoundFiles !in locks.walked
    requires forall i :: 0 <= i < |selected| ==> selected[i] in fs.known
    ensures unchanged(fs) && h.Valid() && Named(h.Contents(), fs.files)
    ensures KeysOf(h.Contents()) == IndexFiles(fs.tags, fs.rel, selected)
    ensures locks'.walked == locks.walked
    ensures locks'.deadlocked
            <==> (locks.deadlocked
                  || exists n :: n in fs.files && Lists(selected, n) && !Carries(fs.rel, n, Names(selected)))
  {
    hide HashTable.Valid, HashTable.Footprint, HashTable.Contents, Named, KeysOf, Store.Indexed, SomeLacks, CarriesAll,
      Lists, Carries, Rooted, Matching, IndexFiles, Kept;
    ghost var keep := CarriesAll(fs.rel, Names(selected));
    h, locks' := UnionTable(fs, selected, fcn, locks);
    ghost var pairs := h.Contents();
    KeptKeys(pairs, fs.files, keep);
    locks' := PruneTable(fs, selected, h, locks');
    SameAsTwoPhases(fs, selected, pairs);
    LackedIn(fs, selected, pairs);
  }

  lemma SameAsTwoPhases(fs: Store, selected: seq<Tag>, pairs: seq<(string, File)>)
    requires fs.Indexed() && forall i :: 0 <= i < |selected| ==> selected[i] in fs.known
    requires Named(pairs, fs.files) && forall n :: n in KeysOf(pairs) <==> Lists(selected, n)
    requires var keep := CarriesAll(fs.rel, Names(selected));
             forall n :: n in KeysOf(Kept(pairs, keep)) <==> n in KeysOf(pairs) && keep(fs.files[n])
    ensures KeysOf(Kept(pairs, CarriesAll(fs.rel, Names(selected)))) == IndexFiles(fs.tags, fs.rel, selected)
  {
    hide Store.Indexed, Lists, Kept, Carries, Matching, Rooted;
    var kept := KeysOf(Kept(pairs, CarriesAll(fs.rel, Names(selected))));
    forall n ensures n in kept <==> n in IndexFiles(fs.tags, fs.rel, selected) {
      ListedOrMatching(fs, selected, n);
      if n in KeysOf(pairs) {
        var i :| 0 <= i < |pairs| && pairs[i].0 == n;
        assert fs.files[n].name == n;
      }
    }
  }

  lemma LackedIn(fs: Store, selected: seq<Tag>, pairs: seq<(string, File)>)
    requires Named(pairs, fs.files) && forall n :: n in KeysOf(pairs) <==> Lists(selected, n)
    ensures SomeLacks(pairs, CarriesAll(fs.rel, Names(selected)))
            <==> exists n :: n in fs.files && Lists(selected, n) && !Carries(fs.rel, n, Names(selected))
  {
    hide Lists, Carries;
    var names := Names(selected);
    if i :| 0 <= i < |pairs| && !Carries(fs.rel, pairs[i].1.name, names) {
      var n := pairs[i].0;
      assert n in KeysOf(pairs) && n in fs.files && !Carries(fs.rel, n, names);
    }
    if n :| n in fs.files && Lists(selected, n) && !Carries(fs.rel, n, names) {
      var i :| 0 <= i < |pairs| && pairs[i].0 == n;
      assert !CarriesAll(fs.rel, names)(pairs[i].1);
    }
  }
}
