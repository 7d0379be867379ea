/** readdir of the fuse version: which tags and which files a directory shows. */
module TagReaddir {
  import opened Sums
  import opened Tags
  import opened TagFs

  /** Some tag of the path is still the table's tag of its name. */
  ghost predicate Rooted(selected: seq<Tag>, tags: map<string, Tag>) {
    exists i :: 0 <= i < |selected| && InTable(selected[i], tags)
  }

  ghost predicate Lists(selected: seq<Tag>, n: string)
    reads selected`files
  {
    exists i :: 0 <= i < |selected| && n in selected[i].files
  }

  /** The files a path stands for, by the definition that getattr_intra uses. */
  ghost function Matching(rel: Relation, components: seq<string>): set<string> {
    set p | p in rel && Carries(rel, p.0, components) :: p.0
  }

  /** The files that the index yields for a path. */
  ghost function IndexFiles(tags: map<string, Tag>, rel: Relation, selected: seq<Tag>): set<string> {
    if Rooted(selected, tags) then Matching(rel, Names(selected)) else {}
  }

  // ----- the files of a path --------------------------------------------------------------------------

  /** One tag of the first pass of readdir_get_selected_files. */
  method AddFilesOf(fs: Store, t: Tag, found0: map<string, File>) returns (found: map<string, File>)
    requires FoundFiles !in fs.locks.walked
    modifies fs`locks
    ensures forall n :: n in found <==> n in found0 || n in t.files
    ensures forall n :: n in found ==> found[n] == if n in found0 then found0[n] else t.files[n]
    ensures fs.locks == old(fs.locks)
  {
    found := found0;
    var names := t.files.Keys;
    ghost var before := fs.locks;
    fs.BeginWalk(FilesOf(t));
    ghost var during := fs.locks;
    while names != {}
      invariant names <= t.files.Keys && fs.locks == during
      invariant forall n :: n in found <==> n in found0 || (n in t.files && n !in names)
      invariant forall n :: n in found ==> found[n] == if n in found0 then found0[n] else t.files[n]
      decreases |names|
    {
      var n :| n in names;
      assert n in t.files;
      fs.Write(FoundFiles);
      if n !in found {
        found := found[n := t.files[n]];
      }
      names := names - {n};
    }
    fs.EndWalk(FilesOf(t), before);
  }

  lemma ListsKnownFiles(fs: Store, t: Tag)
    requires fs.Indexed() && t in fs.known
    ensures forall n :: n in t.files ==> n in fs.files && t.files[n] == fs.files[n]
  {
  }

  lemma FoundIsListed(selected: seq<Tag>, found: map<string, File>)
    requires forall n :: n in found <==> exists j :: 0 <= j < |selected| && n in selected[j].files
    ensures forall n :: n in found <==> Lists(selected, n)
  {
  }

  lemma LiveAt(selected: seq<Tag>, i: nat)
    requires i < |selected|
    ensures AllLive(selected) ==> !selected[i].freed
  {
  }

  /** The first pass: the union of what the tags list. */
  method UnionOfFiles(fs: Store, selected: seq<Tag>) returns (found: map<string, File>)
    requires fs.Indexed() && FoundFiles !in fs.locks.walked
    requires forall i :: 0 <= i < |selected| ==> selected[i] in fs.known
    modifies fs`useAfterFree, fs`locks
    ensures forall n :: n in found <==> Lists(selected, n)
    ensures forall n :: n in found ==> n in fs.files && found[n] == fs.files[n]
    ensures AllLive(selected) ==> fs.useAfterFree == old(fs.useAfterFree)
    ensures fs.locks == old(fs.locks)
  {
    hide *;
    found := map[];
    ghost var before := fs.locks;
    fs.BeginWalk(OfPath);
    ghost var during := fs.locks;
    for i := 0 to |selected|
      invariant forall n :: n in found <==> exists j :: 0 <= j < i && n in selected[j].files
      invariant forall n :: n in found ==> n in fs.files && found[n] == fs.files[n]
      invariant AllLive(selected) ==> fs.useAfterFree == old(fs.useAfterFree)
      invariant fs.locks == during && fs.Indexed()
    {
      LiveAt(selected, i);
      found := AddListed(fs, selected[i], found);
    }
    FoundIsListed(selected, found);
    fs.EndWalk(OfPath, before);
  }

  /** The callback of the first pass on one tag. */
  method AddListed(fs: Store, t: Tag, found0: map<string, File>) returns (found: map<string, File>)
    requires fs.Indexed() && t in fs.known && FoundFiles !in fs.locks.walked
    requires forall n :: n in found0 ==> n in fs.files && found0[n] == fs.files[n]
    modifies fs`useAfterFree, fs`locks
    ensures forall n :: n in found <==> n in found0 || n in t.files
    ensures forall n :: n in found ==> n in fs.files && found[n] == fs.files[n]
    ensures fs.Indexed() && fs.useAfterFree == (old(fs.useAfterFree) || t.freed) && fs.locks == old(fs.locks)
  {
    hide *;
    ListsKnownFiles(fs, t);
    fs.Touch(t);
    found := AddFilesOf(fs, t, found0);
  }

  /** The second pass: a file is noted once for each tag of the path that it lacks. The files found are
      being walked meanwhile, and only the list of the others is written. */
  method NotMatching(fs: Store, selected: seq<Tag>, found: map<string, File>) returns (missing: seq<string>)
    requires fs.Indexed() && forall n :: n in found ==> n in fs.files && found[n] == fs.files[n]
    requires MissingFiles !in fs.locks.walked
    modifies fs`useAfterFree, fs`locks
    ensures forall n :: n in missing <==> n in found && !Carries(fs.rel, n, Names(selected))
    ensures AllLive(selected) ==> fs.useAfterFree == old(fs.useAfterFree)
    ensures fs.locks == old(fs.locks)
  {
    hide *;
    missing := [];
    var names := found.Keys;
    ghost var before := fs.locks;
    fs.BeginWalk(FoundFiles);
    ghost var during := fs.locks;
    while names != {}
      invariant names <= found.Keys && fs.locks == during && fs.Indexed()
      invariant forall n :: n in missing <==> n in found && n !in names && !Carries(fs.rel, n, Names(selected))
      invariant AllLive(selected) ==> fs.useAfterFree == old(fs.useAfterFree)
      decreases |names|
    {
      var n :| n in names;
      assert n in found;
      NamedFile(fs, n);
      var lacks := LackedTags(fs, selected, found[n]);
      missing := missing + lacks;
      names := names - {n};
    }
    fs.EndWalk(FoundFiles, before);
  }

  /** One file of the second pass. */
  method LackedTags(fs: Store, selected: seq<Tag>, f: File) returns (lacks: seq<string>)
    requires fs.Indexed() && f in fs.knownFiles && MissingFiles !in fs.locks.walked
    modifies fs`useAfterFree, fs`locks
    ensures forall n :: n in lacks ==> n == f.name
    ensures f.name in lacks <==> !Carries(fs.rel, f.name, Names(selected))
    ensures AllLive(selected) ==> fs.useAfterFree == old(fs.useAfterFree)
    ensures fs.locks == old(fs.locks)
  {
    lacks := [];
    ghost var before := fs.locks;
    fs.BeginWalk(OfPath);
    ghost var during := fs.locks;
    for i := 0 to |selected|
      invariant forall n :: n in lacks ==> n == f.name
      invariant f.name in lacks <==> exists j :: 0 <= j < i && (f.name, selected[j].value) !in fs.rel
      invariant AllLive(selected) ==> fs.useAfterFree == old(fs.useAfterFree)
      invariant fs.locks == during
    {
      fs.Touch(selected[i]);
      assert selected[i].value in f.tags <==> (f.name, selected[i].value) in fs.rel;
      if selected[i].value !in f.tags {
        fs.Write(MissingFiles);
        lacks := lacks + [f.name];
      }
    }
    fs.EndWalk(OfPath, before);
    CarriesNames(fs.rel, f.name, selected);
  }

  /** The removal of the noted files. */
  method DropAll(fs: Store, found0: map<string, File>, missing: seq<string>) returns (found: map<string, File>)
    requires FoundFiles !in fs.locks.walked
    modifies fs`locks
    ensures fs.locks == old(fs.locks)
    ensures forall n :: n in found <==> n in found0 && n !in missing
    ensures forall n :: n in found ==> found[n] == found0[n]
  {
    found := found0;
    ghost var before := fs.locks;
    fs.BeginWalk(MissingFiles);
    ghost var during := fs.locks;
    for i := 0 to |missing|
      invariant forall n :: n in found <==> n in found0 && n !in missing[..i]
      invariant forall n :: n in found ==> found[n] == found0[n]
      invariant fs.locks == during
    {
      fs.Write(FoundFiles);
      found := found - {missing[i]};
    }
    fs.EndWalk(MissingFiles, before);
    assert missing[..|missing|] == missing;
  }

  /** readdir_get_selected_files: union, then prune. The prune walks the list of the files that do not
      match, so it may write the table of those found. */
  method SelectedFiles(fs: Store, selected: seq<Tag>) returns (found: map<string, File>)
    requires fs.Indexed() && FoundFiles !in fs.locks.walked && MissingFiles !in fs.locks.walked
    requires forall i :: 0 <= i < |selected| ==> selected[i] in fs.known
    modifies fs`useAfterFree, fs`locks
    ensures found.Keys == IndexFiles(fs.tags, fs.rel, selected) && fs.locks == old(fs.locks)
    ensures forall n :: n in found ==> n in fs.files && found[n] == fs.files[n]
    ensures AllLive(selected) ==> fs.useAfterFree == old(fs.useAfterFree)
  {
    hide *;
    found := UnionOfFiles(fs, selected);
    var missing := NotMatching(fs, selected, found);
    found := DropAll(fs, found, missing);
    forall n ensures n in found <==> n in IndexFiles(fs.tags, fs.rel, selected) {
      ListedOrMatching(fs, selected, n);
    }
  }

  /** Among the files that match, those the union reaches: all of them as soon as one tag of the path
      is current, and none otherwise. */
  lemma ListedOrMatching(fs: Store, selected: seq<Tag>, n: string)
    requires fs.Indexed() && forall i :: 0 <= i < |selected| ==> selected[i] in fs.known
    ensures Lists(selected, n) && Carries(fs.rel, n, Names(selected))
            <==> Rooted(selected, fs.tags) && n in Matching(fs.rel, Names(selected))
    ensures Lists(selected, n) && Carries(fs.rel, n, Names(selected)) <==> n in IndexFiles(fs.tags, fs.rel, selected)
  {
    var names := Names(selected);
    if Lists(selected, n) && Carries(fs.rel, n, names) {
      var i :| 0 <= i < |selected| && n in selected[i].files;
      assert InTable(selected[i], fs.tags) && (n, selected[i].value) in fs.rel;
    }
    if Rooted(selected, fs.tags) && n in Matching(fs.rel, names) {
      var i :| 0 <= i < |selected| && InTable(selected[i], fs.tags);
      assert (n, names[i]) in fs.rel;
      assert n in selected[i].files;
    }
  }

  // ----- the tags that can still be added -------------------------------------------------------------

  /** The names readdir offers below `components`: tags outside the path on some file of the path. */
  ghost function Remaining(rel: Relation, components: set<string>): set<string> {
    set p | p in rel && p.1 !in components && (forall c :: c in components ==> (p.0, c) in rel) :: p.1
  }

  /** No tag of the table has been freed. */
  ghost predicate TableLive(tags: map<string, Tag>)
    reads tags.Values`freed
  {
    forall k :: k in tags ==> !tags[k].freed
  }

  /** One file of readdir_fill_remaining_tags. The names already shown are those of the table
      `remaining_tags`. */
  method OfferTagsOf(fs: Store, selected: set<string>, f: File, shown0: seq<string>) returns (shown: seq<string>)
    requires fs.Indexed() && f in fs.knownFiles && NoDup(shown0) && TableLive(fs.tags) && ShownTags !in fs.locks.walked
    modifies fs`useAfterFree, fs`locks
    ensures NoDup(shown) && shown0 <= shown
    ensures forall v :: v in shown <==> v in shown0 || (v !in selected && (f.name, v) in fs.rel)
    ensures fs.useAfterFree == old(fs.useAfterFree) && fs.locks == old(fs.locks)
  {
    hide *;
    TagsOfFile(fs, f);
    shown := shown0;
    var names := f.tags.Keys;
    ghost var before := fs.locks;
    fs.BeginWalk(TagsOf(f));
    ghost var during := fs.locks;
    while names != {}
      invariant names <= f.tags.Keys && NoDup(shown) && shown0 <= shown
      invariant forall v :: v in shown <==> v in shown0 || (v !in selected && v in f.tags && v !in names)
      invariant fs.useAfterFree == old(fs.useAfterFree) && fs.locks == during
      decreases |names|
    {
      var v :| v in names;
      assert v in f.tags;
      fs.Touch(f.tags[v]);
      if v !in selected && v !in shown {
        fs.Write(ShownTags);
        NoDupAppend(shown, v);
        shown := shown + [v];
      }
      names := names - {v};
    }
    fs.EndWalk(TagsOf(f), before);
  }

  lemma NoDupAppend<T>(s: seq<T>, x: T)
    requires NoDup(s) && x !in s
    ensures NoDup(s + [x])
  {
  }

  lemma TagsOfFile(fs: Store, f: File)
    requires fs.Indexed() && f in fs.knownFiles && TableLive(fs.tags)
    ensures forall v :: v in f.tags <==> (f.name, v) in fs.rel
    ensures forall v :: v in f.tags ==> f.tags[v].value == v && !f.tags[v].freed
  {
  }

  lemma NoneTwice()
    ensures var none: seq<string> := []; NoDup(none)
  {
  }

  /** readdir_fill_remaining_tags. */
  method FillRemaining(fs: Store, selected: set<string>, found: map<string, File>) returns (shown: seq<string>)
    requires fs.Indexed() && forall n :: n in found ==> n in fs.files && found[n] == fs.files[n]
    requires TableLive(fs.tags) && ShownTags !in fs.locks.walked
    modifies fs`useAfterFree, fs`locks
    ensures NoDup(shown)
    ensures forall v :: v in shown <==> v !in selected && exists n :: n in found && (n, v) in fs.rel
    ensures fs.useAfterFree == old(fs.useAfterFree) && fs.locks == old(fs.locks)
  {
    hide *;
    NoneTwice();
    shown := [];
    var names := found.Keys;
    ghost var before := fs.locks;
    fs.BeginWalk(FoundFiles);
    ghost var during := fs.locks;
    while names != {}
      invariant names <= found.Keys && NoDup(shown) && fs.Indexed() && TableLive(fs.tags)
      invariant forall v :: v in shown <==> v !in selected && exists n :: n in found && n !in names && (n, v) in fs.rel
      invariant fs.useAfterFree == old(fs.useAfterFree) && fs.locks == during
      decreases |names|
    {
      var n :| n in names;
      assert n in found;
      NamedFile(fs, n);
      shown := OfferTagsOf(fs, selected, found[n], shown);
      names := names - {n};
    }
    fs.EndWalk(FoundFiles, before);
  }

  lemma RemainingOf(rel: Relation, components: seq<string>, v: string)
    requires components != []
    ensures var selected := SetOf(components);
            v in Remaining(rel, selected) <==> v !in selected && exists n :: n in Matching(rel, components) && (n, v) in rel
  {
    var selected := SetOf(components);
    if v in Remaining(rel, selected) {
      var p :| p in rel && p.1 == v && forall c :: c in selected ==> (p.0, c) in rel;
      assert Carries(rel, p.0, components);
      assert p.0 in Matching(rel, components);
    }
    if v !in selected && exists n :: n in Matching(rel, components) && (n, v) in rel {
      var n :| n in Matching(rel, components) && (n, v) in rel;
      assert Carries(rel, n, components);
      assert (n, v).1 == v;
    }
  }

  /** readdir_list_tags_mode2: below at least one tag. Nothing is shown twice, and with a current tag
      in the path the set shown depends only on which tags the path names. */
  method ListTagsBelow(fs: Store, selected: seq<Tag>) returns (shown: seq<string>)
    requires fs.Indexed() && selected != [] && forall i :: 0 <= i < |selected| ==> selected[i] in fs.known
    requires TableLive(fs.tags) && fs.locks.walked == multiset{}
    modifies fs`useAfterFree, fs`locks
    ensures NoDup(shown) && fs.locks == old(fs.locks)
    ensures SetOf(shown) == if Rooted(selected, fs.tags) then Remaining(fs.rel, SetOf(Names(selected))) else {}
    ensures AllLive(selected) ==> fs.useAfterFree == old(fs.useAfterFree)
  {
    hide Store.Indexed, Matching, Remaining, Rooted;
    var found := SelectedFiles(fs, selected);
    ghost var names := Names(selected);
    var keys := set i | 0 <= i < |selected| :: selected[i].value;
    assert keys == SetOf(names) by {
      assert forall i :: 0 <= i < |selected| ==> names[i] == selected[i].value;
    }
    shown := FillRemaining(fs, keys, found);
    forall v
      ensures v in Remaining(fs.rel, keys) <==> v !in keys && exists n :: n in Matching(fs.rel, names) && (n, v) in fs.rel
    {
      RemainingOf(fs.rel, names, v);
    }
  }

  /** Going into an offered tag narrows the files and never leaves none; going into any other new
      name leaves none. */
  lemma OfferedMeansNonEmpty(rel: Relation, components: seq<string>, v: string)
    requires components != [] && v !in components
    ensures v in Remaining(rel, SetOf(components)) <==> Matching(rel, components + [v]) != {}
    ensures Matching(rel, components + [v]) <= Matching(rel, components)
  {
    RemainingOf(rel, components, v);
    var below := components + [v];
    forall n ensures n in Matching(rel, below) <==> n in Matching(rel, components) && (n, v) in rel {
      if n in Matching(rel, below) {
        assert (n, below[|components|]) in rel;
        forall i | 0 <= i < |components| ensures (n, components[i]) in rel {
          assert below[i] == components[i];
        }
      }
    }
  }

  /** Order and repetition of the components do not matter. */
  lemma MatchingBySet(rel: Relation, a: seq<string>, b: seq<string>)
    requires SetOf(a) == SetOf(b)
    ensures Matching(rel, a) == Matching(rel, b)
  {
    forall n ensures Carries(rel, n, a) <==> Carries(rel, n, b) {
      var names := SetOf(a);
      CarriesSet(rel, n, a, names);
      CarriesSet(rel, n, b, names);
    }
  }

  lemma CarriesSet(rel: Relation, n: string, a: seq<string>, names: set<string>)
    requires names == SetOf(a)
    ensures Carries(rel, n, a) <==> forall c :: c in names ==> (n, c) in rel
  {
    if Carries(rel, n, a) {
      forall c | c in names ensures (n, c) in rel {
        var i :| 0 <= i < |a| && a[i] == c;
      }
    } else {
      var i :| 0 <= i < |a| && (n, a[i]) !in rel;
      assert a[i] in a;
    }
  }

  /** tag_list, a walk over the tag table. */
  method TagList(fs: Store) returns (tagl: seq<Tag>)
    modifies fs`locks
    ensures forall k :: k in fs.tags ==> fs.tags[k] in tagl
    ensures forall i :: 0 <= i < |tagl| ==> tagl[i] in fs.tags.Values
    ensures (forall k :: k in fs.tags ==> fs.tags[k].value == k) ==> NoDup(tagl)
    ensures fs.locks == old(fs.locks)
  {
    tagl := [];
    var names := fs.tags.Keys;
    ghost var before := fs.locks;
    fs.BeginWalk(AllTags);
    ghost var during := fs.locks;
    while names != {}
      invariant names <= fs.tags.Keys && fs.locks == during
      invariant forall k :: k in fs.tags && k !in names ==> fs.tags[k] in tagl
      invariant forall i :: 0 <= i < |tagl| ==> exists k :: k in fs.tags && k !in names && fs.tags[k] == tagl[i]
      invariant (forall k :: k in fs.tags ==> fs.tags[k].value == k) ==> NoDup(tagl)
      decreases |names|
    {
      var k :| k in names;
      assert k in fs.tags;
      tagl := [fs.tags[k]] + tagl;
      names := names - {k};
    }
    fs.EndWalk(AllTags, before);
  }

  /** readdir_list_tags_mode1: at the root, the tags in use. */
  method ListTagsAtRoot(fs: Store) returns (shown: seq<string>)
    requires fs.Indexed() && TableLive(fs.tags)
    modifies fs`useAfterFree, fs`locks
    ensures NoDup(shown) && SetOf(shown) == UsedNames(fs.tags)
    ensures fs.useAfterFree == old(fs.useAfterFree) && fs.locks == old(fs.locks)
  {
    TableFacts(fs);
    hide Store.Indexed;
    var tagl := TagList(fs);
    shown := [];
    for i := 0 to |tagl|
      invariant NoDup(shown) && fs.useAfterFree == old(fs.useAfterFree) && fs.locks == old(fs.locks)
      invariant forall k :: k in shown <==> k in UsedNames(fs.tags) && fs.tags[k] in tagl[..i]
    {
      var t := tagl[i];
      fs.Touch(t);
      assert tagl[..i + 1] == tagl[..i] + [t];
      assert t !in tagl[..i];
      if t.inUse {
        shown := shown + [t.value];
      }
    }
    assert tagl[..|tagl|] == tagl;
  }

  // ----- the files shown ------------------------------------------------------------------------------

  /** The directory entries that pass getattr_intra, in the order of the real directory. */
  ghost function Visible(entries: seq<string>, onDisk: set<string>, rel: Relation, components: seq<string>): seq<string> {
    if entries == [] then []
    else
      var n := entries[|entries| - 1];
      Visible(entries[..|entries| - 1], onDisk, rel, components)
      + (if AttrOf(onDisk, rel, components, n) == NoEntry then [] else [n])
  }

  /** The root shows every entry. */
  lemma {:induction false} AllVisibleAtRoot(entries: seq<string>, onDisk: set<string>, rel: Relation)
    ensures Visible(entries, onDisk, rel, []) == entries
  {
    if entries != [] {
      AllVisibleAtRoot(entries[..|entries| - 1], onDisk, rel);
    }
  }

  /** Entries are shown in their order. */
  lemma {:induction false} VisibleInOrder(a: seq<string>, b: seq<string>, onDisk: set<string>, rel: Relation,
                                          components: seq<string>)
    ensures Visible(a + b, onDisk, rel, components)
            == Visible(a, onDisk, rel, components) + Visible(b, onDisk, rel, components)
  {
    hide AttrOf;
    if b == [] {
      assert a + b == a;
    } else {
      var init, last := b[..|b| - 1], b[|b| - 1];
      VisibleInOrder(a, init, onDisk, rel, components);
      assert (a + b)[..|a + b| - 1] == a + init && (a + b)[|a + b| - 1] == last;
    }
  }

  /** Each is shown as often as it is listed, unless it does not exist below the path. */
  lemma {:induction false} VisibleCounts(entries: seq<string>, onDisk: set<string>, rel: Relation,
                                         components: seq<string>, n: string)
    ensures multiset(Visible(entries, onDisk, rel, components))[n]
            == if AttrOf(onDisk, rel, components, n) == NoEntry then 0 else multiset(entries)[n]
  {
    hide *;
    if entries == [] {
      NothingVisible(onDisk, rel, components);
    } else {
      var init, last := entries[..|entries| - 1], entries[|entries| - 1];
      VisibleCounts(init, onDisk, rel, components, n);
      LastVisible(entries, onDisk, rel, components);
      CountLast(init, last, n);
      CountLast(Visible(init, onDisk, rel, components), last, n);
      assert entries == init + [last];
    }
  }

  lemma NothingVisible(onDisk: set<string>, rel: Relation, components: seq<string>)
    ensures Visible([], onDisk, rel, components) == []
  {
  }

  lemma LastVisible(entries: seq<string>, onDisk: set<string>, rel: Relation, components: seq<string>)
    requires entries != []
    ensures var init, last := entries[..|entries| - 1], entries[|entries| - 1];
            Visible(entries, onDisk, rel, components)
            == if AttrOf(onDisk, rel, components, last) == NoEntry then Visible(init, onDisk, rel, components)
               else Visible(init, onDisk, rel, components) + [last]
  {
  }

  lemma CountLast(s: seq<string>, x: string, n: string)
    ensures multiset(s + [x])[n] == multiset(s)[n] + if x == n then 1 else 0
  {
  }

  /** readdir_list_files over the entries of the real directory that are not directories. */
  method ListFiles(fs: Store, selected: seq<Tag>, entries: seq<string>) returns (shown: seq<string>)
    requires fs.Indexed() && fs.locks.walked == multiset{}
    modifies fs`files, fs`knownFiles, fs`useAfterFree, fs`locks
    ensures fs.locks == old(fs.locks)
    ensures fs.Indexed() && shown == Visible(entries, fs.onDisk, fs.rel, Names(selected))
    ensures old(fs.knownFiles) <= fs.knownFiles && fresh(fs.knownFiles - old(fs.knownFiles))
    ensures AllLive(selected) ==> fs.useAfterFree == old(fs.useAfterFree)
  {
    hide Store.Indexed, AttrOf, Names;
    shown := [];
    for i := 0 to |entries|
      invariant fs.locks == old(fs.locks)
      invariant fs.Indexed() && shown == Visible(entries[..i], fs.onDisk, fs.rel, Names(selected))
      invariant old(fs.knownFiles) <= fs.knownFiles && fresh(fs.knownFiles - old(fs.knownFiles))
      invariant AllLive(selected) ==> fs.useAfterFree == old(fs.useAfterFree)
    {
      assert entries[..i + 1][..i] == entries[..i];
      var attr := GetattrIntra(fs, selected, entries[i]);
      if attr != NoEntry {
        shown := shown + [entries[i]];
      }
    }
    assert entries[..|entries|] == entries;
  }

  /** The slow scan of the directory and the fast index. Below at least one tag, the scan shows a file of
      the real directory exactly when the index yields it, unless every tag of the path has left the
      table since the directory was opened: then the index yields nothing and the scan still shows
      the files that match by name. */
  lemma ScanAgreesWithIndex(entries: seq<string>, onDisk: set<string>, tags: map<string, Tag>, rel: Relation,
                            selected: seq<Tag>, n: string)
    requires selected != [] && n in onDisk && n in entries
    ensures (n in Visible(entries, onDisk, rel, Names(selected)) <==> n in IndexFiles(tags, rel, selected))
            <==> Rooted(selected, tags) || n !in Matching(rel, Names(selected))
  {
    ScanIsMatching(entries, onDisk, rel, Names(selected), n);
  }

  lemma {:induction false} ScanIsMatching(entries: seq<string>, onDisk: set<string>, rel: Relation,
                                          components: seq<string>, n: string)
    requires components != [] && n in onDisk
    ensures n in Visible(entries, onDisk, rel, components) <==> n in entries && n in Matching(rel, components)
  {
    if entries != [] {
      var last := |entries| - 1;
      ScanIsMatching(entries[..last], onDisk, rel, components, n);
      assert entries == entries[..last] + [entries[last]];
      assert n in entries <==> n in entries[..last] || n == entries[last];
      if Carries(rel, n, components) {
        assert (n, components[0]) in rel;
        assert n in Matching(rel, components);
      }
    }
  }

  /** What a directory shows as tags, with `current` those of its names that still stand for its own
      tags and `used` the names of the tags in use. */
  ghost function TagsShown(used: set<string>, rel: Relation, names: seq<string>, current: set<string>): set<string> {
    if names == [] then used else if current == {} then {} else Remaining(rel, SetOf(names))
  }

  /** The names of a path's tags that are still in the table. */
  ghost function CurrentNames(selected: seq<Tag>, tags: map<string, Tag>): set<string> {
    set i | 0 <= i < |selected| && InTable(selected[i], tags) :: selected[i].value
  }

  lemma RootedByNames(selected: seq<Tag>, tags: map<string, Tag>)
    ensures Rooted(selected, tags) <==> CurrentNames(selected, tags) != {}
  {
    if i :| 0 <= i < |selected| && InTable(selected[i], tags) {
      assert selected[i].value in CurrentNames(selected, tags);
    }
  }

  lemma TagsShownMeans(used: set<string>, rel: Relation, selected: seq<Tag>, tags: map<string, Tag>)
    ensures TagsShown(used, rel, Names(selected), CurrentNames(selected, tags))
            == if selected == [] then used
               else if exists i :: 0 <= i < |selected| && InTable(selected[i], tags) then Remaining(rel, SetOf(Names(selected)))
               else {}
    ensures Rooted(selected, tags) <==> exists i :: 0 <= i < |selected| && InTable(selected[i], tags)
  {
    hide CurrentNames, Remaining;
    RootedByNames(selected, tags);
  }

  /** readdir on the path of an open handle: first the tags, then the files. */
  method Readdir(fs: Store, selected: seq<Tag>, entries: seq<string>)
    returns (tagsShown: seq<string>, filesShown: seq<string>)
    requires fs.Idle() && multiset(selected) <= fs.live - fs.leaked
    modifies fs`files, fs`knownFiles, fs`useAfterFree, fs`locks
    ensures fs.Idle() && fs.useAfterFree == old(fs.useAfterFree) && fs.locks == old(fs.locks)
    ensures NoDup(tagsShown)
    ensures selected == [] ==> SetOf(tagsShown) == UsedNames(fs.tags)
    ensures selected != [] ==>
              SetOf(tagsShown) == if exists i :: 0 <= i < |selected| && InTable(selected[i], fs.tags)
                                  then Remaining(fs.rel, SetOf(Names(selected))) else {}
    ensures filesShown == Visible(entries, fs.onDisk, fs.rel, Names(selected))
    ensures old(fs.knownFiles) <= fs.knownFiles && fresh(fs.knownFiles - old(fs.knownFiles))
  {
    hide *;
    tagsShown := ListTags(fs, selected);
    filesShown := ListFilesOf(fs, selected, entries);
  }

  lemma IdleAgain(fs: Store)
    requires fs.Indexed() && fs.Balanced(multiset{}) && fs.LiveInUse() && fs.locks.walked == multiset{}
    ensures fs.Idle()
  {
  }

  /** The tags of the listing. */
  method ListTags(fs: Store, selected: seq<Tag>) returns (shown: seq<string>)
    requires fs.Idle() && multiset(selected) <= fs.live - fs.leaked
    modifies fs`useAfterFree, fs`locks
    ensures fs.Idle() && NoDup(shown) && fs.useAfterFree == old(fs.useAfterFree) && fs.locks == old(fs.locks)
    ensures selected == [] ==> SetOf(shown) == UsedNames(fs.tags)
    ensures selected != [] ==>
              SetOf(shown) == if exists i :: 0 <= i < |selected| && InTable(selected[i], fs.tags)
                              then Remaining(fs.rel, SetOf(Names(selected))) else {}
  {
    hide *;
    HandleFacts(fs, selected);
    TableIsLive(fs);
    IdleFacts(fs);
    TagsShownMeans(UsedNames(fs.tags), fs.rel, selected, fs.tags);
    if selected != [] {
      shown := ListTagsBelow(fs, selected);
    } else {
      shown := ListTagsAtRoot(fs);
    }
    IdleAgain(fs);
  }

  /** The files of the listing. */
  method ListFilesOf(fs: Store, selected: seq<Tag>, entries: seq<string>) returns (shown: seq<string>)
    requires fs.Idle() && multiset(selected) <= fs.live - fs.leaked
    modifies fs`files, fs`knownFiles, fs`useAfterFree, fs`locks
    ensures fs.Idle() && fs.useAfterFree == old(fs.useAfterFree) && fs.locks == old(fs.locks)
    ensures shown == Visible(entries, fs.onDisk, fs.rel, Names(selected))
    ensures old(fs.knownFiles) <= fs.knownFiles && fresh(fs.knownFiles - old(fs.knownFiles))
  {
    hide *;
    HandleFacts(fs, selected);
    IdleFacts(fs);
    shown := ListFiles(fs, selected, entries);
    IdleAgain(fs);
  }

  lemma TableIsLive(fs: Store)
    requires fs.Idle()
    ensures TableLive(fs.tags)
  {
    forall k | k in fs.tags ensures !fs.tags[k].freed {
      assert Counted(fs.tags[k], fs.tags, fs.live, multiset{});
    }
  }

  /** What an open handle points to is in use, so it has not been freed. */
  lemma HandleFacts(fs: Store, selected: seq<Tag>)
    requires fs.Idle() && multiset(selected) <= fs.live - fs.leaked
    ensures AllLive(selected) && forall i :: 0 <= i < |selected| ==> selected[i] in fs.known && selected[i].inUse
  {
    forall i | 0 <= i < |selected| ensures selected[i] in fs.known && selected[i].inUse && !selected[i].freed {
      assert selected[i] in multiset(selected) && selected[i] in fs.live - fs.leaked;
      assert Counted(selected[i], fs.tags, fs.live, multiset{});
    }
  }
}
