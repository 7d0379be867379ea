/** Whole runs: any sequence of callbacks, as the kernel sends them, refines the machine of `TagMachine`. */
module TagServe {
  import opened Tags
  import opened TagDump
  import opened TagFs
  import opened TagHandles
  import opened TagLink
  import opened TagMachine
  import opened TagNames
  import opened TagReaddir
  import opened TagRename

  /** `struct file_descriptor`: the path it keeps, and the file of a descriptor that is not a directory's. */
  datatype Handle = Handle(isDirectory: bool, name: string, selected: seq<Tag>, file: File?)

  ghost function OpenedOf(h: Handle, tags: map<string, Tag>): Opened {
    Opened(h.isDirectory, h.name, Names(h.selected), CurrentNames(h.selected, tags))
  }

  ghost function AllOpened(handles: seq<Handle>, tags: map<string, Tag>): (r: seq<Opened>)
    ensures |r| == |handles|
  {
    seq(|handles|, i requires 0 <= i < |handles| => OpenedOf(handles[i], tags))
  }

  ghost function ViewOf(fs: Store, handles: seq<Handle>): View
    reads fs`rel, fs`tags, fs`onDisk, fs.tags.Values`inUse
  {
    View(fs.rel, UsedNames(fs.tags), fs.onDisk, AllOpened(handles, fs.tags))
  }

  /** The entries of all open descriptors. */
  ghost function AllEntries(handles: seq<Handle>): multiset<Tag> {
    if handles == [] then multiset{} else multiset(handles[0].selected) + AllEntries(handles[1..])
  }

  lemma {:induction false} EntriesJoin(a: seq<Handle>, b: seq<Handle>)
    ensures AllEntries(a + b) == AllEntries(a) + AllEntries(b)
  {
    if a == [] {
      assert a + b == b;
    } else {
      EntriesJoin(a[1..], b);
      FirstOf(a, b);
      Regroup(multiset(a[0].selected), AllEntries(a[1..]), AllEntries(b));
    }
  }

  lemma FirstOf<T>(a: seq<T>, b: seq<T>)
    requires a != []
    ensures (a + b)[0] == a[0] && (a + b)[1..] == a[1..] + b
  {
  }

  lemma Regroup<T>(a: multiset<T>, b: multiset<T>, c: multiset<T>)
    ensures a + (b + c) == (a + b) + c
  {
  }

  lemma EntriesOfOne(handle: Handle)
    ensures AllEntries([handle]) == multiset(handle.selected)
  {
    assert [handle][1..] == [];
  }

  lemma EntriesWithout(handles: seq<Handle>, i: nat)
    requires i < |handles|
    ensures multiset(handles[i].selected) <= AllEntries(handles)
    ensures AllEntries(handles[..i] + handles[i + 1..]) == AllEntries(handles) - multiset(handles[i].selected)
  {
    hide AllEntries;
    assert handles == handles[..i] + ([handles[i]] + handles[i + 1..]);
    EntriesJoin(handles[..i], [handles[i]] + handles[i + 1..]);
    EntriesJoin([handles[i]], handles[i + 1..]);
    EntriesOfOne(handles[i]);
    EntriesJoin(handles[..i], handles[i + 1..]);
  }

  /** Between callbacks: the invariants hold, nothing freed was touched, no callback waited for itself, and
      the references that are not leaked are those of the open descriptors. */
  ghost predicate Serving(fs: Store, handles: seq<Handle>)
    reads fs, fs.known, fs.knownFiles
  {
    && fs.Idle() && !fs.useAfterFree && !fs.locks.deadlocked
    && fs.live - fs.leaked == AllEntries(handles) && FilesHeld(handles, fs.knownFiles)
  }

  /** A descriptor of a file points to the file of its name. */
  ghost predicate FilesHeld(handles: seq<Handle>, knownFiles: set<File>) {
    forall i :: 0 <= i < |handles| && !handles[i].isDirectory ==>
      var f := handles[i].file; f != null && f in knownFiles && f.name == handles[i].name
  }

  lemma FilesStay(handles: seq<Handle>, knownFiles0: set<File>, knownFiles: set<File>)
    requires FilesHeld(handles, knownFiles0) && knownFiles0 <= knownFiles
    ensures FilesHeld(handles, knownFiles)
  {
  }

  /** The entries of the open descriptors are tags in use, among `known`. */
  ghost predicate EntriesUsed(handles: seq<Handle>, known: set<Tag>)
    reads known`inUse
  {
    forall i, t :: 0 <= i < |handles| && t in handles[i].selected ==> t in known && t.inUse
  }

  ghost predicate EntriesKnown(handles: seq<Handle>, known: set<Tag>) {
    forall i, t :: 0 <= i < |handles| && t in handles[i].selected ==> t in known
  }

  lemma UsedAndKnown(handles: seq<Handle>, known0: set<Tag>, known: set<Tag>)
    requires EntriesKnown(handles, known0) && EntriesUsed(handles, known)
    ensures EntriesUsed(handles, known0)
  {
  }

  lemma HandleTagsUsed(fs: Store, handles: seq<Handle>)
    requires fs.Idle() && fs.live - fs.leaked == AllEntries(handles)
    ensures EntriesUsed(handles, fs.known)
  {
    forall i, t | 0 <= i < |handles| && t in handles[i].selected ensures t in fs.known && t.inUse {
      EntriesWithout(handles, i);
      assert t in multiset(handles[i].selected) && t in fs.live - fs.leaked;
    }
  }

  /** What a change of the table means for a descriptor: names no longer in use are no longer current. */
  lemma CurrentFollows(selected: seq<Tag>, tags0: map<string, Tag>, known0: set<Tag>, tags: map<string, Tag>)
    requires SameTags(tags0, known0, tags) && forall t :: t in selected ==> t in known0 && t.inUse
    ensures CurrentNames(selected, tags) == CurrentNames(selected, tags0) * UsedNames(tags)
  {
    forall v ensures v in CurrentNames(selected, tags) <==> v in CurrentNames(selected, tags0) && v in UsedNames(tags) {
      if v in CurrentNames(selected, tags) {
        var i :| 0 <= i < |selected| && InTable(selected[i], tags) && selected[i].value == v;
        assert selected[i] in selected && InTable(selected[i], tags0);
      }
      if v in CurrentNames(selected, tags0) && v in UsedNames(tags) {
        var i :| 0 <= i < |selected| && InTable(selected[i], tags0) && selected[i].value == v;
        assert InTable(selected[i], tags);
      }
    }
  }

  /** The view after a callback, from what it did to the relation, the table and the disk. */
  lemma ViewFollows(fs: Store, handles: seq<Handle>, tags0: map<string, Tag>, known0: set<Tag>, core: View)
    requires SameTags(tags0, known0, fs.tags) && core.handles == AllOpened(handles, tags0)
    requires core.rel == fs.rel && core.names == UsedNames(fs.tags) && core.onDisk == fs.onDisk
    requires EntriesUsed(handles, known0)
    ensures ViewOf(fs, handles) == Refreshed(core)
  {
    forall i | 0 <= i < |handles|
      ensures AllOpened(handles, fs.tags)[i] == core.handles[i].(current := core.handles[i].current * core.names)
    {
      CurrentFollows(handles[i].selected, tags0, known0, fs.tags);
    }
    assert ViewOf(fs, handles).handles == Refreshed(core).handles;
  }

  lemma TableUnchanged(tags: map<string, Tag>, known: set<Tag>)
    ensures SameTags(tags, known, tags)
  {
  }

  /** A sweep removes entries and leaves the others, and the tags in use, alone. */
  lemma SweptIsSame(tags: map<string, Tag>, known: set<Tag>, dir: seq<string>)
    ensures var swept := Swept(tags, SetOf(dir));
            && SameTags(tags, known, swept) && UsedNames(swept) == UsedNames(tags)
            && forall k :: k in dir ==> (k in swept <==> k in UsedNames(tags))
  {
  }

  lemma FewerAreSame(tags: map<string, Tag>, known: set<Tag>, gone: set<string>)
    ensures SameTags(tags, known, tags - gone) && UsedNames(tags - gone) == UsedNames(tags) - gone
  {
  }

  /** The components of a path on which there is a file are names of tags in use. */
  lemma RegularIsUsed(fs: Store, dir: seq<string>, n: string)
    requires fs.Idle() && AttrOf(fs.onDisk, fs.rel, dir, n) == Regular
    ensures AllUsed(dir, UsedNames(fs.tags)) && n in fs.onDisk && !Overdraws(dir, fs.tags)
  {
    forall i | 0 <= i < |dir| ensures dir[i] in UsedNames(fs.tags) {
      assert (n, dir[i]) in fs.rel;
      assert (n, dir[i]).1 in fs.tags;
      var t := fs.tags[dir[i]];
      assert (n, t.value) in fs.rel && n in t.files;
    }
  }

  /** What `Serving` says, and what it makes of the view. */
  lemma ServingMeans(fs: Store, handles: seq<Handle>)
    requires Serving(fs, handles)
    ensures fs.Idle() && !fs.useAfterFree && !fs.locks.deadlocked && fs.live - fs.leaked == AllEntries(handles)
    ensures FilesHeld(handles, fs.knownFiles)
    ensures ViewOf(fs, handles) == View(fs.rel, UsedNames(fs.tags), fs.onDisk, AllOpened(handles, fs.tags))
    ensures Refreshed(ViewOf(fs, handles)) == ViewOf(fs, handles)
    ensures EntriesUsed(handles, fs.known) && EntriesKnown(handles, fs.known)
  {
    hide Store.Idle, AllEntries, Refreshed, SameTags;
    HandleTagsUsed(fs, handles);
    TableUnchanged(fs.tags, fs.known);
    ViewFollows(fs, handles, fs.tags, fs.known, ViewOf(fs, handles));
  }

  lemma ServingNow(fs: Store, handles: seq<Handle>, knownFiles0: set<File>)
    requires fs.Idle() && !fs.useAfterFree && !fs.locks.deadlocked && fs.live - fs.leaked == AllEntries(handles)
    requires FilesHeld(handles, knownFiles0) && knownFiles0 <= fs.knownFiles
    ensures Serving(fs, handles) && EntriesUsed(handles, fs.known)
  {
    FilesStay(handles, knownFiles0, fs.knownFiles);
    hide Store.Idle, AllEntries;
    HandleTagsUsed(fs, handles);
  }

  // ----- one request each -------------------------------------------------------------------------------

  /** The lookup that the kernel makes before another call. It changes nothing that matters. */
  method Look(fs: Store, handles: seq<Handle>, dir: seq<string>, n: string) returns (attr: Attr)
    requires Serving(fs, handles)
    modifies fs`tags, fs`known, fs`files, fs`knownFiles, fs`useAfterFree, fs`locks, fs.known`refCount, fs.known`freed
    ensures Serving(fs, handles) && ViewOf(fs, handles) == old(ViewOf(fs, handles))
    ensures attr == AttrOf(fs.onDisk, fs.rel, dir, n) && (n in fs.onDisk ==> n in fs.files)
    ensures forall k :: k in dir ==> (k in fs.tags <==> k in UsedNames(fs.tags))
    ensures old(fs.known) <= fs.known && fresh(fs.known - old(fs.known))
    ensures old(fs.knownFiles) <= fs.knownFiles && fresh(fs.knownFiles - old(fs.knownFiles))
  {
    hide *;
    ghost var v, tags0, known0 := ViewOf(fs, handles), fs.tags, fs.known;
    ghost var swept, used := Swept(fs.tags, SetOf(dir)), UsedNames(fs.tags);
    ServingMeans(fs, handles);
    ghost var files0 := fs.knownFiles;
    attr := Getattr(fs, dir, n);
    assert Swept(tags0, SetOf(dir)) == swept && UsedNames(tags0) == used;
    SweptIsSame(tags0, known0, dir);
    ServingNow(fs, handles, files0);
    ViewFollows(fs, handles, tags0, known0, v);
  }

  /** unlink of an entry that the kernel has just looked up and found to be a file. */
  method PerformUnlink(fs: Store, handles: seq<Handle>, dir: seq<string>, n: string) returns (reply: Reply)
    requires Serving(fs, handles)
    modifies fs, fs.known`refCount, fs.known`freed, fs.known`files, fs.knownFiles`tags
    ensures Serving(fs, handles) && ViewOf(fs, handles) == After(old(ViewOf(fs, handles)), UnlinkOf(dir, n))
    ensures reply == Answer(old(ViewOf(fs, handles)), UnlinkOf(dir, n))
    ensures old(fs.known) <= fs.known && fresh(fs.known - old(fs.known))
    ensures old(fs.knownFiles) <= fs.knownFiles && fresh(fs.knownFiles - old(fs.knownFiles))
  {
    hide *;
    ghost var v := ViewOf(fs, handles);
    var attr := Look(fs, handles, dir, n);
    ServingMeans(fs, handles);
    ghost var files0 := fs.knownFiles;
    if attr != Regular {
      NotUnlinked(v, dir, n);
      return Refused;
    }
    RegularIsUsed(fs, dir, n);
    ghost var tags0, known0 := fs.tags, fs.known;
    var status := Unlink(fs, dir, n);
    assert UsedNames(tags0) == v.names;
    ServingNow(fs, handles, files0);
    UnlinkFollows(fs, handles, v, tags0, known0, dir, n, status);
    reply := Done(status);
  }

  lemma NotUnlinked(v: View, dir: seq<string>, n: string)
    requires AttrOf(v.onDisk, v.rel, dir, n) != Regular && Refreshed(v) == v
    ensures After(v, UnlinkOf(dir, n)) == v && Answer(v, UnlinkOf(dir, n)) == Refused
  {
  }

  lemma UnlinkFollows(fs: Store, handles: seq<Handle>, v: View, tags0: map<string, Tag>, known0: set<Tag>,
                      dir: seq<string>, n: string, status: Status)
    requires AttrOf(v.onDisk, v.rel, dir, n) == Regular && status == if dir == [] then EPERM else Ok
    requires v.handles == AllOpened(handles, tags0) && v.names == UsedNames(tags0) && v.onDisk == fs.onDisk
    requires fs.rel == if dir == [] then v.rel else v.rel - PairsOf(n, dir)
    requires fs.tags == if dir == [] then tags0 else tags0 - BareNames(dir, fs.rel)
    requires EntriesUsed(handles, known0)
    ensures ViewOf(fs, handles) == After(v, UnlinkOf(dir, n)) && Answer(v, UnlinkOf(dir, n)) == Done(status)
  {
    hide AttrOf, PairsOf, BareNames, SameTags, UsedNames, ViewOf, Refreshed, AllOpened;
    TableUnchanged(tags0, known0);
    FewerAreSame(tags0, known0, BareNames(dir, fs.rel));
    ViewFollows(fs, handles, tags0, known0, Changed(v, UnlinkOf(dir, n)));
  }

  /** rename of an entry that the kernel has just looked up. */
  method PerformRename(fs: Store, handles: seq<Handle>, dir: seq<string>, n: string, to: seq<string>)
    returns (reply: Reply)
    requires Serving(fs, handles)
    modifies fs, fs.known, fs.knownFiles`tags
    ensures Serving(fs, handles) && ViewOf(fs, handles) == After(old(ViewOf(fs, handles)), RenameTo(dir, n, to))
    ensures reply == Answer(old(ViewOf(fs, handles)), RenameTo(dir, n, to))
    ensures old(fs.known) <= fs.known && fresh(fs.known - old(fs.known))
    ensures old(fs.knownFiles) <= fs.knownFiles && fresh(fs.knownFiles - old(fs.knownFiles))
  {
    hide *;
    ghost var v := ViewOf(fs, handles);
    var attr := Look(fs, handles, dir, n);
    ServingMeans(fs, handles);
    ghost var files0 := fs.knownFiles;
    DoomedByNames(fs, dir, n, to);
    if attr == NoEntry || (|dir| == 1 && |to| == 1 && Doomed(fs.tags.Keys, fs.onDisk, dir[0], n, to[0])) {
      NotRenamed(v, dir, n, to);
      return Refused;
    }
    ghost var tags0, known0 := fs.tags, fs.known;
    var status := Rename(fs, dir, n, to);
    ServingNow(fs, handles, files0);
    UsedAndKnown(handles, known0, fs.known);
    RenameFollows(fs, handles, v, tags0, known0, dir, n, to, status);
    reply := Done(status);
  }

  /** After the lookup, the tags of the path that are in the table are in use. */
  lemma DoomedByNames(fs: Store, dir: seq<string>, n: string, to: seq<string>)
    requires forall k :: k in dir ==> (k in fs.tags <==> k in UsedNames(fs.tags))
    ensures |dir| == 1 && |to| == 1 ==> (Doomed(fs.tags.Keys, fs.onDisk, dir[0], n, to[0])
                                         <==> Doomed(UsedNames(fs.tags), fs.onDisk, dir[0], n, to[0]))
  {
  }

  lemma NotRenamed(v: View, dir: seq<string>, n: string, to: seq<string>)
    requires Refreshed(v) == v
    requires || AttrOf(v.onDisk, v.rel, dir, n) == NoEntry
             || (|dir| == 1 && |to| == 1 && Doomed(v.names, v.onDisk, dir[0], n, to[0]))
    ensures After(v, RenameTo(dir, n, to)) == v && Answer(v, RenameTo(dir, n, to)) == Refused
  {
  }

  lemma RenameFollows(fs: Store, handles: seq<Handle>, v: View, tags0: map<string, Tag>, known0: set<Tag>,
                      dir: seq<string>, n: string, to: seq<string>, status: Status)
    requires AttrOf(v.onDisk, v.rel, dir, n) != NoEntry && status == if |dir| == 1 && |to| == 1 then Ok else EPERM
    requires |dir| == 1 && |to| == 1 ==> !Doomed(v.names, v.onDisk, dir[0], n, to[0])
    requires v.handles == AllOpened(handles, tags0) && v.onDisk == fs.onDisk && SameTags(tags0, known0, fs.tags)
    requires status == EPERM ==> fs.rel == v.rel && UsedNames(fs.tags) == v.names
    requires status == Ok ==>
               && fs.rel == v.rel + {(n, to[0])} - {(n, dir[0])}
               && UsedNames(fs.tags) == v.names + {to[0]} - (if Bare(dir[0], fs.rel) then {dir[0]} else {})
    requires EntriesUsed(handles, known0)
    ensures ViewOf(fs, handles) == After(v, RenameTo(dir, n, to)) && Answer(v, RenameTo(dir, n, to)) == Done(status)
  {
    hide AttrOf, Bare, SameTags, UsedNames, ViewOf, Refreshed, AllOpened, Doomed;
    ViewFollows(fs, handles, tags0, known0, Changed(v, RenameTo(dir, n, to)));
  }

  method PerformLink(fs: Store, handles: seq<Handle>, dir: seq<string>, n: string, to: seq<string>) returns (reply: Reply)
    requires Serving(fs, handles)
    modifies fs, fs.known, fs.knownFiles`tags
    ensures Serving(fs, handles) && ViewOf(fs, handles) == After(old(ViewOf(fs, handles)), LinkTo(dir, n, to))
    ensures reply == Answer(old(ViewOf(fs, handles)), LinkTo(dir, n, to))
    ensures old(fs.known) <= fs.known && fresh(fs.known - old(fs.known))
    ensures old(fs.knownFiles) <= fs.knownFiles && fresh(fs.knownFiles - old(fs.knownFiles))
  {
    hide *;
    ghost var v, tags0, known0 := ViewOf(fs, handles), fs.tags, fs.known;
    ServingMeans(fs, handles);
    ghost var files0 := fs.knownFiles;
    var status := Link(fs, dir, n, to);
    ServingNow(fs, handles, files0);
    UsedAndKnown(handles, known0, fs.known);
    LinkFollows(fs, handles, v, tags0, known0, dir, n, to, status);
    reply := Done(status);
  }

  lemma LinkFollows(fs: Store, handles: seq<Handle>, v: View, tags0: map<string, Tag>, known0: set<Tag>,
                    dir: seq<string>, n: string, to: seq<string>, status: Status)
    requires v.handles == AllOpened(handles, tags0) && v.onDisk == fs.onDisk && SameTags(tags0, known0, fs.tags)
    requires status == if AttrOf(v.onDisk, v.rel, dir, n) == NoEntry then ENOENT else Ok
    requires fs.rel == if status == Ok then v.rel + PairsOf(n, to) else v.rel
    requires UsedNames(fs.tags) == v.names + (if |to| <= 1 then {ParentName(to)} else {})
                                   + (if status == Ok then SetOf(to) else {})
    requires EntriesUsed(handles, known0)
    ensures ViewOf(fs, handles) == After(v, LinkTo(dir, n, to)) && Answer(v, LinkTo(dir, n, to)) == Done(status)
  {
    hide AttrOf, PairsOf, SameTags, UsedNames, ViewOf, Refreshed, AllOpened, SetOf, ParentName;
    ViewFollows(fs, handles, tags0, known0, Changed(v, LinkTo(dir, n, to)));
  }

  /** opendir. Refused is only what would leave a handle on a tag that is not in use. */
  method PerformOpenDir(fs: Store, handles: seq<Handle>, dir: seq<string>) returns (handles': seq<Handle>, reply: Reply)
    requires Serving(fs, handles)
    modifies fs`tags, fs`known, fs`live, fs`leaked, fs`useAfterFree, fs`locks, fs.known`refCount
    ensures Serving(fs, handles') && ViewOf(fs, handles') == After(old(ViewOf(fs, handles)), OpenDirectory(dir))
    ensures reply == Answer(old(ViewOf(fs, handles)), OpenDirectory(dir))
    ensures old(fs.known) <= fs.known && fresh(fs.known - old(fs.known))
  {
    hide *;
    ghost var v, tags0, known0 := ViewOf(fs, handles), fs.tags, fs.known;
    ServingMeans(fs, handles);
    ghost var files0 := fs.knownFiles;
    var used := set k | k in fs.tags && fs.tags[k].inUse;
    UsedIs(fs.tags, used);
    if Opens(dir, used) && !AllUsed(dir, used) {
      NotOpened(v, dir);
      return handles, Refused;
    }
    LeakedAreLive(fs);
    var status, selected := OpenDir(fs, dir);
    var h := Handle(true, ParentName(dir), selected, null);
    handles' := if status == Ok then handles + [h] else handles;
    Outstanding(handles, h, old(fs.live), old(fs.leaked), status == Ok);
    FilesOfMore(handles, h, files0);
    ServingNow(fs, handles', files0);
    OpenedFollows(fs, handles, v, tags0, known0, h, handles', status == Ok, dir);
    OpenDirAfter(v, dir, status);
    reply := Done(status);
  }

  lemma UsedIs(tags: map<string, Tag>, used: set<string>)
    requires used == set k | k in tags && tags[k].inUse
    ensures used == UsedNames(tags)
  {
  }

  lemma NotOpened(v: View, dir: seq<string>)
    requires Refreshed(v) == v && Opens(dir, v.names) && !AllUsed(dir, v.names)
    ensures After(v, OpenDirectory(dir)) == v && Answer(v, OpenDirectory(dir)) == Refused
  {
  }

  lemma OpenDirAfter(v: View, dir: seq<string>, status: Status)
    requires Opens(dir, v.names) ==> AllUsed(dir, v.names)
    requires status == if Opens(dir, v.names) then Ok else ENOENT
    ensures Answer(v, OpenDirectory(dir)) == Done(status)
    ensures After(v, OpenDirectory(dir))
            == Refreshed(if status == Ok then v.(handles := v.handles + [Opened(true, ParentName(dir), dir, SetOf(dir))]) else v)
  {
  }

  lemma FileOf(fs: Store, n: string)
    requires fs.Idle() && n in fs.files
    ensures fs.files[n] in fs.knownFiles && fs.files[n].name == n
  {
  }

  lemma FilesOfMore(handles: seq<Handle>, h: Handle, knownFiles: set<File>)
    requires FilesHeld(handles, knownFiles)
    requires !h.isDirectory ==> h.file != null && h.file in knownFiles && h.file.name == h.name
    ensures FilesHeld(handles + [h], knownFiles)
  {
  }

  lemma FilesOfFewer(handles: seq<Handle>, i: nat, knownFiles: set<File>)
    requires FilesHeld(handles, knownFiles) && i < |handles|
    ensures FilesHeld(handles[..i] + handles[i + 1..], knownFiles)
  {
  }

  lemma LeakedAreLive(fs: Store)
    requires fs.Idle()
    ensures fs.leaked <= fs.live
  {
  }

  /** The references of one more path, kept by a descriptor or by nobody. */
  lemma Outstanding(handles: seq<Handle>, h: Handle, live: multiset<Tag>, leaked: multiset<Tag>, kept: bool)
    requires live - leaked == AllEntries(handles) && leaked <= live
    ensures (live + multiset(h.selected)) - (leaked + (if kept then multiset{} else multiset(h.selected)))
            == AllEntries(if kept then handles + [h] else handles)
  {
    EntriesJoin(handles, [h]);
    EntriesOfOne(h);
  }

  /** The view after the creation of a path that a descriptor may keep. */
  lemma OpenedFollows(fs: Store, handles: seq<Handle>, v: View, tags0: map<string, Tag>, known0: set<Tag>,
                      h: Handle, handles': seq<Handle>, kept: bool, dir: seq<string>)
    requires v.rel == fs.rel && v.onDisk == fs.onDisk && v.handles == AllOpened(handles, tags0)
    requires v.names == UsedNames(fs.tags) && SameTags(tags0, known0, fs.tags)
    requires Names(h.selected) == dir && PathTags(tags0, fs.tags, dir, h.selected)
    requires kept ==> AllUsed(dir, v.names)
    requires EntriesUsed(handles, known0)
    requires handles' == if kept then handles + [h] else handles
    ensures ViewOf(fs, handles')
            == Refreshed(if kept then v.(handles := v.handles + [Opened(h.isDirectory, h.name, dir, SetOf(dir))]) else v)
  {
    hide AllUsed, SameTags, PathTags, UsedNames, Names, CurrentNames, SetOf;
    ViewFollows(fs, handles, tags0, known0, v);
    if kept {
      AllCurrent(tags0, fs.tags, dir, h.selected);
      AllUsedIsSubset(dir, v.names);
      var v' := v.(handles := v.handles + [Opened(h.isDirectory, h.name, dir, SetOf(dir))]);
      assert SetOf(dir) * v.names == SetOf(dir);
      assert AllOpened(handles', fs.tags) == AllOpened(handles, fs.tags) + [OpenedOf(h, fs.tags)];
      assert Refreshed(v').handles == Refreshed(v).handles + [Opened(h.isDirectory, h.name, dir, SetOf(dir))];
    }
  }

  lemma AllUsedIsSubset(dir: seq<string>, names: set<string>)
    requires AllUsed(dir, names)
    ensures SetOf(dir) <= names
  {
  }

  /** Just after its creation, a path stands for its own tags. */
  lemma AllCurrent(tags0: map<string, Tag>, tags: map<string, Tag>, dir: seq<string>, selected: seq<Tag>)
    requires PathTags(tags0, tags, dir, selected) && Names(selected) == dir
    ensures CurrentNames(selected, tags) == SetOf(dir)
  {
    assert forall i :: 0 <= i < |dir| ==> Names(selected)[i] == selected[i].value;
    forall c | c in SetOf(dir) ensures c in CurrentNames(selected, tags) {
      var i :| 0 <= i < |dir| && dir[i] == c;
      assert InTable(selected[i], tags);
    }
  }

  /** open of a file that the kernel has just looked up. */
  method PerformOpenFile(fs: Store, handles: seq<Handle>, dir: seq<string>, n: string, opened_: bool)
    returns (handles': seq<Handle>, reply: Reply)
    requires Serving(fs, handles)
    modifies fs, fs.known`refCount, fs.known`freed
    ensures Serving(fs, handles') && ViewOf(fs, handles') == After(old(ViewOf(fs, handles)), OpenRegular(dir, n, opened_))
    ensures reply == Answer(old(ViewOf(fs, handles)), OpenRegular(dir, n, opened_))
    ensures old(fs.known) <= fs.known && fresh(fs.known - old(fs.known))
    ensures old(fs.knownFiles) <= fs.knownFiles && fresh(fs.knownFiles - old(fs.knownFiles))
  {
    hide *;
    ghost var v := ViewOf(fs, handles);
    var attr := Look(fs, handles, dir, n);
    if attr != Regular {
      ServingMeans(fs, handles);
      NoFileOpened(v, dir, n, opened_);
      return handles, Refused;
    }
    handles', reply := OpenFound(fs, handles, dir, n, opened_);
  }

  /** open after that lookup. */
  method OpenFound(fs: Store, handles: seq<Handle>, dir: seq<string>, n: string, opened_: bool)
    returns (handles': seq<Handle>, reply: Reply)
    requires Serving(fs, handles) && AttrOf(fs.onDisk, fs.rel, dir, n) == Regular
    requires n in fs.onDisk ==> n in fs.files
    modifies fs`tags, fs`known, fs`live, fs`leaked, fs`useAfterFree, fs`locks, fs.known`refCount
    ensures Serving(fs, handles') && ViewOf(fs, handles') == After(old(ViewOf(fs, handles)), OpenRegular(dir, n, opened_))
    ensures reply == Answer(old(ViewOf(fs, handles)), OpenRegular(dir, n, opened_))
    ensures old(fs.known) <= fs.known && fresh(fs.known - old(fs.known))
  {
    hide *;
    ghost var v, files0 := ViewOf(fs, handles), fs.knownFiles;
    ServingMeans(fs, handles);
    RegularIsUsed(fs, dir, n);
    LeakedAreLive(fs);
    FileOf(fs, n);
    ghost var tags0, known0, live, leaked := fs.tags, fs.known, fs.live, fs.leaked;
    var status, selected := OpenFile(fs, dir, n, opened_);
    var h := Handle(false, n, selected, fs.files[n]);
    handles' := if status == Ok then handles + [h] else handles;
    Outstanding(handles, h, live, leaked, status == Ok);
    FilesOfMore(handles, h, files0);
    ServingNow(fs, handles', files0);
    OpenedFollows(fs, handles, v, tags0, known0, h, handles', status == Ok, dir);
    OpenFileAfter(v, dir, n, opened_, status);
    reply := Done(status);
  }

  lemma NoFileOpened(v: View, dir: seq<string>, n: string, opened_: bool)
    requires Refreshed(v) == v && AttrOf(v.onDisk, v.rel, dir, n) != Regular
    ensures After(v, OpenRegular(dir, n, opened_)) == v && Answer(v, OpenRegular(dir, n, opened_)) == Refused
  {
  }

  lemma OpenFileAfter(v: View, dir: seq<string>, n: string, opened_: bool, status: Status)
    requires AttrOf(v.onDisk, v.rel, dir, n) == Regular && status == if opened_ then Ok else OpenError
    ensures Answer(v, OpenRegular(dir, n, opened_)) == Done(status)
    ensures After(v, OpenRegular(dir, n, opened_))
            == Refreshed(if status == Ok then v.(handles := v.handles + [Opened(false, n, dir, SetOf(dir))]) else v)
  {
  }

  /** readdir on an open directory. */
  method PerformReaddir(fs: Store, handles: seq<Handle>, i: nat, entries: seq<string>) returns (reply: Reply)
    requires Serving(fs, handles)
    modifies fs`files, fs`knownFiles, fs`useAfterFree, fs`locks
    ensures Serving(fs, handles) && ViewOf(fs, handles) == After(old(ViewOf(fs, handles)), ReadDirectory(i, entries))
    ensures reply == Answer(old(ViewOf(fs, handles)), ReadDirectory(i, entries))
    ensures old(fs.knownFiles) <= fs.knownFiles && fresh(fs.knownFiles - old(fs.knownFiles))
  {
    hide *;
    ghost var v := ViewOf(fs, handles);
    ServingMeans(fs, handles);
    ghost var files0 := fs.knownFiles;
    reply := Refused;
    if i < |handles| && handles[i].isDirectory {
      EntriesWithout(handles, i);
      var tagsShown, filesShown := Readdir(fs, handles[i].selected, entries);
      reply := Listing((set v | v in tagsShown), filesShown);
      IsSetOf(tagsShown, (set v | v in tagsShown));
      TagsShownMeans(UsedNames(fs.tags), fs.rel, handles[i].selected, fs.tags);
    }
    ServingNow(fs, handles, files0);
    Shows(fs, handles, v, i, entries, reply);
  }

  lemma IsSetOf(s: seq<string>, names: set<string>)
    requires names == set c | c in s
    ensures names == SetOf(s)
  {
  }

  lemma Shows(fs: Store, handles: seq<Handle>, v: View, i: nat, entries: seq<string>, reply: Reply)
    requires v == View(fs.rel, UsedNames(fs.tags), fs.onDisk, AllOpened(handles, fs.tags)) && Refreshed(v) == v
    requires reply == if i >= |handles| || !handles[i].isDirectory then Refused
                      else
                        var h := handles[i].selected;
                        Listing(TagsShown(UsedNames(fs.tags), fs.rel, Names(h), CurrentNames(h, fs.tags)),
                                Visible(entries, fs.onDisk, fs.rel, Names(h)))
    ensures ViewOf(fs, handles) == After(v, ReadDirectory(i, entries)) && reply == Answer(v, ReadDirectory(i, entries))
  {
    hide TagsShown, Visible, UsedNames, CurrentNames, Names, Refreshed;
  }

  /** fgetattr. */
  method PerformFgetattr(fs: Store, handles: seq<Handle>, i: nat) returns (reply: Reply)
    requires Serving(fs, handles)
    modifies fs`files, fs`knownFiles, fs`useAfterFree, fs`locks
    ensures Serving(fs, handles) && ViewOf(fs, handles) == After(old(ViewOf(fs, handles)), FgetattrOf(i))
    ensures reply == Answer(old(ViewOf(fs, handles)), FgetattrOf(i))
    ensures old(fs.knownFiles) <= fs.knownFiles && fresh(fs.knownFiles - old(fs.knownFiles))
  {
    hide *;
    ghost var v := ViewOf(fs, handles);
    ServingMeans(fs, handles);
    ghost var files0 := fs.knownFiles;
    reply := Refused;
    if i < |handles| {
      EntriesWithout(handles, i);
      var attr := Fgetattr(fs, handles[i].selected, handles[i].name);
      reply := Looked(attr);
    }
    ServingNow(fs, handles, files0);
    HandleLooked(fs, handles, v, i, reply);
  }

  lemma HandleLooked(fs: Store, handles: seq<Handle>, v: View, i: nat, reply: Reply)
    requires v == View(fs.rel, UsedNames(fs.tags), fs.onDisk, AllOpened(handles, fs.tags)) && Refreshed(v) == v
    requires reply == if i >= |handles| then Refused
                      else Looked(AttrOf(fs.onDisk, fs.rel, Names(handles[i].selected), handles[i].name))
    ensures ViewOf(fs, handles) == After(v, FgetattrOf(i)) && reply == Answer(v, FgetattrOf(i))
  {
    hide UsedNames, CurrentNames, Names, Refreshed, AttrOf;
  }

  /** getxattr of "tags". */
  method PerformGetxattr(fs: Store, handles: seq<Handle>, dir: seq<string>, n: string) returns (reply: Reply)
    requires Serving(fs, handles)
    modifies fs`tags, fs`known, fs`files, fs`knownFiles, fs`useAfterFree, fs`locks, fs.known`refCount, fs.known`freed
    ensures Serving(fs, handles) && ViewOf(fs, handles) == After(old(ViewOf(fs, handles)), GetxattrOf(dir, n))
    ensures reply == Answer(old(ViewOf(fs, handles)), GetxattrOf(dir, n))
    ensures old(fs.known) <= fs.known && fresh(fs.known - old(fs.known))
    ensures old(fs.knownFiles) <= fs.knownFiles && fresh(fs.knownFiles - old(fs.knownFiles))
  {
    hide *;
    ghost var v, tags0, known0 := ViewOf(fs, handles), fs.tags, fs.known;
    ghost var swept, used := Swept(fs.tags, SetOf(dir)), UsedNames(fs.tags);
    ServingMeans(fs, handles);
    ghost var files0 := fs.knownFiles;
    var status, names, str := Getxattr(fs, dir, n);
    reply := if status == Ok then Named((set v | v in names)) else Done(status);
    IsSetOf(names, (set v | v in names));
    assert Swept(tags0, SetOf(dir)) == swept && UsedNames(tags0) == used;
    SweptIsSame(tags0, known0, dir);
    ServingNow(fs, handles, files0);
    ViewFollows(fs, handles, tags0, known0, v);
    TagsAnswered(v, dir, n, reply, status, names);
  }

  lemma TagsAnswered(v: View, dir: seq<string>, n: string, reply: Reply, status: Status, names: seq<string>)
    requires Refreshed(v) == v
    requires status == match AttrOf(v.onDisk, v.rel, dir, n)
                       case NoEntry => ENOENT case Directory => EISDIR case Regular => Ok
    requires status == Ok ==> SetOf(names) == TagsOn(v.rel, n)
    requires reply == if status == Ok then Named(SetOf(names)) else Done(status)
    ensures After(v, GetxattrOf(dir, n)) == v && reply == Answer(v, GetxattrOf(dir, n))
  {
    hide AttrOf, TagsOn, SetOf, Refreshed;
  }

  /** ioctl on a descriptor: refused for directories and for the tag file. */
  method PerformIoctl(fs: Store, handles: seq<Handle>, i: nat) returns (reply: Reply)
    requires Serving(fs, handles)
    modifies fs`useAfterFree, fs`locks
    ensures Serving(fs, handles) && ViewOf(fs, handles) == After(old(ViewOf(fs, handles)), IoctlOf(i))
    ensures reply == Answer(old(ViewOf(fs, handles)), IoctlOf(i))
  {
    hide *;
    ghost var v := ViewOf(fs, handles);
    ServingMeans(fs, handles);
    ghost var files0 := fs.knownFiles;
    reply := Refused;
    if i < |handles| {
      if handles[i].isDirectory || handles[i].name == TAG_FILENAME {
        reply := Done(EINVAL);
      } else {
        HeldFile(handles, files0, i);
        var names, str := IoctlReadTags(fs, handles[i].file);
        reply := Named((set v | v in names));
        IsSetOf(names, (set v | v in names));
      }
    }
    ServingNow(fs, handles, files0);
    TagsOfHandle(fs, handles, v, i, reply);
  }

  lemma HeldFile(handles: seq<Handle>, knownFiles: set<File>, i: nat)
    requires FilesHeld(handles, knownFiles) && i < |handles| && !handles[i].isDirectory
    ensures var f := handles[i].file; f != null && f in knownFiles && f.name == handles[i].name
  {
  }

  lemma TagsOfHandle(fs: Store, handles: seq<Handle>, v: View, i: nat, reply: Reply)
    requires v == View(fs.rel, UsedNames(fs.tags), fs.onDisk, AllOpened(handles, fs.tags)) && Refreshed(v) == v
    requires reply == if i >= |handles| then Refused
                      else if handles[i].isDirectory || handles[i].name == TAG_FILENAME then Done(EINVAL)
                      else Named(TagsOn(fs.rel, handles[i].name))
    ensures ViewOf(fs, handles) == After(v, IoctlOf(i)) && reply == Answer(v, IoctlOf(i))
  {
    hide UsedNames, CurrentNames, Names, Refreshed, TagsOn;
  }

  /** A read of the tag file from its start: the database as text, which stands for the relation. */
  method PerformReadTags(fs: Store, handles: seq<Handle>, i: nat) returns (reply: Reply)
    requires Serving(fs, handles)
    modifies fs`useAfterFree, fs`locks
    ensures Serving(fs, handles) && ViewOf(fs, handles) == After(old(ViewOf(fs, handles)), ReadTagFile(i))
    ensures reply == Answer(old(ViewOf(fs, handles)), ReadTagFile(i))
  {
    hide *;
    ghost var v := ViewOf(fs, handles);
    ServingMeans(fs, handles);
    ghost var files0 := fs.knownFiles;
    reply := Refused;
    if i < |handles| && !handles[i].isDirectory && handles[i].name == TAG_FILENAME {
      var text, files := DumpTags(fs);
      reply := Dumped(RelationOf(files));
    }
    ServingNow(fs, handles, files0);
    DatabaseRead(fs, handles, v, i, reply);
  }

  lemma DatabaseRead(fs: Store, handles: seq<Handle>, v: View, i: nat, reply: Reply)
    requires v == View(fs.rel, UsedNames(fs.tags), fs.onDisk, AllOpened(handles, fs.tags)) && Refreshed(v) == v
    requires reply == if i < |handles| && !handles[i].isDirectory && handles[i].name == TAG_FILENAME
                      then Dumped(fs.rel) else Refused
    ensures ViewOf(fs, handles) == After(v, ReadTagFile(i)) && reply == Answer(v, ReadTagFile(i))
  {
    hide UsedNames, CurrentNames, Names, Refreshed;
  }

  /** release and releasedir. */
  method PerformClose(fs: Store, handles: seq<Handle>, i: nat) returns (handles': seq<Handle>, reply: Reply)
    requires Serving(fs, handles)
    modifies fs`tags, fs`live, fs`useAfterFree, fs`locks, fs.known`refCount, fs.known`freed
    ensures Serving(fs, handles') && ViewOf(fs, handles') == After(old(ViewOf(fs, handles)), Close(i))
    ensures reply == Answer(old(ViewOf(fs, handles)), Close(i))
  {
    hide *;
    ghost var v, used := ViewOf(fs, handles), UsedNames(fs.tags);
    ServingMeans(fs, handles);
    ghost var files0 := fs.knownFiles;
    handles', reply := handles, Refused;
    if i < |handles| {
      EntriesWithout(handles, i);
      FilesOfFewer(handles, i, files0);
      LeakedAreLive(fs);
      var status := ReleaseUsed(fs, handles[i].selected, !handles[i].isDirectory);
      handles', reply := handles[..i] + handles[i + 1..], Done(status);
    }
    assert UsedNames(fs.tags) == used;
    ServingNow(fs, handles', files0);
    CloseFollows(fs, handles, v, i, handles', reply);
  }

  lemma CloseFollows(fs: Store, handles: seq<Handle>, v: View, i: nat, handles': seq<Handle>, reply: Reply)
    requires v == View(fs.rel, UsedNames(fs.tags), fs.onDisk, AllOpened(handles, fs.tags)) && Refreshed(v) == v
    requires handles' == if i < |handles| then handles[..i] + handles[i + 1..] else handles
    requires reply == if i >= |handles| then Refused else Done(if handles[i].isDirectory then CloseError else Ok)
    ensures ViewOf(fs, handles') == After(v, Close(i)) && reply == Answer(v, Close(i))
  {
    hide UsedNames, CurrentNames, Names;
    if i < |handles| {
      var opened_ := AllOpened(handles, fs.tags);
      assert AllOpened(handles', fs.tags) == opened_[..i] + opened_[i + 1..];
      forall j | 0 <= j < |opened_| ensures opened_[j].(current := opened_[j].current * v.names) == opened_[j] {
        assert Refreshed(v).handles[j] == opened_[j];
      }
      assert After(v, Close(i)).handles == opened_[..i] + opened_[i + 1..];
    }
  }

  /** One request. */
  method Perform(fs: Store, handles: seq<Handle>, r: Request) returns (handles': seq<Handle>, reply: Reply)
    requires Serving(fs, handles)
    modifies fs, fs.known, fs.knownFiles`tags
    ensures Serving(fs, handles')
    ensures ViewOf(fs, handles') == After(old(ViewOf(fs, handles)), r) && reply == Answer(old(ViewOf(fs, handles)), r)
    ensures old(fs.known) <= fs.known && fresh(fs.known - old(fs.known))
    ensures old(fs.knownFiles) <= fs.knownFiles && fresh(fs.knownFiles - old(fs.knownFiles))
  {
    hide *;
    handles', reply := handles, Done(Ok);
    match r {
      case GetattrOf(dir, n) =>
        ghost var v := ViewOf(fs, handles);
        var attr := Look(fs, handles, dir, n);
        ServingMeans(fs, handles);
        LookedUp(v, dir, n);
        reply := Looked(attr);
      case LinkTo(dir, n, to) =>
        reply := PerformLink(fs, handles, dir, n, to);
      case UnlinkOf(dir, n) =>
        reply := PerformUnlink(fs, handles, dir, n);
      case RenameTo(dir, n, to) =>
        reply := PerformRename(fs, handles, dir, n, to);
      case OpenDirectory(dir) =>
        handles', reply := PerformOpenDir(fs, handles, dir);
      case OpenRegular(dir, n, opened_) =>
        handles', reply := PerformOpenFile(fs, handles, dir, n, opened_);
      case ReadDirectory(i, entries) =>
        reply := PerformReaddir(fs, handles, i, entries);
      case FgetattrOf(i) =>
        reply := PerformFgetattr(fs, handles, i);
      case GetxattrOf(dir, n) =>
        reply := PerformGetxattr(fs, handles, dir, n);
      case IoctlOf(i) =>
        reply := PerformIoctl(fs, handles, i);
      case ReadTagFile(i) =>
        reply := PerformReadTags(fs, handles, i);
      case Close(i) =>
        handles', reply := PerformClose(fs, handles, i);
      case DiskChange(onDisk) =>
        ghost var v := ViewOf(fs, handles);
        ServingMeans(fs, handles);
        ChangeDisk(fs, onDisk);
        ServingNow(fs, handles, fs.knownFiles);
        ServingMeans(fs, handles);
        DiskFollows(v, onDisk);
    }
  }

  lemma LookedUp(v: View, dir: seq<string>, n: string)
    requires Refreshed(v) == v
    ensures After(v, GetattrOf(dir, n)) == v && Answer(v, GetattrOf(dir, n)) == Looked(AttrOf(v.onDisk, v.rel, dir, n))
  {
  }

  method ChangeDisk(fs: Store, onDisk: set<string>)
    requires fs.Idle()
    modifies fs`onDisk
    ensures fs.Idle() && fs.onDisk == onDisk
  {
    hide Tables, TagSide, FileSide, UnusedEmpty, Held, Speculative, HandlesUsed;
    fs.onDisk := onDisk;
  }

  lemma DiskFollows(v: View, onDisk: set<string>)
    requires Refreshed(v) == v
    ensures After(v, DiskChange(onDisk)) == v.(onDisk := onDisk) && Answer(v, DiskChange(onDisk)) == Done(Ok)
  {
    assert Refreshed(v).handles == v.handles;
    assert Refreshed(v.(onDisk := onDisk)).handles == Refreshed(v).handles;
  }

  /** Any run of callbacks, from any state between callbacks: no freed tag is ever touched, no table is
      written while it is being walked, the index and the counts hold after every callback, and
      replies and state are those of the machine. */
  method Serve(fs: Store, requests: seq<Request>) returns (handles: seq<Handle>, replies: seq<Reply>)
    requires Serving(fs, [])
    modifies fs, fs.known, fs.knownFiles`tags
    ensures Serving(fs, handles)
    ensures ViewOf(fs, handles) == RunView(old(ViewOf(fs, [])), requests)
    ensures replies == RunReplies(old(ViewOf(fs, [])), requests)
  {
    hide Serving, After, Answer, ViewOf;
    handles, replies := [], [];
    ghost var v := ViewOf(fs, []);
    for i := 0 to |requests|
      invariant Serving(fs, handles)
      invariant ViewOf(fs, handles) == RunView(v, requests[..i]) && replies == RunReplies(v, requests[..i])
      invariant old(fs.known) <= fs.known && fresh(fs.known - old(fs.known))
      invariant old(fs.knownFiles) <= fs.knownFiles && fresh(fs.knownFiles - old(fs.knownFiles))
    {
      assert requests[..i + 1][..i] == requests[..i];
      var reply: Reply;
      handles, reply := Perform(fs, handles, requests[i]);
      replies := replies + [reply];
    }
    assert requests[..|requests|] == requests;
  }
}
