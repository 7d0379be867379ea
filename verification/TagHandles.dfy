/** Descriptors: open, opendir and their releases, which keep a path alive between callbacks. */
module TagHandles {
  import opened Tags
  import opened TagFs
  import opened TagLink

  /** Every component is the name of a tag in use. */
  predicate AllUsed(components: seq<string>, used: set<string>) {
    forall i :: 0 <= i < |components| ==> components[i] in used
  }

  /** What fd_open answers for a directory: the tag named last must be in use. */
  predicate Opens(components: seq<string>, used: set<string>) {
    components == [] || components[|components| - 1] in used
  }

  /** opendir (fd_open on a tag path). The path lives on, on failure too: then nobody will delete it. The
      state is idle again after a failure, and after a success exactly when all tags are in use. */
  method OpenDir(fs: Store, components: seq<string>) returns (res: Status, selected: seq<Tag>)
    requires fs.Idle()
    modifies fs`tags, fs`known, fs`live, fs`leaked, fs`useAfterFree, fs`locks, fs.known`refCount
    ensures res == if Opens(components, old(UsedNames(fs.tags))) then Ok else ENOENT
    ensures res == Ok <==> components == [] || components[|components| - 1] in old(UsedNames(fs.tags))
    ensures fs.Idle() <==> res == ENOENT || AllUsed(components, old(UsedNames(fs.tags)))
    ensures fs.live == old(fs.live) + multiset(selected)
    ensures fs.leaked == old(fs.leaked) + (if res == Ok then multiset{} else multiset(selected))
    ensures Names(selected) == components && PathTags(old(fs.tags), fs.tags, components, selected)
    ensures UsedNames(fs.tags) == old(UsedNames(fs.tags)) && SameTags(old(fs.tags), old(fs.known), fs.tags)
    ensures fs.Indexed() && Held(fs.tags, fs.known, fs.live, multiset{}) && fs.locks.walked == multiset{}
    ensures Speculative(fs.tags, fs.known, fs.live, multiset{})
    ensures HandlesUsed(fs.live, fs.leaked + (if res == Ok then multiset(selected) else multiset{}), fs.known)
    ensures fs.useAfterFree == old(fs.useAfterFree) && fs.locks == old(fs.locks)
    ensures old(fs.known) <= fs.known && fresh(fs.known - old(fs.known))
  {
    hide *;
    ghost var tags0, known0 := fs.tags, fs.known;
    OpensMeans(components, UsedNames(fs.tags));
    selected := Begin(fs, components);
    KeptEntries(tags0, fs.tags, components, selected);
    EntriesSame(tags0, known0, fs.tags);
    res := LastInUse(fs, tags0, components, selected);
    UsedInPath(tags0, fs.tags, components, selected);
    KeepPath(fs, selected, res != Ok);
  }

  lemma OpensMeans(components: seq<string>, used: set<string>)
    ensures Opens(components, used) <==> components == [] || components[|components| - 1] in used
  {
  }

  lemma EntriesSame(tags0: map<string, Tag>, known0: set<Tag>, tags: map<string, Tag>)
    requires forall k :: k in tags0 ==> k in tags && tags[k] == tags0[k]
    requires forall k :: k in tags && k !in tags0 ==> tags[k] !in known0
    ensures SameTags(tags0, known0, tags)
  {
  }

  /** The check of fd_open. */
  method LastInUse(fs: Store, ghost tags0: map<string, Tag>, components: seq<string>, selected: seq<Tag>)
    returns (res: Status)
    requires fs.Indexed() && fs.Balanced(multiset(selected)) && PathTags(tags0, fs.tags, components, selected)
    modifies fs`useAfterFree
    ensures res == if Opens(components, UsedNames(fs.tags)) then Ok else ENOENT
    ensures fs.useAfterFree == old(fs.useAfterFree)
  {
    hide Store.Indexed, Store.Balanced;
    res := Ok;
    if components != [] {
      var t := fs.tags[components[|components| - 1]];
      StillThere(fs, components[|components| - 1], multiset(selected));
      fs.Touch(t);
      if !t.inUse {
        res := ENOENT;
      }
    }
  }

  lemma UsedInPath(tags0: map<string, Tag>, tags: map<string, Tag>, components: seq<string>, selected: seq<Tag>)
    requires PathTags(tags0, tags, components, selected)
    ensures AllUsed(components, UsedNames(tags)) <==> forall i :: 0 <= i < |selected| ==> selected[i].inUse
  {
  }

  /** open of a regular file (fd_open): the real file is opened or not, and on failure nobody will delete
      the path. The file is in the file table because its lookup came first. */
  method OpenFile(fs: Store, components: seq<string>, n: string, opened_: bool) returns (res: Status, selected: seq<Tag>)
    requires fs.Idle() && (opened_ ==> n in fs.files)
    modifies fs`tags, fs`known, fs`live, fs`leaked, fs`useAfterFree, fs`locks, fs.known`refCount
    ensures res == if opened_ then Ok else OpenError
    ensures fs.Idle() <==> res == OpenError || AllUsed(components, old(UsedNames(fs.tags)))
    ensures fs.live == old(fs.live) + multiset(selected)
    ensures fs.leaked == old(fs.leaked) + (if res == Ok then multiset{} else multiset(selected))
    ensures Names(selected) == components && PathTags(old(fs.tags), fs.tags, components, selected)
    ensures UsedNames(fs.tags) == old(UsedNames(fs.tags)) && SameTags(old(fs.tags), old(fs.known), fs.tags)
    ensures fs.Indexed() && Held(fs.tags, fs.known, fs.live, multiset{}) && fs.locks.walked == multiset{}
    ensures fs.useAfterFree == old(fs.useAfterFree) && fs.locks == old(fs.locks)
    ensures old(fs.known) <= fs.known && fresh(fs.known - old(fs.known))
  {
    hide *;
    ghost var tags0, known0 := fs.tags, fs.known;
    selected := Begin(fs, components);
    KeptEntries(tags0, fs.tags, components, selected);
    EntriesSame(tags0, known0, fs.tags);
    UsedInPath(tags0, fs.tags, components, selected);
    res := if opened_ then Ok else OpenError;
    KeepPath(fs, selected, res != Ok);
  }

  /** The path's entries become those of a descriptor, or of nobody. */
  ghost method KeepPath(fs: Store, selected: seq<Tag>, leaks: bool)
    requires fs.Indexed() && fs.Balanced(multiset(selected)) && fs.LiveInUse() && fs.locks.walked == multiset{}
    requires Surplus(fs.known, fs.live, multiset(selected))
    modifies fs`live, fs`leaked
    ensures fs.live == old(fs.live) + multiset(selected)
    ensures fs.leaked == old(fs.leaked) + (if leaks then multiset(selected) else multiset{})
    ensures fs.Idle() <==> leaks || forall i :: 0 <= i < |selected| ==> selected[i].inUse
    ensures fs.Indexed() && Held(fs.tags, fs.known, fs.live, multiset{})
    ensures Speculative(fs.tags, fs.known, fs.live, multiset{})
    ensures HandlesUsed(fs.live, fs.leaked + (if leaks then multiset{} else multiset(selected)), fs.known)
  {
    hide *;
    ghost var live := fs.live + multiset(selected);
    ghost var leaked := fs.leaked + (if leaks then multiset(selected) else multiset{});
    CountedForGood(fs, selected);
    HandlesNow(fs);
    HandlesWith(fs.live, fs.leaked, fs.known, selected, leaks);
    Outlive(fs, live, leaked);
  }

  /** The references that outlive the callback. */
  ghost method Outlive(fs: Store, live: multiset<Tag>, leaked: multiset<Tag>)
    requires fs.Indexed() && Held(fs.tags, fs.known, live, multiset{}) && fs.locks.walked == multiset{}
    requires Speculative(fs.tags, fs.known, live, multiset{})
    modifies fs`live, fs`leaked
    ensures fs.live == live && fs.leaked == leaked
    ensures fs.Indexed() && (fs.Idle() <==> HandlesUsed(live, leaked, fs.known))
  {
    hide *;
    fs.live, fs.leaked := live, leaked;
    IdleNow(fs);
  }

  lemma IdleNow(fs: Store)
    requires fs.Indexed() && Held(fs.tags, fs.known, fs.live, multiset{}) && fs.locks.walked == multiset{}
    requires Speculative(fs.tags, fs.known, fs.live, multiset{})
    ensures fs.Idle() <==> HandlesUsed(fs.live, fs.leaked, fs.known)
  {
  }

  /** What moves with the path from the callback to the descriptor. */
  lemma CountedForGood(fs: Store, selected: seq<Tag>)
    requires fs.Balanced(multiset(selected)) && Surplus(fs.known, fs.live, multiset(selected))
    ensures Held(fs.tags, fs.known, fs.live + multiset(selected), multiset{})
    ensures Speculative(fs.tags, fs.known, fs.live + multiset(selected), multiset{})
  {
    forall u | u in fs.known ensures Counted(u, fs.tags, fs.live + multiset(selected), multiset{}) {
      assert Counted(u, fs.tags, fs.live, multiset(selected));
    }
  }

  lemma HandlesWith(live: multiset<Tag>, leaked: multiset<Tag>, known: set<Tag>, selected: seq<Tag>, leaks: bool)
    requires HandlesUsed(live, leaked, known) && forall t :: t in multiset(selected) ==> t in known
    ensures HandlesUsed(live + multiset(selected), leaked + (if leaks then multiset(selected) else multiset{}), known)
            <==> leaks || forall i :: 0 <= i < |selected| ==> selected[i].inUse
    ensures HandlesUsed(live + multiset(selected), leaked + multiset(selected), known)
    ensures leaked + multiset(selected) + multiset{} == leaked + multiset(selected) && leaked + multiset{} == leaked
  {
    var live' := live + multiset(selected);
    var leaked' := leaked + (if leaks then multiset(selected) else multiset{});
    if !leaks {
      if i :| 0 <= i < |selected| && !selected[i].inUse {
        assert selected[i] in multiset(selected) && live'[selected[i]] > leaked'[selected[i]];
      }
      assert forall t :: t in multiset(selected) ==> t in selected;
    }
    assert forall t :: live'[t] - (leaked + multiset(selected))[t] == live[t] - leaked[t];
  }

  /** release and releasedir (fd_close), whatever the path holds. The path's entries are given back; no
      freed tag is touched and the counts stay sound. The unused entries take the table's tags of
      their names with them, so the index survives exactly when every entry is clear. A directory has
      no real descriptor, so closing it fails, which the caller does not look at. */
  method Release(fs: Store, selected: seq<Tag>, closed_: bool) returns (res: Status)
    requires fs.Indexed() && Held(fs.tags, fs.known, fs.live, multiset{}) && fs.locks.walked == multiset{}
    requires multiset(selected) <= fs.live
    modifies fs`tags, fs`live, fs`useAfterFree, fs`locks, fs.known`refCount, fs.known`freed
    ensures res == if closed_ then Ok else CloseError
    ensures fs.Indexed() <==> old(AllClear(selected, fs.tags, fs.rel))
    ensures fs.tags == old(fs.tags - UnusedNames(selected)) && fs.live == old(fs.live) - multiset(selected)
    ensures Held(fs.tags, fs.known, fs.live, multiset{})
    ensures fs.useAfterFree == old(fs.useAfterFree) && fs.locks == old(fs.locks)
  {
    hide *;
    res := if closed_ then Ok else CloseError;
    ghost var tags0, gone, clear := fs.tags, UnusedNames(selected), AllClear(selected, fs.tags, fs.rel);
    BackToCallback(fs, selected);
    fs.IndexParts();
    fs.live := fs.live - multiset(selected);
    fs.FreeSelectedTags(selected, multiset(selected), null);
    NoneBefore(selected);
    assert UnusedNames(selected) == gone && AllClear(selected, tags0, fs.rel) == clear;
    IndexAfterRelease(fs, tags0, selected);
  }

  lemma IndexAfterRelease(fs: Store, tags0: map<string, Tag>, selected: seq<Tag>)
    requires Tables(tags0, fs.files, fs.known, fs.knownFiles) && TagSide(tags0, fs.files, fs.known, fs.rel)
    requires FileSide(tags0, fs.knownFiles, fs.rel) && UnusedEmpty(fs.known)
    requires fs.tags == tags0 - UnusedNames(selected) && forall i :: 0 <= i < |selected| ==> selected[i] in fs.known
    ensures fs.Indexed() <==> AllClear(selected, tags0, fs.rel)
  {
    hide TagSide, FileSide, EntryClear, UnusedNames, UnusedEmpty;
    IndexWithout(tags0, fs.files, fs.known, fs.knownFiles, fs.rel, selected);
  }

  /** The same between callbacks, when all tags of the descriptor are in use: only the descriptor goes. */
  method ReleaseUsed(fs: Store, selected: seq<Tag>, closed_: bool) returns (res: Status)
    requires fs.Idle() && multiset(selected) <= fs.live - fs.leaked
    modifies fs`tags, fs`live, fs`useAfterFree, fs`locks, fs.known`refCount, fs.known`freed
    ensures res == if closed_ then Ok else CloseError
    ensures fs.Idle() && fs.tags == old(fs.tags) && fs.live == old(fs.live) - multiset(selected)
    ensures fs.useAfterFree == old(fs.useAfterFree) && fs.locks == old(fs.locks)
  {
    hide *;
    HandleEntriesUsed(fs, selected);
    res := Release(fs, selected, closed_);
    IdleNow(fs);
  }

  /** Every entry of a path can be given back. */
  ghost predicate AllClear(selected: seq<Tag>, tags: map<string, Tag>, rel: Relation)
    reads selected`inUse
  {
    forall i :: 0 <= i < |selected| ==> EntryClear(selected[i], tags, rel)
  }

  /** The entries of a descriptor, counted as the callback's own again. */
  lemma BackToCallback(fs: Store, selected: seq<Tag>)
    requires Held(fs.tags, fs.known, fs.live, multiset{}) && multiset(selected) <= fs.live
    ensures Held(fs.tags, fs.known, fs.live - multiset(selected), multiset(selected))
    ensures forall i :: 0 <= i < |selected| ==> selected[i] in fs.known
  {
    forall u | u in fs.known ensures Counted(u, fs.tags, fs.live - multiset(selected), multiset(selected)) {
      assert Counted(u, fs.tags, fs.live, multiset{});
    }
    forall i | 0 <= i < |selected| ensures selected[i] in fs.known {
      assert selected[i] in multiset(selected);
    }
  }

  /** With all tags in use, what stays of the table and of the other descriptors. */
  lemma HandleEntriesUsed(fs: Store, selected: seq<Tag>)
    requires fs.Idle() && multiset(selected) <= fs.live - fs.leaked
    ensures UnusedNames(selected) == {} && fs.tags - {} == fs.tags && AllClear(selected, fs.tags, fs.rel)
    ensures fs.Indexed() && Held(fs.tags, fs.known, fs.live, multiset{}) && fs.locks.walked == multiset{}
    ensures multiset(selected) <= fs.live
    ensures Speculative(fs.tags, fs.known, fs.live - multiset(selected), multiset{})
    ensures HandlesUsed(fs.live - multiset(selected), fs.leaked, fs.known)
  {
    hide Tables, TagSide, FileSide, UnusedEmpty;
    forall t | t in multiset(selected) ensures t in fs.known && t.inUse {
      assert t in fs.live && fs.live[t] > fs.leaked[t];
    }
    forall i | 0 <= i < |selected| ensures selected[i].inUse {
      assert selected[i] in multiset(selected);
    }
  }
}
