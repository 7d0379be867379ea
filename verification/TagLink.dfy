/** link, which holds two paths at once, and what rename shares with it. */
module TagLink {
  import opened Tags
  import opened TagFs

  /** The second path of a callback, created while the first one is held. */
  method BeginSecond(fs: Store, components: seq<string>, first: seq<Tag>) returns (selected: seq<Tag>)
    requires fs.Indexed() && fs.Balanced(multiset(first)) && Current(fs.tags, fs.known, multiset(first))
    requires forall i :: 0 <= i < |first| ==> InTable(first[i], fs.tags)
    requires fs.LiveInUse() && Surplus(fs.known, fs.live, multiset(first)) && fs.locks.walked == multiset{}
    modifies fs`tags, fs`known, fs`useAfterFree, fs`locks, fs.known`refCount
    ensures Surplus(fs.known, fs.live, multiset(first) + multiset(selected))
    ensures fs.Indexed() && fs.Balanced(multiset(first) + multiset(selected))
    ensures Current(fs.tags, fs.known, multiset(first) + multiset(selected)) && fs.LiveInUse()
    ensures PathTags(old(fs.tags), fs.tags, components, selected) && Names(selected) == components
    ensures forall i :: 0 <= i < |first| ==> InTable(first[i], fs.tags)
    ensures AllLive(selected) && forall i :: 0 <= i < |selected| ==> selected[i] in fs.known && InTable(selected[i], fs.tags)
    ensures UsedNames(fs.tags) == old(UsedNames(fs.tags))
    ensures forall k :: k in fs.tags && k !in old(fs.tags) ==> fs.tags[k] !in old(fs.known)
    ensures old(fs.known) <= fs.known && fresh(fs.known - old(fs.known))
    ensures fs.useAfterFree == old(fs.useAfterFree) && fs.locks == old(fs.locks)
  {
    hide *;
    ghost var tags1 := fs.tags;
    selected := CreatePath(fs, components, multiset(first));
    StaysInTable(tags1, fs.tags, components, selected, first);
  }

  lemma StaysInTable(tags1: map<string, Tag>, tags: map<string, Tag>, components: seq<string>, selected: seq<Tag>,
                     first: seq<Tag>)
    requires PathTags(tags1, tags, components, selected)
    requires forall i :: 0 <= i < |first| ==> InTable(first[i], tags1)
    ensures forall i :: 0 <= i < |first| ==> InTable(first[i], tags)
  {
  }

  /** The effect of `t.inUse := true` on the counts and on the speculative tags. When only leaked
      references have kept the tag so far, one of them takes the place of its own. */
  method Promote(fs: Store, t: Tag, ghost own: multiset<Tag>)
    requires fs.Indexed() && fs.Balanced(own) && t in fs.known && InTable(t, fs.tags) && fs.LiveInUse()
    modifies fs`live, fs`leaked, t`inUse
    ensures fs.Indexed() && fs.Balanced(own) && t.inUse && fs.LiveInUse()
    ensures fs.live - fs.leaked == old(fs.live) - old(fs.leaked)
    ensures forall u :: u in old(fs.known) ==> fs.live[u] == old(fs.live[u]) || (u == t && !old(t.inUse))
  {
    hide *;
    ghost var paid: multiset<Tag> := if !t.inUse && own[t] == 0 then multiset{t} else multiset{};
    ghost var live, leaked := fs.live - paid, fs.leaked - paid;
    Promotable(fs, t, own, paid);
    SetInUse(fs, t);
    Resettle(fs, t, own, live, leaked);
  }

  /** The outstanding references, once `t` is in use. */
  ghost method Resettle(fs: Store, t: Tag, own: multiset<Tag>, live: multiset<Tag>, leaked: multiset<Tag>)
    requires t in fs.known && t.inUse && ReadyToUse(fs.tags, fs.known, live, leaked, own, t)
    modifies fs`live, fs`leaked
    ensures fs.Balanced(own) && fs.LiveInUse() && fs.live == live && fs.leaked == leaked
  {
    hide ReadyToUse, Store.Balanced, Store.LiveInUse;
    fs.live, fs.leaked := live, leaked;
    Settled(fs, t, own);
  }

  lemma Settled(fs: Store, t: Tag, own: multiset<Tag>)
    requires t in fs.known && t.inUse && ReadyToUse(fs.tags, fs.known, fs.live, fs.leaked, own, t)
    ensures fs.Balanced(own) && fs.LiveInUse()
  {
    hide Held, Speculative, HandlesUsed, ReadyToUse;
    Promoted(fs.tags, fs.known, fs.live, fs.leaked, own, t);
  }

  method SetInUse(fs: Store, t: Tag)
    requires fs.Indexed() && t in fs.known
    modifies t`inUse
    ensures fs.Indexed() && t.inUse
  {
    hide TagSide, FileSide, Tables;
    t.inUse := true;
  }

  /** The counts and the table will be right once `t` is in use. */
  ghost predicate ReadyToUse(tags: map<string, Tag>, known: set<Tag>, live: multiset<Tag>, leaked: multiset<Tag>,
                             own: multiset<Tag>, t: Tag)
    reads (known - {t})`freed, (known - {t})`inUse, (known - {t})`refCount, t`freed, t`refCount
  {
    && (forall u :: u in own ==> u in known) && (forall u :: u in live ==> u in known)
    && (forall u :: u in known - {t} ==> Counted(u, tags, live, own))
    && !t.freed && t.refCount >= live[t] + 1
    && (forall k :: k in tags && tags[k] in known - {t} && !tags[k].inUse ==> own[tags[k]] > 0 || live[tags[k]] > 0)
    && (forall u :: u in known - {t} && own[u] > 0 && !u.inUse && u.value in tags ==> tags[u.value] == u)
    && leaked <= live && forall u :: u in live && u != t && live[u] > leaked[u] ==> u in known - {t} && u.inUse
  }

  lemma Promotable(fs: Store, t: Tag, own: multiset<Tag>, paid: multiset<Tag>)
    requires fs.Balanced(own) && t in fs.known && InTable(t, fs.tags) && fs.LiveInUse()
    requires paid == if !t.inUse && own[t] == 0 then multiset{t} else multiset{}
    ensures ReadyToUse(fs.tags, fs.known, fs.live - paid, fs.leaked - paid, own, t)
    ensures (fs.live - paid) - (fs.leaked - paid) == fs.live - fs.leaked
  {
    assert Counted(t, fs.tags, fs.live, own);
    assert fs.tags[t.value] == t;
    if paid != multiset{} {
      assert fs.live[t] > 0 && fs.leaked[t] >= fs.live[t];
    }
    HandlesStillUsed(fs.live, fs.leaked, fs.known, paid);
    forall u | u in fs.known - {t} ensures Counted(u, fs.tags, fs.live - paid, own) {
      assert Counted(u, fs.tags, fs.live, own);
    }
  }

  lemma Promoted(tags: map<string, Tag>, known: set<Tag>, live: multiset<Tag>, leaked: multiset<Tag>,
                 own: multiset<Tag>, t: Tag)
    requires t in known && t.inUse && ReadyToUse(tags, known, live, leaked, own, t)
    ensures Held(tags, known, live, own) && Speculative(tags, known, live, own) && HandlesUsed(live, leaked, known)
  {
    forall u | u in known ensures Counted(u, tags, live, own) {
      assert u != t ==> u in known - {t};
    }
  }

  /** tag_get_or_create of a name without a tag. */
  method CreateUsed(fs: Store, name: string, ghost own: multiset<Tag>) returns (t: Tag)
    requires fs.Indexed() && fs.Balanced(own) && Current(fs.tags, fs.known, own) && name !in fs.tags
    requires AllTags !in fs.locks.walked
    modifies fs`tags, fs`known, fs`locks
    ensures fs.Indexed() && fs.Balanced(own) && fs.locks == old(fs.locks)
    ensures fresh(t) && t.inUse && fs.tags == old(fs.tags)[name := t] && fs.known == old(fs.known) + {t}
  {
    hide *;
    fs.Write(AllTags);
    t := new Tag(name, true);
    t.refCount := 1;
    Enter(fs, t, own);
  }

  /** The new tag goes into the table. */
  method Enter(fs: Store, t: Tag, ghost own: multiset<Tag>)
    requires fs.Indexed() && fs.Balanced(own) && Current(fs.tags, fs.known, own)
    requires t !in fs.known && t.value !in fs.tags && t.inUse && !t.freed && t.refCount == 1 && t.files == map[]
    modifies fs`tags, fs`known
    ensures fs.Indexed() && fs.Balanced(own)
    ensures fs.tags == old(fs.tags)[t.value := t] && fs.known == old(fs.known) + {t}
  {
    hide *;
    UsedTagJoins(fs, t, own);
    UsedTagListed(fs, t);
    fs.tags := fs.tags[t.value := t];
    fs.known := fs.known + {t};
    Joined(fs, own);
  }

  lemma Joined(fs: Store, own: multiset<Tag>)
    requires Tables(fs.tags, fs.files, fs.known, fs.knownFiles) && TagSide(fs.tags, fs.files, fs.known, fs.rel)
    requires FileSide(fs.tags, fs.knownFiles, fs.rel) && UnusedEmpty(fs.known)
    requires Held(fs.tags, fs.known, fs.live, own) && Speculative(fs.tags, fs.known, fs.live, own)
    ensures fs.Indexed() && fs.Balanced(own)
  {
  }

  /** tag_get_or_create of a new name: the index. */
  lemma UsedTagListed(fs: Store, t: Tag)
    requires fs.Indexed() && t !in fs.known && t.value !in fs.tags && t.inUse && t.files == map[]
    ensures var tags, known := fs.tags[t.value := t], fs.known + {t};
            && Tables(tags, fs.files, known, fs.knownFiles) && TagSide(tags, fs.files, known, fs.rel)
            && FileSide(tags, fs.knownFiles, fs.rel) && UnusedEmpty(known)
  {
    hide TagSide, FileSide;
    TagSideGrows(fs.tags, fs.files, fs.known, fs.rel, t);
    FileSideGrows(fs.tags, fs.knownFiles, fs.rel, t);
  }

  /** tag_mkdir on an allowed name: afterwards the tag exists and is in use. */
  method MakeTag(fs: Store, name: string, ghost own: multiset<Tag>) returns (res: Status)
    requires fs.Indexed() && fs.Balanced(own) && Current(fs.tags, fs.known, own)
    requires fs.LiveInUse() && fs.locks.walked == multiset{}
    modifies fs`tags, fs`known, fs`live, fs`leaked, fs`useAfterFree, fs`locks, fs.known`inUse
    ensures fs.Indexed() && fs.Balanced(own) && fs.LiveInUse() && fs.live - fs.leaked == old(fs.live) - old(fs.leaked)
    ensures name in fs.tags && fs.tags[name].inUse && fs.tags == old(fs.tags)[name := fs.tags[name]]
    ensures name in old(fs.tags) ==> fs.tags == old(fs.tags) && fs.known == old(fs.known)
    ensures res == if name in old(fs.tags) && old(fs.tags[name].inUse) then EEXIST else Ok
    ensures forall u :: u in old(fs.known) && u != fs.tags[name] ==> u.inUse == old(u.inUse)
    ensures forall u :: u in old(fs.known) ==> fs.live[u] == old(fs.live[u]) || (u.inUse && !old(u.inUse))
    ensures old(fs.known) <= fs.known && fresh(fs.known - old(fs.known))
    ensures name !in old(fs.tags) ==> fresh(fs.tags[name])
    ensures fs.useAfterFree == old(fs.useAfterFree) && fs.locks == old(fs.locks)
  {
    hide *;
    res := Ok;
    if name in fs.tags {
      var t := fs.tags[name];
      StillThere(fs, name, own);
      fs.Touch(t);
      if t.inUse {
        res := EEXIST;
      } else {
        Promote(fs, t, own);
      }
    } else {
      ghost var known0 := fs.known;
      HandlesNow(fs);
      var t := CreateUsed(fs, name, own);
      HandlesAmongMore(fs, known0);
    }
  }

  /** A table entry is not freed. */
  lemma StillThere(fs: Store, name: string, own: multiset<Tag>)
    requires fs.Indexed() && fs.Balanced(own) && name in fs.tags
    ensures var t := fs.tags[name]; t in fs.known && InTable(t, fs.tags) && !t.freed
  {
    assert Counted(fs.tags[name], fs.tags, fs.live, own);
  }

  /** tag_get_or_create of a new name: one reference, in use. */
  lemma UsedTagJoins(fs: Store, t: Tag, own: multiset<Tag>)
    requires fs.Balanced(own) && Current(fs.tags, fs.known, own)
    requires t !in fs.known && t.value !in fs.tags && t.inUse && !t.freed && t.refCount == 1
    ensures var tags, known := fs.tags[t.value := t], fs.known + {t};
            Held(tags, known, fs.live, own) && Speculative(tags, known, fs.live, own)
  {
    forall u | u in fs.known + {t} ensures Counted(u, fs.tags[t.value := t], fs.live, own) {
      if u in fs.known {
        assert Counted(u, fs.tags, fs.live, own);
      } else {
        assert t !in own && t !in fs.live;
      }
    }
  }

  /** What tag_link asks of tag_mkdir for the directory part of the new path: nothing below two
      levels, the one component at one level, and the name "/" for the root itself. */
  method MakeParent(fs: Store, components: seq<string>, ghost own: multiset<Tag>) returns (res: Status)
    requires fs.Indexed() && fs.Balanced(own) && Current(fs.tags, fs.known, own)
    requires fs.LiveInUse() && fs.locks.walked == multiset{}
    modifies fs`tags, fs`known, fs`live, fs`leaked, fs`useAfterFree, fs`locks, fs.known`inUse
    ensures fs.Indexed() && fs.Balanced(own) && fs.LiveInUse() && fs.live - fs.leaked == old(fs.live) - old(fs.leaked)
    ensures |components| > 1 ==> res == EPERM && fs.tags == old(fs.tags) && fs.known == old(fs.known)
    ensures |components| > 1 ==> forall u :: u in fs.known ==> u.inUse == old(u.inUse)
    ensures |components| <= 1 ==> var name := ParentName(components);
              && name in fs.tags && fs.tags[name].inUse && fs.tags == old(fs.tags)[name := fs.tags[name]]
              && (name in old(fs.tags) ==> fs.tags == old(fs.tags) && fs.known == old(fs.known))
              && (name !in old(fs.tags) ==> fresh(fs.tags[name]))
              && forall u :: u in old(fs.known) && u != fs.tags[name] ==> u.inUse == old(u.inUse)
    ensures forall u :: u in old(fs.known) ==> fs.live[u] == old(fs.live[u]) || (u.inUse && !old(u.inUse))
    ensures old(fs.known) <= fs.known && fresh(fs.known - old(fs.known))
    ensures fs.useAfterFree == old(fs.useAfterFree) && fs.locks == old(fs.locks)
  {
    hide Store.Indexed, Store.Balanced, Store.LiveInUse;
    if |components| > 1 {
      return EPERM;
    }
    res := MakeTag(fs, ParentName(components), own);
  }

  /** basename of the directory part. */
  function ParentName(components: seq<string>): string {
    if components == [] then "/" else components[|components| - 1]
  }

  /** path_link: when the old path stands for a file, that file gets every tag of the new path. */
  method PathLink(fs: Store, first: seq<Tag>, n: string, second: seq<Tag>, ghost own: multiset<Tag>)
    returns (res: Attr)
    requires fs.Indexed() && fs.Balanced(own) && AllLive(first) && multiset(second) <= own
    requires fs.LiveInUse() && fs.locks.walked == multiset{}
    requires forall i :: 0 <= i < |second| ==> second[i] in fs.known && InTable(second[i], fs.tags)
    modifies fs`files, fs`knownFiles, fs`useAfterFree, fs`locks, fs`rel, fs.known`files, fs.known`inUse, fs.knownFiles`tags
    ensures fs.Indexed() && fs.Balanced(own) && fs.LiveInUse() && fs.locks == old(fs.locks)
    ensures res == AttrOf(fs.onDisk, old(fs.rel), Names(first), n)
    ensures fs.rel == if res == NoEntry then old(fs.rel) else old(fs.rel) + PairsOf(n, Names(second))
    ensures forall u :: u in fs.known ==> (u.inUse <==> old(u.inUse) || (res != NoEntry && u in multiset(second)))
    ensures n in fs.files && forall k :: k in old(fs.files) ==> k in fs.files
    ensures old(fs.knownFiles) <= fs.knownFiles && fresh(fs.knownFiles - old(fs.knownFiles))
    ensures fs.useAfterFree == old(fs.useAfterFree)
  {
    hide *;
    AttrCases(fs.onDisk, fs.rel, Names(first), n);
    res := GetattrIntra(fs, first, n);
    if res != NoEntry {
      TagWithAll(fs, n, second, own);
    }
  }

  /** path_link from the found file on. */
  method TagWithAll(fs: Store, n: string, second: seq<Tag>, ghost own: multiset<Tag>)
    requires fs.Indexed() && fs.Balanced(own) && multiset(second) <= own
    requires fs.LiveInUse() && fs.locks.walked == multiset{}
    requires forall i :: 0 <= i < |second| ==> second[i] in fs.known && InTable(second[i], fs.tags)
    modifies fs`files, fs`knownFiles, fs`useAfterFree, fs`locks, fs`rel, fs.known`files, fs.known`inUse, fs.knownFiles`tags
    ensures fs.Indexed() && fs.Balanced(own) && fs.LiveInUse() && fs.locks == old(fs.locks)
    ensures fs.rel == old(fs.rel) + PairsOf(n, Names(second))
    ensures forall u :: u in fs.known ==> (u.inUse <==> old(u.inUse) || u in multiset(second))
    ensures n in fs.files && forall k :: k in old(fs.files) ==> k in fs.files
    ensures old(fs.knownFiles) <= fs.knownFiles && fresh(fs.knownFiles - old(fs.knownFiles))
    ensures fs.useAfterFree == old(fs.useAfterFree)
  {
    hide *;
    var f := fs.FileGetOrCreate(n);
    TagWith(fs, second, f, own);
  }

  /** The iteration of path_link over the new path. */
  method TagWith(fs: Store, second: seq<Tag>, f: File, ghost own: multiset<Tag>)
    requires fs.Indexed() && fs.Balanced(own) && f in fs.knownFiles && multiset(second) <= own
    requires fs.LiveInUse() && fs.locks.walked == multiset{}
    requires forall i :: 0 <= i < |second| ==> second[i] in fs.known && InTable(second[i], fs.tags)
    modifies fs`rel, fs`useAfterFree, fs`locks, fs.known`files, fs.known`inUse, f`tags
    ensures fs.Indexed() && fs.Balanced(own) && fs.LiveInUse() && fs.locks == old(fs.locks)
    ensures fs.rel == old(fs.rel) + PairsOf(f.name, Names(second))
    ensures forall u :: u in fs.known ==> (u.inUse <==> old(u.inUse) || u in multiset(second))
    ensures fs.useAfterFree == old(fs.useAfterFree)
  {
    hide *;
    ghost var before := fs.locks;
    fs.BeginWalk(OfPath);
    PathWalkedOnly(fs);
    TagAll(fs, second, f, own);
    fs.EndWalk(OfPath, before);
  }

  lemma AttrCases(onDisk: set<string>, rel: Relation, components: seq<string>, n: string)
    ensures AttrOf(onDisk, rel, components, n) == NoEntry ==> n in onDisk
  {
  }

  /** The tagging loop of path_link. */
  method TagAll(fs: Store, second: seq<Tag>, f: File, ghost own: multiset<Tag>)
    requires fs.Indexed() && fs.Balanced(own) && f in fs.knownFiles && multiset(second) <= own
    requires fs.LiveInUse() && fs.Undisturbed()
    requires forall i :: 0 <= i < |second| ==> second[i] in fs.known && InTable(second[i], fs.tags)
    modifies fs`rel, fs`useAfterFree, fs`locks, fs.known`files, fs.known`inUse, f`tags
    ensures fs.Indexed() && fs.Balanced(own) && fs.LiveInUse() && fs.locks == old(fs.locks)
    ensures fs.rel == old(fs.rel) + PairsOf(f.name, Names(second))
    ensures forall u :: u in fs.known ==> (u.inUse <==> old(u.inUse) || u in multiset(second))
    ensures fs.useAfterFree == old(fs.useAfterFree)
  {
    hide Store.Indexed, Store.Balanced, Store.LiveInUse, Store.Undisturbed, PairsOf, Names, InTable;
    ghost var names, during := Names(second), fs.locks;
    NamesAre(second);
    NothingLinked(fs, second, f.name);
    for i := 0 to |second|
      invariant fs.Indexed() && fs.Balanced(own) && fs.LiveInUse() && fs.locks == during
      invariant fs.rel == old(fs.rel) + PairsOf(f.name, names[..i])
      invariant forall u :: u in fs.known ==> (u.inUse <==> old(u.inUse) || u in multiset(second[..i]))
      invariant fs.useAfterFree == old(fs.useAfterFree)
    {
      PairsStep(f.name, names, i);
      MultisetPrefix(second, i);
      TagOne(fs, second[i], f, own);
    }
    assert names[..|second|] == names && second[..|second|] == second;
  }

  lemma NothingLinked(fs: Store, second: seq<Tag>, n: string)
    ensures fs.rel == fs.rel + PairsOf(n, Names(second)[..0]) && multiset(second[..0]) == multiset{}
  {
  }

  lemma PairsStep(n: string, names: seq<string>, i: nat)
    requires i < |names|
    ensures PairsOf(n, names[..i + 1]) == PairsOf(n, names[..i]) + {(n, names[i])}
  {
    forall p | p in PairsOf(n, names[..i]) ensures p in PairsOf(n, names[..i + 1]) {
      var j :| 0 <= j < i && p == (n, names[..i][j]);
      assert p == (n, names[..i + 1][j]);
    }
    assert (n, names[i]) == (n, names[..i + 1][i]);
  }

  /** tag_file within the counts. */
  method TagOne(fs: Store, t: Tag, f: File, ghost own: multiset<Tag>)
    requires fs.Indexed() && fs.Balanced(own) && f in fs.knownFiles && t in fs.known && InTable(t, fs.tags)
    requires (t.inUse || own[t] > 0) && fs.LiveInUse() && fs.Undisturbed()
    modifies fs`rel, fs`useAfterFree, fs`locks, t`files, t`inUse, f`tags
    ensures fs.Indexed() && fs.Balanced(own) && t.inUse && fs.LiveInUse() && fs.locks == old(fs.locks)
    ensures fs.rel == old(fs.rel) + {(f.name, t.value)} && fs.useAfterFree == old(fs.useAfterFree)
  {
    hide *;
    Promotable(fs, t, own, multiset{});
    assert fs.live - multiset{} == fs.live && fs.leaked - multiset{} == fs.leaked;
    NotFreed(fs, t, f, own);
    fs.BalancedParts(own);
    TagReady(fs, t, f, own);
  }

  /** tag_file, once the counts are ready for it. */
  method TagReady(fs: Store, t: Tag, f: File, ghost own: multiset<Tag>)
    requires fs.Indexed() && f in fs.knownFiles && t in fs.known && InTable(t, fs.tags) && !t.freed
    requires ReadyToUse(fs.tags, fs.known, fs.live, fs.leaked, own, t)
    requires TagsOf(f) !in fs.locks.walked && FilesOf(t) !in fs.locks.walked
    modifies fs`rel, fs`useAfterFree, fs`locks, t`files, t`inUse, f`tags
    ensures fs.Indexed() && fs.Balanced(own) && t.inUse && fs.LiveInUse() && fs.locks == old(fs.locks)
    ensures fs.rel == old(fs.rel) + {(f.name, t.value)} && fs.useAfterFree == old(fs.useAfterFree)
  {
    hide *;
    fs.TagFile(t, f);
    Settled(fs, t, own);
  }

  lemma NotFreed(fs: Store, t: Tag, f: File, own: multiset<Tag>)
    requires fs.Balanced(own) && t in fs.known && InTable(t, fs.tags) && fs.Undisturbed()
    ensures !t.freed && TagsOf(f) !in fs.locks.walked && FilesOf(t) !in fs.locks.walked
  {
    assert Counted(t, fs.tags, fs.live, own);
  }

  lemma OnlySwept(tags: map<string, Tag>, first: seq<Tag>, second: seq<Tag>)
    requires forall i :: 0 <= i < |first| ==> InTable(first[i], tags)
    requires forall i :: 0 <= i < |second| ==> InTable(second[i], tags)
    ensures tags - UnusedNames(first) - UnusedNames(second) == Swept(tags, SetOf(Names(first)) + SetOf(Names(second)))
  {
    forall k | k in tags
      ensures k in UnusedNames(first) + UnusedNames(second)
              <==> !tags[k].inUse && k in SetOf(Names(first)) + SetOf(Names(second))
    {
      UnusedByName(tags, first, k);
      UnusedByName(tags, second, k);
    }
  }

  lemma UnusedByName(tags: map<string, Tag>, selected: seq<Tag>, k: string)
    requires k in tags && forall i :: 0 <= i < |selected| ==> InTable(selected[i], tags)
    ensures k in UnusedNames(selected) <==> !tags[k].inUse && k in SetOf(Names(selected))
  {
    NamesAre(selected);
    if k in SetOf(Names(selected)) {
      var i :| 0 <= i < |selected| && Names(selected)[i] == k;
      assert selected[i].value == k && selected[i] == tags[k];
    }
    if k in UnusedNames(selected) {
      var i :| 0 <= i < |selected| && !selected[i].inUse && selected[i].value == k;
      assert Names(selected)[i] == k && selected[i] == tags[k];
    }
  }

  lemma TwoShares<T>(a: seq<T>, b: seq<T>)
    ensures multiset(a) + multiset(b) - multiset(a) == multiset(b)
    ensures multiset(b) - multiset(b) == multiset{}
    ensures multiset(a) <= multiset(a) + multiset(b)
  {
  }

  /** The two path deletions at the end of link and rename. */
  method DeleteBoth(fs: Store, first: seq<Tag>, second: seq<Tag>, ghost rest: map<string, Tag>)
    requires fs.Indexed() && fs.Balanced(multiset(first) + multiset(second)) && fs.LiveInUse()
    requires forall i :: 0 <= i < |first| ==> first[i] in fs.known
    requires forall i :: 0 <= i < |second| ==> second[i] in fs.known
    requires fs.tags - UnusedNames(first) - UnusedNames(second) == rest && fs.locks.walked == multiset{}
    modifies fs`tags, fs`useAfterFree, fs`locks, fs.known`refCount, fs.known`freed
    ensures fs.Idle() && fs.useAfterFree == old(fs.useAfterFree) && fs.tags == rest && fs.locks == old(fs.locks)
  {
    hide TagSide, FileSide, UnusedEmpty, Counted, Tables, Speculative, Held, UnusedNames, HandlesUsed;
    TwoShares(first, second);
    ghost var gone, gone' := UnusedNames(first), UnusedNames(second);
    fs.PathDelete(first, multiset(first) + multiset(second), null);
    assert UnusedNames(first) == gone && UnusedNames(second) == gone';
    fs.PathDelete(second, multiset(second), null);
    assert UnusedNames(second) == gone';
  }

  /** The tables of a callback that holds the paths `from` and `to`, begun with the table `tags0` and the
      tags `known0`: the paths are in the table, which has lost no entry. */
  ghost predicate Layout(tags0: map<string, Tag>, known0: set<Tag>, tags: map<string, Tag>, known: set<Tag>,
                         from: seq<string>, to: seq<string>, first: seq<Tag>, second: seq<Tag>) {
    && Names(first) == from && Names(second) == to && known0 <= known
    && (forall i :: 0 <= i < |first| ==> first[i] in known && InTable(first[i], tags))
    && (forall i :: 0 <= i < |second| ==> second[i] in known && InTable(second[i], tags))
    && (forall k :: k in tags0 ==> k in tags)
    && (forall k :: k in tags ==> tags[k] in known) && SameTags(tags0, known0, tags)
  }

  /** Of the entries gained, only those of the paths may be unused. */
  ghost predicate GainedUsed(tags0: map<string, Tag>, tags: map<string, Tag>, from: seq<string>, to: seq<string>)
    reads tags.Values`inUse
  {
    forall k :: k in tags && k !in tags0 ==> tags[k].inUse || k in from || k in to
  }

  /** The state of such a callback. */
  ghost predicate Between(fs: Store, tags0: map<string, Tag>, known0: set<Tag>, from: seq<string>, to: seq<string>,
                          first: seq<Tag>, second: seq<Tag>)
    reads fs, fs.known, fs.knownFiles, fs.tags.Values
  {
    && fs.Indexed() && fs.Balanced(multiset(first) + multiset(second)) && fs.LiveInUse() && fs.locks.walked == multiset{}
    && Layout(tags0, known0, fs.tags, fs.known, from, to, first, second) && GainedUsed(tags0, fs.tags, from, to)
  }

  lemma LaidOut(tags0: map<string, Tag>, known0: set<Tag>, tags: map<string, Tag>, known: set<Tag>,
                from: seq<string>, to: seq<string>, first: seq<Tag>, second: seq<Tag>)
    requires Layout(tags0, known0, tags, known, from, to, first, second)
    ensures Names(first) == from && Names(second) == to && known0 <= known
    ensures forall i :: 0 <= i < |first| ==> first[i] in known && InTable(first[i], tags)
    ensures forall i :: 0 <= i < |second| ==> second[i] in known && InTable(second[i], tags)
    ensures (forall k :: k in tags ==> tags[k] in known) && SameTags(tags0, known0, tags)
  {
  }

  lemma BothLaidOut(tags0: map<string, Tag>, known0: set<Tag>, tags1: map<string, Tag>, known1: set<Tag>,
                    tags2: map<string, Tag>, known2: set<Tag>,
                    from: seq<string>, to: seq<string>, first: seq<Tag>, second: seq<Tag>)
    requires PathTags(tags0, tags1, from, first) && PathTags(tags1, tags2, to, second) && known0 <= known1 <= known2
    requires forall k :: k in tags1 && k !in tags0 ==> tags1[k] !in known0
    requires forall k :: k in tags2 && k !in tags1 ==> tags2[k] !in known1
    requires forall k :: k in tags2 ==> tags2[k] in known2 && tags2[k].value == k
    requires Names(first) == from && Names(second) == to
    ensures Layout(tags0, known0, tags2, known2, from, to, first, second) && GainedUsed(tags0, tags2, from, to)
  {
    hide Names;
  }

  /** Both path creations. */
  method BeginBoth(fs: Store, from: seq<string>, to: seq<string>) returns (first: seq<Tag>, second: seq<Tag>)
    requires fs.Idle()
    modifies fs`tags, fs`known, fs`useAfterFree, fs`locks, fs.known`refCount
    ensures Surplus(fs.known, fs.live, multiset(first) + multiset(second)) && fs.LiveInUse()
    ensures Between(fs, old(fs.tags), old(fs.known), from, to, first, second)
    ensures Current(fs.tags, fs.known, multiset(first) + multiset(second))
    ensures UsedNames(fs.tags) == old(UsedNames(fs.tags))
    ensures old(fs.known) <= fs.known && fresh(fs.known - old(fs.known))
    ensures fs.useAfterFree == old(fs.useAfterFree) && fs.locks == old(fs.locks)
  {
    hide *;
    ghost var tags0, known0, used := fs.tags, fs.known, UsedNames(fs.tags);
    first := Begin(fs, from);
    ghost var tags1, known1 := fs.tags, fs.known;
    PathInTable(fs, tags0, from, first);
    second := BeginSecond(fs, to, first);
    TableFacts(fs);
    BothLaidOut(tags0, known0, tags1, known1, fs.tags, fs.known, from, to, first, second);
    BetweenNow(fs, tags0, known0, from, to, first, second);
  }

  lemma BetweenNow(fs: Store, tags0: map<string, Tag>, known0: set<Tag>, from: seq<string>, to: seq<string>,
                   first: seq<Tag>, second: seq<Tag>)
    ensures Between(fs, tags0, known0, from, to, first, second) <==>
              && fs.Indexed() && fs.Balanced(multiset(first) + multiset(second)) && fs.LiveInUse()
              && fs.locks.walked == multiset{} && Layout(tags0, known0, fs.tags, fs.known, from, to, first, second)
              && GainedUsed(tags0, fs.tags, from, to)
  {
    hide Store.Indexed, Store.Balanced, Store.LiveInUse, Layout, GainedUsed;
  }

  lemma FirstStillLive(fs: Store, first: seq<Tag>, own: multiset<Tag>)
    requires fs.Indexed() && fs.Balanced(own) && forall i :: 0 <= i < |first| ==> InTable(first[i], fs.tags)
    ensures AllLive(first) && forall i :: 0 <= i < |first| ==> first[i] in fs.known && !first[i].freed
  {
    forall i | 0 <= i < |first| ensures first[i] in fs.known && !first[i].freed {
      assert fs.tags[first[i].value] in fs.known;
      assert Counted(first[i], fs.tags, fs.live, own);
    }
  }

  /** tag_mkdir inside link. */
  method ParentWhileLinking(fs: Store, from: seq<string>, to: seq<string>, first: seq<Tag>, second: seq<Tag>,
                            ghost tags0: map<string, Tag>, ghost known0: set<Tag>)
    requires Between(fs, tags0, known0, from, to, first, second)
    requires Current(fs.tags, fs.known, multiset(first) + multiset(second))
    modifies fs`tags, fs`known, fs`live, fs`leaked, fs`useAfterFree, fs`locks, fs.known`inUse
    ensures Between(fs, tags0, known0, from, to, first, second)
    ensures UsedNames(fs.tags) == old(UsedNames(fs.tags)) + (if |to| <= 1 then {ParentName(to)} else {})
    ensures forall u :: u in old(fs.known) && u.inUse ==> old(u.inUse) || InTable(u, fs.tags)
    ensures forall u :: u in old(fs.known) ==> fs.live[u] == old(fs.live[u]) || (u.inUse && !old(u.inUse))
    ensures old(fs.known) <= fs.known && fresh(fs.known - old(fs.known))
    ensures fs.live - fs.leaked == old(fs.live) - old(fs.leaked)
    ensures fs.useAfterFree == old(fs.useAfterFree) && fs.locks == old(fs.locks)
  {
    hide *;
    ghost var tags1, known1, used := fs.tags, fs.known, UsedNames(fs.tags);
    UsedMeans(fs.tags);
    GainedMeans(tags0, fs.tags, from, to, used);
    BetweenNow(fs, tags0, known0, from, to, first, second);
    LaidOut(tags0, known0, fs.tags, fs.known, from, to, first, second);
    TableFacts(fs);
    var made := MakeParent(fs, to, multiset(first) + multiset(second));
    TableFacts(fs);
    if |to| <= 1 {
      ParentJoins(tags0, known0, tags1, known1, fs.tags, fs.known, ParentName(to), from, to, first, second, used);
      EntryInTable(fs, ParentName(to));
    } else {
      assert UsedNames(fs.tags) == used by { UsedMeans(fs.tags); }
      assert UsedNames(fs.tags) == used + {};
      GainedNow(tags0, fs.tags, from, to, used);
    }
    BetweenNow(fs, tags0, known0, from, to, first, second);
  }

  lemma EntryInTable(fs: Store, name: string)
    requires name in fs.tags && fs.tags[name].value == name
    ensures InTable(fs.tags[name], fs.tags)
  {
  }

  /** The entries in use of a table, given as a set: `used` holds the names. */
  lemma GainedMeans(tags0: map<string, Tag>, tags: map<string, Tag>, from: seq<string>, to: seq<string>, used: set<string>)
    requires used == UsedNames(tags)
    ensures GainedUsed(tags0, tags, from, to) <==> forall k :: k in tags && k !in tags0 ==> k in used || k in from || k in to
  {
  }

  lemma GainedNow(tags0: map<string, Tag>, tags: map<string, Tag>, from: seq<string>, to: seq<string>, used: set<string>)
    requires used <= UsedNames(tags)
    requires forall k :: k in tags && k !in tags0 ==> k in used || k in from || k in to
    ensures GainedUsed(tags0, tags, from, to)
  {
  }

  /** The table entry that tag_mkdir made sure of. */
  lemma ParentJoins(tags0: map<string, Tag>, known0: set<Tag>, tags1: map<string, Tag>, known1: set<Tag>,
                    tags: map<string, Tag>, known: set<Tag>, name: string,
                    from: seq<string>, to: seq<string>, first: seq<Tag>, second: seq<Tag>, used: set<string>)
    requires Layout(tags0, known0, tags1, known1, from, to, first, second) && known1 <= known
    requires forall k :: k in tags1 && k !in tags0 ==> k in used || k in from || k in to
    requires name in tags && tags[name].inUse && tags == tags1[name := tags[name]] && (name in tags1 ==> tags == tags1)
    requires name !in tags1 ==> tags[name] !in known1
    requires forall k :: k in tags ==> tags[k] in known && tags[k].value == k
    requires forall k :: k in tags1 && k != name ==> (tags1[k].inUse <==> k in used)
    requires used <= tags1.Keys
    ensures Layout(tags0, known0, tags, known, from, to, first, second) && GainedUsed(tags0, tags, from, to)
    ensures UsedNames(tags) == used + {name}
  {
    hide Names;
  }

  /** path_link inside link and rename. */
  method LinkBetween(fs: Store, from: seq<string>, n: string, to: seq<string>, first: seq<Tag>, second: seq<Tag>,
                     ghost tags0: map<string, Tag>, ghost known0: set<Tag>) returns (res: Attr)
    requires Between(fs, tags0, known0, from, to, first, second)
    modifies fs`files, fs`knownFiles, fs`useAfterFree, fs`locks, fs`rel, fs.known`files, fs.known`inUse, fs.knownFiles`tags
    ensures Between(fs, tags0, known0, from, to, first, second)
    ensures res == AttrOf(fs.onDisk, old(fs.rel), from, n)
    ensures fs.rel == if res == NoEntry then old(fs.rel) else old(fs.rel) + PairsOf(n, to)
    ensures UsedNames(fs.tags) == old(UsedNames(fs.tags)) + (if res == NoEntry then {} else SetOf(to))
    ensures forall u :: u in fs.known ==> (u.inUse <==> old(u.inUse) || (res != NoEntry && u in multiset(second)))
    ensures n in fs.files && fs.useAfterFree == old(fs.useAfterFree) && fs.locks == old(fs.locks)
    ensures old(fs.knownFiles) <= fs.knownFiles && fresh(fs.knownFiles - old(fs.knownFiles))
  {
    hide *;
    ghost var used := UsedNames(fs.tags);
    UsedMeans(fs.tags);
    GainedMeans(tags0, fs.tags, from, to, used);
    TwoShares(first, second);
    BetweenNow(fs, tags0, known0, from, to, first, second);
    LaidOut(tags0, known0, fs.tags, fs.known, from, to, first, second);
    FirstStillLive(fs, first, multiset(first) + multiset(second));
    res := PathLink(fs, first, n, second, multiset(first) + multiset(second));
    LinkedBetween(fs, tags0, known0, from, to, first, second, used, res != NoEntry);
  }

  lemma LinkedBetween(fs: Store, tags0: map<string, Tag>, known0: set<Tag>, from: seq<string>, to: seq<string>,
                      first: seq<Tag>, second: seq<Tag>, used: set<string>, linked: bool)
    requires fs.Indexed() && fs.Balanced(multiset(first) + multiset(second)) && fs.LiveInUse()
    requires fs.locks.walked == multiset{} && Layout(tags0, known0, fs.tags, fs.known, from, to, first, second)
    requires forall k :: k in fs.tags && k !in tags0 ==> k in used || k in from || k in to
    requires forall k :: k in fs.tags ==> (fs.tags[k].inUse <==> k in used || (linked && fs.tags[k] in multiset(second)))
    requires used <= fs.tags.Keys
    ensures Between(fs, tags0, known0, from, to, first, second)
    ensures UsedNames(fs.tags) == used + (if linked then SetOf(to) else {})
  {
    hide *;
    LaidOut(tags0, known0, fs.tags, fs.known, from, to, first, second);
    NamedEntries(fs, to, second);
    UsedGrows(fs.tags, used, multiset(second), to, linked);
    GainedNow(tags0, fs.tags, from, to, used);
    BetweenNow(fs, tags0, known0, from, to, first, second);
  }

  lemma UsedMeans(tags: map<string, Tag>)
    ensures forall k :: k in UsedNames(tags) <==> k in tags && tags[k].inUse
  {
  }

  lemma UsedGrows(tags: map<string, Tag>, used: set<string>, second: multiset<Tag>, to: seq<string>, linked: bool)
    requires forall k :: k in used ==> k in tags
    requires forall k :: k in tags ==> (tags[k].inUse <==> k in used || (linked && tags[k] in second))
    requires forall k :: k in tags ==> (tags[k] in second <==> k in to)
    requires forall k :: k in to ==> k in tags
    ensures UsedNames(tags) == used + (if linked then SetOf(to) else {})
  {
  }

  /** Of the tags in the table, a path holds those it names. */
  lemma NamedEntries(fs: Store, to: seq<string>, second: seq<Tag>)
    requires fs.Indexed() && Names(second) == to && forall i :: 0 <= i < |second| ==> InTable(second[i], fs.tags)
    ensures forall k :: k in fs.tags ==> (fs.tags[k] in multiset(second) <==> k in to)
    ensures forall k :: k in to ==> k in fs.tags
  {
    assert forall i :: 0 <= i < |second| ==> to[i] == second[i].value;
    TableFacts(fs);
    forall k | k in fs.tags && k in to ensures fs.tags[k] in multiset(second) {
      var i :| 0 <= i < |to| && to[i] == k;
      assert second[i] == fs.tags[k];
    }
  }

  /** Both path deletions: of the names on the paths, the tags in use remain. */
  method FinishBoth(fs: Store, from: seq<string>, to: seq<string>, first: seq<Tag>, second: seq<Tag>,
                    ghost tags0: map<string, Tag>, ghost known0: set<Tag>)
    requires Between(fs, tags0, known0, from, to, first, second)
    modifies fs`tags, fs`useAfterFree, fs`locks, fs.known`refCount, fs.known`freed
    ensures fs.Idle() && fs.useAfterFree == old(fs.useAfterFree) && fs.locks == old(fs.locks)
    ensures fs.tags == old(Swept(fs.tags, SetOf(from) + SetOf(to)))
    ensures UsedNames(fs.tags) == old(UsedNames(fs.tags)) && SameTags(tags0, known0, fs.tags)
    ensures forall k :: k in fs.tags && !fs.tags[k].inUse ==> k in tags0 && k !in from && k !in to
  {
    hide *;
    ghost var rest, used := Swept(fs.tags, SetOf(from) + SetOf(to)), UsedNames(fs.tags);
    BetweenNow(fs, tags0, known0, from, to, first, second);
    LaidOut(tags0, known0, fs.tags, fs.known, from, to, first, second);
    OnlySwept(fs.tags, first, second);
    SweptFacts(fs.tags, tags0, known0, from, to, used);
    DeleteBoth(fs, first, second, rest);
    UsedMeans(fs.tags);
    assert forall k :: k in UsedNames(fs.tags) <==> k in used;
  }

  /** The table after a sweep of a callback's names. */
  lemma SweptFacts(tags: map<string, Tag>, tags0: map<string, Tag>, known0: set<Tag>, from: seq<string>, to: seq<string>,
                   used: set<string>)
    requires SameTags(tags0, known0, tags) && GainedUsed(tags0, tags, from, to) && used == UsedNames(tags)
    ensures var rest := Swept(tags, SetOf(from) + SetOf(to));
            && SameTags(tags0, known0, rest)
            && (forall k :: k in used <==> k in rest && rest[k].inUse)
            && forall k :: k in rest && !rest[k].inUse ==> k in tags0 && k !in from && k !in to
  {
  }

  /** The body of link between path creation and path deletion. */
  method LinkBody(fs: Store, from: seq<string>, n: string, to: seq<string>, first: seq<Tag>, second: seq<Tag>,
                  ghost tags0: map<string, Tag>, ghost known0: set<Tag>) returns (res: Attr)
    requires Between(fs, tags0, known0, from, to, first, second)
    requires Current(fs.tags, fs.known, multiset(first) + multiset(second))
    modifies fs`tags, fs`known, fs`live, fs`leaked, fs`files, fs`knownFiles, fs`useAfterFree, fs`locks, fs`rel,
      fs.known`files, fs.known`inUse, fs.knownFiles`tags
    ensures Between(fs, tags0, known0, from, to, first, second)
    ensures res == AttrOf(fs.onDisk, old(fs.rel), from, n)
    ensures fs.rel == if res == NoEntry then old(fs.rel) else old(fs.rel) + PairsOf(n, to)
    ensures UsedNames(fs.tags) == old(UsedNames(fs.tags)) + (if |to| <= 1 then {ParentName(to)} else {})
                                  + (if res == NoEntry then {} else SetOf(to))
    ensures forall u :: u in old(fs.known) && u.inUse ==> old(u.inUse) || InTable(u, fs.tags)
    ensures forall u :: u in old(fs.known) ==> fs.live[u] == old(fs.live[u]) || (u.inUse && !old(u.inUse))
    ensures fs.useAfterFree == old(fs.useAfterFree) && fs.locks == old(fs.locks)
    ensures fs.live - fs.leaked == old(fs.live) - old(fs.leaked)
    ensures old(fs.known) <= fs.known && fresh(fs.known - old(fs.known))
    ensures old(fs.knownFiles) <= fs.knownFiles && fresh(fs.knownFiles - old(fs.knownFiles))
  {
    hide *;
    ParentWhileLinking(fs, from, to, first, second, tags0, known0);
    assert old(fs.known) <= fs.known;
    res := LinkBetween(fs, from, n, to, first, second, tags0, known0);
    SecondInTable(fs, tags0, known0, from, to, first, second);
  }

  lemma SecondInTable(fs: Store, tags0: map<string, Tag>, known0: set<Tag>, from: seq<string>, to: seq<string>,
                      first: seq<Tag>, second: seq<Tag>)
    requires Between(fs, tags0, known0, from, to, first, second)
    ensures forall u :: u in multiset(second) ==> InTable(u, fs.tags)
  {
    LaidOut(tags0, known0, fs.tags, fs.known, from, to, first, second);
  }

  /** A sweep leaves the tags in use where they are. */
  lemma StaysSwept(tags: map<string, Tag>, names: set<string>, known0: set<Tag>)
    ensures forall u :: u in known0 && u.inUse && InTable(u, tags) ==> InTable(u, Swept(tags, names))
  {
  }

  /** link from the created paths on. */
  method LinkBegun(fs: Store, from: seq<string>, n: string, to: seq<string>, first: seq<Tag>, second: seq<Tag>,
                   ghost tags0: map<string, Tag>, ghost known0: set<Tag>) returns (res: Status)
    requires Between(fs, tags0, known0, from, to, first, second)
    requires Current(fs.tags, fs.known, multiset(first) + multiset(second))
    modifies fs`tags, fs`known, fs`live, fs`leaked, fs`files, fs`knownFiles, fs`useAfterFree, fs`locks, fs`rel,
      fs.known, fs.knownFiles`tags
    ensures fs.Idle() && fs.useAfterFree == old(fs.useAfterFree) && fs.locks == old(fs.locks)
    ensures fs.live - fs.leaked == old(fs.live) - old(fs.leaked)
    ensures res == if AttrOf(fs.onDisk, old(fs.rel), from, n) == NoEntry then ENOENT else Ok
    ensures fs.rel == if res == Ok then old(fs.rel) + PairsOf(n, to) else old(fs.rel)
    ensures UsedNames(fs.tags) == old(UsedNames(fs.tags)) + (if |to| <= 1 then {ParentName(to)} else {})
                                  + (if res == Ok then SetOf(to) else {})
    ensures SameTags(tags0, known0, fs.tags)
    ensures forall u :: u in old(fs.known) && u.inUse ==> old(u.inUse) || InTable(u, fs.tags)
    ensures forall u :: u in old(fs.known) ==> fs.live[u] == old(fs.live[u]) || (u.inUse && !old(u.inUse))
    ensures forall k :: k in fs.tags && !fs.tags[k].inUse ==> k in tags0 && k !in from && k !in to
    ensures old(fs.known) <= fs.known && fresh(fs.known - old(fs.known))
    ensures old(fs.knownFiles) <= fs.knownFiles && fresh(fs.knownFiles - old(fs.knownFiles))
  {
    hide *;
    ghost var known1 := fs.known;
    var attr := LinkBody(fs, from, n, to, first, second, tags0, known0);
    StaysSwept(fs.tags, SetOf(from) + SetOf(to), known1);
    FinishBoth(fs, from, to, first, second, tags0, known0);
    res := if attr == NoEntry then ENOENT else Ok;
  }

  /** link. When the old path stands for a file, the file gains the tags of the new path. The tags in
      use afterwards are those before, the tags gained, and the parent that tag_mkdir made even if the
      link then failed. */
  method Link(fs: Store, from: seq<string>, n: string, to: seq<string>) returns (res: Status)
    requires fs.Idle()
    modifies fs, fs.known, fs.knownFiles`tags
    ensures fs.Idle() && fs.useAfterFree == old(fs.useAfterFree) && fs.locks == old(fs.locks)
    ensures fs.onDisk == old(fs.onDisk) && fs.live - fs.leaked == old(fs.live) - old(fs.leaked)
    ensures res == if AttrOf(fs.onDisk, old(fs.rel), from, n) == NoEntry then ENOENT else Ok
    ensures fs.rel == if res == Ok then old(fs.rel) + PairsOf(n, to) else old(fs.rel)
    ensures UsedNames(fs.tags) == old(UsedNames(fs.tags)) + (if |to| <= 1 then {ParentName(to)} else {})
                                  + (if res == Ok then SetOf(to) else {})
    ensures SameTags(old(fs.tags), old(fs.known), fs.tags)
    ensures forall u :: u in old(fs.known) && u.inUse ==> old(u.inUse) || InTable(u, fs.tags)
    ensures forall u :: u in old(fs.known) ==> fs.live[u] == old(fs.live[u]) || (u.inUse && !old(u.inUse))
    ensures forall k :: k in fs.tags && !fs.tags[k].inUse ==> k in old(fs.tags) && k !in from && k !in to
    ensures old(fs.known) <= fs.known && fresh(fs.known - old(fs.known))
    ensures old(fs.knownFiles) <= fs.knownFiles && fresh(fs.knownFiles - old(fs.knownFiles))
  {
    hide *;
    ghost var tags0, known0 := fs.tags, fs.known;
    var first, second := BeginBoth(fs, from, to);
    assert known0 <= fs.known;
    res := LinkBegun(fs, from, n, to, first, second, tags0, known0);
  }
}
