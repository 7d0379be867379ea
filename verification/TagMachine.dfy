/** The file system as a machine whose only state is which file has which tag, which tags are in use, and
    what each open descriptor stands for; and what holds over its runs. */
module TagMachine {
  import opened Tags
  import opened TagFs
  import opened TagHandles
  import opened TagLink
  import opened TagNames
  import opened TagReaddir
  import opened TagRename

  const TAG_FILENAME := ".tags"

  /** `opened_` is what opening the real file will give. */
  datatype Request =
    | GetattrOf(dir: seq<string>, n: string)
    | LinkTo(dir: seq<string>, n: string, to: seq<string>)
    | UnlinkOf(dir: seq<string>, n: string)
    | RenameTo(dir: seq<string>, n: string, to: seq<string>)
    | OpenDirectory(dir: seq<string>)
    | OpenRegular(dir: seq<string>, n: string, opened_: bool)
    | ReadDirectory(handle: nat, entries: seq<string>)
    | FgetattrOf(handle: nat)
    | GetxattrOf(dir: seq<string>, n: string)
    | IoctlOf(handle: nat)
    | ReadTagFile(handle: nat)
    | Close(handle: nat)
    | DiskChange(onDisk: set<string>)

  /** Text that lists tags, or the whole database, is answered by the tags, or the relation, that it lists. */
  datatype Reply =
    | Looked(attr: Attr)
    | Done(status: Status)
    | Listing(tags: set<string>, files: seq<string>)
    | Named(tags: set<string>)
    | Dumped(rel: Relation)
    | Refused

  /** An open descriptor by names: its file name, the names of its path's tags, and those of them that still
      stand for its own tags. */
  datatype Opened = Opened(isDirectory: bool, name: string, names: seq<string>, current: set<string>)

  /** What matters of the state between callbacks. */
  datatype View = View(rel: Relation, names: set<string>, onDisk: set<string>, handles: seq<Opened>)

  /** A name that is no longer in use no longer stands for a descriptor's own tag, ever. */
  ghost function Refreshed(v: View): View {
    v.(handles := seq(|v.handles|, i requires 0 <= i < |v.handles| =>
                        v.handles[i].(current := v.handles[i].current * v.names)))
  }

  ghost function After(v: View, r: Request): View {
    Refreshed(Changed(v, r))
  }

  ghost function Changed(v: View, r: Request): View {
    match r
    case LinkTo(dir, n, to) =>
      var parent := if |to| <= 1 then {ParentName(to)} else {};
      if AttrOf(v.onDisk, v.rel, dir, n) == NoEntry then v.(names := v.names + parent)
      else v.(rel := v.rel + PairsOf(n, to), names := v.names + parent + SetOf(to))
    case UnlinkOf(dir, n) =>
      if dir == [] || AttrOf(v.onDisk, v.rel, dir, n) != Regular then v
      else
        var rel := v.rel - PairsOf(n, dir);
        v.(rel := rel, names := v.names - BareNames(dir, rel))
    case RenameTo(dir, n, to) =>
      if Answer(v, r) != Done(Ok) then v
      else
        var rel := v.rel + {(n, to[0])} - {(n, dir[0])};
        v.(rel := rel, names := v.names + {to[0]} - (if Bare(dir[0], rel) then {dir[0]} else {}))
    case OpenDirectory(dir) =>
      if Answer(v, r) != Done(Ok) then v else v.(handles := v.handles + [Opened(true, ParentName(dir), dir, SetOf(dir))])
    case OpenRegular(dir, n, opened_) =>
      if Answer(v, r) != Done(Ok) then v else v.(handles := v.handles + [Opened(false, n, dir, SetOf(dir))])
    case Close(i) => if i < |v.handles| then v.(handles := v.handles[..i] + v.handles[i + 1..]) else v
    case DiskChange(onDisk) => v.(onDisk := onDisk)
    case _ => v
  }

  /** What is answered. Refused are the calls that the kernel does not make after the lookup that comes
      first, and the two that break the invariants: a rename that is doomed, and opendir of a
      directory whose last tag is in use when another tag of its path is not. */
  ghost function Answer(v: View, r: Request): (reply: Reply)
    ensures r.RenameTo? && reply == Done(Ok) ==> |r.dir| == 1 && |r.to| == 1
  {
    match r
    case GetattrOf(dir, n) => Looked(AttrOf(v.onDisk, v.rel, dir, n))
    case LinkTo(dir, n, to) => Done(if AttrOf(v.onDisk, v.rel, dir, n) == NoEntry then ENOENT else Ok)
    case UnlinkOf(dir, n) =>
      if AttrOf(v.onDisk, v.rel, dir, n) != Regular then Refused else Done(if dir == [] then EPERM else Ok)
    case RenameTo(dir, n, to) =>
      if AttrOf(v.onDisk, v.rel, dir, n) == NoEntry then Refused
      else if |dir| != 1 || |to| != 1 then Done(EPERM)
      else if Doomed(v.names, v.onDisk, dir[0], n, to[0]) then Refused
      else Done(Ok)
    case OpenDirectory(dir) =>
      if !Opens(dir, v.names) then Done(ENOENT) else if AllUsed(dir, v.names) then Done(Ok) else Refused
    case OpenRegular(dir, n, opened_) =>
      if AttrOf(v.onDisk, v.rel, dir, n) != Regular then Refused else Done(if opened_ then Ok else OpenError)
    case ReadDirectory(i, entries) =>
      if i >= |v.handles| || !v.handles[i].isDirectory then Refused
      else
        var h := v.handles[i];
        Listing(TagsShown(v.names, v.rel, h.names, h.current), Visible(entries, v.onDisk, v.rel, h.names))
    case FgetattrOf(i) =>
      if i >= |v.handles| then Refused
      else Looked(AttrOf(v.onDisk, v.rel, v.handles[i].names, v.handles[i].name))
    case GetxattrOf(dir, n) =>
      (match AttrOf(v.onDisk, v.rel, dir, n)
       case NoEntry => Done(ENOENT)
       case Directory => Done(EISDIR)
       case Regular => Named(TagsOn(v.rel, n)))
    case IoctlOf(i) =>
      if i >= |v.handles| then Refused
      else if v.handles[i].isDirectory || v.handles[i].name == TAG_FILENAME then Done(EINVAL)
      else Named(TagsOn(v.rel, v.handles[i].name))
    case ReadTagFile(i) =>
      if i >= |v.handles| || v.handles[i].isDirectory || v.handles[i].name != TAG_FILENAME then Refused else Dumped(v.rel)
    case Close(i) =>
      if i >= |v.handles| then Refused else Done(if v.handles[i].isDirectory then CloseError else Ok)
    case DiskChange(onDisk) => Done(Ok)
  }

  ghost function RunView(v: View, requests: seq<Request>): View {
    if requests == [] then v
    else After(RunView(v, requests[..|requests| - 1]), requests[|requests| - 1])
  }

  ghost function RunReplies(v: View, requests: seq<Request>): seq<Reply> {
    if requests == [] then []
    else
      var init := requests[..|requests| - 1];
      RunReplies(v, init) + [Answer(RunView(v, init), requests[|requests| - 1])]
  }

  // ----- the machine ----------------------------------------------------------------------------------

  /** Every tag of a file is a tag. */
  ghost predicate Tagged(v: View) {
    forall p :: p in v.rel ==> p.1 in v.names
  }

  /** Every tag that went is on no file. */
  ghost predicate LosesOnlyBare(v: View, v': View) {
    forall k :: k in v.names && k !in v'.names ==> Bare(k, v'.rel)
  }

  lemma AfterKeepsTagged(v: View, r: Request)
    requires Tagged(v)
    ensures Tagged(After(v, r)) && LosesOnlyBare(v, After(v, r))
  {
    if r.UnlinkOf? {
      var v' := After(v, r);
      forall p | p in v'.rel && v'.rel != v.rel ensures p.1 in v'.names {
        assert p.1 in BareNames(r.dir, v'.rel) ==> Bare(p.1, v'.rel);
      }
    }
  }

  /** Over a run every file keeps to tags that are in use, and at every step of it a tag goes only when
      no file has it any more. */
  lemma {:induction false} RunTagged(v: View, requests: seq<Request>)
    requires Tagged(v)
    ensures Tagged(RunView(v, requests))
    ensures forall k :: 0 <= k < |requests| ==> LosesOnlyBare(RunView(v, requests[..k]), RunView(v, requests[..k + 1]))
  {
    if requests != [] {
      var last := |requests| - 1;
      var init := requests[..last];
      RunTagged(v, init);
      AfterKeepsTagged(RunView(v, init), requests[last]);
      forall k | 0 <= k < |requests|
        ensures LosesOnlyBare(RunView(v, requests[..k]), RunView(v, requests[..k + 1]))
      {
        if k < last {
          assert init[..k] == requests[..k] && init[..k + 1] == requests[..k + 1];
        } else {
          assert requests[..k + 1] == requests;
        }
      }
    }
  }

  /** Just after opendir below some tags, the directory shows the tags that the path's files also have,
      and the path's files. */
  lemma OpenedShows(v: View, dir: seq<string>, entries: seq<string>)
    requires dir != [] && AllUsed(dir, v.names)
    ensures var v' := After(v, OpenDirectory(dir));
            Answer(v', ReadDirectory(|v.handles|, entries))
            == Listing(Remaining(v.rel, SetOf(dir)), Visible(entries, v.onDisk, v.rel, dir))
  {
    assert dir[0] in SetOf(dir) * v.names;
  }

  lemma StepKeepsGone(v: View, i: nat, r: Request)
    requires i < |v.handles| && v.handles[i].current == {} && !r.Close?
    ensures i < |After(v, r).handles| && After(v, r).handles[i] == v.handles[i]
  {
  }

  lemma ShowsNothing(v: View, i: nat, entries: seq<string>)
    requires i < |v.handles| && v.handles[i].isDirectory && v.handles[i].names != [] && v.handles[i].current == {}
    ensures Answer(v, ReadDirectory(i, entries)) == Listing({}, Visible(entries, v.onDisk, v.rel, v.handles[i].names))
  {
  }

  /** Once no tag of an open directory is the table's any more, the directory shows no tag however the run
      goes on, even when tags of the same names come into use again. */
  lemma {:induction false} StaysGone(v: View, i: nat, requests: seq<Request>, entries: seq<string>)
    requires i < |v.handles| && v.handles[i].isDirectory && v.handles[i].names != [] && v.handles[i].current == {}
    requires forall r :: r in requests ==> !r.Close?
    ensures var v' := RunView(v, requests);
            && i < |v'.handles| && v'.handles[i] == v.handles[i]
            && Answer(v', ReadDirectory(i, entries))
               == Listing({}, Visible(entries, v'.onDisk, v'.rel, v.handles[i].names))
  {
    hide TagsShown, Remaining, Visible;
    if requests != [] {
      var last := |requests| - 1;
      StaysGone(v, i, requests[..last], entries);
      assert requests[last] in requests;
      StepKeepsGone(RunView(v, requests[..last]), i, requests[last]);
    }
    ShowsNothing(RunView(v, requests), i, entries);
  }

  lemma PairIn(n: string, names: seq<string>, p: (string, string))
    ensures p in PairsOf(n, names) <==> p.0 == n && p.1 in names
  {
    if p.0 == n && p.1 in names {
      var i :| 0 <= i < |names| && names[i] == p.1;
      assert p == (n, names[i]);
    }
  }

  /** Unlinking what was just linked takes back all of it: the file's tags are as before, and of the new
      path's names those remain that some file had before. */
  lemma UnlinkUndoesLink(v: View, dir: seq<string>, n: string, to: seq<string>)
    requires Tagged(v) && to != [] && n in v.onDisk && AttrOf(v.onDisk, v.rel, dir, n) == Regular
    requires forall c :: c in to ==> (n, c) !in v.rel
    ensures var v' := After(After(v, LinkTo(dir, n, to)), UnlinkOf(to, n));
            && v'.rel == v.rel && v'.onDisk == v.onDisk
            && v'.names == v.names - (set c | c in to && Bare(c, v.rel))
  {
    var linked := After(v, LinkTo(dir, n, to));
    forall p ensures p in v.rel <==> p in linked.rel - PairsOf(n, to) {
      PairIn(n, to, p);
    }
    assert linked.rel - PairsOf(n, to) == v.rel;
    assert Carries(linked.rel, n, to) by {
      forall i | 0 <= i < |to| ensures (n, to[i]) in linked.rel {
        PairIn(n, to, (n, to[i]));
      }
    }
    BareNamesOf(to, v.rel);
    forall c | c in to && !Bare(c, v.rel) ensures c in v.names {
      var p :| p in v.rel && p.1 == c;
    }
    assert |to| == 1 ==> ParentName(to) in to;
  }

  lemma BareNamesOf(names: seq<string>, rel: Relation)
    ensures BareNames(names, rel) == set c | c in names && Bare(c, rel)
  {
    forall c | c in names && Bare(c, rel) ensures c in BareNames(names, rel) {
      var i :| 0 <= i < |names| && names[i] == c;
    }
  }

  /** Renaming to another tag moves the file. */
  lemma RenameMoves(v: View, a: string, n: string, b: string)
    requires Tagged(v) && a != b && AttrOf(v.onDisk, v.rel, [a], n) == Regular
    ensures var v' := After(v, RenameTo([a], n, [b]));
            && (forall m, c :: (m, c) in v'.rel <==> if m == n && c in {a, b} then c == b else (m, c) in v.rel)
            && AttrOf(v'.onDisk, v'.rel, [b], n) == Regular && AttrOf(v'.onDisk, v'.rel, [a], n) == NoEntry
            && (a in v'.names <==> exists m :: m != n && (m, a) in v.rel)
  {
    var v' := After(v, RenameTo([a], n, [b]));
    assert [a][0] == a && [b][0] == b;
    if m :| m != n && (m, a) in v.rel {
      assert (m, a) in v'.rel && (m, a).1 == a;
      assert (m, a).1 in v.names;
    } else {
      forall p | p in v'.rel ensures p.1 != a {
        assert p == (p.0, p.1);
      }
    }
  }
}
