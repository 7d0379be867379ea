/** What the replies of the machine mean over whole runs. */
module TagRuns {
  import opened Tags
  import opened TagFs
  import opened TagHandles
  import opened TagLink
  import opened TagMachine
  import opened TagNames
  import opened TagReaddir

  // ----- runs -----------------------------------------------------------------------------------------

  /** Every request is answered, in order, by the machine as the requests before it have left it. */
  lemma {:induction false} RepliesInOrder(v: View, requests: seq<Request>)
    ensures |RunReplies(v, requests)| == |requests|
    ensures forall k :: 0 <= k < |requests| ==>
              RunReplies(v, requests)[k] == Answer(RunView(v, requests[..k]), requests[k])
  {
    hide Answer, RunView;
    if requests != [] {
      var last := |requests| - 1;
      var init := requests[..last];
      RepliesInOrder(v, init);
      forall k | 0 <= k < |requests|
        ensures RunReplies(v, requests)[k] == Answer(RunView(v, requests[..k]), requests[k])
      {
        if k < last {
          assert init[..k] == requests[..k];
        }
      }
    }
  }

  /** A run is its first part and then the rest. */
  lemma {:induction false} RunsCompose(v: View, a: seq<Request>, b: seq<Request>)
    ensures RunView(v, a + b) == RunView(RunView(v, a), b)
    ensures RunReplies(v, a + b) == RunReplies(v, a) + RunReplies(RunView(v, a), b)
  {
    hide After, Answer;
    if b == [] {
      assert a + b == a;
    } else {
      var init := b[..|b| - 1];
      RunsCompose(v, a, init);
      assert (a + b)[..|a + b| - 1] == a + init && (a + b)[|a + b| - 1] == b[|b| - 1];
    }
  }

  /** A run of one request is that step. */
  lemma OneStep(v: View, r: Request)
    ensures RunView(v, [r]) == After(v, r) && RunReplies(v, [r]) == [Answer(v, r)]
  {
    assert [r][..0] == [];
  }

  /** What is refused changes nothing. */
  lemma RefusedChangesNothing(v: View, r: Request)
    requires Answer(v, r) == Refused
    ensures After(v, r) == Refreshed(v)
  {
  }

  // ----- looking up -----------------------------------------------------------------------------------

  /** getattr finds a file below a path exactly when it has every component as a tag, and a directory for
      every name that is no file; the tag attribute can be read exactly of what it finds to be a file. */
  lemma LookupAnswers(v: View, dir: seq<string>, n: string)
    ensures Answer(v, GetattrOf(dir, n)) == Looked(Directory) <==> n !in v.onDisk
    ensures Answer(v, GetattrOf(dir, n)) == Looked(Regular) <==> n in v.onDisk && forall c :: c in dir ==> (n, c) in v.rel
    ensures Answer(v, GetattrOf(dir, n)) == Looked(Directory) <==> Answer(v, GetxattrOf(dir, n)) == Done(EISDIR)
    ensures Answer(v, GetattrOf(dir, n)) == Looked(Regular) <==> Answer(v, GetxattrOf(dir, n)).Named?
    ensures Answer(v, GetattrOf(dir, n)) == Looked(NoEntry) <==> Answer(v, GetxattrOf(dir, n)) == Done(ENOENT)
  {
    CarriesSet(v.rel, n, dir, SetOf(dir));
  }

  /** What is refused: calls on files that a lookup does not find, calls on descriptors that are not open or of
      the wrong kind, and the two calls that would break the invariants. */
  lemma RefusedExactly(v: View, r: Request)
    ensures Answer(v, r) == Refused
            <==> match r
                 case UnlinkOf(dir, n) => Answer(v, GetattrOf(dir, n)) != Looked(Regular)
                 case OpenRegular(dir, n, opened_) => Answer(v, GetattrOf(dir, n)) != Looked(Regular)
                 case RenameTo(dir, n, to) =>
                   || Answer(v, GetattrOf(dir, n)) == Looked(NoEntry)
                   || (|dir| == |to| == 1 && dir[0] !in v.names && (n in v.onDisk || dir != to))
                 case OpenDirectory(dir) =>
                   dir != [] && dir[|dir| - 1] in v.names && exists i :: 0 <= i < |dir| && dir[i] !in v.names
                 case ReadDirectory(i, entries) => i >= |v.handles| || !v.handles[i].isDirectory
                 case ReadTagFile(i) => i >= |v.handles| || v.handles[i].isDirectory || v.handles[i].name != ".tags"
                 case FgetattrOf(i) => i >= |v.handles|
                 case IoctlOf(i) => i >= |v.handles|
                 case Close(i) => i >= |v.handles|
                 case _ => false
  {
    if r.RenameTo? && |r.dir| == |r.to| == 1 {
      assert r.dir == [r.dir[0]] && r.to == [r.to[0]];
    }
  }

  // ----- opening --------------------------------------------------------------------------------------

  /** The root can always be opened; below it opendir finds no entry exactly when the last component is not the
      name of a tag in use. */
  lemma OpensExactly(v: View, dir: seq<string>, c: string)
    ensures Answer(v, OpenDirectory([])) == Done(Ok)
    ensures Answer(v, OpenDirectory(dir + [c])) == Done(ENOENT) <==> c !in v.names
    ensures Answer(v, OpenDirectory(dir + [c])) == Done(Ok)
            <==> c in v.names && forall i :: 0 <= i < |dir| ==> dir[i] in v.names
  {
    var path := dir + [c];
    assert path[|path| - 1] == c;
    if AllUsed(path, v.names) {
      forall i | 0 <= i < |dir| ensures dir[i] in v.names {
        assert path[i] == dir[i];
      }
    }
  }

  /** No request of a run closes descriptor `i` or one before it. */
  ghost predicate KeepsOpen(requests: seq<Request>, i: nat) {
    forall r :: r in requests && r.Close? ==> r.handle > i
  }

  /** Descriptor `i` after a run: its path stays, and of its names those stay current that have been in use
      all along. */
  ghost function StillCurrent(v: View, requests: seq<Request>, names: set<string>): set<string> {
    set c | c in names && forall k :: 0 <= k <= |requests| ==> c in RunView(v, requests[..k]).names
  }

  lemma StepKeepsHandle(v: View, r: Request, i: nat)
    requires i < |v.handles| && (r.Close? ==> r.handle > i)
    ensures i < |After(v, r).handles|
    ensures After(v, r).handles[i] == v.handles[i].(current := v.handles[i].current * After(v, r).names)
  {
  }

  lemma {:induction false} HandleAfterRun(v: View, requests: seq<Request>, i: nat)
    requires i < |v.handles| && KeepsOpen(requests, i) && v.handles[i].current <= v.names
    ensures var w := RunView(v, requests);
            && i < |w.handles|
            && w.handles[i] == v.handles[i].(current := StillCurrent(v, requests, v.handles[i].current))
  {
    hide After;
    if requests == [] {
      assert StillCurrent(v, requests, v.handles[i].current) == v.handles[i].current;
    } else {
      var last := |requests| - 1;
      var init := requests[..last];
      HandleAfterRun(v, init, i);
      assert requests[last] in requests;
      StepKeepsHandle(RunView(v, init), requests[last], i);
      StillCurrentStep(v, requests, v.handles[i].current);
    }
  }

  lemma StillCurrentStep(v: View, requests: seq<Request>, names: set<string>)
    requires requests != []
    ensures StillCurrent(v, requests, names)
            == StillCurrent(v, requests[..|requests| - 1], names) * RunView(v, requests).names
  {
    hide RunView;
    var init := requests[..|requests| - 1];
    assert requests[..|requests|] == requests;
    assert forall k :: 0 <= k <= |init| ==> init[..k] == requests[..k];
    forall c | c in StillCurrent(v, init, names) && c in RunView(v, requests).names
      ensures c in StillCurrent(v, requests, names)
    {
      forall k | 0 <= k <= |requests| ensures c in RunView(v, requests[..k]).names {
        if k < |requests| {
          assert c in RunView(v, init[..k]).names;
        }
      }
    }
    forall c | c in StillCurrent(v, requests, names) ensures c in StillCurrent(v, init, names) {
      forall k | 0 <= k <= |init| ensures c in RunView(v, init[..k]).names {
        assert c in RunView(v, requests[..k]).names;
      }
    }
  }

  /** What a directory lists however long it has been open. The root lists the tags then in use. Below it the
      tags are those that the path's files also have as long as one tag of the path has been in use all
      the time, and none otherwise; the files are always those that getattr finds below the path. */
  lemma ListsAfterRun(v: View, dir: seq<string>, requests: seq<Request>, entries: seq<string>)
    requires Answer(v, OpenDirectory(dir)) == Done(Ok) && KeepsOpen(requests, |v.handles|)
    ensures var opened_ := After(v, OpenDirectory(dir));
            var w := RunView(opened_, requests);
            var shown := if dir == [] then w.names
                         else if exists c :: c in dir && forall k :: 0 <= k <= |requests| ==>
                                               c in RunView(opened_, requests[..k]).names
                         then Remaining(w.rel, SetOf(dir)) else {};
            Answer(w, ReadDirectory(|v.handles|, entries)) == Listing(shown, Visible(entries, w.onDisk, w.rel, dir))
  {
    hide *;
    var opened_, i := After(v, OpenDirectory(dir)), |v.handles|;
    NewDirectory(v, dir);
    HandleAfterRun(opened_, requests, i);
    CurrentMeans(opened_, requests, dir);
    ListsHandle(RunView(opened_, requests), i, ParentName(dir), dir, StillCurrent(opened_, requests, SetOf(dir)), entries);
  }

  lemma CurrentMeans(v: View, requests: seq<Request>, dir: seq<string>)
    ensures StillCurrent(v, requests, SetOf(dir)) != {}
            <==> exists c :: c in dir && forall k :: 0 <= k <= |requests| ==> c in RunView(v, requests[..k]).names
  {
    hide RunView;
    var current := StillCurrent(v, requests, SetOf(dir));
    if c :| c in dir && forall k :: 0 <= k <= |requests| ==> c in RunView(v, requests[..k]).names {
      assert c in current;
    }
    if current != {} {
      var c :| c in current;
      assert c in dir;
    }
  }

  lemma ListsHandle(v: View, i: nat, name: string, dir: seq<string>, current: set<string>, entries: seq<string>)
    requires i < |v.handles| && v.handles[i] == Opened(true, name, dir, current)
    ensures Answer(v, ReadDirectory(i, entries))
            == Listing(if dir == [] then v.names else if current != {} then Remaining(v.rel, SetOf(dir)) else {},
                       Visible(entries, v.onDisk, v.rel, dir))
  {
    hide Remaining, Visible;
  }

  lemma NewDirectory(v: View, dir: seq<string>)
    requires Answer(v, OpenDirectory(dir)) == Done(Ok)
    ensures var w, i := After(v, OpenDirectory(dir)), |v.handles|;
            |w.handles| == i + 1 && w.handles[i] == Opened(true, ParentName(dir), dir, SetOf(dir)) && SetOf(dir) <= w.names
  {
    assert SetOf(dir) * v.names == SetOf(dir);
  }

  /** The descriptor of a file, however long it has been open: fgetattr answers as getattr would for the path,
      and the ioctl names the file's tags, as reading its attribute would. The tag file has no tags to
      name that way, and gives all of them when it is read. */
  lemma FileAfterRun(v: View, dir: seq<string>, n: string, requests: seq<Request>)
    requires Answer(v, OpenRegular(dir, n, true)) == Done(Ok) && KeepsOpen(requests, |v.handles|)
    ensures var w, i := RunView(After(v, OpenRegular(dir, n, true)), requests), |v.handles|;
            && Answer(w, FgetattrOf(i)) == Answer(w, GetattrOf(dir, n))
            && Answer(w, IoctlOf(i)) == (if n == ".tags" then Done(EINVAL) else Named(TagsOn(w.rel, n)))
            && (AttrOf(w.onDisk, w.rel, dir, n) == Regular ==> Answer(w, GetxattrOf(dir, n)) == Named(TagsOn(w.rel, n)))
            && (forall c :: c in TagsOn(w.rel, n) <==> (n, c) in w.rel)
            && Answer(w, ReadTagFile(i)) == (if n == ".tags" then Dumped(w.rel) else Refused)
  {
    hide RunView, TagsOn;
    var opened_ := After(v, OpenRegular(dir, n, true));
    NewFile(v, dir, n);
    HandleAfterRun(opened_, requests, |v.handles|);
    var w := RunView(opened_, requests);
    forall c ensures c in TagsOn(w.rel, n) <==> (n, c) in w.rel {
      OnFile(w.rel, n, c);
    }
  }

  lemma NewFile(v: View, dir: seq<string>, n: string)
    requires Answer(v, OpenRegular(dir, n, true)) == Done(Ok)
    ensures var w, i := After(v, OpenRegular(dir, n, true)), |v.handles|;
            && |w.handles| == i + 1 && w.handles[i].current <= w.names
            && w.handles[i] == Opened(false, n, dir, w.handles[i].current)
  {
  }

  /** The same for a directory, which has the last component for a name. */
  lemma DirectoryAfterRun(v: View, dir: seq<string>, requests: seq<Request>)
    requires Answer(v, OpenDirectory(dir)) == Done(Ok) && KeepsOpen(requests, |v.handles|)
    ensures var w, i := RunView(After(v, OpenDirectory(dir)), requests), |v.handles|;
            && Answer(w, FgetattrOf(i)) == Answer(w, GetattrOf(dir, if dir == [] then "/" else dir[|dir| - 1]))
            && Answer(w, IoctlOf(i)) == Done(EINVAL)
  {
    hide RunView, After;
    NewDirectory(v, dir);
    HandleAfterRun(After(v, OpenDirectory(dir)), requests, |v.handles|);
  }

  // ----- closing --------------------------------------------------------------------------------------

  /** Closing takes one descriptor away; those behind it move up. */
  lemma CloseTakesOne(v: View, i: nat)
    requires i < |v.handles|
    ensures Answer(v, Close(i)) == Done(if v.handles[i].isDirectory then CloseError else Ok)
    ensures var w := After(v, Close(i));
            && w.rel == v.rel && w.names == v.names && w.onDisk == v.onDisk && |w.handles| == |v.handles| - 1
            && forall j :: 0 <= j < |v.handles| && j != i ==>
                 w.handles[if j < i then j else j - 1] == Refreshed(v).handles[j]
  {
  }

  /** Closing what was just opened restores the state, whether it was a directory or a file. */
  lemma CloseUndoesOpen(v: View, r: Request)
    requires (r.OpenDirectory? || r.OpenRegular?) && Answer(v, r) == Done(Ok)
    ensures After(After(v, r), Close(|v.handles|)) == Refreshed(v)
  {
  }

  // ----- links ----------------------------------------------------------------------------------------

  /** link gives the file every component of the target as a tag, and puts them and the target's parent to
      use; when it finds no source, only the parent, which the root has too, under the name "/". */
  lemma LinkAdds(v: View, dir: seq<string>, n: string, to: seq<string>)
    ensures var w, found := After(v, LinkTo(dir, n, to)), AttrOf(v.onDisk, v.rel, dir, n) != NoEntry;
            && Answer(v, LinkTo(dir, n, to)) == Done(if found then Ok else ENOENT)
            && (forall m, c :: (m, c) in w.rel <==> (m, c) in v.rel || (found && m == n && c in to))
            && (forall c :: c in w.names <==> c in v.names || (found && c in to) || (to == [] && c == "/") || to == [c])
  {
    forall m, c ensures (m, c) in PairsOf(n, to) <==> m == n && c in to {
      PairIn(n, to, (m, c));
    }
  }

  /** unlink takes the components of the path from a file that has them all, and out of use those that no
      file has any more. */
  lemma UnlinkTakes(v: View, dir: seq<string>, n: string)
    requires AttrOf(v.onDisk, v.rel, dir, n) == Regular
    ensures var w := After(v, UnlinkOf(dir, n));
            && Answer(v, UnlinkOf(dir, n)) == Done(if dir == [] then EPERM else Ok)
            && (forall m, c :: (m, c) in w.rel <==> (m, c) in v.rel && !(m == n && c in dir))
            && (forall c :: c in w.names <==> c in v.names && !(c in dir && forall m :: (m, c) !in w.rel))
  {
    var w := After(v, UnlinkOf(dir, n));
    forall m, c ensures (m, c) in PairsOf(n, dir) <==> m == n && c in dir {
      PairIn(n, dir, (m, c));
    }
    BareNamesOf(dir, w.rel);
    forall c ensures Bare(c, w.rel) <==> forall m :: (m, c) !in w.rel {
      BareIs(c, w.rel);
    }
  }

  lemma BareIs(c: string, rel: Relation)
    ensures Bare(c, rel) <==> forall m :: (m, c) !in rel
  {
    if !Bare(c, rel) {
      var p :| p in rel && p.1 == c;
      assert (p.0, c) in rel;
    }
    forall m | (m, c) in rel ensures !Bare(c, rel) {
      assert (m, c).1 == c;
    }
  }

  /** rename between tags takes the old one and gives the new one, unless they are the same; the old one goes
      out of use when no file has it any more. */
  lemma RenameMovesTag(v: View, a: string, n: string, b: string)
    requires Answer(v, RenameTo([a], n, [b])) == Done(Ok)
    ensures var w := After(v, RenameTo([a], n, [b]));
            && (forall m, c :: (m, c) in w.rel <==> !(m == n && c == a) && ((m, c) in v.rel || (m == n && c == b)))
            && (forall c :: c in w.names <==> (c in v.names || c == b) && !(c == a && forall m :: (m, a) !in w.rel))
  {
    var w := After(v, RenameTo([a], n, [b]));
    assert [a][0] == a && [b][0] == b;
    BareIs(a, w.rel);
  }
}
