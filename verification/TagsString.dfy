/** file_get_tags_string of fuse/file.c: a file's tags as one string. */
module TagsString {
  import opened Wrappers
  import opened Strings

  lemma {:induction false} JoinAppend(pieces: seq<string>, x: string, delim: string)
    ensures Join(pieces + [x], delim) == if pieces == [] then x else Join(pieces, delim) + delim + x
  {
    if |pieces| == 1 {
      assert (pieces + [x])[1..] == [x];
    } else if |pieces| > 1 {
      JoinAppend(pieces[1..], x, delim);
      assert (pieces + [x])[1..] == pieces[1..] + [x];
    }
  }

  /** The tags in the order of the file's table, with spaces between; `size` is the length. */
  method FileGetTagsString(tags: seq<string>) returns (str: string, size: nat)
    ensures str == Join(tags, " ") && size == |str|
  {
    var c := 0;
    str, size := "", 0;
    for i := 0 to |tags|
      invariant c == i && str == Join(tags[..i], " ") && size == |str|
    {
      JoinAppend(tags[..i], tags[i], " ");
      assert tags[..i + 1] == tags[..i] + [tags[i]];
      str := str + (if c == 0 then "" else " ") + tags[i];
      size := |str|;
      c := c + 1;
    }
    assert tags[..|tags|] == tags;
  }

  lemma SpaceOccurs(s: string, i: nat)
    ensures Occurs(s, " ", i) <==> i < |s| && s[i] == ' '
  {
    if i < |s| {
      assert s[i..i + 1] == [s[i]];
    }
  }

  lemma NoSpace(s: string)
    ensures StrStr(s, " ", 0).None? <==> ' ' !in s
  {
    hide StrStr, Occurs;
    var r := StrStr(s, " ", 0);
    if r.Some? {
      SpaceOccurs(s, r.value);
    } else if i: nat :| i < |s| && s[i] == ' ' {
      SpaceOccurs(s, i);
    }
  }

  lemma SpaceAtEnd(s: string)
    ensures StrStr(s + " ", " ", 0) == Some(|s|) <==> ' ' !in s
  {
    hide StrStr, Occurs;
    var t := s + " ";
    var r := StrStr(t, " ", 0);
    SpaceOccurs(t, |s|);
    SpaceOccurs(t, r.value);
    if i: nat :| i < |s| && s[i] == ' ' {
      SpaceOccurs(t, i);
    }
  }

  /** A reader can take the string apart again exactly when the file has a tag and no tag has a space. */
  lemma TagsReadable(tags: seq<string>)
    ensures Pieces(Join(tags, " "), " ") == tags <==> tags != [] && forall i :: 0 <= i < |tags| ==> ' ' !in tags[i]
  {
    if tags != [] {
      hide Pieces, Join, StrStr;
      SplitOfJoin(tags, " ");
      forall i | 0 <= i < |tags|
        ensures StrStr(tags[i] + " ", " ", 0) == Some(|tags[i]|) <==> ' ' !in tags[i]
        ensures StrStr(tags[i], " ", 0).None? <==> ' ' !in tags[i]
      {
        NoSpace(tags[i]);
        SpaceAtEnd(tags[i]);
      }
    }
  }
}
