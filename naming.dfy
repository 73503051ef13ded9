/** Destination naming and origin classification of the queue worker
    (download.js): which fetch strategy a link gets and which local file it
    is written to. All of it is pure string computation. */
module Naming {
  import opened Strings

  /** The two fetch strategies: streaming extraction for video-hosting links,
      a plain HTTPS byte copy for everything else. */
  datatype OriginType = YouTube | Default

  /** The marker whose presence makes a link a video-hosting link. */
  const YouTubeMarker: string := "www.youtube.com/watch?v"

  /** The formats that get a file-name suffix. */
  const SupportedFormats: seq<string> := ["mp3", "mp4"]

  /** `getOriginType`: video hosting exactly when the link contains the
      marker anywhere; every other link, whatever its shape, is `Default`. */
  function GetOriginType(link: string): (t: OriginType)
    ensures t == YouTube <==> Occurs(link, YouTubeMarker)
    ensures t == Default <==> !Occurs(link, YouTubeMarker)
  {
    IncludesIff(link, YouTubeMarker);
    if Includes(link, YouTubeMarker) then YouTube else Default
  }

  /** `getUniqueName`: the last `/`-separated piece of the link. The origin
      type is accepted and ignored, as in the source. */
  function GetUniqueName(link: string, originType: OriginType): (name: string)
    ensures name == AfterLast(link, '/')
    ensures '/' !in name
    ensures '/' !in link ==> name == link
  {
    LastOfSplit(link, '/');
    Last(Split(link, '/'))
  }

  /** `getEnding`: a dot and the format for a supported format, nothing
      otherwise. The source's scan of the supported formats against the link
      returns from its callback only, so the link has no effect. */
  function GetEnding(format: string, link: string): (ending: string)
    ensures format == "mp3" || format == "mp4" ==> ending == "." + format
    ensures format != "mp3" && format != "mp4" ==> ending == ""
  {
    if format in SupportedFormats then "." + format else ""
  }

  /** The ending depends on the format alone. */
  lemma EndingIgnoresLink(format: string, link1: string, link2: string)
    ensures GetEnding(format, link1) == GetEnding(format, link2)
  {
  }

  /** `getDest`: the working directory, a slash, the link's last segment and
      the format suffix. The origin type does not take part. */
  function GetDest(dir: Path, link: string, format: string, originType: OriginType): (dest: Path)
    ensures dest == dir + "/" + AfterLast(link, '/')
                    + (if format == "mp3" || format == "mp4" then "." + format else "")
  {
    dir + "/" + GetUniqueName(link, originType) + GetEnding(format, link)
  }

  /** `p` names a file directly inside `dir`: the directory, one slash, and a
      name without slashes. */
  ghost predicate DirectChild(dir: Path, p: Path)
  {
    |p| > |dir| && p[..|dir| + 1] == dir + "/" && '/' !in p[|dir| + 1..]
  }

  /** Every destination is a direct child of the working directory, which is
      what the archive step flattens. */
  lemma DestIsDirectChild(dir: Path, link: string, format: string, originType: OriginType)
    ensures DirectChild(dir, GetDest(dir, link, format, originType))
    ensures AfterLast(link, '/') <= GetDest(dir, link, format, originType)[|dir| + 1..]
  {
    assert '/' !in GetEnding(format, link);
    ChildOf(dir, GetUniqueName(link, originType), GetEnding(format, link));
  }

  /** Two slash-free parts appended to `dir` after one slash name a direct
      child whose name starts with the first part. */
  lemma ChildOf(dir: Path, name: string, ending: string)
    requires '/' !in name && '/' !in ending
    ensures DirectChild(dir, dir + "/" + name + ending)
    ensures name <= (dir + "/" + name + ending)[|dir| + 1..]
  {
    var p := dir + "/" + name + ending;
    assert p[..|dir| + 1] == dir + "/";
    assert p[|dir| + 1..] == name + ending;
  }

  /** Two links of a batch land on the same file exactly when their last
      segments agree, whatever their origin types: a later download then
      overwrites an earlier one. */
  lemma {:induction false} DestCollision(dir: Path, link1: string, link2: string, format: string,
                                         o1: OriginType, o2: OriginType)
    ensures GetDest(dir, link1, format, o1) == GetDest(dir, link2, format, o2)
            <==> AfterLast(link1, '/') == AfterLast(link2, '/')
  {
    var prefix := dir + "/";
    var ending := GetEnding(format, link1);
    assert ending == GetEnding(format, link2);
    var n1, n2 := AfterLast(link1, '/'), AfterLast(link2, '/');
    var d1, d2 := prefix + n1 + ending, prefix + n2 + ending;
    assert GetDest(dir, link1, format, o1) == d1;
    assert GetDest(dir, link2, format, o2) == d2;
    if d1 == d2 {
      assert |n1| == |n2|;
      assert n1 == d1[|prefix|..|prefix| + |n1|];
      assert n2 == d2[|prefix|..|prefix| + |n2|];
    }
  }

  /** The destinations the `forEachOf` loop opens, one per link in link
      order: every one is a file directly inside the working directory. */
  function BatchDests(dir: Path, links: seq<string>, format: string): (dests: seq<Path>)
    ensures |dests| == |links|
    ensures forall i :: 0 <= i < |dests| ==>
              DirectChild(dir, dests[i]) && AfterLast(links[i], '/') <= dests[i][|dir| + 1..]
  {
    var dests := seq(|links|, i requires 0 <= i < |links| => GetDest(dir, links[i], format, GetOriginType(links[i])));
    assert forall i :: 0 <= i < |dests| ==>
        DirectChild(dir, dests[i]) && AfterLast(links[i], '/') <= dests[i][|dir| + 1..] by {
      forall i | 0 <= i < |dests| {
        DestIsDirectChild(dir, links[i], format, GetOriginType(links[i]));
      }
    }
    dests
  }

  /** A batch writes one distinct file per link exactly when the links' last
      segments are pairwise distinct. */
  lemma BatchDestsDistinct(dir: Path, links: seq<string>, format: string)
    ensures (forall i, j :: 0 <= i < j < |links| ==>
               BatchDests(dir, links, format)[i] != BatchDests(dir, links, format)[j])
            <==> (forall i, j :: 0 <= i < j < |links| ==>
               AfterLast(links[i], '/') != AfterLast(links[j], '/'))
  {
    var dests := BatchDests(dir, links, format);
    forall i, j | 0 <= i < j < |links|
      ensures dests[i] != dests[j] <==> AfterLast(links[i], '/') != AfterLast(links[j], '/')
    {
      DestCollision(dir, links[i], links[j], format, GetOriginType(links[i]), GetOriginType(links[j]));
    }
  }
}
