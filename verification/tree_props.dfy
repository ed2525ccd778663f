/** Properties of the rendered tree: where every printed image comes from,
    what happens to orphans, and one text line per printed image. */
module TreeProps {
  import opened Images
  import opened Seqs
  import opened Hierarchy
  import opened Tree

  /** A printed image is an image of the collection, and it is either in the
      starting list or a child of an image of the collection. */
  ghost predicate FromWalk(images: seq<Image>, list: seq<Image>, l: Line)
  {
    l.image in images && (l.image in list || l.image.parentId in Ids(images))
  }

  /** The ids of a collection of images. */
  ghost function Ids(images: seq<Image>): set<string>
  {
    set y | y in images :: y.id
  }

  /** Lines that all come from the walk of `list`, around a line of an image
      of `list`, all come from that walk. */
  lemma JoinedFromWalk(images: seq<Image>, list: seq<Image>, before: seq<Line>, l: Line,
                       below: seq<Line>)
    requires forall i :: 0 <= i < |before| ==> FromWalk(images, list, before[i])
    requires l.image in images && l.image in list
    requires forall i :: 0 <= i < |below| ==> FromWalk(images, list, below[i])
    ensures forall i :: 0 <= i < |before + [l] + below| ==> FromWalk(images, list, (before + [l] + below)[i])
  {
    forall i | 0 <= i < |before + [l] + below|
      ensures FromWalk(images, list, (before + [l] + below)[i])
    {
      if i < |before| {
        assert (before + [l] + below)[i] == before[i];
      } else if i > |before| {
        assert (before + [l] + below)[i] == below[i - |before| - 1];
      }
    }
  }

  /** A line of a child list's walk is a line of its parent's walk. */
  lemma FromChildWalk(images: seq<Image>, list: seq<Image>, ch: seq<Image>, x: Image, l: Line)
    requires FromWalk(images, ch, l)
    requires x in images && forall c :: c in ch ==> c.parentId == x.id
    ensures FromWalk(images, list, l)
  {
    if l.image in ch {
      assert x.id == l.image.parentId;
      assert x.id in Ids(images);
    }
  }

  /** Every image held in the index is an image of the collection, filed
      under its own parent id. */
  ghost predicate IndexFrom(byParent: map<string, seq<Image>>, images: seq<Image>)
  {
    forall p, c :: p in byParent && c in byParent[p] ==> c in images && c.parentId == p
  }

  lemma ByParentIndexFrom(images: seq<Image>)
    ensures IndexFrom(ByParent(images), images)
  {
    forall p, c | p in ByParent(images) && c in ByParent(images)[p]
      ensures c in images && c.parentId == p
    {
      ByParentMembers(images, p, c);
    }
  }

  lemma {:induction false} TreeLinesOrigin(images: seq<Image>, list: seq<Image>, k: nat,
                                           byParent: map<string, seq<Image>>, prefix: string,
                                           rank: map<string, nat>)
    requires k <= |list|
    requires Walkable(list, byParent, rank) && IndexFrom(byParent, images)
    requires forall x :: x in list ==> x in images
    ensures forall i :: 0 <= i < |TreeLines(list, k, byParent, prefix, rank)| ==>
              FromWalk(images, list, TreeLines(list, k, byParent, prefix, rank)[i])
    decreases Height(list, rank), k
  {
    if k > 0 {
      var x, last := list[k - 1], k == |list|;
      var before := TreeLines(list, k - 1, byParent, prefix, rank);
      TreeLinesOrigin(images, list, k - 1, byParent, prefix, rank);
      var all := TreeLines(list, k, byParent, prefix, rank);
      if x.id in byParent {
        ChildHeight(byParent, rank, x);
        var ch := byParent[x.id];
        var below := TreeLines(ch, |ch|, byParent, prefix + Indent(last), rank);
        TreeLinesOrigin(images, ch, |ch|, byParent, prefix + Indent(last), rank);
        assert all == before + [Line(prefix + Connector(last), x)] + below;
        forall i | 0 <= i < |below|
          ensures FromWalk(images, list, below[i])
        {
          FromChildWalk(images, list, ch, x, below[i]);
        }
        JoinedFromWalk(images, list, before, Line(prefix + Connector(last), x), below);
      } else {
        assert all == before + [Line(prefix + Connector(last), x)] + [];
        JoinedFromWalk(images, list, before, Line(prefix + Connector(last), x), []);
      }
    }
  }

  /** An orphan, an image whose non-empty parent id is no image's id, cannot
      be reached from any root: the forest render never prints it. */
  lemma OrphanNeverPrinted(images: seq<Image>, noTrunc: bool, rank: map<string, nat>, x: Image)
    requires TreeReady(images, "", noTrunc, rank)
    requires x.parentId != "" && forall y :: y in images ==> y.id != x.parentId
    ensures forall i :: 0 <= i < |TreeOf(images, "", noTrunc, rank)| ==> TreeOf(images, "", noTrunc, rank)[i].image != x
  {
    StartListMembers(images, "", noTrunc);
    ByParentIndexFrom(images);
    TreeLinesOrigin(images, Roots(images), |Roots(images)|, ByParent(images), "", rank);
  }

  /** `p` is `prefix` followed by box-drawing characters only. */
  ghost predicate Extends(p: string, prefix: string)
  {
    prefix <= p && forall c :: c in p[|prefix|..] ==> c in BoxChars
  }

  lemma ExtendsTrans(p: string, mid: string, prefix: string)
    requires Extends(p, mid) && Extends(mid, prefix)
    ensures Extends(p, prefix)
  {
    assert p[|prefix|..] == mid[|prefix|..] + p[|mid|..];
  }

  lemma ExtendsStep(prefix: string, last: bool)
    ensures Extends(prefix + Connector(last), prefix)
    ensures Extends(prefix + Indent(last), prefix)
  {
    assert (prefix + Connector(last))[|prefix|..] == Connector(last);
    assert (prefix + Indent(last))[|prefix|..] == Indent(last);
  }

  /** Every line's prefix extends the starting prefix with box-drawing
      characters only. */
  lemma {:induction false} TreeLinesPrefixes(list: seq<Image>, k: nat, byParent: map<string, seq<Image>>,
                                             prefix: string, rank: map<string, nat>)
    requires k <= |list|
    requires Walkable(list, byParent, rank)
    ensures forall i :: 0 <= i < |TreeLines(list, k, byParent, prefix, rank)| ==>
              Extends(TreeLines(list, k, byParent, prefix, rank)[i].prefix, prefix) &&
              |TreeLines(list, k, byParent, prefix, rank)[i].prefix| >= |prefix| + 2
    decreases Height(list, rank), k
  {
    if k > 0 {
      var x, last := list[k - 1], k == |list|;
      var before := TreeLines(list, k - 1, byParent, prefix, rank);
      TreeLinesPrefixes(list, k - 1, byParent, prefix, rank);
      var all := TreeLines(list, k, byParent, prefix, rank);
      var own := prefix + Connector(last);
      ExtendsStep(prefix, last);
      if x.id in byParent {
        ChildHeight(byParent, rank, x);
        var ch := byParent[x.id];
        var deeper := prefix + Indent(last);
        var below := TreeLines(ch, |ch|, byParent, deeper, rank);
        TreeLinesPrefixes(ch, |ch|, byParent, deeper, rank);
        assert all == before + [Line(own, x)] + below;
        forall i | 0 <= i < |all|
          ensures Extends(all[i].prefix, prefix) && |all[i].prefix| >= |prefix| + 2
        {
          if i < |before| {
            assert all[i] == before[i];
          } else if i > |before| {
            var p := below[i - |before| - 1].prefix;
            assert all[i].prefix == p;
            ExtendsTrans(p, deeper, prefix);
          }
        }
      } else {
        assert all == before + [Line(own, x)];
        forall i | 0 <= i < |all|
          ensures Extends(all[i].prefix, prefix) && |all[i].prefix| >= |prefix| + 2
        {
          if i < |before| {
            assert all[i] == before[i];
          }
        }
      }
    }
  }

  /** The lines whose prefix has length `n`, in order. */
  ghost function AtDepth(lines: seq<Line>, n: nat): seq<Line>
  {
    if lines == [] then []
    else AtDepth(lines[..|lines| - 1], n) + (if |lines[|lines| - 1].prefix| == n then [lines[|lines| - 1]] else [])
  }

  lemma {:induction false} AtDepthAppend(a: seq<Line>, b: seq<Line>, n: nat)
    ensures AtDepth(a + b, n) == AtDepth(a, n) + AtDepth(b, n)
    decreases |b|
  {
    if b == [] {
      assert a + b == a;
    } else {
      assert (a + b)[..|a + b| - 1] == a + b[..|b| - 1];
      AtDepthAppend(a, b[..|b| - 1], n);
    }
  }

  lemma {:induction false} AtDepthNone(lines: seq<Line>, n: nat)
    requires forall i :: 0 <= i < |lines| ==> |lines[i].prefix| > n
    ensures AtDepth(lines, n) == []
    decreases |lines|
  {
    if lines != [] {
      AtDepthNone(lines[..|lines| - 1], n);
    }
  }

  /** The lines printed directly under `prefix` (those whose prefix is one
      connector longer) are the first `k` images of the list, each once and
      in list order, every subtree line sitting deeper. The last image of the
      list gets the corner connector, every other image the branch. */
  lemma {:induction false} SiblingsInOrder(list: seq<Image>, k: nat, byParent: map<string, seq<Image>>,
                                           prefix: string, rank: map<string, nat>)
    requires k <= |list|
    requires Walkable(list, byParent, rank)
    ensures var top := AtDepth(TreeLines(list, k, byParent, prefix, rank), |prefix| + 2);
            |top| == k &&
            forall i :: 0 <= i < k ==>
              top[i].image == list[i] && top[i].prefix == prefix + (if i == |list| - 1 then Corner else Branch)
    decreases k
  {
    if k > 0 {
      var x, last := list[k - 1], k == |list|;
      var before := TreeLines(list, k - 1, byParent, prefix, rank);
      SiblingsInOrder(list, k - 1, byParent, prefix, rank);
      var own := Line(prefix + Connector(last), x);
      var n := |prefix| + 2;
      if x.id in byParent {
        ChildHeight(byParent, rank, x);
        var ch := byParent[x.id];
        var deeper := prefix + Indent(last);
        var below := TreeLines(ch, |ch|, byParent, deeper, rank);
        TreeLinesPrefixes(ch, |ch|, byParent, deeper, rank);
        assert TreeLines(list, k, byParent, prefix, rank) == before + [own] + below;
        DepthStep(before, own, below, n);
      } else {
        assert TreeLines(list, k, byParent, prefix, rank) == before + [own] + [];
        DepthStep(before, own, [], n);
      }
      SiblingSnoc(AtDepth(before, n), own, list, k, prefix);
    }
  }

  /** A line at depth `n` followed by deeper lines adds just that line to
      the lines at depth `n`. */
  lemma DepthStep(before: seq<Line>, own: Line, below: seq<Line>, n: nat)
    requires |own.prefix| == n
    requires forall i :: 0 <= i < |below| ==> |below[i].prefix| >= n + 1
    ensures AtDepth(before + [own] + below, n) == AtDepth(before, n) + [own]
  {
    assert AtDepth([own], n) == [own] by {
      assert [own][..0] == [];
    }
    AtDepthNone(below, n);
    AtDepthAppend(before + [own], below, n);
    AtDepthAppend(before, [own], n);
  }

  /** The sibling lines of the first `k - 1` images followed by the line of
      image `k - 1` are the sibling lines of the first `k` images. */
  lemma SiblingSnoc(prev: seq<Line>, own: Line, list: seq<Image>, k: nat, prefix: string)
    requires 0 < k <= |list| && |prev| == k - 1
    requires forall i :: 0 <= i < k - 1 ==>
               prev[i].image == list[i] && prev[i].prefix == prefix + (if i == |list| - 1 then Corner else Branch)
    requires own == Line(prefix + Connector(k == |list|), list[k - 1])
    ensures var top := prev + [own];
            |top| == k &&
            forall i :: 0 <= i < k ==>
              top[i].image == list[i] && top[i].prefix == prefix + (if i == |list| - 1 then Corner else Branch)
  {
  }

  /** Nothing an image contributes to its line contains a line break. */
  ghost predicate NoBreaks(img: Image, fmtSize: int -> string)
  {
    '\n' !in img.id && '\n' !in fmtSize(img.virtualSize) &&
    forall i :: 0 <= i < |img.repoTags| ==> '\n' !in img.repoTags[i]
  }

  /** A text without line breaks followed by one has exactly one, at its end. */
  lemma OneBreakAtEnd(body: string)
    requires '\n' !in body
    ensures var s := body + "\n"; |s| > 0 && s[|s| - 1] == '\n' && multiset(s)['\n'] == 1
  {
    assert multiset(body + "\n") == multiset(body) + multiset("\n");
    assert multiset(body)['\n'] == 0;
  }

  lemma BreakFree(a: string, b: string)
    requires '\n' !in a && '\n' !in b
    ensures '\n' !in a + b
  {
  }

  /** The displayed id holds no line break when the id holds none. */
  lemma ShownBreakFree(img: Image, noTrunc: bool)
    requires Printable(img, noTrunc) && '\n' !in img.id
    ensures '\n' !in (if noTrunc then img.id else Truncate(img.id))
  {
    if !noTrunc {
      assert img.id == Truncate(img.id) + img.id[ShortIdLength..];
    }
  }

  /** The head of a node line holds no line break. */
  lemma HeadBreakFree(img: Image, prefix: string, noTrunc: bool, fmtSize: int -> string)
    requires Printable(img, noTrunc)
    requires NoBreaks(img, fmtSize) && '\n' !in prefix
    ensures '\n' !in NodeHead(img, prefix, noTrunc, fmtSize)
  {
    var shown := if noTrunc then img.id else Truncate(img.id);
    ShownBreakFree(img, noTrunc);
    BreakFree(prefix, shown);
    BreakFree(prefix + shown, " Virtual Size: ");
    BreakFree(prefix + shown + " Virtual Size: ", fmtSize(img.virtualSize));
  }

  /** The tail of a node line ends with its only line break. */
  lemma TailOneBreak(img: Image, fmtSize: int -> string)
    requires |img.repoTags| > 0 && NoBreaks(img, fmtSize)
    ensures var t := NodeTail(img); |t| > 0 && t[|t| - 1] == '\n' && multiset(t)['\n'] == 1
  {
    if IsTagged(img) {
      JoinAvoids(img.repoTags, ", ", '\n');
      BreakFree(" Tags: ", Join(img.repoTags, ", "));
      OneBreakAtEnd(" Tags: " + Join(img.repoTags, ", "));
    } else {
      OneBreakAtEnd("");
      assert "" + "\n" == "\n";
    }
  }

  /** A node line holds exactly one line break, its last character. */
  lemma NodeLineIsOneLine(img: Image, prefix: string, noTrunc: bool, fmtSize: int -> string)
    requires Printable(img, noTrunc)
    requires NoBreaks(img, fmtSize) && '\n' !in prefix
    ensures var s := NodeLine(img, prefix, noTrunc, fmtSize);
            |s| > 0 && s[|s| - 1] == '\n' && multiset(s)['\n'] == 1
  {
    HeadBreakFree(img, prefix, noTrunc, fmtSize);
    TailOneBreak(img, fmtSize);
    OneBreakAfter(NodeHead(img, prefix, noTrunc, fmtSize), NodeTail(img));
  }

  /** Text without line breaks, then text with one break at its end. */
  lemma OneBreakAfter(head: string, tail: string)
    requires '\n' !in head
    requires |tail| > 0 && tail[|tail| - 1] == '\n' && multiset(tail)['\n'] == 1
    ensures var s := head + tail; |s| > 0 && s[|s| - 1] == '\n' && multiset(s)['\n'] == 1
  {
    assert multiset(head + tail) == multiset(head) + multiset(tail);
    assert multiset(head)['\n'] == 0;
  }

  /** The text of a sequence of lines has one line break per line. */
  lemma {:induction false} RenderedBreaks(lines: seq<Line>, noTrunc: bool, fmtSize: int -> string)
    requires AllPrintable(lines, noTrunc)
    requires forall i :: 0 <= i < |lines| ==> NoBreaks(lines[i].image, fmtSize) && '\n' !in lines[i].prefix
    ensures multiset(RenderLines(lines, noTrunc, fmtSize))['\n'] == |lines|
  {
    if |lines| > 0 {
      var init, last := lines[..|lines| - 1], lines[|lines| - 1];
      RenderedBreaks(init, noTrunc, fmtSize);
      NodeLineIsOneLine(last.image, last.prefix, noTrunc, fmtSize);
    }
  }

  /** The rendered tree has exactly one line per printed image. */
  lemma TreeLineCount(images: seq<Image>, arg: string, noTrunc: bool, fmtSize: int -> string,
                      rank: map<string, nat>)
    requires TreeReady(images, arg, noTrunc, rank)
    requires forall x :: x in images ==> NoBreaks(x, fmtSize)
    ensures multiset(RenderLines(TreeOf(images, arg, noTrunc, rank), noTrunc, fmtSize))['\n']
            == |TreeOf(images, arg, noTrunc, rank)|
  {
    StartListMembers(images, arg, noTrunc);
    var list := StartList(images, arg);
    var lines := TreeOf(images, arg, noTrunc, rank);
    ByParentIndexFrom(images);
    TreeLinesOrigin(images, list, |list|, ByParent(images), "", rank);
    TreeLinesPrefixes(list, |list|, ByParent(images), "", rank);
    forall i | 0 <= i < |lines|
      ensures NoBreaks(lines[i].image, fmtSize) && '\n' !in lines[i].prefix
    {
      assert FromWalk(images, list, lines[i]);
      assert Extends(lines[i].prefix, "");
      assert lines[i].prefix[0..] == lines[i].prefix;
    }
    RenderedBreaks(lines, noTrunc, fmtSize);
  }

  /** A cycle that no root leads to does not stop the forest render: with
      only the root ranked, the root is printed alone, and the two images
      that are each other's parent are never walked into. */
  lemma UnreachedCycle(r: Image, a: Image, b: Image, noTrunc: bool)
    requires r.parentId == "" && Printable(r, noTrunc)
    requires a.parentId == b.id != "" && b.parentId == a.id != "" && r.id != a.id && r.id != b.id
    ensures TreeReady([r, a, b], "", noTrunc, map[r.id := 0])
    ensures TreeOf([r, a, b], "", noTrunc, map[r.id := 0]) == [Line(Corner, r)]
  {
    var images := [r, a, b];
    var rank := map[r.id := 0];
    CycleRoots(r, a, b);
    CycleIndex(r, a, b);
    assert Walkable([r], ByParent(images), rank);
    assert TreeLines([r], 1, ByParent(images), "", rank) == [Line(Corner, r)] by {
      assert TreeLines([r], 0, ByParent(images), "", rank) == [];
      assert [r][0] == r && "" + Connector(true) == Corner;
    }
  }

  lemma CycleRoots(r: Image, a: Image, b: Image)
    requires r.parentId == "" && a.parentId != "" && b.parentId != ""
    ensures Roots([r, a, b]) == [r]
  {
    ChildrenSnoc([r, a], b, "");
    ChildrenSnoc([r], a, "");
    ChildrenSnoc([], r, "");
    assert [] + [r] == [r] && [r] + [a] == [r, a] && [r, a] + [b] == [r, a, b];
  }

  lemma CycleIndex(r: Image, a: Image, b: Image)
    requires r.parentId == "" && r.id != a.parentId && r.id != b.parentId
    ensures r.id !in ByParent([r, a, b])
  {
    var images := [r, a, b];
    forall x | x in images
      ensures x == r || x == a || x == b
    {
    }
  }

  /** The images that some line shows. */
  ghost function Shown(lines: seq<Line>): set<Image>
  {
    set i | 0 <= i < |lines| :: lines[i].image
  }

  lemma ShownJoin(before: seq<Line>, l: Line, below: seq<Line>)
    ensures Shown(before + [l] + below) == Shown(before) + {l.image} + Shown(below)
  {
    var all := before + [l] + below;
    forall y | y in Shown(all)
      ensures y in Shown(before) + {l.image} + Shown(below)
    {
      var i :| 0 <= i < |all| && all[i].image == y;
      if i < |before| {
        assert all[i] == before[i];
      } else if i > |before| {
        assert all[i] == below[i - |before| - 1];
      }
    }
    forall y | y in Shown(before) + {l.image} + Shown(below)
      ensures y in Shown(all)
    {
      if y in Shown(before) {
        var i :| 0 <= i < |before| && before[i].image == y;
        assert all[i] == before[i];
      } else if y in Shown(below) {
        var i :| 0 <= i < |below| && below[i].image == y;
        assert all[|before| + 1 + i] == below[i];
      } else {
        assert all[|before|] == l;
      }
    }
  }

  /** The walk shows every image of its list, and with every shown image
      that has an index entry it shows all the children filed there. */
  lemma {:induction false} WalkShows(list: seq<Image>, k: nat, byParent: map<string, seq<Image>>,
                                     prefix: string, rank: map<string, nat>)
    requires k <= |list|
    requires Walkable(list, byParent, rank)
    ensures forall j :: 0 <= j < k ==> list[j] in Shown(TreeLines(list, k, byParent, prefix, rank))
    ensures forall x, c ::
              (x in Shown(TreeLines(list, k, byParent, prefix, rank)) && x.id in byParent && c in byParent[x.id]) ==>
                c in Shown(TreeLines(list, k, byParent, prefix, rank))
    decreases Height(list, rank), k
  {
    if k > 0 {
      var x, last := list[k - 1], k == |list|;
      var line := Line(prefix + Connector(last), x);
      var before := TreeLines(list, k - 1, byParent, prefix, rank);
      var all := TreeLines(list, k, byParent, prefix, rank);
      WalkShows(list, k - 1, byParent, prefix, rank);
      var below: seq<Line> := [];
      if x.id in byParent {
        ChildHeight(byParent, rank, x);
        var ch := byParent[x.id];
        below := TreeLines(ch, |ch|, byParent, prefix + Indent(last), rank);
        WalkShows(ch, |ch|, byParent, prefix + Indent(last), rank);
        forall c | c in ch
          ensures c in Shown(below)
        {
          var j :| 0 <= j < |ch| && ch[j] == c;
        }
      }
      assert all == before + [line] + below;
      ShownJoin(before, line, below);
    }
  }

  /** `chain` leads from a root down to its last image, each image the child
      of the one before it. */
  ghost predicate Chain(images: seq<Image>, chain: seq<Image>)
  {
    |chain| > 0 && chain[0].parentId == "" &&
    (forall i :: 0 <= i < |chain| ==> chain[i] in images) &&
    (forall i :: 0 < i < |chain| ==> chain[i].parentId == chain[i - 1].id)
  }

  /** Where grouping files an image of the collection. */
  lemma Filed(images: seq<Image>, x: Image)
    requires x in images
    ensures x.parentId == "" ==> x in Roots(images)
    ensures x.parentId != "" ==> x.parentId in ByParent(images) && x in ByParent(images)[x.parentId]
  {
    GroupingPartition(images, x);
  }

  /** The forest render prints every image whose parent chain reaches a
      root. */
  lemma {:induction false} ReachablePrinted(images: seq<Image>, noTrunc: bool, rank: map<string, nat>,
                                            chain: seq<Image>)
    requires TreeReady(images, "", noTrunc, rank)
    requires Chain(images, chain)
    ensures chain[|chain| - 1] in Shown(TreeOf(images, "", noTrunc, rank))
    decreases |chain|
  {
    var roots := Roots(images);
    var lines := TreeOf(images, "", noTrunc, rank);
    WalkShows(roots, |roots|, ByParent(images), "", rank);
    var x := chain[|chain| - 1];
    Filed(images, x);
    if x.parentId == "" {
      var j :| 0 <= j < |roots| && roots[j] == x;
    } else {
      var up := chain[..|chain| - 1];
      assert |chain| > 1;
      assert Chain(images, up);
      ReachablePrinted(images, noTrunc, rank, up);
      assert up[|up| - 1].id == x.parentId;
    }
  }
}
