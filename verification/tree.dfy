/** The tree renderer: WalkTree and PrintTreeNode over a growing output
    buffer, and jsonToTree, which builds the index and starts the walk. */
module Tree {
  import opened Images
  import opened Seqs
  import opened Hierarchy
  import opened Output

  const Branch: string := "├─"
  const Corner: string := "└─"
  const Guide: string := "│ "
  const Blank: string := "  "

  /** The last sibling gets the corner; every other sibling the branch. */
  function Connector(last: bool): string
  {
    if last then Corner else Branch
  }

  /** Below the last sibling the vertical guide stops. */
  function Indent(last: bool): string
  {
    if last then Blank else Guide
  }

  /** The characters the walk adds to a prefix. */
  const BoxChars: set<char> := {'├', '└', '─', '│', ' '}

  /** One line of the tree: its whole prefix (indent and connector) and its image. */
  datatype Line = Line(prefix: string, image: Image)

  /** One more than the largest rank in `list`: a bound on the depth of the
      walk below it. */
  ghost function Height(list: seq<Image>, rank: map<string, nat>): (h: nat)
    requires forall x :: x in list ==> x.id in rank
    ensures forall x :: x in list ==> rank[x.id] < h
    ensures |list| == 0 || exists x :: x in list && h == rank[x.id] + 1
  {
    if |list| == 0 then 0
    else
      var init, last := list[..|list| - 1], list[|list| - 1];
      assert list == init + [last];
      var h', r := Height(init, rank), rank[last.id] + 1;
      if h' < r then r else h'
  }

  /** What the walk needs to terminate: the list's images are ranked and so
      is the index. */
  ghost predicate Walkable(list: seq<Image>, byParent: map<string, seq<Image>>, rank: map<string, nat>)
  {
    (forall x :: x in list ==> x.id in rank) && RankedIndex(byParent, rank)
  }

  /** The children of a ranked image are ranked below it. */
  lemma ChildHeight(byParent: map<string, seq<Image>>, rank: map<string, nat>, x: Image)
    requires RankedIndex(byParent, rank) && x.id in rank && x.id in byParent
    ensures Walkable(byParent[x.id], byParent, rank)
    ensures Height(byParent[x.id], rank) <= rank[x.id]
  {
  }

  /** The lines WalkTree writes for the first `k` images of `list`, in order:
      each image's line, then the walk of its children (when it has an entry in
      the index) one indent deeper. */
  ghost function TreeLines(list: seq<Image>, k: nat, byParent: map<string, seq<Image>>, prefix: string,
                           rank: map<string, nat>): seq<Line>
    requires k <= |list|
    requires Walkable(list, byParent, rank)
    decreases Height(list, rank), k
  {
    if k == 0 then []
    else
      var x, last := list[k - 1], k == |list|;
      TreeLines(list, k - 1, byParent, prefix, rank)
      + [Line(prefix + Connector(last), x)]
      + if x.id in byParent then
          ChildHeight(byParent, rank, x);
          TreeLines(byParent[x.id], |byParent[x.id]|, byParent, prefix + Indent(last), rank)
        else []
  }

  /** The first part of a node's text: prefix, displayed id and size. */
  function NodeHead(img: Image, prefix: string, noTrunc: bool, fmtSize: int -> string): string
    requires Printable(img, noTrunc)
  {
    var shown := if noTrunc then img.id else Truncate(img.id);
    prefix + shown + " Virtual Size: " + fmtSize(img.virtualSize)
  }

  /** The rest of a node's text: the tags joined by ", " when the first tag
      is not the sentinel, then a newline. */
  function NodeTail(img: Image): string
    requires |img.repoTags| > 0
  {
    if IsTagged(img) then " Tags: " + Join(img.repoTags, ", ") + "\n" else "\n"
  }

  /** The text of one node. */
  function NodeLine(img: Image, prefix: string, noTrunc: bool, fmtSize: int -> string): string
    requires Printable(img, noTrunc)
  {
    NodeHead(img, prefix, noTrunc, fmtSize) + NodeTail(img)
  }

  /** Every line's image can be printed. */
  ghost predicate AllPrintable(lines: seq<Line>, noTrunc: bool)
  {
    forall i :: 0 <= i < |lines| ==> Printable(lines[i].image, noTrunc)
  }

  lemma AllPrintableSlice(lines: seq<Line>, lo: nat, hi: nat, noTrunc: bool)
    requires lo <= hi <= |lines| && AllPrintable(lines, noTrunc)
    ensures AllPrintable(lines[lo..hi], noTrunc)
  {
  }

  /** The text of one line; a line that cannot be printed has none. */
  function LineText(l: Line, noTrunc: bool, fmtSize: int -> string): string
  {
    if Printable(l.image, noTrunc) then NodeLine(l.image, l.prefix, noTrunc, fmtSize) else ""
  }

  function LineRender(noTrunc: bool, fmtSize: int -> string): Line -> string
  {
    (l: Line) => LineText(l, noTrunc, fmtSize)
  }

  /** The text of a sequence of lines, one after the other. */
  function RenderLines(lines: seq<Line>, noTrunc: bool, fmtSize: int -> string): string
  {
    ConcatMap(lines, LineRender(noTrunc, fmtSize))
  }

  lemma RenderLinesAppend(a: seq<Line>, b: seq<Line>, noTrunc: bool, fmtSize: int -> string)
    ensures RenderLines(a + b, noTrunc, fmtSize) == RenderLines(a, noTrunc, fmtSize) + RenderLines(b, noTrunc, fmtSize)
  {
    ConcatMapAppend(a, b, LineRender(noTrunc, fmtSize));
  }

  /** The text of a single printable line is its node line. */
  lemma RenderOne(l: Line, noTrunc: bool, fmtSize: int -> string)
    requires Printable(l.image, noTrunc)
    ensures RenderLines([l], noTrunc, fmtSize) == NodeLine(l.image, l.prefix, noTrunc, fmtSize)
  {
    var f := LineRender(noTrunc, fmtSize);
    assert [l][..0] == [];
    assert ConcatMap([l], f) == ConcatMap([], f) + f(l);
    assert f(l) == LineText(l, noTrunc, fmtSize);
  }

  /** The walk of a shorter prefix of the list is a prefix of the walk. */
  lemma {:induction false} TreeLinesPrefix(list: seq<Image>, k: nat, n: nat, byParent: map<string, seq<Image>>,
                                           prefix: string, rank: map<string, nat>)
    requires k <= n <= |list|
    requires Walkable(list, byParent, rank)
    ensures TreeLines(list, k, byParent, prefix, rank) <= TreeLines(list, n, byParent, prefix, rank)
    decreases n - k
  {
    if k < n {
      TreeLinesPrefix(list, k, n - 1, byParent, prefix, rank);
    }
  }

  /** PrintTreeNode: append the node's line. */
  method PrintTreeNode(buffer: Buffer, noTrunc: bool, image: Image, prefix: string, fmtSize: int -> string)
    requires Printable(image, noTrunc)
    modifies buffer
    ensures buffer.content == old(buffer.content) + NodeLine(image, prefix, noTrunc, fmtSize)
  {
    var imageID := if noTrunc then image.id else Truncate(image.id);
    buffer.WriteString(prefix + imageID + " Virtual Size: " + fmtSize(image.virtualSize));
    if image.repoTags[0] != Sentinel {
      buffer.WriteString(" Tags: " + Join(image.repoTags, ", ") + "\n");
    } else {
      buffer.WriteString("\n");
    }
  }

  /** The text of some lines, one printable line, and more lines. */
  lemma RenderAround(before: seq<Line>, line: Line, ch: seq<Line>, noTrunc: bool, fmtSize: int -> string)
    requires Printable(line.image, noTrunc)
    ensures RenderLines(before + [line] + ch, noTrunc, fmtSize) ==
              RenderLines(before, noTrunc, fmtSize) + NodeLine(line.image, line.prefix, noTrunc, fmtSize)
              + RenderLines(ch, noTrunc, fmtSize)
  {
    RenderLinesAppend(before, [line], noTrunc, fmtSize);
    RenderOne(line, noTrunc, fmtSize);
    RenderLinesAppend(before + [line], ch, noTrunc, fmtSize);
  }

  /** One step of the walk, as lines: the lines of the first k+1 images are
      those of the first k, the line of image k, and the walk of its children;
      all of them are printable when the whole walk is. */
  lemma WalkStepPrintable(list: seq<Image>, k: nat, byParent: map<string, seq<Image>>, prefix: string,
                          rank: map<string, nat>, noTrunc: bool)
    requires k < |list|
    requires Walkable(list, byParent, rank)
    requires AllPrintable(TreeLines(list, |list|, byParent, prefix, rank), noTrunc)
    ensures Printable(list[k], noTrunc)
    ensures AllPrintable(TreeLines(list, k + 1, byParent, prefix, rank), noTrunc)
    ensures AllPrintable(TreeLines(list, k, byParent, prefix, rank), noTrunc)
    ensures list[k].id in byParent ==>
      Walkable(byParent[list[k].id], byParent, rank) &&
      Height(byParent[list[k].id], rank) < Height(list, rank) &&
      var ch := TreeLines(byParent[list[k].id], |byParent[list[k].id]|, byParent, prefix + Indent(k + 1 == |list|), rank);
      AllPrintable(ch, noTrunc) &&
      TreeLines(list, k + 1, byParent, prefix, rank) ==
        TreeLines(list, k, byParent, prefix, rank) + [Line(prefix + Connector(k + 1 == |list|), list[k])] + ch
    ensures list[k].id !in byParent ==>
      TreeLines(list, k + 1, byParent, prefix, rank) ==
        TreeLines(list, k, byParent, prefix, rank) + [Line(prefix + Connector(k + 1 == |list|), list[k])] + []
  {
    var x, last := list[k], k + 1 == |list|;
    var before := TreeLines(list, k, byParent, prefix, rank);
    var line := Line(prefix + Connector(last), x);
    var after := TreeLines(list, k + 1, byParent, prefix, rank);
    TreeLinesPrefix(list, k + 1, |list|, byParent, prefix, rank);
    AllPrintableSlice(TreeLines(list, |list|, byParent, prefix, rank), 0, |after|, noTrunc);
    assert after[..|before|] == before;
    assert after[|before|] == line;
    AllPrintableSlice(after, 0, |before|, noTrunc);
    if x.id in byParent {
      ChildHeight(byParent, rank, x);
      var ch := TreeLines(byParent[x.id], |byParent[x.id]|, byParent, prefix + Indent(last), rank);
      assert after == before + [line] + ch;
      assert after[|before| + 1..] == ch;
      AllPrintableSlice(after, |before| + 1, |after|, noTrunc);
    } else {
      assert after == before + [line] + [];
    }
  }

  /** One step of the walk, as text. */
  lemma WalkStepLines(list: seq<Image>, k: nat, byParent: map<string, seq<Image>>, prefix: string,
                      rank: map<string, nat>, noTrunc: bool, fmtSize: int -> string)
    requires k < |list|
    requires Walkable(list, byParent, rank)
    requires AllPrintable(TreeLines(list, |list|, byParent, prefix, rank), noTrunc)
    ensures Printable(list[k], noTrunc)
    ensures AllPrintable(TreeLines(list, k + 1, byParent, prefix, rank), noTrunc)
    ensures AllPrintable(TreeLines(list, k, byParent, prefix, rank), noTrunc)
    ensures list[k].id in byParent ==>
      Walkable(byParent[list[k].id], byParent, rank) &&
      Height(byParent[list[k].id], rank) < Height(list, rank) &&
      var ch := TreeLines(byParent[list[k].id], |byParent[list[k].id]|, byParent, prefix + Indent(k + 1 == |list|), rank);
      AllPrintable(ch, noTrunc) &&
      RenderLines(TreeLines(list, k + 1, byParent, prefix, rank), noTrunc, fmtSize) ==
        RenderLines(TreeLines(list, k, byParent, prefix, rank), noTrunc, fmtSize)
        + NodeLine(list[k], prefix + Connector(k + 1 == |list|), noTrunc, fmtSize)
        + RenderLines(ch, noTrunc, fmtSize)
    ensures list[k].id !in byParent ==>
      RenderLines(TreeLines(list, k + 1, byParent, prefix, rank), noTrunc, fmtSize) ==
        RenderLines(TreeLines(list, k, byParent, prefix, rank), noTrunc, fmtSize)
        + NodeLine(list[k], prefix + Connector(k + 1 == |list|), noTrunc, fmtSize)
  {
    WalkStepPrintable(list, k, byParent, prefix, rank, noTrunc);
    var line := Line(prefix + Connector(k + 1 == |list|), list[k]);
    var before := TreeLines(list, k, byParent, prefix, rank);
    if list[k].id in byParent {
      var ch := TreeLines(byParent[list[k].id], |byParent[list[k].id]|, byParent, prefix + Indent(k + 1 == |list|), rank);
      RenderAround(before, line, ch, noTrunc, fmtSize);
    } else {
      RenderAround(before, line, [], noTrunc, fmtSize);
      assert RenderLines([], noTrunc, fmtSize) == "";
    }
  }

  /** The text a walk step appends, stated on plain strings so that the loop
      of WalkTree only has to name the pieces. */
  lemma StepAppended(done: string, now: string, start: string, list: seq<Image>, k: nat,
                     byParent: map<string, seq<Image>>, prefix: string, rank: map<string, nat>,
                     noTrunc: bool, fmtSize: int -> string)
    requires k < |list|
    requires Walkable(list, byParent, rank)
    requires AllPrintable(TreeLines(list, |list|, byParent, prefix, rank), noTrunc)
    requires AllPrintable(TreeLines(list, k, byParent, prefix, rank), noTrunc)
    requires Printable(list[k], noTrunc)
    requires done == start + RenderLines(TreeLines(list, k, byParent, prefix, rank), noTrunc, fmtSize)
    requires list[k].id in byParent ==>
      Walkable(byParent[list[k].id], byParent, rank) &&
      var ch := TreeLines(byParent[list[k].id], |byParent[list[k].id]|, byParent, prefix + Indent(k + 1 == |list|), rank);
      AllPrintable(ch, noTrunc) &&
      now == done + NodeLine(list[k], prefix + Connector(k + 1 == |list|), noTrunc, fmtSize) + RenderLines(ch, noTrunc, fmtSize)
    requires list[k].id !in byParent ==>
      now == done + NodeLine(list[k], prefix + Connector(k + 1 == |list|), noTrunc, fmtSize)
    ensures AllPrintable(TreeLines(list, k + 1, byParent, prefix, rank), noTrunc)
    ensures now == start + RenderLines(TreeLines(list, k + 1, byParent, prefix, rank), noTrunc, fmtSize)
  {
    WalkStepLines(list, k, byParent, prefix, rank, noTrunc, fmtSize);
    var last := k + 1 == |list|;
    var x := RenderLines(TreeLines(list, k, byParent, prefix, rank), noTrunc, fmtSize);
    var n := NodeLine(list[k], prefix + Connector(last), noTrunc, fmtSize);
    if list[k].id in byParent {
      var c := RenderLines(TreeLines(byParent[list[k].id], |byParent[list[k].id]|, byParent, prefix + Indent(last), rank), noTrunc, fmtSize);
      AppendAssoc(start, x, n);
      AppendAssoc(start, x + n, c);
    } else {
      AppendAssoc(start, x, n);
    }
  }

  /** WalkTree: a list of more than one image gives the branch connector to
      all but the last; a list of at most one image gives the corner to each.
      Both append the lines of TreeLines, whose rule is "the last sibling gets
      the corner". */
  method WalkTree(buffer: Buffer, noTrunc: bool, images: seq<Image>, byParent: map<string, seq<Image>>,
                  prefix: string, fmtSize: int -> string, ghost rank: map<string, nat>)
    requires Walkable(images, byParent, rank)
    requires AllPrintable(TreeLines(images, |images|, byParent, prefix, rank), noTrunc)
    modifies buffer
    ensures buffer.content ==
      old(buffer.content) + RenderLines(TreeLines(images, |images|, byParent, prefix, rank), noTrunc, fmtSize)
    decreases Height(images, rank)
  {
    if |images| > 1 {
      var length := |images|;
      for index := 0 to length
        invariant AllPrintable(TreeLines(images, index, byParent, prefix, rank), noTrunc)
        invariant buffer.content ==
          old(buffer.content) + RenderLines(TreeLines(images, index, byParent, prefix, rank), noTrunc, fmtSize)
      {
        var image := images[index];
        ghost var done := buffer.content;
        WalkStepPrintable(images, index, byParent, prefix, rank, noTrunc);
        if index + 1 == length {
          PrintTreeNode(buffer, noTrunc, image, prefix + Corner, fmtSize);
          if image.id in byParent {
            WalkTree(buffer, noTrunc, byParent[image.id], byParent, prefix + Blank, fmtSize, rank);
          }
        } else {
          PrintTreeNode(buffer, noTrunc, image, prefix + Branch, fmtSize);
          if image.id in byParent {
            WalkTree(buffer, noTrunc, byParent[image.id], byParent, prefix + Guide, fmtSize, rank);
          }
        }
        StepAppended(done, buffer.content, old(buffer.content), images, index, byParent, prefix, rank, noTrunc, fmtSize);
      }
    } else {
      for index := 0 to |images|
        invariant AllPrintable(TreeLines(images, index, byParent, prefix, rank), noTrunc)
        invariant buffer.content ==
          old(buffer.content) + RenderLines(TreeLines(images, index, byParent, prefix, rank), noTrunc, fmtSize)
      {
        var image := images[index];
        ghost var done := buffer.content;
        WalkStepPrintable(images, index, byParent, prefix, rank, noTrunc);
        PrintTreeNode(buffer, noTrunc, image, prefix + Corner, fmtSize);
        if image.id in byParent {
          WalkTree(buffer, noTrunc, byParent[image.id], byParent, prefix + Blank, fmtSize, rank);
        }
        StepAppended(done, buffer.content, old(buffer.content), images, index, byParent, prefix, rank, noTrunc, fmtSize);
      }
    }
  }

  /** The list the walk starts from: the start image alone when a selector
      is given, the roots otherwise. */
  function StartList(images: seq<Image>, arg: string): seq<Image>
  {
    if arg != "" then [FindStart(images, arg)] else Roots(images)
  }

  /** A printable start image is a real image of the collection. */
  lemma StartListMembers(images: seq<Image>, arg: string, noTrunc: bool)
    requires arg != "" ==> Printable(FindStart(images, arg), noTrunc)
    ensures forall x :: x in StartList(images, arg) ==> x in images
  {
  }

  /** An acyclic parent relation is enough for the walk to terminate from
      any start list of images of the collection. */
  lemma AcyclicWalkable(images: seq<Image>, arg: string, noTrunc: bool, rank: map<string, nat>)
    requires AcyclicBy(images, rank)
    requires arg != "" ==> Printable(FindStart(images, arg), noTrunc)
    ensures Walkable(StartList(images, arg), ByParent(images), rank)
  {
    StartListMembers(images, arg, noTrunc);
    ByParentRanked(images, rank);
  }

  /** What jsonToTree needs of its input. Go checks none of it: a cycle
      reached by the walk recurses forever, and a short id, a nil tag list or
      an unmatched selector (the zero Image) panics. A cycle the walk never
      reaches is allowed: it need not be ranked. */
  ghost predicate TreeReady(images: seq<Image>, arg: string, noTrunc: bool, rank: map<string, nat>)
  {
    && Walkable(StartList(images, arg), ByParent(images), rank)
    && (arg != "" ==> TruncateSafe(images, arg) && Printable(FindStart(images, arg), noTrunc))
    && AllPrintable(TreeLines(StartList(images, arg), |StartList(images, arg)|, ByParent(images), "", rank), noTrunc)
  }

  /** The lines of the rendered tree. */
  ghost function TreeOf(images: seq<Image>, arg: string, noTrunc: bool, rank: map<string, nat>): seq<Line>
    requires TreeReady(images, arg, noTrunc, rank)
  {
    TreeLines(StartList(images, arg), |StartList(images, arg)|, ByParent(images), "", rank)
  }

  /** jsonToTree: the hierarchy builder's pass, then the walk from the start
      image, or from the roots when there is no selector. */
  method JsonToTree(images: seq<Image>, startImageArg: string, noTrunc: bool, fmtSize: int -> string,
                    ghost rank: map<string, nat>) returns (out: string)
    requires TreeReady(images, startImageArg, noTrunc, rank)
    ensures out == RenderLines(TreeOf(images, startImageArg, noTrunc, rank), noTrunc, fmtSize)
  {
    var buffer := new Buffer();
    assert buffer.content == "";
    var roots, byParent, startImage := BuildHierarchy(images, startImageArg);
    if startImageArg != "" {
      WalkTree(buffer, noTrunc, [startImage], byParent, "", fmtSize, rank);
    } else {
      WalkTree(buffer, noTrunc, roots, byParent, "", fmtSize, rank);
    }
    assert StartList(images, startImageArg) == if startImageArg != "" then [startImage] else roots;
    out := buffer.content;
  }
}
