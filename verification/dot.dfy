/** jsonToDot: the image lineage as a Graphviz digraph. Every image gives one
    edge (from the invisible `base` node for a root, from its parent
    otherwise) and, when tagged, one style line carrying its tags. */
module Dot {
  import opened Images
  import opened Seqs
  import opened Hierarchy
  import opened Output

  const Header: string := "digraph docker {\n"
  const Footer: string := " base [style=invisible]\n}\n"

  /** One output line of the digraph, before rendering. */
  datatype DotLine =
    | BaseEdge(id: string)
    | ParentEdge(parent: string, id: string)
    | Style(id: string, tags: seq<string>)

  /** What jsonToDot demands of every image: a tag list, a shortenable id and,
      for a non-root, a shortenable parent id. */
  predicate DotSafe(images: seq<Image>)
  {
    forall x :: x in images ==>
      |x.repoTags| > 0 && |x.id| >= ShortIdLength && (x.parentId != "" ==> |x.parentId| >= ShortIdLength)
  }

  /** The edge of one image. */
  function Edge(img: Image): DotLine
    requires |img.id| >= ShortIdLength && (img.parentId != "" ==> |img.parentId| >= ShortIdLength)
  {
    if img.parentId == "" then BaseEdge(Truncate(img.id))
    else ParentEdge(Truncate(img.parentId), Truncate(img.id))
  }

  /** The lines of one image: its edge, then its style line when tagged. */
  function ImageLines(img: Image): seq<DotLine>
    requires DotSafe([img])
  {
    assert img in [img];
    [Edge(img)] + if IsTagged(img) then [Style(Truncate(img.id), img.repoTags)] else []
  }

  lemma DotSafeSlice(images: seq<Image>, n: nat)
    requires DotSafe(images) && n <= |images|
    ensures DotSafe(images[..n])
    ensures n < |images| ==> DotSafe([images[n]])
  {
    if n < |images| {
      assert images[n] in images;
    }
  }

  /** The lines of all images, in input order. */
  function DotLines(images: seq<Image>): seq<DotLine>
    requires DotSafe(images)
  {
    if images == [] then []
    else
      DotSafeSlice(images, |images| - 1);
      DotLines(images[..|images| - 1]) + ImageLines(images[|images| - 1])
  }

  function Render(l: DotLine): string
  {
    match l
    case BaseEdge(id) => " base -> \"" + id + "\" [style=invis]\n"
    case ParentEdge(parent, id) => " \"" + parent + "\" -> \"" + id + "\"\n"
    case Style(id, tags) =>
      " \"" + id + "\" [label=\"" + id + "\\n" + Join(tags, "\\n")
      + "\",shape=box,fillcolor=\"paleturquoise\",style=\"filled,rounded\"];\n"
  }

  /** The whole digraph. */
  function Dot(images: seq<Image>): string
    requires DotSafe(images)
  {
    Header + ConcatMap(DotLines(images), Render) + Footer
  }

  /** One iteration of jsonToDot's loop: the image's edge, then its style
      line when its first tag is not the sentinel. */
  method WriteImage(buffer: Buffer, image: Image)
    requires DotSafe([image])
    modifies buffer
    ensures buffer.content == old(buffer.content) + ConcatMap(ImageLines(image), Render)
  {
    assert image in [image];
    ghost var before := buffer.content;
    ghost var edge := [Edge(image)];
    assert ConcatMap(edge, Render) == Render(Edge(image)) by {
      assert edge[..0] == [];
    }
    var edgeText;
    if image.parentId == "" {
      edgeText := " base -> \"" + Truncate(image.id) + "\" [style=invis]\n";
    } else {
      edgeText := " \"" + Truncate(image.parentId) + "\" -> \"" + Truncate(image.id) + "\"\n";
    }
    assert edgeText == ConcatMap(edge, Render);
    buffer.WriteString(edgeText);
    if image.repoTags[0] != Sentinel {
      var styleText := " \"" + Truncate(image.id) + "\" [label=\"" + Truncate(image.id) + "\\n"
                       + Join(image.repoTags, "\\n")
                       + "\",shape=box,fillcolor=\"paleturquoise\",style=\"filled,rounded\"];\n";
      ghost var style := [Style(Truncate(image.id), image.repoTags)];
      assert styleText == ConcatMap(style, Render) by {
        assert style[..0] == [];
      }
      buffer.WriteString(styleText);
      assert ImageLines(image) == edge + style;
      ConcatMapAppend(edge, style, Render);
      AppendAssoc(before, edgeText, styleText);
    } else {
      assert ImageLines(image) == edge;
    }
  }

  /** jsonToDot: header, then per image its edge and its style line, then the
      footer, all appended to one buffer. */
  method JsonToDot(images: seq<Image>) returns (out: string)
    requires DotSafe(images)
    ensures out == Dot(images)
  {
    var buffer := new Buffer();
    buffer.WriteString("digraph docker {\n");
    for i := 0 to |images|
      invariant buffer.content == Header + ConcatMap(DotLines(images[..i]), Render)
    {
      var image := images[i];
      DotSafeSlice(images, i);
      assert images[..i + 1][..i] == images[..i];
      assert DotLines(images[..i + 1]) == DotLines(images[..i]) + ImageLines(image);
      ConcatMapAppend(DotLines(images[..i]), ImageLines(image), Render);
      WriteImage(buffer, image);
      AppendAssoc(Header, ConcatMap(DotLines(images[..i]), Render), ConcatMap(ImageLines(image), Render));
    }
    assert images[..|images|] == images;
    buffer.WriteString(" base [style=invisible]\n}\n");
    out := buffer.content;
  }

  predicate IsEdge(l: DotLine)
  {
    !l.Style?
  }

  predicate IsStyle(l: DotLine)
  {
    l.Style?
  }

  /** The lines satisfying `p`, in order. */
  function Keep(lines: seq<DotLine>, p: DotLine -> bool): (r: seq<DotLine>)
    ensures forall i :: 0 <= i < |r| ==> p(r[i])
  {
    if lines == [] then []
    else Keep(lines[..|lines| - 1], p) + if p(lines[|lines| - 1]) then [lines[|lines| - 1]] else []
  }

  lemma {:induction false} KeepAppend(a: seq<DotLine>, b: seq<DotLine>, p: DotLine -> bool)
    ensures Keep(a + b, p) == Keep(a, p) + Keep(b, p)
    decreases |b|
  {
    if b == [] {
      assert a + b == a;
    } else {
      assert (a + b)[..|a + b| - 1] == a + b[..|b| - 1];
      KeepAppend(a, b[..|b| - 1], p);
    }
  }

  predicate IsBase(l: DotLine)
  {
    l.BaseEdge?
  }

  /** The lines of one image that a selection keeps. */
  lemma KeepImage(img: Image, p: DotLine -> bool)
    requires DotSafe([img])
    ensures img in [img]
    ensures Keep(ImageLines(img), p) ==
              (if p(Edge(img)) then [Edge(img)] else []) +
              (if IsTagged(img) && p(Style(Truncate(img.id), img.repoTags)) then [Style(Truncate(img.id), img.repoTags)] else [])
  {
    assert img in [img];
    var edge := [Edge(img)];
    assert Keep(edge, p) == if p(Edge(img)) then [Edge(img)] else [] by {
      assert edge[..0] == [];
    }
    if IsTagged(img) {
      var style := [Style(Truncate(img.id), img.repoTags)];
      assert ImageLines(img) == edge + style;
      KeepAppend(edge, style, p);
      assert style[..0] == [];
    } else {
      assert ImageLines(img) == edge;
    }
  }

  /** Exactly one edge per image, in input order: from `base` to the short id
      for a root, from the short parent id to the short id otherwise. */
  lemma {:induction false} EdgePerImage(images: seq<Image>)
    requires DotSafe(images)
    ensures var edges := Keep(DotLines(images), IsEdge);
            |edges| == |images| &&
            forall i :: 0 <= i < |images| ==>
              edges[i].id == Truncate(images[i].id) &&
              (edges[i].BaseEdge? <==> images[i].parentId == "") &&
              (edges[i].ParentEdge? ==> edges[i].parent == Truncate(images[i].parentId))
  {
    if images != [] {
      var n := |images| - 1;
      var init, last := images[..n], images[n];
      DotSafeSlice(images, n);
      EdgePerImage(init);
      KeepAppend(DotLines(init), ImageLines(last), IsEdge);
      KeepImage(last, IsEdge);
      var before := Keep(DotLines(init), IsEdge);
      var edges := Keep(DotLines(images), IsEdge);
      assert edges == before + [Edge(last)];
      forall i | 0 <= i < |images|
        ensures edges[i].id == Truncate(images[i].id) &&
                (edges[i].BaseEdge? <==> images[i].parentId == "") &&
                (edges[i].ParentEdge? ==> edges[i].parent == Truncate(images[i].parentId))
      {
        if i < n {
          assert edges[i] == before[i];
          assert images[i] == init[i];
        } else {
          assert edges[i] == Edge(last);
          assert images[i] == last;
          assert last in images;
        }
      }
    }
  }

  /** The tagged images, in input order. */
  function Tagged(images: seq<Image>): (r: seq<Image>)
    requires forall x :: x in images ==> |x.repoTags| > 0
    ensures forall x :: x in r ==> x in images
  {
    if images == [] then []
    else
      var last := images[|images| - 1];
      Tagged(images[..|images| - 1]) + if last.repoTags[0] != Sentinel then [last] else []
  }

  /** An image is among the tagged ones exactly when it is an image whose
      first tag is not the sentinel. */
  lemma {:induction false} TaggedMembers(images: seq<Image>, x: Image)
    requires forall x :: x in images ==> |x.repoTags| > 0
    ensures x in Tagged(images) <==> x in images && x.repoTags[0] != Sentinel
  {
    if images != [] {
      var init := images[..|images| - 1];
      TaggedMembers(init, x);
      assert images == init + [images[|images| - 1]];
    }
  }

  /** Exactly one style line per tagged image and none for the others, in
      input order, each labelled with the short id and all the tags. */
  lemma {:induction false} StylePerTagged(images: seq<Image>)
    requires DotSafe(images)
    ensures var styles := Keep(DotLines(images), IsStyle);
            var tagged := Tagged(images);
            |styles| == |tagged| &&
            forall i :: 0 <= i < |tagged| ==>
              styles[i] == Style(Truncate(tagged[i].id), tagged[i].repoTags)
  {
    if images != [] {
      var n := |images| - 1;
      var init, last := images[..n], images[n];
      DotSafeSlice(images, n);
      StylePerTagged(init);
      KeepAppend(DotLines(init), ImageLines(last), IsStyle);
      KeepImage(last, IsStyle);
      assert images == init + [last];
    }
  }

  /** `bases` are the `base` edges of `roots`, one for one and in order. */
  predicate BasesOf(bases: seq<DotLine>, roots: seq<Image>)
  {
    |bases| == |roots| &&
    forall i :: 0 <= i < |bases| ==>
      |roots[i].id| >= ShortIdLength && bases[i] == BaseEdge(Truncate(roots[i].id))
  }

  lemma BasesOfAppend(b1: seq<DotLine>, r1: seq<Image>, b2: seq<DotLine>, r2: seq<Image>)
    requires BasesOf(b1, r1) && BasesOf(b2, r2)
    ensures BasesOf(b1 + b2, r1 + r2)
  {
    forall i | 0 <= i < |b1 + b2|
      ensures |(r1 + r2)[i].id| >= ShortIdLength && (b1 + b2)[i] == BaseEdge(Truncate((r1 + r2)[i].id))
    {
      if i >= |b1| {
        assert (b1 + b2)[i] == b2[i - |b1|] && (r1 + r2)[i] == r2[i - |r1|];
      }
    }
  }

  /** The `base` edge of one image, if it is a root. */
  lemma BaseOfImage(img: Image)
    requires DotSafe([img])
    ensures BasesOf(Keep(ImageLines(img), IsBase), if img.parentId == "" then [img] else [])
  {
    KeepImage(img, IsBase);
  }

  /** The `base` edges are the roots' edges: one per root, in input order. */
  lemma {:induction false} BaseEdgesAreRoots(images: seq<Image>)
    requires DotSafe(images)
    ensures BasesOf(Keep(DotLines(images), IsBase), Roots(images))
  {
    if images != [] {
      var n := |images| - 1;
      var init, last := images[..n], images[n];
      DotSafeSlice(images, n);
      BaseEdgesAreRoots(init);
      BaseOfImage(last);
      assert images == init + [last];
      assert DotLines(images) == DotLines(init) + ImageLines(last);
      KeepAppend(DotLines(init), ImageLines(last), IsBase);
      ChildrenSnoc(init, last, "");
      BasesOfAppend(Keep(DotLines(init), IsBase), Roots(init),
                    Keep(ImageLines(last), IsBase), if last.parentId == "" then [last] else []);
    }
  }
}
