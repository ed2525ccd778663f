/** The hierarchy builder of jsonToTree: roots, the parent-to-children index,
    and the start image picked by the tree selector. */
module Hierarchy {
  import opened Images
  import opened Seqs

  /** The images whose parent id is `p`, in input order. */
  function ChildrenOf(images: seq<Image>, p: string): seq<Image>
  {
    Filter(images, ParentOf, p)
  }

  /** Images with an empty parent id, in input order. */
  function Roots(images: seq<Image>): seq<Image>
  {
    ChildrenOf(images, "")
  }

  /** The non-empty parent ids that occur in the collection. */
  function ParentIds(images: seq<Image>): set<string>
  {
    set x | x in images && x.parentId != "" :: x.parentId
  }

  /** The index byParent: every occurring non-empty parent id maps to its
      children in input order; roots are not in it. */
  function ByParent(images: seq<Image>): map<string, seq<Image>>
  {
    map p | p in ParentIds(images) :: ChildrenOf(images, p)
  }

  /** Grouping puts every image in exactly one place: in the roots when its
      parent id is empty, otherwise in the bucket of its parent id, and in no
      other bucket, as often as it occurs in the input. */
  lemma GroupingPartition(images: seq<Image>, x: Image)
    ensures multiset(Roots(images))[x] == if x.parentId == "" then multiset(images)[x] else 0
    ensures x in images && x.parentId != "" ==> x.parentId in ByParent(images)
    ensures forall p :: p in ByParent(images) ==>
              multiset(ByParent(images)[p])[x] == if x.parentId == p then multiset(images)[x] else 0
  {
    FilterCount(images, ParentOf, "", x);
    forall p | p in ByParent(images)
      ensures multiset(ByParent(images)[p])[x] == if x.parentId == p then multiset(images)[x] else 0
    {
      FilterCount(images, ParentOf, p, x);
    }
  }

  /** A non-empty parent id that some image names is a key of the index. */
  lemma ChildrenHaveKey(images: seq<Image>, p: string)
    requires p != ""
    ensures ChildrenOf(images, p) != [] ==> p in ByParent(images)
  {
    if ChildrenOf(images, p) != [] {
      var c := ChildrenOf(images, p)[0];
      assert c in images && c.parentId == p;
    }
  }

  /** Appending an image appends it to the children of its own parent id. */
  lemma ChildrenSnoc(s: seq<Image>, x: Image, p: string)
    ensures ChildrenOf(s + [x], p) == ChildrenOf(s, p) + (if x.parentId == p then [x] else [])
  {
    var t := s + [x];
    assert t[..|t| - 1] == s;
  }

  lemma ParentIdsSnoc(s: seq<Image>, x: Image)
    ensures ParentIds(s + [x]) == ParentIds(s) + (if x.parentId == "" then {} else {x.parentId})
  {
    var t := s + [x];
    forall y | y in t
      ensures y in s || y == x
    {
    }
    assert x in t;
    forall y | y in s
      ensures y in t
    {
    }
  }

  /** One step of the grouping loop: appending an image appends it to the
      bucket of its parent id (creating the bucket if needed), or leaves the
      index unchanged for a root. */
  lemma ByParentSnoc(s: seq<Image>, x: Image)
    ensures ByParent(s + [x]) ==
      if x.parentId == "" then ByParent(s)
      else ByParent(s)[x.parentId := Bucket(ByParent(s), x.parentId) + [x]]
  {
    var t := s + [x];
    var m, m' := ByParent(s), ByParent(t);
    var expected := if x.parentId == "" then m
      else m[x.parentId := Bucket(m, x.parentId) + [x]];
    ParentIdsSnoc(s, x);
    assert m'.Keys == expected.Keys;
    forall p | p in m'
      ensures m'[p] == expected[p]
    {
      ChildrenSnoc(s, x, p);
      if p == x.parentId && p !in m {
        ChildrenHaveKey(s, p);
      }
    }
  }

  /** The grouping step in the form jsonToTree performs it. */
  lemma GroupStep(m: map<string, seq<Image>>, s: seq<Image>, x: Image)
    requires m == ByParent(s)
    ensures ByParent(s + [x]) ==
      if x.parentId == "" then m
      else if x.parentId in m then m[x.parentId := m[x.parentId] + [x]]
      else m[x.parentId := [x]]
  {
    ByParentSnoc(s, x);
    assert [] + [x] == [x];
  }

  /** The parent relation is acyclic, witnessed by a rank that strictly
      decreases from a parent to each of its children. */
  ghost predicate AcyclicBy(images: seq<Image>, rank: map<string, nat>)
  {
    forall x :: x in images ==>
      x.id in rank && (x.parentId in rank ==> rank[x.id] < rank[x.parentId])
  }

  /** The index is ranked: every child of a ranked parent id has a rank, below
      its parent's. Ids left out of the rank are never walked into, so a
      cycle that no ranked id leads to is allowed. */
  ghost predicate RankedIndex(byParent: map<string, seq<Image>>, rank: map<string, nat>)
  {
    forall p, c :: p in byParent && p in rank && c in byParent[p] ==>
      c.id in rank && rank[c.id] < rank[p]
  }

  lemma ByParentRanked(images: seq<Image>, rank: map<string, nat>)
    requires AcyclicBy(images, rank)
    ensures RankedIndex(ByParent(images), rank)
  {
  }

  /** Every image held in the index is an image of the collection and sits
      under its own parent id. */
  lemma ByParentMembers(images: seq<Image>, p: string, c: Image)
    requires p in ByParent(images) && c in ByParent(images)[p]
    ensures c in images && c.parentId == p
  {
  }

  /** jsonToTree's match of the selector against one image: full id, short id,
      or any tag. */
  predicate StartMatch(img: Image, arg: string)
  {
    arg == img.id || (|img.id| >= ShortIdLength && arg == Truncate(img.id)) || arg in img.repoTags
  }

  /** jsonToTree shortens every id it does not match in full. */
  predicate TruncateSafe(images: seq<Image>, arg: string)
  {
    forall x :: x in images ==> arg == x.id || |x.id| >= ShortIdLength
  }

  /** The start image of jsonToTree: the last image that matches, or the
      zero Image when none does. */
  function FindStart(images: seq<Image>, arg: string): (r: Image)
    requires arg != ""
    ensures r == ZeroImage <==> forall i :: 0 <= i < |images| ==> !StartMatch(images[i], arg)
    ensures r != ZeroImage ==> exists i :: 0 <= i < |images| && images[i] == r && StartMatch(r, arg) &&
                                  forall j :: i < j < |images| ==> !StartMatch(images[j], arg)
  {
    if |images| == 0 then ZeroImage
    else if StartMatch(images[|images| - 1], arg) then images[|images| - 1]
    else FindStart(images[..|images| - 1], arg)
  }

  /** The selector test of one iteration of jsonToTree's loop: the image
      replaces the current start image when the selector is its id, its short
      id, or one of its tags. */
  method MatchStart(image: Image, startImageArg: string, current: Image) returns (startImage: Image)
    requires startImageArg == image.id || |image.id| >= ShortIdLength
    ensures startImage == if StartMatch(image, startImageArg) then image else current
  {
    startImage := current;
    if startImageArg == image.id || startImageArg == Truncate(image.id) {
      startImage := image;
    }
    for j := 0 to |image.repoTags|
      invariant startImage == if startImageArg == image.id || startImageArg == Truncate(image.id)
                                  || startImageArg in image.repoTags[..j] then image else current
    {
      if image.repoTags[j] == startImageArg {
        startImage := image;
      }
    }
    assert image.repoTags[..|image.repoTags|] == image.repoTags;
  }

  /** The loop of jsonToTree: one pass appends each image to the roots or to
      the bucket of its parent id, and overwrites the start image whenever the
      selector matches, so the last match wins. */
  method BuildHierarchy(images: seq<Image>, startImageArg: string)
    returns (roots: seq<Image>, byParent: map<string, seq<Image>>, startImage: Image)
    requires startImageArg != "" ==> TruncateSafe(images, startImageArg)
    ensures roots == Roots(images)
    ensures byParent == ByParent(images)
    ensures startImageArg != "" ==> startImage == FindStart(images, startImageArg)
    ensures startImageArg == "" ==> startImage == ZeroImage
  {
    startImage := ZeroImage;
    roots := [];
    byParent := map[];
    for i := 0 to |images|
      invariant roots == Roots(images[..i])
      invariant byParent == ByParent(images[..i])
      invariant startImageArg != "" ==> startImage == FindStart(images[..i], startImageArg)
      invariant startImageArg == "" ==> startImage == ZeroImage
    {
      var image := images[i];
      assert images[..i + 1] == images[..i] + [image];
      ChildrenSnoc(images[..i], image, "");
      assert Roots(images[..i + 1]) == roots + if image.parentId == "" then [image] else [];
      GroupStep(byParent, images[..i], image);
      if image.parentId == "" {
        roots := roots + [image];
      } else {
        if image.parentId in byParent {
          byParent := byParent[image.parentId := byParent[image.parentId] + [image]];
        } else {
          byParent := byParent[image.parentId := [image]];
        }
      }
      if startImageArg != "" {
        assert image in images;
        startImage := MatchStart(image, startImageArg, startImage);
      }
    }
    assert images[..|images|] == images;
  }
}
