/** The start-selector resolution of the images command: the first argument
    names the image the tree starts from, by an id prefix or by a repository
    name. */
module Resolve {
  import opened Images
  import opened Hierarchy

  const Latest: string := ":latest"

  function HasSuffix(s: string, suffix: string): bool
  {
    |suffix| <= |s| && s[|s| - |suffix|..] == suffix
  }

  /** The repository form of a selector: ":latest" is appended unless the
      selector already ends with it. */
  function RepoSelector(arg: string): (r: string)
    ensures HasSuffix(r, Latest) && arg <= r
    ensures HasSuffix(arg, Latest) <==> r == arg
  {
    if HasSuffix(arg, Latest) then arg else arg + Latest
  }

  /** Appending ":latest" once is enough: the repository form of a repository
      form is itself, so a selector already ending in ":latest" is looked up
      unchanged. */
  lemma RepoSelectorIdempotent(arg: string)
    ensures RepoSelector(RepoSelector(arg)) == RepoSelector(arg)
  {
  }

  /** The selector is a prefix of the image's id (strings.Index(id, arg) == 0). */
  predicate IdHit(img: Image, arg: string)
  {
    arg <= img.id
  }

  /** The image is tagged and one of its tags is the repository form. */
  predicate TagHit(img: Image, repo: string)
    requires |img.repoTags| > 0
  {
    img.repoTags[0] != Sentinel && repo in img.repoTags
  }

  /** The scan stops at this image. */
  predicate Hit(img: Image, arg: string)
  {
    IdHit(img, arg) || (|img.repoTags| > 0 && TagHit(img, RepoSelector(arg)))
  }

  /** What the scan demands: every image it looks at past the id test has a
      tag list (the scan reads the first tag without checking). */
  predicate ScanSafe(images: seq<Image>, arg: string)
    decreases |images|
  {
    images == [] || IdHit(images[0], arg) ||
    (|images[0].repoTags| > 0 && (TagHit(images[0], RepoSelector(arg)) || ScanSafe(images[1..], arg)))
  }

  /** No image before position `i` hits. */
  predicate NoHitBefore(images: seq<Image>, arg: string, i: nat)
    requires i <= |images|
  {
    forall j :: 0 <= j < i ==> !Hit(images[j], arg)
  }

  /** The position where the scan stops, if any. */
  function FirstHit(images: seq<Image>, arg: string): (r: Option<nat>)
    ensures r.Some? ==> r.value < |images| && Hit(images[r.value], arg) &&
                        forall j :: 0 <= j < r.value ==> !Hit(images[j], arg)
    ensures r.None? <==> forall j :: 0 <= j < |images| ==> !Hit(images[j], arg)
    decreases |images|
  {
    if images == [] then None
    else if Hit(images[0], arg) then Some(0)
    else match FirstHit(images[1..], arg)
      case None => None
      case Some(k) => Some(k + 1)
  }

  /** The value the scan leaves in the start image when it stops at `img`:
      the selector itself on an id prefix, the image's id on a tag. */
  function Resolved(img: Image, arg: string): string
  {
    if IdHit(img, arg) then arg else img.id
  }

  function NotFound(arg: string): string
  {
    "Unable to find image " + arg + "."
  }

  /** The first hit is the only hit with no hit before it. */
  lemma FirstHitIs(images: seq<Image>, arg: string)
    ensures forall i :: 0 <= i < |images| && Hit(images[i], arg) && NoHitBefore(images, arg, i) ==>
              FirstHit(images, arg) == Some(i)
  {
    forall i | 0 <= i < |images| && Hit(images[i], arg) && NoHitBefore(images, arg, i)
      ensures FirstHit(images, arg) == Some(i)
    {
      var k := FirstHit(images, arg).value;
      assert !(k < i) && !(i < k);
    }
  }

  /** Resolution as the command performs it: no argument starts from the
      roots (""); otherwise the first hit decides, and an empty result is
      reported as not found. */
  function SelectStart(images: seq<Image>, args: seq<string>): (r: Result<string>)
    ensures args == [] ==> r == Ok("")
    ensures r.Err? ==> args != [] && r.msg == NotFound(args[0])
    ensures args != [] && r.Ok? ==>
              r.value != "" &&
              (exists i :: 0 <= i < |images| && Hit(images[i], args[0]) && (r.value == args[0] || r.value == images[i].id))
    ensures args != [] && (forall i :: 0 <= i < |images| ==> !Hit(images[i], args[0])) ==> r == Err(NotFound(args[0]))
    ensures args != [] ==>
              forall i :: 0 <= i < |images| && Hit(images[i], args[0]) && NoHitBefore(images, args[0], i) ==>
                r == if Resolved(images[i], args[0]) == "" then Err(NotFound(args[0]))
                     else Ok(Resolved(images[i], args[0]))
  {
    if args == [] then Ok("")
    else
      FirstHitIs(images, args[0]);
      match FirstHit(images, args[0])
      case None => Err(NotFound(args[0]))
      case Some(k) =>
        var s := Resolved(images[k], args[0]);
        if s == "" then Err(NotFound(args[0])) else Ok(s)
  }

  /** The labelled scan `IMAGES`: images in order, the id test first, then the
      tags of a tagged image against the repository form; the first hit stops
      the whole scan. */
  method ScanImages(images: seq<Image>, startImageArg: string) returns (hit: Option<nat>)
    requires ScanSafe(images, startImageArg)
    ensures hit == FirstHit(images, startImageArg)
  {
    var startImageRepo := startImageArg;
    if !HasSuffix(startImageRepo, Latest) {
      startImageRepo := startImageRepo + Latest;
    }
    hit := None;
    var i := 0;
    label Scan:
    while i < |images|
      invariant 0 <= i <= |images|
      invariant ScanSafe(images[i..], startImageArg)
      invariant forall j :: 0 <= j < i ==> !Hit(images[j], startImageArg)
      invariant hit == None
    {
      var image := images[i];
      if startImageArg <= image.id {
        hit := Some(i);
        break Scan;
      }
      if image.repoTags[0] != Sentinel {
        var t := 0;
        while t < |image.repoTags|
          invariant 0 <= t <= |image.repoTags|
          invariant startImageRepo !in image.repoTags[..t]
        {
          if image.repoTags[t] == startImageRepo {
            hit := Some(i);
            break Scan;
          }
          t := t + 1;
        }
        assert image.repoTags[..t] == image.repoTags;
      }
      assert images[i..][1..] == images[i + 1..];
      i := i + 1;
    }
  }

  /** The command's resolution, as written. */
  method ResolveStart(images: seq<Image>, args: seq<string>) returns (r: Result<string>)
    requires args != [] ==> ScanSafe(images, args[0])
    ensures r == SelectStart(images, args)
  {
    var startImage := "";
    if |args| > 0 {
      var startImageArg := args[0];
      var hit := ScanImages(images, startImageArg);
      if hit.Some? {
        startImage := Resolved(images[hit.value], startImageArg);
      }
      if startImage == "" {
        return Err(NotFound(startImageArg));
      }
    }
    r := Ok(startImage);
  }

  /** As written, an id prefix shorter than 12 characters resolves to the
      prefix itself, which the tree builder does not match: it starts from the
      zero image, which has no tags to print. */
  lemma ShortPrefixLost()
    ensures var img := Image("0123456789abcdef", "", ["r:latest"], 0, 0, 0);
            SelectStart([img], ["0123"]) == Ok("0123") &&
            FindStart([img], "0123") == ZeroImage &&
            !Printable(FindStart([img], "0123"), false) && !Printable(FindStart([img], "0123"), true)
  {
    var img := Image("0123456789abcdef", "", ["r:latest"], 0, 0, 0);
    assert "0123" <= img.id;
    assert FirstHit([img], "0123") == Some(0);
    assert Truncate(img.id) == "0123456789ab";
    assert !StartMatch(img, "0123");
  }

  /** The corrected resolution: any hit resolves to the id of the image hit. */
  function SelectStartFixed(images: seq<Image>, args: seq<string>): (r: Result<string>)
    ensures args == [] ==> r == Ok("")
    ensures r.Err? ==> args != [] && r.msg == NotFound(args[0])
    ensures args != [] && r.Ok? ==>
              (exists i :: 0 <= i < |images| && Hit(images[i], args[0]) && r.value == images[i].id != "")
    ensures args != [] && (forall i :: 0 <= i < |images| ==> !Hit(images[i], args[0])) ==> r == Err(NotFound(args[0]))
    ensures args != [] ==>
              forall i :: 0 <= i < |images| && Hit(images[i], args[0]) && NoHitBefore(images, args[0], i) ==>
                r == if images[i].id == "" then Err(NotFound(args[0])) else Ok(images[i].id)
  {
    if args == [] then Ok("")
    else
      FirstHitIs(images, args[0]);
      match FirstHit(images, args[0])
      case None => Err(NotFound(args[0]))
      case Some(k) => if images[k].id == "" then Err(NotFound(args[0])) else Ok(images[k].id)
  }

  method ResolveStartFixed(images: seq<Image>, args: seq<string>) returns (r: Result<string>)
    requires args != [] ==> ScanSafe(images, args[0])
    ensures r == SelectStartFixed(images, args)
  {
    var startImage := "";
    if |args| > 0 {
      var startImageArg := args[0];
      var hit := ScanImages(images, startImageArg);
      if hit.Some? {
        startImage := images[hit.value].id;
      }
      if startImage == "" {
        return Err(NotFound(startImageArg));
      }
    }
    r := Ok(startImage);
  }

  /** With the correction, a resolved selector is always found again by the
      tree builder, and when every image has a tag list and a shortenable id
      the start image can be printed. */
  lemma FixedStartFound(images: seq<Image>, args: seq<string>, s: string, noTrunc: bool)
    requires args != [] && SelectStartFixed(images, args) == Ok(s)
    ensures s != "" && StartMatch(FindStart(images, s), s) && FindStart(images, s) in images
    ensures (forall x :: x in images ==> |x.repoTags| > 0 && |x.id| >= ShortIdLength) ==>
              TruncateSafe(images, s) && Printable(FindStart(images, s), noTrunc)
  {
    var k :| 0 <= k < |images| && Hit(images[k], args[0]) && s == images[k].id != "";
    assert StartMatch(images[k], s);
  }

  /** As written: when the selector hits exactly one image, and its
      resolution matches that image and no other in the tree builder, the
      tree starts from that image. */
  lemma ResolvesTo(images: seq<Image>, k: nat, arg: string)
    requires k < |images| && Hit(images[k], arg) && Resolved(images[k], arg) != ""
    requires StartMatch(images[k], Resolved(images[k], arg))
    requires forall i :: 0 <= i < |images| && i != k ==>
               !Hit(images[i], arg) && !StartMatch(images[i], Resolved(images[k], arg))
    ensures SelectStart(images, [arg]) == Ok(Resolved(images[k], arg))
    ensures FindStart(images, Resolved(images[k], arg)) == images[k]
  {
    FirstHitIs(images, arg);
    assert NoHitBefore(images, arg, k);
    var r := FindStart(images, Resolved(images[k], arg));
    assert r != ZeroImage;
    var i :| 0 <= i < |images| && images[i] == r && StartMatch(r, Resolved(images[k], arg));
    assert i == k;
  }

  /** As written, a full id selects its image when no other image is hit by
      it or matched by it. */
  lemma FullIdSelects(images: seq<Image>, k: nat)
    requires k < |images| && images[k].id != ""
    requires forall i :: 0 <= i < |images| && i != k ==>
               !Hit(images[i], images[k].id) && !StartMatch(images[i], images[k].id)
    ensures SelectStart(images, [images[k].id]) == Ok(images[k].id)
    ensures FindStart(images, images[k].id) == images[k]
  {
    ResolvesTo(images, k, images[k].id);
  }

  /** As written, the 12-character short id selects its image when no other
      image is hit by it or matched by it. */
  lemma ShortIdSelects(images: seq<Image>, k: nat)
    requires k < |images| && |images[k].id| >= ShortIdLength
    requires forall i :: 0 <= i < |images| && i != k ==>
               !Hit(images[i], Truncate(images[k].id)) && !StartMatch(images[i], Truncate(images[k].id))
    ensures SelectStart(images, [Truncate(images[k].id)]) == Ok(Truncate(images[k].id))
    ensures FindStart(images, Truncate(images[k].id)) == images[k]
  {
    ResolvesTo(images, k, Truncate(images[k].id));
  }

  /** As written, a repository name selects a tagged image carrying its
      ":latest" form, when the name is no prefix of the image's id and no
      other image is hit by it or matched by the image's id. */
  lemma RepoNameSelects(images: seq<Image>, k: nat, name: string)
    requires k < |images| && images[k].id != "" && !(name <= images[k].id)
    requires |images[k].repoTags| > 0 && IsTagged(images[k]) && RepoSelector(name) in images[k].repoTags
    requires forall i :: 0 <= i < |images| && i != k ==>
               !Hit(images[i], name) && !StartMatch(images[i], images[k].id)
    ensures SelectStart(images, [name]) == Ok(images[k].id)
    ensures FindStart(images, images[k].id) == images[k]
  {
    ResolvesTo(images, k, name);
  }
}
