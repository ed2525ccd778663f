/** The image record and the small pure helpers every renderer uses. */
module Images {

  /** One image as listed by the engine. Go's int64 sizes are unbounded here. */
  datatype Image = Image(
    id: string,
    parentId: string,
    repoTags: seq<string>,
    virtualSize: int,
    size: int,
    created: int)

  datatype Option<T> = None | Some(value: T)

  datatype Result<T> = Ok(value: T) | Err(msg: string)

  /** The tag the engine reports for an image that has no tag. */
  const Sentinel: string := "<none>:<none>"

  /** Length of a shortened image id. */
  const ShortIdLength: nat := 12

  /** Go's zero `Image`: empty id, no parent, nil tag list. */
  const ZeroImage: Image := Image("", "", [], 0, 0, 0)

  /** truncate: the display form of an id is its first 12 characters. */
  function Truncate(id: string): (r: string)
    requires |id| >= ShortIdLength
    ensures |r| == ShortIdLength && r <= id
  {
    id[..ShortIdLength]
  }

  /** Shortening is the identity on a 12-character id, hence idempotent. */
  lemma TruncateIdempotent(id: string)
    requires |id| >= ShortIdLength
    ensures Truncate(Truncate(id)) == Truncate(id)
    ensures |id| == ShortIdLength ==> Truncate(id) == id
  {
  }

  /** The first tag is a real tag (the renderers test index 0 only). */
  predicate IsTagged(img: Image)
    requires |img.repoTags| > 0
  {
    img.repoTags[0] != Sentinel
  }

  /** What a tree line needs of its image: a tag list, and an id that can be
      shortened unless ids are shown in full. */
  predicate Printable(img: Image, noTrunc: bool)
  {
    |img.repoTags| > 0 && (noTrunc || |img.id| >= ShortIdLength)
  }

  /** The parent key of an image ("" for a root). */
  function ParentOf(img: Image): string
  {
    img.parentId
  }
}
