# dockviz images: a Dafny model of the image-lineage renderer

dockviz's `images` command reads a list of image records. Each record has an
id, a parent id, repository tags and sizes. The command renders the list in
one of three ways:

- a **tree**: a pre-order walk from the roots, or from one start image chosen
  by a selector, drawn with `├─`/`└─` connectors and `│ `/`  ` indents;
- a Graphviz **dot** digraph: one edge per image, plus a style line per
  tagged image;
- a **short** summary: tags grouped by repository, split at their last colon.

This project models that engine from `images.go`. It covers:

- the hierarchy builder and start-image lookup of `jsonToTree`;
- the selector scan of `Execute`;
- `WalkTree` and `PrintTreeNode`;
- `jsonToDot` and `jsonToShort`;
- `truncate`;
- the unit step of `humanSize`.

## Modules

| file | module | what it holds |
|---|---|---|
| `seqs.dfy` | `Seqs` | order-preserving filter by key, Go's `strings.Join`, concatenation of rendered parts |
| `images.dfy` | `Images` | the `Image` record, `Option`/`Result`, the `<none>:<none>` sentinel, `Truncate` |
| `output.dfy` | `Output` | `Buffer`, the growing output of Go's `bytes.Buffer` |
| `hierarchy.dfy` | `Hierarchy` | roots and the `byParent` index (declarative, plus the loop), and the start-image lookup |
| `tree.dfy` | `Tree` | `TreeLines` (the reference walk), `PrintTreeNode`, `WalkTree`, `JsonToTree` |
| `tree_props.dfy` | `TreeProps` | properties of the rendered tree |
| `resolve.dfy` | `Resolve` | the selector scan of `Execute`, as written and corrected |
| `dot.dfy` | `Dot` | the digraph renderer and its per-image properties |
| `short.dfy` | `Short` | the last-colon split, the `byRepo` grouping and the summary |
| `human_size.dfy` | `HumanSize` | the divide-by-1000 loop that picks the unit |
| `command.dfy` | `Command` | the flag dispatch of `Execute` once the list exists |

Go's `bytes.Buffer` is modelled as class `Output.Buffer`:

- every renderer that appends to a buffer is a method with `modifies`;
- its contract ties the new buffer content to a specification function of its inputs;
- the properties are lemmas about those functions.

The loops of the source are loops here too:

- `jsonToTree`'s grouping loop;
- the labelled `IMAGES` scan, with a labelled `break`;
- the nested grouping loops of `jsonToShort`;
- the `humanSize` loop.

### Preconditions the code relies on without checking

These are preconditions of the model. Violating any of them on an image the
renderer actually reaches makes Go panic or recurse forever.

- `RepoTags` is non-empty wherever its first element is read:
  - `Resolve.ScanSafe` covers the scan, for exactly the images the scan reaches past the id test;
  - `Dot.DotSafe` covers every image in dot mode;
  - `Images.Printable` covers every printed tree line.
- Every id that is shortened has at least 12 characters. In dot mode that includes the parent id of every non-root.
- Every non-sentinel tag contains a colon (`Short.TagsSafe`).
- The tree walk reaches no cycle:
  - This is witnessed by a ghost `rank` map. Every image of the start list has a rank, and every child filed under a ranked id has a rank below it (`Hierarchy.RankedIndex`, `Tree.Walkable`).
  - Images the walk never reaches need no rank, so a cycle that no root leads to is allowed (`TreeProps.UnreachedCycle`). An acyclic parent relation is one way to meet the requirement (`Tree.AcyclicWalkable`).
  - The recursion of `WalkTree` decreases the largest rank in its list (`Tree.Height`).
  - There is no cycle check, as in Go.

### Selectors with a tag

The scan appends `:latest` to the selector whenever it does not already end
in `:latest` (images.go:100-102). So `repo:1.0` is looked up as
`repo:1.0:latest` and never matches a tag (`Resolve.RepoSelector`).

## Model

| member | source | states |
|---|---|---|
| Images.Truncate | images.go:238-240 | requires an id of at least 12 characters; the result is exactly its first 12 characters (length 12 and a prefix of the id) |
| Images.TruncateIdempotent | images.go:238-240 | shortening a shortened id changes nothing, and a 12-character id is its own short form |
| Seqs.FilterCount | images.go:143-154 | an element lands in the bucket of its own key as often as it occurs in the input, and in no other bucket |
| Hierarchy.GroupingPartition | images.go:143-154 | every image is in the roots exactly when its parent id is empty, otherwise in the bucket of its parent id; it sits in no other bucket, once per occurrence in the input; the bucket key exists |
| Hierarchy.ByParentSnoc | images.go:149-153 | appending an image to the input appends it to the end of its parent's bucket, creating the bucket when missing; a root leaves the index unchanged |
| Hierarchy.FindStart | images.go:156-166 | with a non-empty selector, the start image is the zero Image exactly when no image matches by full id, short id or tag; otherwise it is a matching image after which no image matches (the last match wins) |
| Hierarchy.MatchStart | images.go:157-165 | one iteration of the selector test: the image replaces the current start image exactly when the selector is its id, its short id or one of its tags |
| Hierarchy.BuildHierarchy | images.go:141-167 | the loop yields exactly the roots in input order, the declarative `byParent` index, and the last matching start image (the zero Image without a selector) |
| Tree.PrintTreeNode | images.go:204-217 | appends exactly one node line: prefix, id (full or shortened), " Virtual Size: ", the size text, then " Tags: " and the tags joined by ", " when the first tag is not the sentinel, then a newline |
| Tree.WalkTree | images.go:178-202 | both Go branches append exactly the reference walk `TreeLines`: each image in list order, its line before its children's subtree, corner/blank for the last sibling and branch/guide otherwise, nothing below an image without an index entry |
| Tree.JsonToTree | images.go:138-176 | the rendered text is the walk from the single start image when a selector is given, from the roots otherwise |
| TreeProps.SiblingsInOrder | images.go:179-201 | the lines directly under a prefix are the list's images, each once and in list order; the last gets `└─` and every other one `├─`; every subtree line sits deeper |
| TreeProps.TreeLinesPrefixes | images.go:183-198 | every line's prefix is the starting prefix followed only by box-drawing characters, and at least one connector longer |
| TreeProps.TreeLinesOrigin | images.go:170-198 | every printed image is an image of the collection, and it is either in the starting list or the child of an existing image |
| TreeProps.OrphanNeverPrinted | images.go:143-154 | in the forest render, an image whose non-empty parent id is no image's id is never printed |
| TreeProps.WalkShows | images.go:178-202 | the walk prints every image of its list, and with every printed image that has an index entry it prints all children filed there |
| TreeProps.ReachablePrinted | images.go:138-202 | the forest render prints every image whose parent chain reaches a root |
| TreeProps.UnreachedCycle | images.go:143-202 | a root beside two images that are each other's parent meets the renderer's requirement, and the forest render is the root's line alone |
| Tree.AcyclicWalkable | images.go:178-202 | an acyclic parent relation is enough for the walk from the start list to terminate |
| TreeProps.NodeLineIsOneLine | images.go:212-216 | a node line ends in a newline and holds no other |
| TreeProps.TreeLineCount | images.go:138-217 | the rendered tree has exactly as many newlines as printed images |
| Resolve.RepoSelector | images.go:98-102 | the repository form always ends in ":latest" and extends the selector; it equals the selector exactly when the selector already ends in ":latest" |
| Resolve.RepoSelectorIdempotent | images.go:98-102 | appending ":latest" once is enough: the repository form of a repository form is itself |
| Resolve.FirstHit | images.go:104-121 | the scan stops at an image that hits, with no hit before it; it finds nothing exactly when no image hits |
| Resolve.SelectStart | images.go:89-126 | no argument resolves to ""; when the first hit is at position i, the result is the resolution of that image (the selector on an id prefix, the id on a tag), or "Unable to find image <arg>." when that is empty; no hit gives that error; an error always carries that message |
| Resolve.ScanImages | images.go:104-121 | the labelled scan with the id test first and the tag loop of tagged images returns the first hit |
| Resolve.ResolveStart | images.go:89-126 | the command's resolution, as written, is `SelectStart` |
| Resolve.ShortPrefixLost | images.go:107-108 | an id prefix such as "0123" of "0123456789abcdef" resolves to "0123", which the tree builder does not find; it then starts from the zero Image, which cannot be printed |
| Resolve.SelectStartFixed | images.go:89-126 | the corrected resolution: when the first hit is at position i, the result is that image's id, or the not-found error when the id is empty; no hit gives the error |
| Resolve.ResolveStartFixed | images.go:89-126 | the corrected scan computes `SelectStartFixed` |
| Resolve.FixedStartFound | images.go:89-176 | after the correction, a resolved selector is matched by the tree builder; with well-formed images its start image can be printed |
| Resolve.ResolvesTo | images.go:104-126 | as written, when the selector hits exactly one image and its resolution matches that image and no other in the tree builder (images.go:157-165), the command resolves to it and the tree starts from that image |
| Resolve.FullIdSelects | images.go:104-126 | as written, a full id that no other image is hit or matched by resolves to itself and starts the tree from its image |
| Resolve.ShortIdSelects | images.go:104-126 | as written, the 12-character short id that no other image is hit or matched by resolves to itself and starts the tree from its image |
| Resolve.RepoNameSelects | images.go:96-126 | as written, a repository name that is no prefix of the image's id, whose ":latest" form the tagged image carries, resolves to the image's id and starts the tree from that image, when no other image is hit by the name or matched by the id |
| Dot.WriteImage | images.go:260-267 | one iteration of the loop appends the image's edge line, then its style line when the first tag is not the sentinel |
| Dot.JsonToDot | images.go:254-273 | the output is the header, then each image's edge and (if tagged) style line in input order, then the footer |
| Dot.EdgePerImage | images.go:259-264 | exactly one edge per image, in input order: `base` to the short id for a root, short parent id to short id otherwise |
| Dot.StylePerTagged | images.go:265-267 | exactly one style line per image whose first tag is not the sentinel, in input order, carrying the short id and all the tags; none for the others |
| Dot.BaseEdgesAreRoots | images.go:260-261 | the `base` edges are exactly the roots' edges, in input order |
| Dot.TaggedMembers | images.go:265 | an image is among the styled ones exactly when its first tag is not the sentinel |
| Short.LastColon | images.go:286 | the index of the last colon: a colon sits there and none after it, and it is -1 exactly when there is no colon |
| Short.SplitRepoTag | images.go:286-288 | repository name + ":" + tag name gives back the tag, and the tag name holds no colon |
| Short.SplitUnique | images.go:286-288 | that split is the only one whose tag name holds no colon |
| Short.SplitExample | images.go:286-288 | "registry:5000/repo:1.0" splits into "registry:5000/repo" and "1.0" |
| Short.ByRepoSnoc | images.go:290-294 | one grouping step appends the tag name to its repository's bucket, creating the bucket when missing |
| Short.AddTags | images.go:281-296 | the inner loop over one image's tags grows the index exactly by that image's entries |
| Short.GroupTags | images.go:278-297 | the nested loops build exactly the declarative `byRepo` index of all entries |
| Short.JsonToShort | images.go:275-304 | the output is one "repo: tags joined by ', '" line per repository, in the given iteration order |
| Short.EntriesOfAllTags | images.go:280-296 | every tag other than the sentinel gives exactly one entry, its last-colon split, in encounter order; sentinel tags give none |
| Short.ByRepoPartition | images.go:278-297 | a repository is a key exactly when some entry names it; its bucket holds each tag name as often as that (repository, tag) entry occurs |
| HumanSize.UnitIndexBounds | images.go:220-235 | the number of divisions k satisfies 1000^k <= raw < 1000^(k+1) (k = 0 below 1000) |
| HumanSize.UnitInRange | images.go:221-235 | the unit index is within the five-entry table exactly when the count is below 10^15 |
| HumanSize.ScaledMeaning | images.go:220-235 | dividing by 1000 while the value is at least 1000 leaves a value below 1000 that, times 1000 to the unit index, gives back the value |
| HumanSize.Scale | images.go:220-235 | the loop leaves the reference value `Scaled` of the count, below 1000, together with the unit name at the unit index, or None past the table |
| HumanSize.ScaleMeaning | images.go:220-235 | the value humanSize prints times 1000 to the unit index is the count itself |
| Command.Execute | images.go:85-133 | dispatch in the order dot, tree, short; the tree mode resolves its selector with the scan as written and renders from that start; no mode gives "Please specify either --dot, --tree, or --short" |
| Command.ExecuteFixed | images.go:85-133 | the same dispatch with the corrected selector resolution |
| Command.ModeChoice | images.go:85-133 | without a mode flag the outcome is the "Please specify" error; with the dot flag it is always a success |
| Command.UnknownSelector | images.go:104-125 | in tree mode a selector no image hits gives "Unable to find image <arg>.", and both resolutions agree on it |
| Command.ShortPrefixNotReady | images.go:104-128 | as written, the tree mode with the selector "0123" on image "0123456789abcdef" cannot meet the renderer's requirement (Go panics there) |

## Left out

- Input and output of `Execute` are left out: stdin detection and reading, `connect`, `ListImages`, the `IN_DOCKER` message, and `fmt.Printf` (images.go:36-83, 86, 128, 130). The command's text is returned instead of printed.
- `Command.Execute`: does not model that Go passes the rendered text to `fmt.Printf` as a format string, so a `%` in an id or tag would be reinterpreted.
- `parseImagesJSON` (images.go:242-252) and the `init` registration (images.go:306-311) are thin wrappers over foreign libraries.
- `Tree.PrintTreeNode`: the size text comes from the parameter `fmtSize`, so the tree renderer does not model that `humanSize` panics for a virtual size of 10^15 or more by indexing past its five-entry unit table (images.go:235). `HumanSize.Scale` returns None there, and `HumanSize.UnitInRange` states the bound.
- `humanSize`'s number formatting (`%.01f` of a float64) is left out. The renderers take the size text as a function parameter `fmtSize`.
- `HumanSize.Scale`: computes over exact reals instead of float64. Go panics past the unit table, which is returned as None here.
- `Short.JsonToShort`: the order of the summary lines follows Go's map iteration, which is unspecified. It is a parameter `order` that must list every repository once.
- `Tree.JsonToTree`: requires that every line it prints can be printed (a tag list, and an id of at least 12 characters unless ids are shown in full). Go checks nothing and panics at the first line that breaks this, after writing the earlier lines to a buffer that is then lost.
- `Tree.WalkTree`: takes a ghost rank witness `rank`. A cycle the walk reaches, where Go recurses without end, is outside the model.
- `Resolve.ScanImages`: returns the position of the first hit. `Resolve.ResolveStart` and `Resolve.ResolveStartFixed` derive the start image from that position, instead of assigning it inside the loop.
- Integer widths: sizes are Go `int64`. No arithmetic on them is modelled except the unit step, so overflow does not arise.
- `Tree.JsonToTree`: "each image printed exactly once" is proved only per sibling list (`TreeProps.SiblingsInOrder`), and "every image that reaches a root is printed" only as at least once (`TreeProps.ReachablePrinted`). Duplicate ids can make Go print an image's subtree under every image with that id.
- Strings are sequences of characters, while Go slices bytes (`id[0:12]`, the last-colon split). The two agree on ASCII ids and tags.

## Findings

| source | as written | input that shows it | evidently intended | confidence | as-written member | corrected member |
|---|---|---|---|---|---|---|
| images.go:107-108 | an id-prefix hit resolves to the selector itself; `jsonToTree` then re-finds the image only by full id, 12-character short id or exact tag (images.go:157-163) | image id "0123456789abcdef" tagged "r:latest", selector "0123": resolves to "0123", the tree builder matches nothing and walks from the zero Image, whose nil tag list makes `PrintTreeNode` panic | resolve to the id of the image hit (`startImage = image.Id`), as the tag branch does | not executed | Resolve.ShortPrefixLost | Resolve.FixedStartFound |
