/** The images command once the image list exists: the mode flags choose one
    renderer, and the tree mode first resolves its start selector. The text
    that the command prints is returned instead. */
module Command {
  import opened Images
  import opened Tree
  import opened Resolve
  import opened Dot
  import opened Short

  /** The command-line flags of the images command. */
  datatype Flags = Flags(dot: bool, tree: bool, short: bool, noTruncate: bool)

  const NoModeError: string := "Please specify either --dot, --tree, or --short"

  /** What the chosen renderer needs of its input, given the resolution
      `sel` of the tree selector. */
  ghost predicate Ready(flags: Flags, images: seq<Image>, args: seq<string>, order: seq<string>,
                        rank: map<string, nat>, sel: Result<string>)
  {
    if flags.dot then DotSafe(images)
    else if flags.tree then
      (args != [] ==> ScanSafe(images, args[0])) &&
      (sel.Ok? ==> TreeReady(images, sel.value, flags.noTruncate, rank))
    else if flags.short then
      ShortSafe(images) &&
      (forall r :: r in order <==> r in ByRepo(Entries(images))) &&
      (forall i, j :: 0 <= i < j < |order| ==> order[i] != order[j])
    else true
  }

  /** The output of the command, or its error, given the resolution `sel`
      of the tree selector. */
  ghost function Outcome(flags: Flags, images: seq<Image>, args: seq<string>, order: seq<string>,
                         fmtSize: int -> string, rank: map<string, nat>, sel: Result<string>): Result<string>
    requires Ready(flags, images, args, order, rank, sel)
  {
    if flags.dot then Ok(Dot.Dot(images))
    else if flags.tree then
      match sel
      case Err(msg) => Err(msg)
      case Ok(s) => Ok(RenderLines(TreeOf(images, s, flags.noTruncate, rank), flags.noTruncate, fmtSize))
    else if flags.short then Ok(Summary(ByRepo(Entries(images)), order))
    else Err(NoModeError)
  }

  /** Execute as written: dispatch on the flags, in the order dot, tree,
      short; the tree mode resolves its selector with the scan as written. */
  method Execute(flags: Flags, images: seq<Image>, args: seq<string>, order: seq<string>,
                 fmtSize: int -> string, ghost rank: map<string, nat>) returns (r: Result<string>)
    requires Ready(flags, images, args, order, rank, SelectStart(images, args))
    ensures r == Outcome(flags, images, args, order, fmtSize, rank, SelectStart(images, args))
  {
    if flags.dot {
      var text := JsonToDot(images);
      r := Ok(text);
    } else if flags.tree {
      var start := ResolveStart(images, args);
      if start.Err? {
        return Err(start.msg);
      }
      var text := JsonToTree(images, start.value, flags.noTruncate, fmtSize, rank);
      r := Ok(text);
    } else if flags.short {
      var text := JsonToShort(images, order);
      r := Ok(text);
    } else {
      r := Err(NoModeError);
    }
  }

  /** Execute with the corrected selector resolution. */
  method ExecuteFixed(flags: Flags, images: seq<Image>, args: seq<string>, order: seq<string>,
                      fmtSize: int -> string, ghost rank: map<string, nat>) returns (r: Result<string>)
    requires Ready(flags, images, args, order, rank, SelectStartFixed(images, args))
    ensures r == Outcome(flags, images, args, order, fmtSize, rank, SelectStartFixed(images, args))
  {
    if flags.dot {
      var text := JsonToDot(images);
      r := Ok(text);
    } else if flags.tree {
      var start := ResolveStartFixed(images, args);
      if start.Err? {
        return Err(start.msg);
      }
      var text := JsonToTree(images, start.value, flags.noTruncate, fmtSize, rank);
      r := Ok(text);
    } else if flags.short {
      var text := JsonToShort(images, order);
      r := Ok(text);
    } else {
      r := Err(NoModeError);
    }
  }

  /** Without a mode flag the command fails, whatever the images; the dot
      mode wins over the others. */
  lemma ModeChoice(flags: Flags, images: seq<Image>, args: seq<string>, order: seq<string>,
                   fmtSize: int -> string, rank: map<string, nat>, sel: Result<string>)
    requires Ready(flags, images, args, order, rank, sel)
    ensures !flags.dot && !flags.tree && !flags.short ==>
              Outcome(flags, images, args, order, fmtSize, rank, sel) == Err(NoModeError)
    ensures flags.dot ==> Outcome(flags, images, args, order, fmtSize, rank, sel).Ok?
  {
  }

  /** In tree mode, a selector that hits no image is reported by name, by
      either resolution. */
  lemma UnknownSelector(flags: Flags, images: seq<Image>, args: seq<string>, order: seq<string>,
                        fmtSize: int -> string, rank: map<string, nat>)
    requires Ready(flags, images, args, order, rank, SelectStart(images, args))
    requires !flags.dot && flags.tree && args != []
    requires forall i :: 0 <= i < |images| ==> !Hit(images[i], args[0])
    ensures Outcome(flags, images, args, order, fmtSize, rank, SelectStart(images, args)) == Err(NotFound(args[0]))
    ensures SelectStartFixed(images, args) == SelectStart(images, args)
  {
  }

  /** As written, a short id prefix cannot be run in tree mode: the start
      the scan resolves to is not printable, so the tree renderer's
      requirement fails (Go panics there). */
  lemma ShortPrefixNotReady(flags: Flags, order: seq<string>, rank: map<string, nat>)
    requires !flags.dot && flags.tree
    ensures var img := Image("0123456789abcdef", "", ["r:latest"], 0, 0, 0);
            !Ready(flags, [img], ["0123"], order, rank, SelectStart([img], ["0123"]))
  {
    ShortPrefixLost();
  }
}
