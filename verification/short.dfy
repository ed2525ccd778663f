/** jsonToShort: the tags of all images grouped by repository. Each real tag
    is split at its last colon into a repository name and a tag name, and the
    tag name is appended to the bucket of that repository. */
module Short {
  import opened Images
  import opened Seqs
  import opened Output

  /** strings.LastIndex(s, ":"): the position of the last colon, or -1. */
  function LastColon(s: string): (r: int)
    ensures -1 <= r < |s|
    ensures r >= 0 ==> s[r] == ':'
    ensures forall j :: r < j < |s| ==> s[j] != ':'
    ensures r >= 0 <==> ':' in s
  {
    if s == [] then -1
    else if s[|s| - 1] == ':' then |s| - 1
    else LastColon(s[..|s| - 1])
  }

  /** A repository name with one of its tag names. */
  datatype Entry = Entry(repo: string, tag: string)

  function EntryRepo(e: Entry): string
  {
    e.repo
  }

  /** The split of a repository tag at its last colon: the two halves put
      back together give the tag, and the tag name holds no colon. */
  function SplitRepoTag(t: string): (e: Entry)
    requires ':' in t
    ensures e.repo + ":" + e.tag == t && ':' !in e.tag
  {
    var k := LastColon(t);
    assert t == t[..k] + ":" + t[k + 1..];
    Entry(t[..k], t[k + 1..])
  }

  /** The split is the only one with a colon-free tag name. */
  lemma SplitUnique(t: string, repo: string, tag: string)
    requires repo + ":" + tag == t && ':' !in tag
    ensures SplitRepoTag(t) == Entry(repo, tag)
  {
    var k := LastColon(t);
    assert t[|repo|] == ':';
    assert forall j :: |repo| < j < |t| ==> t[j] == tag[j - |repo| - 1];
    assert k == |repo|;
    assert t[..k] == repo;
    assert t[k + 1..] == tag;
  }

  /** A registry host with a port keeps its colon in the repository name. */
  lemma SplitExample()
    ensures SplitRepoTag("registry:5000/repo:1.0") == Entry("registry:5000/repo", "1.0")
  {
    SplitUnique("registry:5000/repo:1.0", "registry:5000/repo", "1.0");
  }

  /** What jsonToShort demands: every tag other than the sentinel has a colon. */
  predicate TagsSafe(tags: seq<string>)
  {
    forall t :: t in tags && t != Sentinel ==> ':' in t
  }

  predicate ShortSafe(images: seq<Image>)
  {
    forall x :: x in images ==> TagsSafe(x.repoTags)
  }

  /** The entries of one tag list, sentinel skipped, in order. */
  function TagEntries(tags: seq<string>): seq<Entry>
    requires TagsSafe(tags)
  {
    if tags == [] then []
    else
      var t := tags[|tags| - 1];
      TagEntries(tags[..|tags| - 1]) + if t != Sentinel then [SplitRepoTag(t)] else []
  }

  /** The entries of all images, in encounter order. */
  function Entries(images: seq<Image>): seq<Entry>
    requires ShortSafe(images)
  {
    if images == [] then []
    else Entries(images[..|images| - 1]) + TagEntries(images[|images| - 1].repoTags)
  }

  /** Every tag of every image, in encounter order. */
  function AllTags(images: seq<Image>): seq<string>
  {
    if images == [] then [] else AllTags(images[..|images| - 1]) + images[|images| - 1].repoTags
  }

  /** The tags other than the sentinel, in order. */
  function RealTags(tags: seq<string>): (r: seq<string>)
    ensures forall t :: t in r ==> t in tags && t != Sentinel
  {
    if tags == [] then []
    else RealTags(tags[..|tags| - 1]) + if tags[|tags| - 1] != Sentinel then [tags[|tags| - 1]] else []
  }

  /** The repositories that occur among the entries. */
  function Repos(es: seq<Entry>): set<string>
  {
    set e | e in es :: e.repo
  }

  /** The tag names of the entries, in order. */
  function TagsOf(es: seq<Entry>): seq<string>
  {
    if es == [] then [] else TagsOf(es[..|es| - 1]) + [es[|es| - 1].tag]
  }

  /** The byRepo index: each occurring repository maps to the tag names of
      its entries, in encounter order. */
  function ByRepo(es: seq<Entry>): map<string, seq<string>>
  {
    map r | r in Repos(es) :: TagsOf(Filter(es, EntryRepo, r))
  }

  lemma TagsOfSnoc(es: seq<Entry>, e: Entry)
    ensures TagsOf(es + [e]) == TagsOf(es) + [e.tag]
  {
    assert (es + [e])[..|es|] == es;
  }

  lemma FilterSnoc(es: seq<Entry>, e: Entry, r: string)
    ensures Filter(es + [e], EntryRepo, r) == Filter(es, EntryRepo, r) + if e.repo == r then [e] else []
  {
    assert (es + [e])[..|es|] == es;
  }

  lemma RepoHasKey(es: seq<Entry>, r: string)
    ensures Filter(es, EntryRepo, r) != [] ==> r in Repos(es)
  {
    if Filter(es, EntryRepo, r) != [] {
      assert Filter(es, EntryRepo, r)[0] in es;
    }
  }

  /** The bucket of one repository after an entry is appended. */
  lemma ByRepoSnocAt(es: seq<Entry>, e: Entry, r: string)
    requires r in Repos(es + [e])
    ensures r in ByRepo(es + [e])
    ensures ByRepo(es + [e])[r] ==
              if r != e.repo then ByRepo(es)[r]
              else Bucket(ByRepo(es), r) + [e.tag]
  {
    var before := Filter(es, EntryRepo, r);
    FilterSnoc(es, e, r);
    assert ByRepo(es + [e])[r] == TagsOf(Filter(es + [e], EntryRepo, r));
    if r == e.repo {
      assert Filter(es + [e], EntryRepo, r) == before + [e];
      TagsOfSnoc(before, e);
      if r !in Repos(es) {
        RepoHasKey(es, r);
        assert TagsOf(before) == [];
      } else {
        assert ByRepo(es)[r] == TagsOf(before);
      }
    } else {
      assert Filter(es + [e], EntryRepo, r) == before;
      var x :| x in es + [e] && x.repo == r;
      assert x in es;
      assert r in Repos(es);
      assert ByRepo(es)[r] == TagsOf(before);
    }
  }

  lemma ReposSnoc(es: seq<Entry>, e: Entry)
    ensures Repos(es + [e]) == Repos(es) + {e.repo}
  {
    var t := es + [e];
    forall x | x in t
      ensures x in es || x == e
    {
    }
    assert e in t;
    forall x | x in es
      ensures x in t
    {
    }
  }

  /** One step of the grouping loop: a new entry's tag name is appended to
      the bucket of its repository, which is created when missing. */
  lemma ByRepoSnoc(es: seq<Entry>, e: Entry)
    ensures ByRepo(es + [e]) ==
      if e.repo in ByRepo(es) then ByRepo(es)[e.repo := ByRepo(es)[e.repo] + [e.tag]]
      else ByRepo(es)[e.repo := [e.tag]]
  {
    var m, m' := ByRepo(es), ByRepo(es + [e]);
    ReposSnoc(es, e);
    ByRepoKeys(es);
    ByRepoKeys(es + [e]);
    ByRepoSnocValues(es, e);
    MapUpdate(m, m', e.repo, Bucket(m, e.repo) + [e.tag]);
    assert [] + [e.tag] == [e.tag];
  }

  lemma ByRepoSnocValues(es: seq<Entry>, e: Entry)
    ensures forall r :: r in ByRepo(es + [e]) ==>
              ByRepo(es + [e])[r] == if r == e.repo then Bucket(ByRepo(es), r) + [e.tag] else ByRepo(es)[r]
  {
    forall r | r in ByRepo(es + [e])
      ensures ByRepo(es + [e])[r] == if r == e.repo then Bucket(ByRepo(es), r) + [e.tag] else ByRepo(es)[r]
    {
      ByRepoSnocAt(es, e, r);
    }
  }

  lemma ByRepoKeys(es: seq<Entry>)
    ensures ByRepo(es).Keys == Repos(es)
  {
  }

  /** A map with one more key whose other values are unchanged is an update. */
  lemma MapUpdate(m: map<string, seq<string>>, m': map<string, seq<string>>, k: string, v: seq<string>)
    requires m'.Keys == m.Keys + {k}
    requires forall r :: r in m' ==> m'[r] == if r == k then v else m[r]
    ensures m' == m[k := v]
  {
  }

  lemma TagEntriesStep(tags: seq<string>, j: nat)
    requires j < |tags| && TagsSafe(tags)
    ensures TagsSafe(tags[..j]) && TagsSafe(tags[..j + 1])
    ensures TagEntries(tags[..j + 1]) ==
              TagEntries(tags[..j]) + if tags[j] != Sentinel then [SplitRepoTag(tags[j])] else []
  {
    assert tags[..j + 1][..j] == tags[..j];
    assert tags[..j + 1][j] == tags[j];
  }

  /** The inner loop of jsonToShort over one image's tags. */
  method AddTags(byRepo: map<string, seq<string>>, tags: seq<string>, ghost es: seq<Entry>)
    returns (grown: map<string, seq<string>>)
    requires TagsSafe(tags) && byRepo == ByRepo(es)
    ensures grown == ByRepo(es + TagEntries(tags))
  {
    grown := byRepo;
    assert es + TagEntries(tags[..0]) == es;
    for j := 0 to |tags|
      invariant TagsSafe(tags[..j])
      invariant grown == ByRepo(es + TagEntries(tags[..j]))
    {
      var repotag := tags[j];
      TagEntriesStep(tags, j);
      ghost var before := es + TagEntries(tags[..j]);
      if repotag != Sentinel {
        assert repotag in tags;
        var lastColonIndex := LastColon(repotag);
        var tagname := repotag[lastColonIndex + 1..];
        var reponame := repotag[..lastColonIndex];
        assert Entry(reponame, tagname) == SplitRepoTag(repotag);
        assert es + TagEntries(tags[..j + 1]) == before + [Entry(reponame, tagname)];
        ByRepoSnoc(before, Entry(reponame, tagname));
        if reponame in grown {
          grown := grown[reponame := grown[reponame] + [tagname]];
        } else {
          grown := grown[reponame := [tagname]];
        }
      } else {
        assert es + TagEntries(tags[..j + 1]) == before;
      }
    }
    assert tags[..|tags|] == tags;
  }

  /** The grouping loop of jsonToShort. */
  method GroupTags(images: seq<Image>) returns (byRepo: map<string, seq<string>>)
    requires ShortSafe(images)
    ensures byRepo == ByRepo(Entries(images))
  {
    byRepo := map[];
    assert ByRepo([]) == map[];
    for i := 0 to |images|
      invariant ShortSafe(images[..i])
      invariant byRepo == ByRepo(Entries(images[..i]))
    {
      var image := images[i];
      assert image in images;
      assert images[..i + 1][..i] == images[..i];
      byRepo := AddTags(byRepo, image.repoTags, Entries(images[..i]));
    }
    assert images[..|images|] == images;
  }

  /** One summary line: the repository, then its tag names joined by ", ". */
  function SummaryLine(repo: string, tags: seq<string>): string
  {
    repo + ": " + Join(tags, ", ") + "\n"
  }

  /** The summary, one line per repository in the given order. */
  function Summary(byRepo: map<string, seq<string>>, order: seq<string>): string
    requires forall r :: r in order ==> r in byRepo
  {
    if order == [] then ""
    else Summary(byRepo, order[..|order| - 1]) + SummaryLine(order[|order| - 1], byRepo[order[|order| - 1]])
  }

  /** jsonToShort: group the tags, then write one line per repository. The
      order of the repositories is the iteration order of Go's map, which is
      unspecified: it is given as `order`, which lists every key once. */
  method JsonToShort(images: seq<Image>, order: seq<string>) returns (out: string)
    requires ShortSafe(images)
    requires forall r :: r in order <==> r in ByRepo(Entries(images))
    requires forall i, j :: 0 <= i < j < |order| ==> order[i] != order[j]
    ensures out == Summary(ByRepo(Entries(images)), order)
  {
    var byRepo := GroupTags(images);
    var buffer := new Buffer();
    for i := 0 to |order|
      invariant buffer.content == Summary(byRepo, order[..i])
    {
      var repo := order[i];
      assert order[..i + 1][..i] == order[..i];
      buffer.WriteString(repo + ": " + Join(byRepo[repo], ", ") + "\n");
    }
    assert order[..|order|] == order;
    out := buffer.content;
  }

  /** Every tag other than the sentinel gives exactly one entry, its split,
      in encounter order; sentinel tags give none. */
  lemma {:induction false} EntriesAreSplits(tags: seq<string>)
    requires TagsSafe(tags)
    ensures var es := TagEntries(tags);
            var kept := RealTags(tags);
            |es| == |kept| && forall i :: 0 <= i < |es| ==> es[i] == SplitRepoTag(kept[i])
  {
    if tags != [] {
      var init := tags[..|tags| - 1];
      assert TagsSafe(init) by {
        forall t | t in init && t != Sentinel
          ensures ':' in t
        {
          assert t in tags;
        }
      }
      EntriesAreSplits(init);
    }
  }

  lemma {:induction false} TagEntriesAppend(a: seq<string>, b: seq<string>)
    requires TagsSafe(a) && TagsSafe(b)
    ensures TagsSafe(a + b)
    ensures TagEntries(a + b) == TagEntries(a) + TagEntries(b)
    decreases |b|
  {
    if b == [] {
      assert a + b == a;
    } else {
      var init := b[..|b| - 1];
      assert TagsSafe(init) by {
        forall t | t in init && t != Sentinel
          ensures ':' in t
        {
          assert t in b;
        }
      }
      TagEntriesAppend(a, init);
      assert (a + b)[..|a + b| - 1] == a + init;
      assert (a + b)[|a + b| - 1] == b[|b| - 1];
    }
  }

  /** The entries of the images are those of the concatenation of their tag
      lists: one entry per tag other than the sentinel, in encounter order. */
  lemma {:induction false} EntriesOfAllTags(images: seq<Image>)
    requires ShortSafe(images)
    ensures TagsSafe(AllTags(images))
    ensures Entries(images) == TagEntries(AllTags(images))
    ensures var es := Entries(images);
            var kept := RealTags(AllTags(images));
            |es| == |kept| && forall i :: 0 <= i < |es| ==> es[i] == SplitRepoTag(kept[i])
  {
    if images != [] {
      var init, last := images[..|images| - 1], images[|images| - 1];
      assert last in images;
      EntriesOfAllTags(init);
      TagEntriesAppend(AllTags(init), last.repoTags);
    }
    EntriesAreSplits(AllTags(images));
  }

  /** The bucket of a repository holds a tag name exactly as many times as
      the entries hold that repository with that tag name. */
  lemma {:induction false} TagsCount(es: seq<Entry>, r: string, t: string)
    requires forall e :: e in es ==> e.repo == r
    ensures multiset(TagsOf(es))[t] == multiset(es)[Entry(r, t)]
  {
    if es != [] {
      var init, last := es[..|es| - 1], es[|es| - 1];
      assert es == init + [last];
      TagsCount(init, r, t);
    }
  }

  /** Grouping puts every entry in exactly one place: the bucket of its own
      repository, once per occurrence; a repository is a key exactly when
      some entry names it. */
  lemma ByRepoPartition(es: seq<Entry>, r: string, t: string)
    ensures r in ByRepo(es) <==> exists e :: e in es && e.repo == r
    ensures r in ByRepo(es) ==> multiset(ByRepo(es)[r])[t] == multiset(es)[Entry(r, t)]
  {
    if r in ByRepo(es) {
      TagsCount(Filter(es, EntryRepo, r), r, t);
      FilterCount(es, EntryRepo, r, Entry(r, t));
    }
  }
}
