/**
 * The per-page view `getSNWCacheByFile` builds (`TransformedCache`): one
 * entry per block, heading, link and embed of the page, each with the
 * records the index holds under the entry's key, and its time-to-live test.
 */
module Views {
  import opened Wrappers
  import opened Strings
  import opened HostModel
  import opened Records
  import opened Keys
  import opened Grouping

  datatype Kind = BlockKind | HeadingKind | LinkKind | EmbedKind

  /** One `TransformedCachedItem`: an absent property is `None`. */
  datatype Entry = Entry(
    kind: Kind,
    key: string,
    pos: Pos,
    page: string,
    original: Option<string>,
    headerMatch: Option<string>,
    headerMatch2: Option<string>,
    references: seq<Link>)

  /** A `TransformedCache`. */
  datatype View = View(
    blocks: Option<seq<Entry>>,
    headings: Option<seq<Entry>>,
    links: Option<seq<Entry>>,
    embeds: Option<seq<Entry>>,
    cacheMetaData: Option<Metadata>,
    createDate: Option<int>)

  /** The empty object `{}`. */
  function EmptyView(): View {
    View(None, None, None, None, None, None)
  }

  /**
   * A cached view may be served: the index has not been rebuilt since it was
   * created (a missing date counts as 0), and its time to live has not run out.
   */
  predicate PageStillValid(v: View, lastUpdate: int, ttl: int, now: int) {
    var created := v.createDate.GetOr(0);
    lastUpdate < created && created + ttl > now
  }

  /** `xs.filter(p)[0]`: the first element satisfying `p`, if any. */
  function FirstWhere(xs: seq<string>, p: string -> bool): (r: Option<string>)
    ensures r.Some? ==> exists i :: 0 <= i < |xs| && xs[i] == r.value && p(xs[i])
                                     && forall j :: 0 <= j < i ==> !p(xs[j])
    ensures r.None? ==> forall i :: 0 <= i < |xs| ==> !p(xs[i])
  {
    if xs == [] then None
    else if p(xs[0]) then Some(xs[0])
    else
      var r := FirstWhere(xs[1..], p);
      assert r.Some? ==> exists i :: 0 <= i < |xs[1..]| && xs[1..][i] == r.value && p(xs[1..][i])
                                     && forall j :: 0 <= j < i ==> !p(xs[1..][j]);
      assert r.Some? ==> exists i :: 0 < i < |xs| && xs[i] == r.value && p(xs[i])
                                     && forall j :: 0 <= j < i ==> !p(xs[j]) by {
        if r.Some? {
          var i :| 0 <= i < |xs[1..]| && xs[1..][i] == r.value && p(xs[1..][i])
                   && forall j :: 0 <= j < i ==> !p(xs[1..][j]);
          forall j | 0 <= j < i + 1 ensures !p(xs[j]) {
            if j > 0 { assert xs[j] == xs[1..][j - 1]; }
          }
        }
      }
      r
  }

  /** The first element satisfying `p` is the one `FirstWhere` finds. */
  lemma FirstMatchIsFound(xs: seq<string>, p: string -> bool, i: int)
    requires 0 <= i < |xs| && p(xs[i])
    requires forall j :: 0 <= j < i ==> !p(xs[j])
    ensures FirstWhere(xs, p) == Some(xs[i])
  {
    var r := FirstWhere(xs, p);
    var k :| 0 <= k < |xs| && xs[k] == r.value && p(xs[k]) && forall j :: 0 <= j < k ==> !p(xs[j]);
    assert k == i;
  }

  /** `heading ? heading : undefined`: an empty heading text counts as none. */
  function Truthy(o: Option<string>): (r: Option<string>)
    ensures r.Some? <==> o.Some? && o.value != ""
    ensures r.Some? ==> r == o
  {
    if o.Some? && o.value != "" then o else None
  }

  /** The key names a heading: it holds a '#' and no "#^". */
  predicate NeedsLabel(key: string) {
    Contains(key, "#") && !Contains(key, "#^")
  }

  function BlockEntry(file: FileRef, refs: map<string, seq<Link>>, b: BlockCache): Entry {
    var key := BlockKey(file, b.id);
    Entry(BlockKind, key, b.position, file.basename, None, None, None, Lookup(refs, key))
  }

  function HeadingEntry(h: Host, file: FileRef, refs: map<string, seq<Link>>, hd: HeadingCache): Entry {
    var key := HeadingKey(h, file, hd.heading);
    Entry(HeadingKind, key, hd.position, file.basename,
          Some(Hashes(hd.level) + " " + hd.heading), Some(hd.heading), Some(file.basename + "#" + hd.heading),
          Lookup(refs, key))
  }

  /** The label of a link entry: the first vault heading whose stripped text is the key's heading part. */
  function LinkLabel(h: Host, headings: seq<string>, key: string, original: string): Option<string> {
    if NeedsLabel(key) then Truthy(FirstWhere(headings, x => h.stripHeading(x) == SecondHashPart(key)))
    else Some(original)
  }

  function LinkEntry(h: Host, file: FileRef, refs: map<string, seq<Link>>, headings: seq<string>, l: ReferenceCache): Entry {
    var key := LinkKey(h, file, l.link);
    Entry(LinkKind, key, l.position, file.basename, LinkLabel(h, headings, key, l.original), None, None, Lookup(refs, key))
  }

  /**
   * The label of an embed entry, set only when the page has headings: the
   * first vault heading that contains the key's heading part.
   */
  function EmbedLabel(headings: seq<string>, key: string, pageHasHeadings: bool): Option<string> {
    if NeedsLabel(key) && pageHasHeadings then Truthy(FirstWhere(headings, x => Contains(x, SecondHashPart(key))))
    else None
  }

  /** An embed key still starting with '#' is prefixed with the page's base name. */
  function FinalEmbedKey(file: FileRef, key: string): string {
    if StartsWith(key, "#^") || StartsWith(key, "#") then file.basename + key else key
  }

  function EmbedEntry(h: Host, file: FileRef, refs: map<string, seq<Link>>, headings: seq<string>,
                      pageHasHeadings: bool, e: ReferenceCache): Entry {
    var key0 := EmbedKey(h, file, e.link);
    var key := FinalEmbedKey(file, key0);
    Entry(EmbedKind, key, e.position, file.basename, EmbedLabel(headings, key0, pageHasHeadings), None, None, Lookup(refs, key))
  }

  /** A metadata list mapped entry by entry. */
  function MapEntries<T>(xs: seq<T>, f: T -> Entry): (r: seq<Entry>)
    ensures |r| == |xs|
    ensures forall i :: 0 <= i < |xs| ==> r[i] == f(xs[i])
  {
    seq(|xs|, i requires 0 <= i < |xs| => f(xs[i]))
  }

  function MapOpt<T>(xs: Option<seq<T>>, f: T -> Entry): Option<seq<Entry>> {
    match xs
    case None => None
    case Some(ys) => Some(MapEntries(ys, f))
  }

  /** The view of a page with metadata `md`, built against the index `refs` at time `now`. */
  function BuildView(h: Host, file: FileRef, md: Metadata, refs: map<string, seq<Link>>, now: int): View {
    var headings := h.allHeadings;
    View(
      MapOpt(md.blocks, (b: BlockCache) => BlockEntry(file, refs, b)),
      MapOpt(md.headings, (hd: HeadingCache) => HeadingEntry(h, file, refs, hd)),
      MapOpt(md.links, (l: ReferenceCache) => LinkEntry(h, file, refs, headings, l)),
      MapOpt(md.embeds, (e: ReferenceCache) => EmbedEntry(h, file, refs, headings, md.headings.Some?, e)),
      Some(md), Some(now))
  }

  /** All entries of a view. */
  function AllEntries(v: View): seq<Entry> {
    v.blocks.GetOr([]) + v.headings.GetOr([]) + v.links.GetOr([]) + v.embeds.GetOr([])
  }

  /**
   * The view mirrors the page's metadata: a list is present exactly when the
   * page has it, with one entry per item at the item's position, each of the
   * list's kind and attributed to the page's base name.
   */
  lemma ViewMirrorsMetadata(h: Host, file: FileRef, md: Metadata, refs: map<string, seq<Link>>, now: int)
    ensures var v := BuildView(h, file, md, refs, now);
      && v.cacheMetaData == Some(md) && v.createDate == Some(now)
      && (v.blocks.Some? <==> md.blocks.Some?)
      && (md.blocks.Some? ==> |v.blocks.value| == |md.blocks.value| && forall i :: 0 <= i < |md.blocks.value| ==>
            v.blocks.value[i].kind == BlockKind && v.blocks.value[i].pos == md.blocks.value[i].position
            && v.blocks.value[i].key == BlockKey(file, md.blocks.value[i].id))
      && (v.headings.Some? <==> md.headings.Some?)
      && (md.headings.Some? ==> |v.headings.value| == |md.headings.value| && forall i :: 0 <= i < |md.headings.value| ==>
            v.headings.value[i].kind == HeadingKind && v.headings.value[i].pos == md.headings.value[i].position
            && v.headings.value[i].key == HeadingKey(h, file, md.headings.value[i].heading))
      && (v.links.Some? <==> md.links.Some?)
      && (md.links.Some? ==> |v.links.value| == |md.links.value| && forall i :: 0 <= i < |md.links.value| ==>
            v.links.value[i].kind == LinkKind && v.links.value[i].pos == md.links.value[i].position
            && v.links.value[i].key == LinkKey(h, file, md.links.value[i].link))
      && (v.embeds.Some? <==> md.embeds.Some?)
      && (md.embeds.Some? ==> |v.embeds.value| == |md.embeds.value| && forall i :: 0 <= i < |md.embeds.value| ==>
            v.embeds.value[i].kind == EmbedKind && v.embeds.value[i].pos == md.embeds.value[i].position
            && v.embeds.value[i].key == FinalEmbedKey(file, EmbedKey(h, file, md.embeds.value[i].link)))
      && forall x :: x in AllEntries(v) ==> x.page == file.basename
  {
  }

  /** Every entry of a view carries the index's list under its own key, or none. */
  lemma EntriesLookUpIndex(h: Host, file: FileRef, md: Metadata, refs: map<string, seq<Link>>, now: int)
    ensures forall x :: x in AllEntries(BuildView(h, file, md, refs, now)) ==> x.references == Lookup(refs, x.key)
  {
    var v := BuildView(h, file, md, refs, now);
    forall x | x in AllEntries(v) ensures x.references == Lookup(refs, x.key) {
      assert x in v.blocks.GetOr([]) || x in v.headings.GetOr([]) || x in v.links.GetOr([]) || x in v.embeds.GetOr([]);
    }
  }

  /**
   * Against an index built by grouping a record list, an entry's references
   * are exactly the records of that list whose key is the entry's key, in
   * list order (none when no record has it).
   */
  lemma EntriesCountIndexedRecords(h: Host, file: FileRef, md: Metadata, all: seq<Link>, now: int)
    ensures forall x :: x in AllEntries(BuildView(h, file, md, Group(all), now)) ==>
      x.references == Filter(all, x.key)
      && |x.references| <= |all|
      && forall r :: r in x.references ==> r in all && KeyOf(r) == x.key
  {
    EntriesLookUpIndex(h, file, md, Group(all), now);
    forall x | x in AllEntries(BuildView(h, file, md, Group(all), now)) ensures x.references == Filter(all, x.key) {
      LookupGroup(all, x.key);
    }
  }

  /**
   * A link entry whose key names a heading is labelled with the first vault
   * heading whose stripped text is the key's heading part, when that heading
   * is not empty; otherwise it keeps its original text.
   */
  lemma LinkLabelIsFirstMatchingHeading(h: Host, headings: seq<string>, key: string, original: string)
    ensures !NeedsLabel(key) ==> LinkLabel(h, headings, key, original) == Some(original)
    ensures NeedsLabel(key) && LinkLabel(h, headings, key, original).Some? ==>
      var x := LinkLabel(h, headings, key, original).value;
      && x != ""
      && (exists i :: 0 <= i < |headings| && headings[i] == x
            && h.stripHeading(x) == SecondHashPart(key)
            && forall j :: 0 <= j < i ==> h.stripHeading(headings[j]) != SecondHashPart(key))
    ensures NeedsLabel(key) && (forall i :: 0 <= i < |headings| ==> h.stripHeading(headings[i]) != SecondHashPart(key)) ==>
      LinkLabel(h, headings, key, original).None?
    ensures forall i ::
      (&& NeedsLabel(key) && 0 <= i < |headings| && headings[i] != ""
       && h.stripHeading(headings[i]) == SecondHashPart(key)
       && (forall j :: 0 <= j < i ==> h.stripHeading(headings[j]) != SecondHashPart(key))) ==>
      LinkLabel(h, headings, key, original) == Some(headings[i])
  {
    var p := (x: string) => h.stripHeading(x) == SecondHashPart(key);
    var r := FirstWhere(headings, p);
    forall i | NeedsLabel(key) && 0 <= i < |headings| && headings[i] != ""
      && h.stripHeading(headings[i]) == SecondHashPart(key)
      && (forall j :: 0 <= j < i ==> h.stripHeading(headings[j]) != SecondHashPart(key))
      ensures LinkLabel(h, headings, key, original) == Some(headings[i])
    {
      FirstMatchIsFound(headings, p, i);
    }
    if NeedsLabel(key) && r.Some? {
      var i :| 0 <= i < |headings| && headings[i] == r.value && p(headings[i]) && forall j :: 0 <= j < i ==> !p(headings[j]);
      forall j | 0 <= j < i ensures h.stripHeading(headings[j]) != SecondHashPart(key) {
        assert !p(headings[j]);
      }
    }
    if NeedsLabel(key) && forall i :: 0 <= i < |headings| ==> h.stripHeading(headings[i]) != SecondHashPart(key) {
      forall i | 0 <= i < |headings| ensures !p(headings[i]) { }
    }
  }

  /**
   * An embed entry is labelled only when its page has headings and its
   * first-pass key names a heading, with the first vault heading containing
   * the key's heading part (an empty one counts as none).
   */
  lemma EmbedLabelIsFirstContainingHeading(headings: seq<string>, key: string, pageHasHeadings: bool)
    ensures !(NeedsLabel(key) && pageHasHeadings) ==> EmbedLabel(headings, key, pageHasHeadings).None?
    ensures EmbedLabel(headings, key, pageHasHeadings).Some? ==>
      var x := EmbedLabel(headings, key, pageHasHeadings).value;
      && x != ""
      && (exists i :: 0 <= i < |headings| && headings[i] == x && Contains(x, SecondHashPart(key))
            && forall j :: 0 <= j < i ==> !Contains(headings[j], SecondHashPart(key)))
    ensures forall i ::
      (&& NeedsLabel(key) && pageHasHeadings && 0 <= i < |headings| && headings[i] != ""
       && Contains(headings[i], SecondHashPart(key))
       && (forall j :: 0 <= j < i ==> !Contains(headings[j], SecondHashPart(key)))) ==>
      EmbedLabel(headings, key, pageHasHeadings) == Some(headings[i])
  {
    var p := (x: string) => Contains(x, SecondHashPart(key));
    var r := FirstWhere(headings, p);
    forall i | NeedsLabel(key) && pageHasHeadings && 0 <= i < |headings| && headings[i] != ""
      && Contains(headings[i], SecondHashPart(key))
      && (forall j :: 0 <= j < i ==> !Contains(headings[j], SecondHashPart(key)))
      ensures EmbedLabel(headings, key, pageHasHeadings) == Some(headings[i])
    {
      FirstMatchIsFound(headings, p, i);
    }
    if NeedsLabel(key) && pageHasHeadings && r.Some? {
      var i :| 0 <= i < |headings| && headings[i] == r.value && p(headings[i]) && forall j :: 0 <= j < i ==> !p(headings[j]);
      forall j | 0 <= j < i ensures !Contains(headings[j], SecondHashPart(key)) {
        assert !p(headings[j]);
      }
    }
  }
}
