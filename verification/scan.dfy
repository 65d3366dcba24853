/**
 * The scan of a build pass: what the `iterateReferences` callback does with
 * one (source path, raw reference) occurrence, as a function of the caches
 * it reads and writes, and the fold of that step over the whole enumeration.
 */
module Scanning {
  import opened Wrappers
  import opened Strings
  import opened HostModel
  import opened Records
  import opened Keys

  /**
   * The state the callback works on: `globalRefsCacheMap` (its insertion
   * order and its entries), `refLinkResolutionCache`, and the pass-local
   * `buildMapOfIteratedFiles`.
   */
  datatype ScanState = ScanState(
    srcOrder: seq<string>,
    srcMap: map<string, SrcRecord>,
    resCache: map<string, LinkLookup>,
    iterated: map<string, Iterated>)

  /** `order` lists the keys of `m` once each: the insertion order of a JavaScript `Map`. */
  ghost predicate OrderMatches(order: seq<string>, m: map<string, SrcRecord>) {
    && (forall i, j :: 0 <= i < j < |order| ==> order[i] != order[j])
    && (forall k :: k in m <==> k in order)
  }

  /** Every stored source entry is filed under its own path and holds only records it authored. */
  ghost predicate WellKeyed(m: map<string, SrcRecord>) {
    forall k :: k in m ==>
      m[k].srcFilePath == k && forall r :: r in m[k].linkReferenceCache ==> r.sourceFile == k
  }

  /** The same for the pass-local map. */
  ghost predicate IteratedWellKeyed(it: map<string, Iterated>) {
    forall k :: k in it ==>
      (it[k].globalRefsCacheSrcFound.Some? ==> it[k].globalRefsCacheSrcFound.value.srcFilePath == k)
      && forall r :: r in it[k].linkReferenceCache ==> r.sourceFile == k
  }

  ghost predicate ScanValid(st: ScanState) {
    OrderMatches(st.srcOrder, st.srcMap) && WellKeyed(st.srcMap) && IteratedWellKeyed(st.iterated)
  }

  /** The entry a source path gets when it is first seen: current stats, ignore flag, no records. */
  function NewSrcRecord(h: Host, src: string): SrcRecord {
    SrcRecord(src, h.stat(src), h.isUserIgnored(src), [])
  }

  /** The stored fingerprint equals the file's current one. */
  predicate Unchanged(rec: SrcRecord, current: Stat) {
    rec.srcFileStats.ctime == current.ctime
    && rec.srcFileStats.mtime == current.mtime
    && rec.srcFileStats.size == current.size
  }

  /** The records the pass has built so far for `src`. */
  function ListOf(st: ScanState, src: string): seq<Link> {
    if src in st.iterated then st.iterated[src].linkReferenceCache else []
  }

  /**
   * The cache entry for `link` once the parse step is done: the cached entry,
   * or a fresh one holding `parseLinktext(link)`, with an empty path replaced
   * by the source's path without ".md" (this writes through to the cached entry).
   */
  function EntryAfterParse(h: Host, cache: map<string, LinkLookup>, src: string, link: string): LinkLookup {
    if link in cache then
      cache[link].(resolvedFilePath := FallbackPath(cache[link].resolvedFilePath, src))
    else
      LinkLookup(FallbackPath(h.parseLinktext(link), src), None, None, None, None)
  }

  /**
   * The entry once the resolution step is done: the target file, the file
   * link, its ignore flag and the ghost link are each computed only where the
   * entry does not hold them yet ("" counts as not held for the last three).
   */
  function Complete(h: Host, e: LinkLookup): (r: LinkLookup)
    ensures r.resolvedFilePath == e.resolvedFilePath
    ensures e.fileLink.None? || e.fileLink.value == "" || e.fileLinkIgnored.Some? ==> r.fileLinkIgnored.Some?
    ensures r.fileLink.Some? && r.ghlink.Some?
    ensures e.resolvedTFile.Some? ==> r.resolvedTFile == e.resolvedTFile
    ensures e.resolvedTFile.None? ==> r.resolvedTFile == h.firstLinkpathDest(e.resolvedFilePath.path)
    ensures e.fileLink.Some? ==> r.fileLink == e.fileLink
    ensures e.ghlink.Some? ==> r.ghlink == e.ghlink
    ensures e.fileLink.None? ==>
      r.fileLink == Some(if r.resolvedTFile.None? then "" else FileLinkOf(h, r.resolvedTFile.value, e.resolvedFilePath.subpath))
    ensures e.fileLink.None? || e.fileLink.value == "" ==> r.fileLinkIgnored == Some(h.isUserIgnored(r.fileLink.value))
    ensures e.fileLink.Some? && e.fileLink.value != "" ==> r.fileLinkIgnored == e.fileLinkIgnored
    ensures e.ghlink.None? ==> r.ghlink == Some(if r.resolvedTFile.None? then e.resolvedFilePath.path else "")
  {
    var tfile := if e.resolvedTFile.Some? then e.resolvedTFile else h.firstLinkpathDest(e.resolvedFilePath.path);
    var e1 := if tfile.Some? && e.resolvedTFile.None? then e.(resolvedTFile := tfile) else e;
    var fileLink :=
      if e1.fileLink.Some? then e1.fileLink.value
      else if tfile.None? then ""
      else FileLinkOf(h, tfile.value, e.resolvedFilePath.subpath);
    var e2 :=
      if e1.fileLink.None? || e1.fileLink.value == "" then
        e1.(fileLink := Some(fileLink), fileLinkIgnored := Some(h.isUserIgnored(fileLink)))
      else e1;
    var ghlink :=
      if e2.ghlink.Some? then e2.ghlink.value
      else if tfile.None? then e.resolvedFilePath.path
      else "";
    if e2.ghlink.None? || e2.ghlink.value == "" then e2.(ghlink := Some(ghlink)) else e2
  }

  /** The occurrence is dropped by the "links from" or the "links to" ignore setting. */
  predicate Dropped(s: Settings, g: SrcRecord, e: LinkLookup) {
    (s.ignoreLinksFrom && g.srcFileIgnored) || (s.ignoreLinksTo && e.fileLinkIgnored == Some(true))
  }

  /** The key a completed cache entry gives a record: the file link, or the ghost link when that is empty. */
  function EntryKey(e: LinkLookup): string {
    if e.fileLink.GetOr("") != "" then e.fileLink.GetOr("") else e.ghlink.GetOr("")
  }

  /** The record built from an occurrence and its completed cache entry. */
  function RecordFor(occ: Occurrence, g: SrcRecord, e: LinkLookup): Link {
    Link(
      Reference(occ.refs.displayText.GetOr(""), EntryKey(e), occ.refs.position),
      e.resolvedTFile, e.ghlink.GetOr(""), occ.refs.link, g.srcFilePath, false)
  }

  /** The cache entry for `link` after this occurrence: parsed, and resolved when its path is not empty. */
  function ResolvedEntry(h: Host, cache: map<string, LinkLookup>, src: string, link: string): LinkLookup {
    var e0 := EntryAfterParse(h, cache, src, link);
    if e0.resolvedFilePath.path == "" then e0 else Complete(h, e0)
  }

  /** The record an occurrence recorded against `g` yields: none when its path is empty or it is dropped. */
  function NewRecords(h: Host, s: Settings, cache: map<string, LinkLookup>, occ: Occurrence, g: SrcRecord): seq<Link> {
    var e := ResolvedEntry(h, cache, occ.src, occ.refs.link);
    if e.resolvedFilePath.path == "" || Dropped(s, g, e) then [] else [RecordFor(occ, g, e)]
  }

  /** Resolving, filtering and recording one occurrence of a source being rescanned. */
  function Resolve(h: Host, s: Settings, st: ScanState, occ: Occurrence, it: Iterated): ScanState {
    match it.globalRefsCacheSrcFound
    case None => st
    case Some(g) =>
      var link := occ.refs.link;
      var recs := NewRecords(h, s, st.resCache, occ, g);
      st.(resCache := st.resCache[link := ResolvedEntry(h, st.resCache, occ.src, link)],
          iterated := st.iterated[occ.src := it.(linkReferenceCache := it.linkReferenceCache + recs)])
  }

  /**
   * Registers a source path that the index does not track yet and that the
   * vault holds as a file.
   */
  function Track(h: Host, st: ScanState, src: string): ScanState {
    if src in st.srcMap || !h.isFile(src) then st
    else st.(srcOrder := st.srcOrder + [src], srcMap := st.srcMap[src := NewSrcRecord(h, src)])
  }

  /** One call of the `iterateReferences` callback. */
  function ScanStep(h: Host, s: Settings, st: ScanState, occ: Occurrence): ScanState {
    var src := occ.src;
    if src in st.iterated then
      var it := st.iterated[src];
      if !it.updateIndexNeeded then st else Resolve(h, s, st, occ, it)
    else
      var skip := src in st.srcMap && Unchanged(st.srcMap[src], h.stat(src));
      var st1 := Track(h, st, src);
      var it := Iterated(!skip, if src in st1.srcMap then Some(st1.srcMap[src]) else None, []);
      var st2 := st1.(iterated := st1.iterated[src := it]);
      if skip then st2 else Resolve(h, s, st2, occ, it)
  }

  /** The whole enumeration, callback after callback. */
  function Scan(h: Host, s: Settings, st: ScanState, occs: seq<Occurrence>): ScanState
    decreases |occs|
  {
    if occs == [] then st
    else ScanStep(h, s, Scan(h, s, st, occs[..|occs| - 1]), occs[|occs| - 1])
  }

  /**
   * The source entry an occurrence of `src` is recorded against, or `None`
   * when the occurrence is skipped (unchanged fingerprint, or no such file).
   */
  function Active(h: Host, st: ScanState, src: string): Option<SrcRecord> {
    if src in st.iterated then
      if st.iterated[src].updateIndexNeeded then st.iterated[src].globalRefsCacheSrcFound else None
    else if src in st.srcMap then
      if Unchanged(st.srcMap[src], h.stat(src)) then None else Some(st.srcMap[src])
    else if h.isFile(src) then Some(NewSrcRecord(h, src))
    else None
  }

  /** The record one occurrence appends, if any. */
  function Appended(h: Host, s: Settings, st: ScanState, occ: Occurrence): seq<Link> {
    match Active(h, st, occ.src)
    case None => []
    case Some(g) => NewRecords(h, s, st.resCache, occ, g)
  }

  /** What one callback does to `globalRefsCacheMap`: at most the occurrence's own source is added. */
  lemma ScanStepSources(h: Host, s: Settings, st: ScanState, occ: Occurrence)
    ensures var r := ScanStep(h, s, st, occ);
      && (forall k :: k in st.srcMap ==> k in r.srcMap && r.srcMap[k] == st.srcMap[k])
      && (forall k :: k in r.srcMap ==> k in st.srcMap || k == occ.src)
      && (forall k :: k in r.srcMap && k !in st.srcMap ==> r.srcMap[k] == NewSrcRecord(h, k))
      && (r.srcOrder == st.srcOrder || (occ.src !in st.srcMap && r.srcOrder == st.srcOrder + [occ.src]))
      && (r.srcOrder != st.srcOrder ==> occ.src in r.srcMap && r.srcMap[occ.src] == NewSrcRecord(h, occ.src))
  {
    var src := occ.src;
    if src !in st.iterated {
      var skip := src in st.srcMap && Unchanged(st.srcMap[src], h.stat(src));
      var st1 := Track(h, st, src);
      assert st1.srcMap == st.srcMap || (src !in st.srcMap && st1.srcMap == st.srcMap[src := NewSrcRecord(h, src)]);
    }
  }

  /**
   * What one callback does to the pass-local map: only the occurrence's own
   * source gets records, at most one, appended, and a decision once made stays.
   */
  lemma ScanStepIterated(h: Host, s: Settings, st: ScanState, occ: Occurrence)
    ensures var r := ScanStep(h, s, st, occ);
      && r.iterated.Keys == st.iterated.Keys + {occ.src}
      && (forall k :: k in st.iterated && k != occ.src ==> r.iterated[k] == st.iterated[k])
      && (occ.src in st.iterated ==>
            r.iterated[occ.src].updateIndexNeeded == st.iterated[occ.src].updateIndexNeeded
            && r.iterated[occ.src].globalRefsCacheSrcFound == st.iterated[occ.src].globalRefsCacheSrcFound)
      && (occ.src in st.iterated && !st.iterated[occ.src].updateIndexNeeded ==> r == st)
      && r.iterated[occ.src].linkReferenceCache == ListOf(st, occ.src) + Appended(h, s, st, occ)
      && (occ.src !in st.iterated ==>
            r.iterated[occ.src].globalRefsCacheSrcFound == (if occ.src in r.srcMap then Some(r.srcMap[occ.src]) else None))
  {
    var src := occ.src;
    if src !in st.iterated {
      var st1 := Track(h, st, src);
      assert st1.iterated == st.iterated;
    }
  }

  /** One callback adds at most the occurrence's link text to the resolution cache. */
  lemma ScanStepCache(h: Host, s: Settings, st: ScanState, occ: Occurrence)
    ensures ScanStep(h, s, st, occ).resCache.Keys <= st.resCache.Keys + {occ.refs.link}
  {
    var src := occ.src;
    if src !in st.iterated {
      var st1 := Track(h, st, src);
      assert st1.resCache == st.resCache;
    }
  }

  /**
   * A source's rescan decision is made at its first occurrence, from its
   * stored fingerprint alone: rescan unless a stored entry's ctime, mtime and
   * size all equal the file's current ones.
   */
  lemma FirstOccurrenceDecides(h: Host, s: Settings, st: ScanState, occ: Occurrence)
    requires occ.src !in st.iterated
    ensures var r := ScanStep(h, s, st, occ);
      occ.src in r.iterated
      && r.iterated[occ.src].updateIndexNeeded
         == !(occ.src in st.srcMap && st.srcMap[occ.src].srcFileStats == h.stat(occ.src))
  {
  }

  /**
   * Once made, the decision is reused: a later occurrence of the same source
   * does not look at the file's stats at all, and one of a skipped source
   * changes nothing.
   */
  lemma LaterOccurrenceReusesDecision(h: Host, s: Settings, st: ScanState, occ: Occurrence, stat: string -> Stat)
    requires occ.src in st.iterated
    ensures ScanStep(h.(stat := stat), s, st, occ) == ScanStep(h, s, st, occ)
    ensures !st.iterated[occ.src].updateIndexNeeded ==> ScanStep(h, s, st, occ) == st
  {
  }

  /**
   * A cached resolution whose path is set is reused, not recomputed: the step
   * does not call `parseLinktext`, and when the target file is cached it does
   * not call `getFirstLinkpathDest` either.
   */
  lemma CachedResolutionReused(h: Host, s: Settings, st: ScanState, occ: Occurrence,
                               parse: string -> ParsedLink, dest: string -> Option<string>)
    requires occ.refs.link in st.resCache
    requires st.resCache[occ.refs.link].resolvedFilePath.path != ""
    ensures ScanStep(h.(parseLinktext := parse), s, st, occ) == ScanStep(h, s, st, occ)
    ensures st.resCache[occ.refs.link].resolvedTFile.Some? ==>
      ScanStep(h.(parseLinktext := parse, firstLinkpathDest := dest), s, st, occ) == ScanStep(h, s, st, occ)
  {
    var link := occ.refs.link;
    var h1 := h.(parseLinktext := parse);
    var h2 := h.(parseLinktext := parse, firstLinkpathDest := dest);
    var st1 := Track(h, st, occ.src);
    assert Track(h1, st, occ.src) == st1 && Track(h2, st, occ.src) == st1;
    assert st1.resCache == st.resCache;
    assert EntryAfterParse(h1, st.resCache, occ.src, link) == EntryAfterParse(h, st.resCache, occ.src, link);
    assert ResolvedEntry(h1, st.resCache, occ.src, link) == ResolvedEntry(h, st.resCache, occ.src, link);
    if st.resCache[link].resolvedTFile.Some? {
      assert EntryAfterParse(h2, st.resCache, occ.src, link) == EntryAfterParse(h, st.resCache, occ.src, link);
      assert ResolvedEntry(h2, st.resCache, occ.src, link) == ResolvedEntry(h, st.resCache, occ.src, link);
    }
  }

  /** What a later state of a cache entry keeps of an earlier one. */
  predicate KeepsResolution(e: LinkLookup, e': LinkLookup) {
    && (e.resolvedFilePath.path != "" ==> e'.resolvedFilePath == e.resolvedFilePath)
    && (e.resolvedTFile.Some? ==> e'.resolvedTFile == e.resolvedTFile)
    && (e.fileLink.Some? ==> e'.fileLink == e.fileLink)
    && (e.ghlink.Some? ==> e'.ghlink == e.ghlink)
  }

  lemma ScanStepKeepsResolutions(h: Host, s: Settings, st: ScanState, occ: Occurrence)
    ensures var r := ScanStep(h, s, st, occ);
      forall l :: l in st.resCache ==> l in r.resCache && KeepsResolution(st.resCache[l], r.resCache[l])
  {
  }

  /**
   * Resolution cache entries are stable for the whole scan: once an entry
   * holds a non-empty path, a target file, a file link or a ghost link, it
   * keeps it.
   */
  lemma {:induction false} ScanKeepsResolutions(h: Host, s: Settings, st: ScanState, occs: seq<Occurrence>)
    ensures var r := Scan(h, s, st, occs);
      forall l :: l in st.resCache ==> l in r.resCache && KeepsResolution(st.resCache[l], r.resCache[l])
    decreases |occs|
  {
    if occs != [] {
      var mid := Scan(h, s, st, occs[..|occs| - 1]);
      ScanKeepsResolutions(h, s, st, occs[..|occs| - 1]);
      ScanStepKeepsResolutions(h, s, mid, occs[|occs| - 1]);
    }
  }

  /** The callback keeps the consistency of the state. */
  lemma ScanStepValid(h: Host, s: Settings, st: ScanState, occ: Occurrence)
    requires ScanValid(st)
    ensures ScanValid(ScanStep(h, s, st, occ))
  {
    ScanStepSources(h, s, st, occ);
    ScanStepIterated(h, s, st, occ);
    var r := ScanStep(h, s, st, occ);
    forall k | k in r.iterated
      ensures (r.iterated[k].globalRefsCacheSrcFound.Some? ==> r.iterated[k].globalRefsCacheSrcFound.value.srcFilePath == k)
      ensures forall x :: x in r.iterated[k].linkReferenceCache ==> x.sourceFile == k
    {
      if k == occ.src {
        match Active(h, st, occ.src)
        case None =>
        case Some(g) =>
          assert g.srcFilePath == k;
      }
    }
  }

  lemma {:induction false} ScanValidity(h: Host, s: Settings, st: ScanState, occs: seq<Occurrence>)
    requires ScanValid(st)
    ensures ScanValid(Scan(h, s, st, occs))
    decreases |occs|
  {
    if occs != [] {
      ScanValidity(h, s, st, occs[..|occs| - 1]);
      ScanStepValid(h, s, Scan(h, s, st, occs[..|occs| - 1]), occs[|occs| - 1]);
    }
  }

  /** A link text never seen before gets the canonical key of the occurrence's own source. */
  lemma FreshLinkKey(h: Host, s: Settings, st: ScanState, occ: Occurrence)
    requires occ.refs.link !in st.resCache
    requires Active(h, st, occ.src).Some?
    requires FallbackParse(h, occ.src, occ.refs.link).path != ""
    requires !(s.ignoreLinksFrom && Active(h, st, occ.src).value.srcFileIgnored)
    requires !(s.ignoreLinksTo && h.isUserIgnored(ParseLinkTextToFullPathFrom(h, occ.src, occ.refs.link)))
    ensures Appended(h, s, st, occ) != []
    ensures var rec := Appended(h, s, st, occ)[0];
      && KeyOf(rec) == CanonicalKey(h, occ.src, occ.refs.link)
      && rec.resolvedFile == h.firstLinkpathDest(FallbackParse(h, occ.src, occ.refs.link).path)
      && rec.realLink == occ.refs.link
      && rec.reference.displayText == occ.refs.displayText.GetOr("")
      && rec.reference.position == occ.refs.position
      && rec.ghostLink == (if rec.resolvedFile.None? then FallbackParse(h, occ.src, occ.refs.link).path else "")
      && rec.sourceFile == Active(h, st, occ.src).value.srcFilePath
      && !rec.excludedFile
  {
  }

  /**
   * The file link a fresh resolution gives (the key when the target exists,
   * "" when it does not): the string the "links to" ignore check tests.
   */
  function ParseLinkTextToFullPathFrom(h: Host, src: string, link: string): string {
    var parsed := FallbackParse(h, src, link);
    match h.firstLinkpathDest(parsed.path)
    case None => ""
    case Some(f) => FileLinkOf(h, f, parsed.subpath)
  }

  /**
   * A link text already resolved in this epoch gets the cached key, whichever
   * source it now comes from.
   */
  lemma CachedLinkKey(h: Host, s: Settings, st: ScanState, occ: Occurrence)
    requires occ.refs.link in st.resCache
    requires var e := st.resCache[occ.refs.link];
      e.resolvedFilePath.path != "" && e.fileLink.Some? && e.ghlink.Some?
    requires Appended(h, s, st, occ) != []
    ensures KeyOf(Appended(h, s, st, occ)[0]) == EntryKey(st.resCache[occ.refs.link])
  {
  }

  /**
   * The two ignore settings are the only reasons an active occurrence with a
   * non-empty path is dropped; with both off nothing is dropped.
   */
  lemma DropRule(h: Host, s: Settings, st: ScanState, occ: Occurrence)
    requires Active(h, st, occ.src).Some?
    requires EntryAfterParse(h, st.resCache, occ.src, occ.refs.link).resolvedFilePath.path != ""
    ensures var g := Active(h, st, occ.src).value;
      var e := Complete(h, EntryAfterParse(h, st.resCache, occ.src, occ.refs.link));
      Appended(h, s, st, occ) == [] <==>
        (s.ignoreLinksFrom && g.srcFileIgnored) || (s.ignoreLinksTo && e.fileLinkIgnored == Some(true))
    ensures !s.ignoreLinksFrom && !s.ignoreLinksTo ==> |Appended(h, s, st, occ)| == 1
  {
  }

  /** The sources that have occurrences in `occs`. */
  function SourcesOf(occs: seq<Occurrence>): set<string> {
    set o | o in occs :: o.src
  }

  /** The link texts that occur in `occs`. */
  function LinksOf(occs: seq<Occurrence>): set<string> {
    set o | o in occs :: o.refs.link
  }

  lemma OccurrencesSnoc(occs: seq<Occurrence>)
    requires occs != []
    ensures var n := |occs| - 1;
      && occs == occs[..n] + [occs[n]]
      && SourcesOf(occs) == SourcesOf(occs[..n]) + {occs[n].src}
      && LinksOf(occs) == LinksOf(occs[..n]) + {occs[n].refs.link}
  {
    var n := |occs| - 1;
    assert occs == occs[..n] + [occs[n]];
  }

  /**
   * Over the whole scan, the stored source entries are never modified and new
   * ones are only sources of the enumeration.
   */
  lemma {:induction false} ScanSources(h: Host, s: Settings, st: ScanState, occs: seq<Occurrence>)
    ensures var r := Scan(h, s, st, occs);
      && (forall k :: k in st.srcMap ==> k in r.srcMap && r.srcMap[k] == st.srcMap[k])
      && (forall k :: k in r.srcMap ==> k in st.srcMap || k in SourcesOf(occs))
      && (forall k :: k in r.srcMap && k !in st.srcMap ==> r.srcMap[k] == NewSrcRecord(h, k))
    decreases |occs|
  {
    if occs != [] {
      var n := |occs| - 1;
      ScanSources(h, s, st, occs[..n]);
      ScanStepSources(h, s, Scan(h, s, st, occs[..n]), occs[n]);
      OccurrencesSnoc(occs);
    }
  }

  /**
   * Over the whole scan, the pass-local map gets exactly the enumerated
   * sources, and the decision for a source, once made, stays.
   */
  lemma {:induction false} ScanIterated(h: Host, s: Settings, st: ScanState, occs: seq<Occurrence>)
    ensures var r := Scan(h, s, st, occs);
      && r.iterated.Keys == st.iterated.Keys + SourcesOf(occs)
      && (forall k :: k in st.iterated ==>
            r.iterated[k].updateIndexNeeded == st.iterated[k].updateIndexNeeded
            && r.iterated[k].globalRefsCacheSrcFound == st.iterated[k].globalRefsCacheSrcFound)
      && (forall k :: k in st.iterated && !st.iterated[k].updateIndexNeeded ==> r.iterated[k] == st.iterated[k])
    decreases |occs|
  {
    if occs != [] {
      var n := |occs| - 1;
      var mid := Scan(h, s, st, occs[..n]);
      ScanIterated(h, s, st, occs[..n]);
      ScanStepIterated(h, s, mid, occs[n]);
      OccurrencesSnoc(occs);
      var r := Scan(h, s, st, occs);
      assert r == ScanStep(h, s, mid, occs[n]);
      forall k | k in st.iterated
        ensures r.iterated[k].updateIndexNeeded == st.iterated[k].updateIndexNeeded
        ensures r.iterated[k].globalRefsCacheSrcFound == st.iterated[k].globalRefsCacheSrcFound
        ensures !st.iterated[k].updateIndexNeeded ==> r.iterated[k] == st.iterated[k]
      {
        assert k in mid.iterated;
      }
    }
  }

  /** Over the whole scan, the resolution cache gains only enumerated link texts. */
  lemma {:induction false} ScanCache(h: Host, s: Settings, st: ScanState, occs: seq<Occurrence>)
    ensures Scan(h, s, st, occs).resCache.Keys <= st.resCache.Keys + LinksOf(occs)
    decreases |occs|
  {
    if occs != [] {
      var n := |occs| - 1;
      ScanCache(h, s, st, occs[..n]);
      ScanStepCache(h, s, Scan(h, s, st, occs[..n]), occs[n]);
      OccurrencesSnoc(occs);
    }
  }

  /**
   * A source first met with an unchanged fingerprint is skipped for the whole
   * scan: its stored entry is untouched and its pass-local entry says "no
   * update needed" with no records.
   */
  lemma {:induction false} SkippedSourceUntouched(h: Host, s: Settings, st: ScanState, occs: seq<Occurrence>, src: string)
    requires src !in st.iterated
    requires src in st.srcMap && st.srcMap[src].srcFileStats == h.stat(src)
    ensures var r := Scan(h, s, st, occs);
      && src in r.srcMap && r.srcMap[src] == st.srcMap[src]
      && (src in r.iterated ==> r.iterated[src] == Iterated(false, Some(st.srcMap[src]), []))
    decreases |occs|
  {
    if occs != [] {
      var n := |occs| - 1;
      var mid := Scan(h, s, st, occs[..n]);
      SkippedSourceUntouched(h, s, st, occs[..n], src);
      ScanStepSources(h, s, mid, occs[n]);
      ScanStepIterated(h, s, mid, occs[n]);
    }
  }

  /**
   * Over the whole scan, a source's decision is the one made at its first
   * occurrence: rescan unless its stored fingerprint equals the current one.
   */
  lemma {:induction false} ScanDecision(h: Host, s: Settings, st: ScanState, occs: seq<Occurrence>, src: string)
    requires src !in st.iterated
    requires src in SourcesOf(occs)
    ensures var r := Scan(h, s, st, occs);
      src in r.iterated
      && r.iterated[src].updateIndexNeeded == !(src in st.srcMap && st.srcMap[src].srcFileStats == h.stat(src))
    decreases |occs|
  {
    var n := |occs| - 1;
    var mid := Scan(h, s, st, occs[..n]);
    assert occs == occs[..n] + [occs[n]];
    assert SourcesOf(occs) == SourcesOf(occs[..n]) + {occs[n].src};
    ScanSources(h, s, st, occs[..n]);
    ScanIterated(h, s, st, occs[..n]);
    ScanStepIterated(h, s, mid, occs[n]);
    if src in SourcesOf(occs[..n]) {
      ScanDecision(h, s, st, occs[..n], src);
    } else {
      assert src !in mid.iterated;
      FirstOccurrenceDecides(h, s, mid, occs[n]);
    }
  }

  /**
   * A cache entry completed while its target did not exist keeps its ghost
   * key when it is completed again after the target file has appeared (a
   * later partial pass, with the same cache): the entry now names the new
   * file, but the record is still keyed by the bare parsed path rather than
   * by the file's key, because a cached "" file link is not replaced.
   */
  lemma StaleGhostKeyAfterTargetCreated(before: Host, after: Host, p: ParsedLink, f: string)
    requires p.path != ""
    requires before.firstLinkpathDest(p.path).None?
    requires after.firstLinkpathDest(p.path) == Some(f)
    ensures var e := Complete(before, LinkLookup(p, None, None, None, None));
      var r := Complete(after, e);
      && EntryKey(e) == p.path
      && r.resolvedTFile == Some(f)
      && r.fileLink == Some("") && r.ghlink == Some(p.path)
      && EntryKey(r) == p.path
  {
  }

  /** A fresh resolution, once completed, gives the canonical key of its source. */
  lemma FreshEntryKey(h: Host, src: string, link: string)
    requires FallbackParse(h, src, link).path != ""
    ensures EntryKey(Complete(h, LinkLookup(FallbackParse(h, src, link), None, None, None, None)))
      == CanonicalKey(h, src, link)
  {
  }

  /** The first occurrence of a fresh link text from a new file fills the cache entry for it. */
  lemma FirstUseStep(h: Host, s: Settings, st: ScanState, occ: Occurrence)
    requires occ.src !in st.iterated && occ.src !in st.srcMap && h.isFile(occ.src)
    requires occ.refs.link !in st.resCache
    requires FallbackParse(h, occ.src, occ.refs.link).path != ""
    ensures var r := ScanStep(h, s, st, occ);
      var e := r.resCache[occ.refs.link];
      && occ.refs.link in r.resCache
      && e.resolvedFilePath.path != "" && e.fileLink.Some? && e.ghlink.Some?
      && EntryKey(e) == CanonicalKey(h, occ.src, occ.refs.link)
      && r.iterated.Keys == st.iterated.Keys + {occ.src}
      && r.srcMap.Keys == st.srcMap.Keys + {occ.src}
  {
    var link := occ.refs.link;
    var st1 := Track(h, st, occ.src);
    assert st1.resCache == st.resCache;
    assert EntryAfterParse(h, st.resCache, occ.src, link)
      == LinkLookup(FallbackParse(h, occ.src, link), None, None, None, None);
    FreshEntryKey(h, occ.src, link);
  }

  /**
   * An occurrence from a new file of a link text the cache already resolves
   * yields one record, keyed by the cached entry.
   */
  lemma CachedUseStep(h: Host, s: Settings, st: ScanState, occ: Occurrence)
    requires occ.src !in st.iterated && occ.src !in st.srcMap && h.isFile(occ.src)
    requires occ.refs.link in st.resCache
    requires var e := st.resCache[occ.refs.link];
      e.resolvedFilePath.path != "" && e.fileLink.Some? && e.ghlink.Some?
    requires !s.ignoreLinksFrom && !s.ignoreLinksTo
    ensures var r := ScanStep(h, s, st, occ);
      && occ.src in r.iterated && |r.iterated[occ.src].linkReferenceCache| == 1
      && KeyOf(r.iterated[occ.src].linkReferenceCache[0]) == EntryKey(st.resCache[occ.refs.link])
  {
    var st1 := Track(h, st, occ.src);
    assert st1.resCache == st.resCache && st1.iterated == st.iterated;
  }

  /**
   * The self-reference fallback of a link text is fixed by the first source
   * that used it in the epoch: a second source's same-page link gets the
   * first source's key.
   */
  lemma FallbackFixedByFirstSource(h: Host, s: Settings, st: ScanState, a: string, b: string,
                                   ra: RawReference, rb: RawReference)
    requires a != b && st.iterated == map[]
    requires a !in st.srcMap && b !in st.srcMap && h.isFile(a) && h.isFile(b)
    requires ra.link == rb.link && ra.link !in st.resCache
    requires h.parseLinktext(ra.link).path == "" && StripMd(a) != ""
    requires !s.ignoreLinksFrom && !s.ignoreLinksTo
    ensures var r := Scan(h, s, st, [Occurrence(a, ra), Occurrence(b, rb)]);
      && b in r.iterated && |r.iterated[b].linkReferenceCache| == 1
      && KeyOf(r.iterated[b].linkReferenceCache[0]) == CanonicalKey(h, a, ra.link)
      && (h.firstLinkpathDest(StripMd(a)).None? && h.firstLinkpathDest(StripMd(b)).None? && StripMd(a) != StripMd(b) ==>
            KeyOf(r.iterated[b].linkReferenceCache[0]) != CanonicalKey(h, b, ra.link))
  {
    var oa, ob := Occurrence(a, ra), Occurrence(b, rb);
    var mid := ScanStep(h, s, st, oa);
    assert [oa, ob][..1] == [oa];
    assert Scan(h, s, st, [oa]) == mid;
    assert Scan(h, s, st, [oa, ob]) == ScanStep(h, s, mid, ob);
    FirstUseStep(h, s, st, oa);
    CachedUseStep(h, s, mid, ob);
    SelfReferenceFallback(h, a, ra.link);
    SelfReferenceFallback(h, b, ra.link);
  }
}
