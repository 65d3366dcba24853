/**
 * The indexer's module state as one object: the published index, the
 * flattened record list, the time of the last rebuild, the source map and
 * the link resolution cache of `globalRefsCache`, and the page view cache.
 * Its methods are the rebuild pass and the page view lookup, each proved
 * equal to the functions of `Pass` and `Views`.
 */
module Indexer {
  import opened Wrappers
  import opened Strings
  import opened HostModel
  import opened Records
  import opened Keys
  import opened Scanning
  import opened Grouping
  import opened Exclusion
  import opened Pass
  import opened Views

  class ReferenceIndex {
    /** `references`; `None` until the first pass. */
    var references: Option<map<string, seq<Link>>>
    var allLinkResolutions: seq<Link>
    var lastUpdateToReferences: int
    /** `globalRefsCache.globalRefsCacheMap`: insertion order and entries. */
    var srcOrder: seq<string>
    var srcMap: map<string, SrcRecord>
    /** `globalRefsCache.refLinkResolutionCache`. */
    var resolutionCache: map<string, LinkLookup>
    /** `cacheCurrentPages`, by file path. */
    var cacheCurrentPages: map<string, View>

    function State(): IndexState
      reads this
    {
      IndexState(references, allLinkResolutions, lastUpdateToReferences, srcOrder, srcMap, resolutionCache)
    }

    ghost predicate Valid()
      reads this
    {
      IndexValid(State())
    }

    constructor()
      ensures State() == InitialIndex() && cacheCurrentPages == map[]
      ensures Valid()
    {
      references := None;
      allLinkResolutions := [];
      lastUpdateToReferences := 0;
      srcOrder := [];
      srcMap := map[];
      resolutionCache := map[];
      cacheCurrentPages := map[];
    }

    /**
     * The resolution part of the callback for a source being rescanned: the
     * cache entry for the link text is parsed and completed in place, and the
     * record is returned unless the path is empty or an ignore setting drops it.
     */
    method ResolveReference(h: Host, s: Settings, occ: Occurrence, g: SrcRecord) returns (recs: seq<Link>)
      modifies this
      ensures resolutionCache
        == old(resolutionCache)[occ.refs.link := ResolvedEntry(h, old(resolutionCache), occ.src, occ.refs.link)]
      ensures recs == NewRecords(h, s, old(resolutionCache), occ, g)
      ensures references == old(references) && allLinkResolutions == old(allLinkResolutions)
      ensures lastUpdateToReferences == old(lastUpdateToReferences)
      ensures srcOrder == old(srcOrder) && srcMap == old(srcMap) && cacheCurrentPages == old(cacheCurrentPages)
    {
      var link := occ.refs.link;
      var cached := link in resolutionCache;
      var resolvedFilePath := if cached then resolutionCache[link].resolvedFilePath else h.parseLinktext(link);
      if resolvedFilePath.path == "" {
        resolvedFilePath := resolvedFilePath.(path := StripMd(occ.src));
      }
      var lookup := if cached then resolutionCache[link].(resolvedFilePath := resolvedFilePath)
                    else LinkLookup(resolvedFilePath, None, None, None, None);
      ghost var e0 := EntryAfterParse(h, old(resolutionCache), occ.src, link);
      assert lookup == e0;
      resolutionCache := resolutionCache[link := lookup];
      recs := [];
      if resolvedFilePath.path == "" {
        assert ResolvedEntry(h, old(resolutionCache), occ.src, link) == e0;
      } else {
        var resolvedTFile, fileLink, ghlink;
        lookup, resolvedTFile, fileLink, ghlink := CompleteLookup(h, lookup);
        assert ResolvedEntry(h, old(resolutionCache), occ.src, link) == lookup;
        resolutionCache := resolutionCache[link := lookup];
        if s.ignoreLinksFrom && g.srcFileIgnored {
          return;
        }
        if s.ignoreLinksTo && lookup.fileLinkIgnored == Some(true) {
          return;
        }
        var finalLinkResolution := Link(
          Reference(occ.refs.displayText.GetOr(""), if fileLink != "" then fileLink else ghlink, occ.refs.position),
          resolvedTFile, ghlink, link, g.srcFilePath, false);
        assert finalLinkResolution == RecordFor(occ, g, lookup);
        recs := [finalLinkResolution];
      }
    }

    /**
     * The resolution steps on a cache entry: the target file, the file link
     * with its ignore flag and the ghost link are each filled in where the
     * entry lacks them ("" counts as lacking for the last two), and the
     * values the record is built from are returned with it.
     */
    method CompleteLookup(h: Host, e: LinkLookup)
      returns (lookup: LinkLookup, resolvedTFile: Option<string>, fileLink: string, ghlink: string)
      ensures lookup == Complete(h, e)
      ensures resolvedTFile == lookup.resolvedTFile
      ensures lookup.fileLink == Some(fileLink) && lookup.ghlink == Some(ghlink)
    {
      lookup := e;
      var resolvedFilePath := e.resolvedFilePath;
      resolvedTFile := if lookup.resolvedTFile.Some? then lookup.resolvedTFile
                       else h.firstLinkpathDest(resolvedFilePath.path);
      if resolvedTFile.Some? && lookup.resolvedTFile.None? {
        lookup := lookup.(resolvedTFile := resolvedTFile);
      }
      fileLink := if lookup.fileLink.Some? then lookup.fileLink.value
                  else if resolvedTFile.None? then ""
                  else FileLinkOf(h, resolvedTFile.value, resolvedFilePath.subpath);
      if lookup.fileLink.None? || lookup.fileLink.value == "" {
        lookup := lookup.(fileLink := Some(fileLink), fileLinkIgnored := Some(h.isUserIgnored(fileLink)));
      }
      ghlink := if lookup.ghlink.Some? then lookup.ghlink.value
                else if resolvedTFile.None? then resolvedFilePath.path
                else "";
      if lookup.ghlink.None? || lookup.ghlink.value == "" {
        lookup := lookup.(ghlink := Some(ghlink));
      }
    }

    /**
     * One call of the `iterateReferences` callback: decides (once per source)
     * whether the source is rescanned, tracks a new source, and records the
     * occurrence.  Equal to the scan step, and it touches nothing else.
     */
    method VisitReference(h: Host, s: Settings, occ: Occurrence, iterated: map<string, Iterated>)
      returns (iterated': map<string, Iterated>)
      modifies this
      ensures ScanState(srcOrder, srcMap, resolutionCache, iterated')
        == ScanStep(h, s, ScanState(old(srcOrder), old(srcMap), old(resolutionCache), iterated), occ)
      ensures references == old(references) && allLinkResolutions == old(allLinkResolutions)
      ensures lastUpdateToReferences == old(lastUpdateToReferences) && cacheCurrentPages == old(cacheCurrentPages)
    {
      var src := occ.src;
      iterated' := iterated;
      var it: Iterated;
      if src in iterated {
        it := iterated[src];
        if !it.updateIndexNeeded {
          return;
        }
      } else {
        var skipNote := false;
        var found: Option<SrcRecord> := None;
        if src in srcMap {
          found := Some(srcMap[src]);
          skipNote := Unchanged(srcMap[src], h.stat(src));
        } else if h.isFile(src) {
          srcOrder := srcOrder + [src];
          srcMap := srcMap[src := NewSrcRecord(h, src)];
          found := Some(srcMap[src]);
        }
        it := Iterated(true, found, []);
        iterated' := iterated'[src := it];
        if skipNote {
          it := it.(updateIndexNeeded := false);
          iterated' := iterated'[src := it];
          return;
        }
      }
      assert iterated'[src] == it;
      if it.globalRefsCacheSrcFound.None? {
        return;
      }
      var recs := ResolveReference(h, s, occ, it.globalRefsCacheSrcFound.value);
      iterated' := iterated'[src := it.(linkReferenceCache := it.linkReferenceCache + recs)];
    }

    /**
     * The enumeration: the callback for every occurrence in order, starting
     * from an empty pass-local map.
     */
    method ScanReferences(h: Host, s: Settings) returns (iterated: map<string, Iterated>)
      modifies this
      ensures ScanState(srcOrder, srcMap, resolutionCache, iterated)
        == Scan(h, s, ScanState(old(srcOrder), old(srcMap), old(resolutionCache), map[]), h.references)
      ensures references == old(references) && allLinkResolutions == old(allLinkResolutions)
      ensures lastUpdateToReferences == old(lastUpdateToReferences) && cacheCurrentPages == old(cacheCurrentPages)
    {
      iterated := map[];
      ghost var start := ScanState(srcOrder, srcMap, resolutionCache, iterated);
      var occs := h.references;
      for i := 0 to |occs|
        invariant ScanState(srcOrder, srcMap, resolutionCache, iterated) == Scan(h, s, start, occs[..i])
        invariant references == old(references) && allLinkResolutions == old(allLinkResolutions)
        invariant lastUpdateToReferences == old(lastUpdateToReferences) && cacheCurrentPages == old(cacheCurrentPages)
      {
        assert occs[..i + 1][..i] == occs[..i];
        iterated := VisitReference(h, s, occs[i], iterated);
      }
      assert occs[..|occs|] == occs;
    }

    /**
     * The commit loop over the pass-local map: its order does not matter,
     * every rescanned source that the index tracks is updated independently.
     */
    method CommitIterated(h: Host, iterated: map<string, Iterated>)
      modifies this
      ensures srcMap == Commit(h, old(srcMap), iterated, iterated.Keys)
      ensures references == old(references) && allLinkResolutions == old(allLinkResolutions)
      ensures lastUpdateToReferences == old(lastUpdateToReferences) && cacheCurrentPages == old(cacheCurrentPages)
      ensures srcOrder == old(srcOrder) && resolutionCache == old(resolutionCache)
    {
      var pending := iterated.Keys;
      while pending != {}
        invariant pending <= iterated.Keys
        invariant srcMap == Commit(h, old(srcMap), iterated, iterated.Keys - pending)
        invariant references == old(references) && allLinkResolutions == old(allLinkResolutions)
        invariant lastUpdateToReferences == old(lastUpdateToReferences) && cacheCurrentPages == old(cacheCurrentPages)
        invariant srcOrder == old(srcOrder) && resolutionCache == old(resolutionCache)
        decreases pending
      {
        var key :| key in pending;
        var value := iterated[key];
        if value.updateIndexNeeded && key in srcMap {
          srcMap := srcMap[key := srcMap[key].(linkReferenceCache := value.linkReferenceCache, srcFileStats := h.stat(key))];
        }
        pending := pending - {key};
      }
      assert iterated.Keys - {} == iterated.Keys;
    }

    /** The stored lists of the tracked sources, concatenated in map order. */
    method FlattenSources() returns (all: seq<Link>)
      ensures all == Flatten(srcOrder, srcMap)
    {
      all := [];
      for i := 0 to |srcOrder|
        invariant all == Flatten(srcOrder[..i], srcMap)
      {
        assert srcOrder[..i + 1][..i] == srcOrder[..i];
        var key := srcOrder[i];
        if key in srcMap && |srcMap[key].linkReferenceCache| != 0 {
          all := all + srcMap[key].linkReferenceCache;
        }
      }
      assert srcOrder[..|srcOrder|] == srcOrder;
    }

    /**
     * `buildLinksAndReferences(mode)`: nothing while the counts are off;
     * otherwise the scan, the commit, the flattening, the exclusion flags and
     * the grouping, with the page cache left alone.
     */
    method BuildLinksAndReferences(mode: Mode, h: Host, s: Settings, now: int)
      requires Valid()
      modifies this
      ensures Valid()
      ensures State() == Build(mode, h, s, now, old(State()))
      ensures cacheCurrentPages == old(cacheCurrentPages)
    {
      if !s.showCountsActive {
        return;
      }
      ghost var prior := State();
      if mode == Full {
        references := Some(map[]);
        allLinkResolutions := [];
        srcOrder := [];
        srcMap := map[];
        resolutionCache := map[];
      }
      allLinkResolutions := [];
      assert ScanState(srcOrder, srcMap, resolutionCache, map[]) == StartScan(mode, prior);
      var iterated := ScanReferences(h, s);
      ghost var st := Scan(h, s, StartScan(mode, prior), h.references);
      assert st.iterated == iterated && st.srcOrder == srcOrder && st.resCache == resolutionCache;
      CommitIterated(h, iterated);
      var all := FlattenSources();
      allLinkResolutions := MarkExcluded(all, h.exceptions);
      var refs := GroupByLink(allLinkResolutions);
      references := Some(refs);
      lastUpdateToReferences := now;
      RebuildValid(mode, h, s, now, prior);
    }

    /**
     * `getSNWCacheByFile(file)`: a cached view that is still valid is served
     * as it is; with the counts off or no metadata for the file the result is
     * the empty view; otherwise the index is built first if it never was, and
     * the page's view is built at `now` and cached under the file's path.
     */
    method GetSNWCacheByFile(file: FileRef, h: Host, s: Settings, now: int) returns (v: View)
      requires Valid()
      modifies this
      ensures Valid()
      ensures file.path in old(cacheCurrentPages)
              && PageStillValid(old(cacheCurrentPages)[file.path], old(lastUpdateToReferences), s.cacheUpdateInMilliseconds, now)
        ==> v == old(cacheCurrentPages)[file.path] && State() == old(State())
            && cacheCurrentPages == old(cacheCurrentPages)
      ensures !(file.path in old(cacheCurrentPages)
                && PageStillValid(old(cacheCurrentPages)[file.path], old(lastUpdateToReferences), s.cacheUpdateInMilliseconds, now))
        ==> if !s.showCountsActive || h.fileCache(file.path).None? then
              v == EmptyView() && State() == old(State()) && cacheCurrentPages == old(cacheCurrentPages)
            else
              && State() == (if old(references).None? then Rebuild(Full, h, s, now, old(State())) else old(State()))
              && references.Some?
              && v == BuildView(h, file, h.fileCache(file.path).value, references.value, now)
              && cacheCurrentPages == old(cacheCurrentPages)[file.path := v]
    {
      if file.path in cacheCurrentPages {
        var cachedPage := cacheCurrentPages[file.path];
        if PageStillValid(cachedPage, lastUpdateToReferences, s.cacheUpdateInMilliseconds, now) {
          return cachedPage;
        }
      }
      if !s.showCountsActive {
        return EmptyView();
      }
      var cachedMetaData := h.fileCache(file.path);
      if cachedMetaData.None? {
        return EmptyView();
      }
      if references.None? {
        BuildLinksAndReferences(Full, h, s, now);
      }
      v := BuildView(h, file, cachedMetaData.value, references.value, now);
      cacheCurrentPages := cacheCurrentPages[file.path := v];
    }
  }
}
