/**
 * One whole `buildLinksAndReferences` pass as a function of the index state
 * before it: the scan, the commit of the rescanned sources, the flattening,
 * the exclusion flags and the grouping.
 */
module Pass {
  import opened Wrappers
  import opened HostModel
  import opened Records
  import opened Keys
  import opened Scanning
  import opened Grouping
  import opened Exclusion

  datatype Mode = Full | Partial

  /**
   * The module state the pass reads and writes: `references` (`None` until
   * the first pass), `allLinkResolutions`, `lastUpdateToReferences`, and the
   * two maps of `globalRefsCache`.
   */
  datatype IndexState = IndexState(
    references: Option<map<string, seq<Link>>>,
    allLinkResolutions: seq<Link>,
    lastUpdateToReferences: int,
    srcOrder: seq<string>,
    srcMap: map<string, SrcRecord>,
    resCache: map<string, LinkLookup>)

  /** The state when the plugin loads. */
  function InitialIndex(): IndexState {
    IndexState(None, [], 0, [], map[], map[])
  }

  /** The stored source map is consistent: ordered like a `Map`, every entry filed under its own path. */
  ghost predicate IndexValid(p: IndexState) {
    OrderMatches(p.srcOrder, p.srcMap) && WellKeyed(p.srcMap)
  }

  /** The scan's starting state: a full pass starts from empty caches, a partial one from the stored ones. */
  function StartScan(mode: Mode, prior: IndexState): (st: ScanState)
    ensures st.iterated == map[]
    ensures mode == Full ==> st.srcMap == map[] && st.resCache == map[]
    ensures mode == Partial ==> st.srcMap == prior.srcMap && st.resCache == prior.resCache
  {
    if mode == Full then ScanState([], map[], map[], map[])
    else ScanState(prior.srcOrder, prior.srcMap, prior.resCache, map[])
  }

  /**
   * The commit of the sources in `ks`: an entry whose source the pass decided
   * to rescan gets the pass's records and the file's current stats; every
   * other entry stays as it was.
   */
  function Commit(h: Host, m: map<string, SrcRecord>, it: map<string, Iterated>, ks: set<string>): (r: map<string, SrcRecord>)
    ensures r.Keys == m.Keys
  {
    map k | k in m ::
      if k in ks && k in it && it[k].updateIndexNeeded
      then m[k].(linkReferenceCache := it[k].linkReferenceCache, srcFileStats := h.stat(k))
      else m[k]
  }

  /** The state after a pass that runs (the counts are shown). */
  function Rebuild(mode: Mode, h: Host, s: Settings, now: int, prior: IndexState): IndexState {
    var st := Scan(h, s, StartScan(mode, prior), h.references);
    var committed := Commit(h, st.srcMap, st.iterated, st.iterated.Keys);
    var all := Marked(Flatten(st.srcOrder, committed), h.exceptions);
    IndexState(Some(Group(all)), all, now, st.srcOrder, committed, st.resCache)
  }

  /** `buildLinksAndReferences(mode)`: nothing at all while the counts are off. */
  function Build(mode: Mode, h: Host, s: Settings, now: int, prior: IndexState): IndexState {
    if !s.showCountsActive then prior else Rebuild(mode, h, s, now, prior)
  }

  /** The commit keeps the source map consistent. */
  lemma CommitValid(h: Host, m: map<string, SrcRecord>, it: map<string, Iterated>, ks: set<string>)
    requires WellKeyed(m) && IteratedWellKeyed(it)
    ensures WellKeyed(Commit(h, m, it, ks))
  {
    var r := Commit(h, m, it, ks);
    forall k | k in r
      ensures r[k].srcFilePath == k
      ensures forall x :: x in r[k].linkReferenceCache ==> x.sourceFile == k
    {
      assert r[k].srcFilePath == m[k].srcFilePath;
    }
  }

  /** A pass keeps the index consistent. */
  lemma RebuildValid(mode: Mode, h: Host, s: Settings, now: int, prior: IndexState)
    requires IndexValid(prior)
    ensures IndexValid(Rebuild(mode, h, s, now, prior))
  {
    var st0 := StartScan(mode, prior);
    assert ScanValid(st0);
    ScanValidity(h, s, st0, h.references);
    var st := Scan(h, s, st0, h.references);
    CommitValid(h, st.srcMap, st.iterated, st.iterated.Keys);
  }

  /**
   * A partial pass leaves a source whose stored fingerprint equals its
   * current one exactly as it was: same stats, same records.
   */
  lemma PassKeepsUnchangedSource(h: Host, s: Settings, now: int, prior: IndexState, src: string)
    requires src in prior.srcMap && prior.srcMap[src].srcFileStats == h.stat(src)
    ensures var p := Rebuild(Partial, h, s, now, prior);
      src in p.srcMap && p.srcMap[src] == prior.srcMap[src]
  {
    var st0 := StartScan(Partial, prior);
    SkippedSourceUntouched(h, s, st0, h.references, src);
  }

  /**
   * A partial pass leaves a stored source that the enumeration no longer
   * yields (a file whose last link was removed, or that was deleted) as it
   * was: its old records stay in the index.
   */
  lemma PassKeepsUnvisitedSource(h: Host, s: Settings, now: int, prior: IndexState, src: string)
    requires src in prior.srcMap && src !in SourcesOf(h.references)
    ensures var p := Rebuild(Partial, h, s, now, prior);
      src in p.srcMap && p.srcMap[src] == prior.srcMap[src]
  {
    var st0 := StartScan(Partial, prior);
    ScanSources(h, s, st0, h.references);
    ScanIterated(h, s, st0, h.references);
  }

  /**
   * A source that the pass rescans (it is enumerated, and a partial pass
   * finds no stored entry with equal stats) and that the index tracks gets
   * the file's current stats and the records the scan built for it, each
   * authored by that source.  The rest of its entry is the one it had when
   * it was first tracked: in a partial pass, a stored source keeps its old
   * ignore flag even if its folder has since been ignored.
   */
  lemma PassRefreshesRescannedSource(mode: Mode, h: Host, s: Settings, now: int, prior: IndexState, src: string)
    requires IndexValid(prior)
    requires src in SourcesOf(h.references)
    requires !(mode == Partial && src in prior.srcMap && prior.srcMap[src].srcFileStats == h.stat(src))
    ensures var st := Scan(h, s, StartScan(mode, prior), h.references);
      var p := Rebuild(mode, h, s, now, prior);
      && src in st.iterated
      && (src in p.srcMap ==>
            && p.srcMap[src]
               == (if mode == Partial && src in prior.srcMap then prior.srcMap[src] else NewSrcRecord(h, src))
                    .(linkReferenceCache := st.iterated[src].linkReferenceCache, srcFileStats := h.stat(src))
            && p.srcMap[src].srcFileStats == h.stat(src)
            && p.srcMap[src].linkReferenceCache == st.iterated[src].linkReferenceCache
            && forall x :: x in p.srcMap[src].linkReferenceCache ==> x.sourceFile == src)
  {
    var st0 := StartScan(mode, prior);
    assert ScanValid(st0);
    ScanDecision(h, s, st0, h.references, src);
    ScanSources(h, s, st0, h.references);
    RebuildValid(mode, h, s, now, prior);
  }

  /**
   * A full pass forgets everything the index held before: its result depends
   * on the vault alone, it tracks only enumerated sources, and its resolution
   * cache holds only enumerated link texts.
   */
  lemma FullPassForgetsPrior(h: Host, s: Settings, now: int, prior: IndexState, other: IndexState)
    ensures Rebuild(Full, h, s, now, prior) == Rebuild(Full, h, s, now, other)
    ensures var p := Rebuild(Full, h, s, now, prior);
      p.srcMap.Keys <= SourcesOf(h.references) && p.resCache.Keys <= LinksOf(h.references)
  {
    var st0 := StartScan(Full, prior);
    assert StartScan(Full, other) == st0;
    ScanSources(h, s, st0, h.references);
    ScanCache(h, s, st0, h.references);
  }

  /**
   * The published index is a partition of `allLinkResolutions` by key, and
   * every record in it is a stored record of a tracked source, flagged
   * exactly when its resolved file is on the exceptions list.
   */
  lemma IndexIsPartition(mode: Mode, h: Host, s: Settings, now: int, prior: IndexState)
    ensures var p := Rebuild(mode, h, s, now, prior);
      && p.references.Some?
      && (forall i :: 0 <= i < |p.allLinkResolutions| ==>
            var x := p.allLinkResolutions[i];
            KeyOf(x) in p.references.value && x in p.references.value[KeyOf(x)])
      && (forall k, x :: k in p.references.value && x in p.references.value[k] ==>
            x in p.allLinkResolutions && KeyOf(x) == k)
      && SumSizes(p.references.value) == |p.allLinkResolutions|
  {
    var p := Rebuild(mode, h, s, now, prior);
    GroupIsPartition(p.allLinkResolutions);
  }

  /**
   * Each record of `allLinkResolutions` is a record stored for some tracked
   * source, with its exclusion flag recomputed.
   */
  lemma IndexedRecordsAreStored(mode: Mode, h: Host, s: Settings, now: int, prior: IndexState, i: int)
    requires 0 <= i < |Rebuild(mode, h, s, now, prior).allLinkResolutions|
    ensures var p := Rebuild(mode, h, s, now, prior);
      var x := p.allLinkResolutions[i];
      && (x.excludedFile <==> Excluded(x, h.exceptions))
      && exists j, y :: 0 <= j < |p.srcOrder| && p.srcOrder[j] in p.srcMap
           && y in p.srcMap[p.srcOrder[j]].linkReferenceCache
           && x == y.(excludedFile := Excluded(y, h.exceptions))
  {
    var p := Rebuild(mode, h, s, now, prior);
    var flat := Flatten(p.srcOrder, p.srcMap);
    var x := p.allLinkResolutions[i];
    assert x == flat[i].(excludedFile := Excluded(flat[i], h.exceptions));
    FlattenMembership(p.srcOrder, p.srcMap, flat[i]);
  }
}
