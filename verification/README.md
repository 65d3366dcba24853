# Reference index of Strange New Worlds, in Dafny

This project models the core of the Obsidian plugin "Strange New Worlds", `src/indexer.ts`. That core has two parts:

- **The reference index.** `buildLinksAndReferences` runs over every link occurrence in the vault. It keeps three things across passes:
  - a per-source map of the records each file authored, fingerprinted by the file's (ctime, mtime, size);
  - a resolution cache keyed by the literal link text;
  - the published index `references`, which groups every record under its canonical key (the target path without ".md" plus the stripped heading or block part, or the bare path for a ghost link).
- **The per-page view.** `getSNWCacheByFile` builds and caches a view of one page. The view holds one entry per block, heading, link and embed, each with the records the index keeps under the entry's key. A cached view is reused while the index has not been rebuilt and its time to live has not run out.

The model is layered as follows:

- `HostModel` (host.dfy) holds the vault, the metadata cache and the settings. Every Obsidian call becomes a function field of the `Host` value passed to each operation. `Date.now()` becomes a `now` parameter.
- `Strings` holds the few string operations used. `StripMd` is JavaScript's `replace(".md", "")`, which removes only the first occurrence.
- `Keys` holds the key computations of the pass and of the view, including `parseLinkTextToFullPath`.
- `Scanning` (scan.dfy) models the `iterateReferences` callback as the function `ScanStep` and the whole enumeration as the fold `Scan`. Lemmas state the following about it:
  - when a source's rescan decision is made;
  - how the resolution cache is reused and kept;
  - the drop rules;
  - how the self-reference fallback behaves.
- `Grouping` holds the flattening and the grouping by key, with the partition property.
- `Exclusion` holds the exclusion flags.
- `Pass` defines a whole pass as a function of the state before it, with lemmas about partial and full passes.
- `Views` defines the page view, the lookups of its entries and its labels.
- `Indexer` (indexer.dfy) holds the class `ReferenceIndex`. Its fields are the module state of indexer.ts. Its methods are the pass, the callback and the view lookup. Each method is proved equal to the functions above.
- `PrototypeKeys` holds the grouping as written, which fails on some keys (see Findings).

The model follows the code at these points:

- **The self-reference fallback is fixed by the first source.** A link text with an empty path part (`[[#Heading]]`) falls back to its source's path. The fallback is written into the resolution cache entry for that literal text, so a later source reusing the same text within the same cache epoch gets the first source's key (`Scanning.FallbackFixedByFirstSource`). The key does not come from the later source's own path.
- **A ghost link's key drops its subpath.** The key is the parsed path alone (`Keys.GhostKeyIsParsedPath`). A page view, meanwhile, looks an unresolved link up under its literal text (`Keys.GhostLinkViewKey`).
- **A partial pass keeps unvisited sources.** A source that the enumeration no longer yields keeps its stored records (`Pass.PassKeepsUnvisitedSource`). Only a full pass forgets them.
- **Disabled counts can still return a cached view.** The cache test comes before the "counts shown" test, so with the counts turned off a still-valid cached view is returned. It is not the empty view.
- **A partial pass keeps a source's ignore flag.** A source's "ignored" flag is read when the source is first tracked. A rescan replaces only its stats and records (`Pass.PassRefreshesRescannedSource`). A source whose folder is ignored later keeps contributing records until a full pass.
- **A ghost key outlives the target's creation.** An entry resolved while its target was missing caches the file link "". The fallback at lines 235-240 uses `??`, which does not replace "", so after the target file appears a partial pass still keys the link by its bare path. The entry meanwhile names the new file (`Scanning.StaleGhostKeyAfterTargetCreated`). Until a full pass, `[[New#H]]` therefore stays grouped under "New", where neither the link's view key nor the heading key of New finds it.
- **The pass can throw.** The grouping step throws for keys inherited from `Object.prototype`, so a pass does not always complete (see Findings).

## Model

| member | source | states |
|---|---|---|
| Strings.StripMd | src/indexer.ts:201 | removing ".md" shortens a path by exactly 3 characters or leaves it alone |
| Strings.StripMdRemovesFirst | src/indexer.ts:239 | exactly the first ".md" is removed, wherever it occurs; any later one stays |
| Strings.StripMdNoOccurrence | src/indexer.ts:434 | a path holding no ".md" is left unchanged |
| Strings.DropThrough | src/indexer.ts:481 | the part after the first '#' is the suffix that follows the first '#', and empty when there is none |
| Strings.TakeUntil | src/indexer.ts:481 | the part before the first '#' is the prefix that stops at the first '#' or at the end |
| Strings.Hashes | src/indexer.ts:446 | `"#".repeat(level)` is `level` characters, all '#' |
| Keys.FallbackParse | src/indexer.ts:193-201 | an empty parsed path becomes the source's path without ".md"; a non-empty parse is kept; the subpath is never touched |
| Keys.KeyIndependentOfSource | src/indexer.ts:222-271 | a link with a non-empty path part gets the same key from every source file |
| Keys.SelfReferenceFallback | src/indexer.ts:201-249 | a same-page link is keyed by its source: that file's resolved target plus the stripped subpath, or its bare path when that does not resolve |
| Keys.GhostKeyIsParsedPath | src/indexer.ts:247-271 | an unresolved link is keyed by its parsed path, subpath dropped |
| Keys.FullPathAgreesWithBuildKey | src/indexer.ts:530-537 | `parseLinkTextToFullPath` is the build key for a resolving link and "" for a ghost link |
| Keys.ViewLinkKeyMatchesBuildKey | src/indexer.ts:459-467 | a resolving link whose key does not start with '#' is looked up by a page view under exactly the key the pass groups it under, as a link and as an embed |
| Keys.GhostLinkViewKey | src/indexer.ts:459-496 | a page view keeps an unresolved, non-anchor link under its literal text and gives the embed key ""; the view key and the build key agree iff the text is its own path |
| Keys.SamePageLinkKey | src/indexer.ts:465-496 | an unresolved "#..." link or embed is keyed by the page's path without ".md" plus the stripped anchor |
| Scanning.Complete | src/indexer.ts:222-250 | each of target file, file link and ghost link is computed only where the cache entry lacks it, and cached values are kept. A missing file link becomes "" for an unresolved target, else the target's path without its first ".md" plus the stripped subpath. The ignore flag is recomputed from the file link whenever the cached one was missing or "". A missing ghost link becomes the parsed path for an unresolved target, else "" |
| Scanning.ScanStepSources | src/indexer.ts:127-165 | one callback adds at most its own source to the source map, as a fresh entry (current stats, ignore flag, no records) appended to the map order, and never changes a stored entry |
| Scanning.ScanStepIterated | src/indexer.ts:112-283 | one callback touches only its own source's pass-local entry, appends at most the records of this occurrence, keeps an earlier decision, and is a no-op for a skipped source |
| Scanning.ScanStepCache | src/indexer.ts:193-212 | one callback adds at most its own link text to the resolution cache |
| Scanning.FirstOccurrenceDecides | src/indexer.ts:127-181 | a source's first occurrence decides "rescan" unless a stored entry's ctime, mtime and size all equal the file's current stats |
| Scanning.LaterOccurrenceReusesDecision | src/indexer.ts:114-125 | later occurrences of a source do not read the file's stats, and those of a skipped source change nothing |
| Scanning.CachedResolutionReused | src/indexer.ts:193-233 | a cached entry with a path is not re-parsed, and one with a cached target is not re-resolved |
| Scanning.ScanStepKeepsResolutions | src/indexer.ts:222-250 | one callback never loses a cached path, target, file link or ghost link |
| Scanning.ScanKeepsResolutions | src/indexer.ts:105-287 | resolution cache entries are stable over the whole enumeration |
| Scanning.ScanStepValid | src/indexer.ts:143-173 | one callback keeps the source map ordered and every entry, stored or pass-local, filed under its own path with only its own records |
| Scanning.ScanValidity | src/indexer.ts:105-287 | the whole enumeration keeps that consistency |
| Scanning.FreshLinkKey | src/indexer.ts:193-281 | a link text not yet cached, kept by both ignore rules, yields a record keyed by the canonical key of its own source, with the resolved target, the ghost link (the parsed path when unresolved, else ""), the display text and position of the occurrence, the literal link text, its source and the flag cleared |
| Scanning.CachedLinkKey | src/indexer.ts:235-271 | a link text already resolved yields a record keyed by the cached file link, or by the cached ghost link when the file link is "" |
| Scanning.DropRule | src/indexer.ts:253-265 | an occurrence with a path is dropped iff the "links from" rule hits its source or the "links to" rule hits its target; with both off it always yields one record |
| Scanning.ScanSources | src/indexer.ts:127-158 | over a whole enumeration stored source entries are never modified, and new ones are enumerated sources, each a fresh entry |
| Scanning.ScanIterated | src/indexer.ts:97-181 | the pass-local map holds exactly the enumerated sources, and decisions are never revised |
| Scanning.ScanCache | src/indexer.ts:193-212 | the resolution cache gains only enumerated link texts |
| Scanning.SkippedSourceUntouched | src/indexer.ts:127-181 | a source first met with an unchanged fingerprint keeps its stored entry and gets "no update needed" with no records |
| Scanning.ScanDecision | src/indexer.ts:114-181 | over a whole enumeration, each source's decision is the one its first occurrence made from the stats |
| Scanning.StaleGhostKeyAfterTargetCreated | src/indexer.ts:222-271 | an entry completed while its target was missing keeps keying records by the bare parsed path after the target appears, although it now names the new file |
| Scanning.FreshEntryKey | src/indexer.ts:222-271 | a freshly completed entry keys its record by the canonical key |
| Scanning.FirstUseStep | src/indexer.ts:193-250 | the first occurrence of a new link text from a new file fills a complete cache entry keyed by its source's canonical key |
| Scanning.CachedUseStep | src/indexer.ts:193-284 | an occurrence of a cached link text from a new file yields one record, keyed by the cached entry |
| Scanning.FallbackFixedByFirstSource | src/indexer.ts:193-271 | a same-page link text used by a second file gets the first file's key; for two distinct unresolved paths it differs from the second file's own key |
| Exclusion.IsIndexException | src/indexer.ts:333-338 | the inner loop finds a path iff it is on the exceptions list |
| Exclusion.MarkExcluded | src/indexer.ts:329-340 | each record is kept in place with all other fields unchanged, and is flagged iff it resolves to a non-empty path on the exceptions list; ghost records end unflagged |
| Grouping.Filter | src/indexer.ts:361-364 | a group holds only records of the list carrying its key, never more than the list |
| Grouping.FlattenMembership | src/indexer.ts:323-328 | a record is in `allLinkResolutions` iff some tracked source stores it |
| Grouping.FlattenLength | src/indexer.ts:323-328 | `allLinkResolutions` is as long as all stored lists together |
| Grouping.LookupGroup | src/indexer.ts:440 | looking a key up in the grouping of a list, with no group read as an empty list, gives exactly the records with that key |
| Grouping.GroupSnoc | src/indexer.ts:361-364 | appending one record extends only the group of its own key, creating it if needed |
| Grouping.GroupIsPartition | src/indexer.ts:347-373 | the grouping is a partition: each record is in its key's group, groups are non-empty and hold only records of their key, and sizes add up to the list length |
| Grouping.GroupSizes | src/indexer.ts:347-373 | the group sizes add up to the number of records |
| Grouping.SameKeySameGroup | src/indexer.ts:351 | records from different files with the same key share a group |
| Grouping.GroupByLink | src/indexer.ts:347-373 | the reduce loop computes the grouping of the flattened list |
| Pass.StartScan | src/indexer.ts:71-102 | a full pass scans from empty caches, a partial one from the stored ones; the pass-local map starts empty |
| Pass.Commit | src/indexer.ts:292-304 | the commit keeps the set of tracked sources |
| Pass.CommitValid | src/indexer.ts:292-304 | the commit keeps every entry filed under its own path with only its own records |
| Pass.RebuildValid | src/indexer.ts:67-383 | a pass keeps the source map consistent |
| Pass.PassKeepsUnchangedSource | src/indexer.ts:127-304 | a partial pass leaves a source with unchanged stats exactly as stored |
| Pass.PassKeepsUnvisitedSource | src/indexer.ts:292-328 | a partial pass leaves a stored source that is no longer enumerated as it was, stale records included |
| Pass.PassRefreshesRescannedSource | src/indexer.ts:292-304 | a rescanned, tracked source gets its current stats and exactly the records the scan built for it, all authored by it; the rest of its entry, the ignore flag included, is the one it got when first tracked |
| Pass.FullPassForgetsPrior | src/indexer.ts:71-77 | a full pass depends on the vault alone, tracks only enumerated sources, and caches only enumerated link texts |
| Pass.IndexIsPartition | src/indexer.ts:346-377 | the published index partitions `allLinkResolutions` by key |
| Pass.IndexedRecordsAreStored | src/indexer.ts:322-340 | every flattened record is a stored record of a tracked source, its flag recomputed from the exceptions list |
| Views.FirstWhere | src/indexer.ts:481 | `filter(p)[0]` is the first element satisfying `p`, and absent iff none does |
| Views.Truthy | src/indexer.ts:482 | `heading ? heading : undefined` drops an empty heading text |
| Views.ViewMirrorsMetadata | src/indexer.ts:433-506 | each entry list is present iff the page has it; entries correspond one to one, with the item's position, their kind, their key and the page's base name |
| Views.EntriesLookUpIndex | src/indexer.ts:433-519 | every entry carries the index's list under its own key, or none |
| Views.EntriesCountIndexedRecords | src/indexer.ts:433-519 | against a grouped list, an entry's references are exactly the records with the entry's key, in order |
| Views.LinkLabelIsFirstMatchingHeading | src/indexer.ts:478-486 | a link whose key names a heading is labelled with the first vault heading whose stripped text matches, whenever that heading is not empty, and with nothing otherwise; a link whose key names no heading keeps its original text |
| Views.EmbedLabelIsFirstContainingHeading | src/indexer.ts:507-512 | an embed is labelled only on a page with headings and a key naming a heading, and then exactly with the first vault heading containing the key's heading part, whenever that heading is not empty |
| PrototypeKeys.ReduceAsWrittenBehaviour | src/indexer.ts:347-373 | the reduce as written fails iff some key names an `Object.prototype` member, and otherwise computes the grouping |
| PrototypeKeys.ConstructorKeyCounterexample | src/indexer.ts:361-364 | one record keyed "constructor" makes the reduce as written fail, while the grouping holds it under "constructor" |
| Indexer.ReferenceIndex.constructor | src/indexer.ts:7-10 | the plugin starts with no index, an empty source map, resolution cache and page cache, and last update 0 |
| Indexer.ReferenceIndex.CompleteLookup | src/indexer.ts:222-250 | the completion steps on a cache entry compute `Complete`, and return the target, file link and ghost link the record is built from |
| Indexer.ReferenceIndex.ResolveReference | src/indexer.ts:193-285 | parses and completes the cache entry for the link text in place and returns the occurrence's record unless dropped |
| Indexer.ReferenceIndex.VisitReference | src/indexer.ts:105-287 | one callback is the scan step, and changes nothing else |
| Indexer.ReferenceIndex.ScanReferences | src/indexer.ts:97-288 | the enumeration loop computes the fold of the scan step from an empty pass-local map |
| Indexer.ReferenceIndex.CommitIterated | src/indexer.ts:292-304 | the commit loop, in any order, yields the commit of every rescanned source |
| Indexer.ReferenceIndex.FlattenSources | src/indexer.ts:323-328 | the flatten loop concatenates the stored lists in map order |
| Indexer.ReferenceIndex.BuildLinksAndReferences | src/indexer.ts:67-383 | the new state is the pass function of the old one (unchanged while counts are off), the source map stays consistent, and the page cache is untouched |
| Indexer.ReferenceIndex.GetSNWCacheByFile | src/indexer.ts:396-528 | serves a still-valid cached view unchanged; returns the empty view when the counts are off or the file has no metadata; otherwise builds the index first if it never was, builds the page view at `now` and caches it under the file's path |

## Left out

- Console timing, log messages and `indexOptimizationStats`: they have no effect on the state.
- Publishing `references` on `window.snwAPI` (line 379).
- The snw-index-exclude lookup (lines 309-320) matches front matter in the metadata cache against the cache's internal `fileCache` by hash. It is replaced by `Host.exceptions`, the list of paths that lookup yields.
- Object identity. Records, source entries, cache entries and views are values.
  - A cache entry's in-place mutation is modelled as writing the entry back.
  - The exclusion flag is written in place on records that the stored lists and earlier views share. The pass always recomputes the flags before reading them, but the model does not capture how this write is visible through a view the caller still holds.
- `TFile` objects become their paths, both as `resolvedFile` and as `sourceFile`. A tracked source's stats are read through its path rather than through the stored `TFile`, so renames are not modelled.
- One snapshot of the vault (`Host`) and one `now` serve each top-level call. The source reads the clock separately at lines 380, 403 and 524.
- The "cannot happen" branch at lines 213-219 is omitted, because after line 203 the entry is always present. The branch at lines 184-189 is modelled: it is the case of a source that is not a file.
- `setPluginVariableForIndexer`, `getReferencesCache` and `getSnwAllLinksResolutions` are plain accessors. They are the class's fields.
- Metadata `blocks`, an object keyed by block id, is a sequence in `Object.values` order. The vault-wide headings list (lines 422-430) is `Host.allHeadings`.
- Views.EntriesLookUpIndex: the lookup with a default of `[]` is modelled as a map lookup. A key naming an `Object.prototype` member would instead return the inherited member; see Findings.
- Indexer.ReferenceIndex.BuildLinksAndReferences: the model's pass always completes. The source's pass throws at the grouping for the keys described under Findings. The model uses the corrected grouping.
- Pass.PassRefreshesRescannedSource: the new records are stated as the scan's pass-local list for that source. The list is not given in closed form; the step lemmas of `Scanning` describe how it grows.
- Before the first pass, `allLinkResolutions` is `undefined` in the source (line 8), so `getSnwAllLinksResolutions` returns `undefined`. The model starts it as the empty list.
- src/references-preview.ts and the hover and title components are not part of this model.

## Findings

| source | as written | input that shows it | evidently intended | confidence | as-written member | corrected member |
|---|---|---|---|---|---|---|
| src/indexer.ts:361-364 | The reduce groups into a plain `{}`. For a key inherited from `Object.prototype`, `!acc[key]` is false, so no array is created, and `acc[key].push` throws a TypeError that aborts the pass after the source map was already committed. | A vault with a link to a note named `constructor` (or `toString`, `valueOf`, `__proto__`, ...) | Every key gets its own group, for example with an accumulator built by `Object.create(null)` or a `Map`. | high; not executed | PrototypeKeys.ConstructorKeyCounterexample | Grouping.GroupByLink |
