/**
 * The host application (the Obsidian vault and its metadata cache) as the
 * indexer sees it, and the plugin settings it reads.  Every host call the
 * indexer makes is a field of `Host`: a snapshot of the vault taken at the
 * moment of one top-level call.
 */
module HostModel {
  import opened Wrappers

  /** A file's `stat`: the (ctime, mtime, size) fingerprint. */
  datatype Stat = Stat(ctime: int, mtime: int, size: int)

  /** A source position as the metadata cache reports it. */
  datatype Pos = Pos(start: nat, end: nat)

  /** `parseLinktext` result: the path part and the "#heading" / "#^block" part. */
  datatype ParsedLink = ParsedLink(path: string, subpath: string)

  /** One reference occurrence as `iterateReferences` hands it over. */
  datatype RawReference = RawReference(link: string, displayText: Option<string>, position: Pos)

  /** The pair `(src, refs)` given to the `iterateReferences` callback. */
  datatype Occurrence = Occurrence(src: string, refs: RawReference)

  /** A `TFile`: its vault path and its base name. */
  datatype FileRef = FileRef(path: string, basename: string)

  datatype BlockCache = BlockCache(id: string, position: Pos)
  datatype HeadingCache = HeadingCache(heading: string, level: nat, position: Pos)
  /** A link or an embed of a page. */
  datatype ReferenceCache = ReferenceCache(link: string, original: string, position: Pos)

  /** `CachedMetadata` of one file; an absent property is `None`. */
  datatype Metadata = Metadata(
    blocks: Option<seq<BlockCache>>,
    headings: Option<seq<HeadingCache>>,
    links: Option<seq<ReferenceCache>>,
    embeds: Option<seq<ReferenceCache>>)

  datatype Host = Host(
    /** `parseLinktext(link)`. */
    parseLinktext: string -> ParsedLink,
    /** `getFirstLinkpathDest(path, "/")`: the path of the file found, if any. */
    firstLinkpathDest: string -> Option<string>,
    /** `stripHeading(text)`. */
    stripHeading: string -> string,
    /** `metadataCache.isUserIgnored(path)`. */
    isUserIgnored: string -> bool,
    /** `vault.getAbstractFileByPath(path)` is a `TFile`. */
    isFile: string -> bool,
    /** The current `stat` of the file the index tracks under a source path. */
    stat: string -> Stat,
    /** The occurrences `iterateReferences` enumerates, in callback order. */
    references: seq<Occurrence>,
    /** Paths of files whose front matter sets `snw-index-exclude`. */
    exceptions: seq<string>,
    /** `metadataCache.getFileCache(file)`, by file path. */
    fileCache: string -> Option<Metadata>,
    /** The headings of every file in the metadata cache, in order. */
    allHeadings: seq<string>)

  datatype Settings = Settings(
    /** `thePlugin.showCountsActive`. */
    showCountsActive: bool,
    /** `enableIgnoreObsExcludeFoldersLinksFrom`. */
    ignoreLinksFrom: bool,
    /** `enableIgnoreObsExcludeFoldersLinksTo`. */
    ignoreLinksTo: bool,
    /** `cacheUpdateInMilliseconds`, the page-view TTL. */
    cacheUpdateInMilliseconds: int)
}
