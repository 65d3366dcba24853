/** The records the indexer stores (the `Link` / `LinkResolutionCache` shape and its caches). */
module Records {
  import opened Wrappers
  import opened HostModel

  /** `reference` of a record: what the grouping reads. `link` is the canonical key. */
  datatype Reference = Reference(displayText: string, link: string, position: Pos)

  /**
   * One indexed fact: `sourceFile` refers to `reference.link`.
   * `resolvedFile` is the path of the target file, `None` for a ghost link.
   */
  datatype Link = Link(
    reference: Reference,
    resolvedFile: Option<string>,
    ghostLink: string,
    realLink: string,
    sourceFile: string,
    excludedFile: bool)

  /** The key a record is grouped under. */
  function KeyOf(r: Link): string {
    r.reference.link
  }

  /** A `globalRefsCacheMap` entry: one source file and what it authored. */
  datatype SrcRecord = SrcRecord(
    srcFilePath: string,
    srcFileStats: Stat,
    srcFileIgnored: bool,
    linkReferenceCache: seq<Link>)

  /**
   * A `refLinkResolutionCache` entry, keyed by literal link text.
   * Every field but the parse result starts out `undefined` (`None`).
   */
  datatype LinkLookup = LinkLookup(
    resolvedFilePath: ParsedLink,
    resolvedTFile: Option<string>,
    fileLink: Option<string>,
    fileLinkIgnored: Option<bool>,
    ghlink: Option<string>)

  /** A `buildMapOfIteratedFiles` entry: the per-pass decision for one source. */
  datatype Iterated = Iterated(
    updateIndexNeeded: bool,
    globalRefsCacheSrcFound: Option<SrcRecord>,
    linkReferenceCache: seq<Link>)
}
