/**
 * Canonical keys: the string a reference is grouped under when the index is
 * built, and the string a page view looks its entries up by.
 */
module Keys {
  import opened Wrappers
  import opened Strings
  import opened HostModel

  /**
   * The parse result of a link text after the self-reference fallback of the
   * build pass: an empty path becomes the source's path without ".md".
   */
  function FallbackParse(h: Host, src: string, link: string): (p: ParsedLink)
    ensures p.subpath == h.parseLinktext(link).subpath
    ensures h.parseLinktext(link).path != "" ==> p == h.parseLinktext(link)
    ensures h.parseLinktext(link).path == "" ==> p.path == StripMd(src)
  {
    FallbackPath(h.parseLinktext(link), src)
  }

  /** The fallback applied to a parse result (also to one taken from the resolution cache). */
  function FallbackPath(parsed: ParsedLink, src: string): ParsedLink {
    if parsed.path == "" then parsed.(path := StripMd(src)) else parsed
  }

  /** The key a resolved target file gives: its path without ".md", then the stripped subpath. */
  function FileLinkOf(h: Host, file: string, subpath: string): string {
    StripMd(file) + h.stripHeading(subpath)
  }

  /**
   * The key the build pass gives an occurrence of `link` from `src` whose
   * resolution is computed afresh: the resolved file's key, or for a ghost
   * link its (fallback) parsed path.
   */
  function CanonicalKey(h: Host, src: string, link: string): string {
    var parsed := FallbackParse(h, src, link);
    match h.firstLinkpathDest(parsed.path)
    case None => parsed.path
    case Some(f) => FileLinkOf(h, f, parsed.subpath)
  }

  /** `parseLinkTextToFullPath`: the resolved key of a link text, "" when it does not resolve. */
  function ParseLinkTextToFullPath(h: Host, link: string): string {
    var parsed := h.parseLinktext(link);
    match h.firstLinkpathDest(parsed.path)
    case None => ""
    case Some(f) => FileLinkOf(h, f, parsed.subpath)
  }

  /** The key a page view gives one of its links (first pass). */
  function LinkKey(h: Host, file: FileRef, link: string): string {
    var full := ParseLinkTextToFullPath(h, link);
    var path := if full == "" then link else full;
    if StartsWith(path, "#^") || StartsWith(path, "#") then StripMd(file.path) + h.stripHeading(path)
    else path
  }

  /** The key a page view gives one of its embeds (first pass). */
  function EmbedKey(h: Host, file: FileRef, link: string): string {
    var full := ParseLinkTextToFullPath(h, link);
    if full == "" && (StartsWith(link, "#^") || StartsWith(link, "#")) then StripMd(file.path) + h.stripHeading(link)
    else full
  }

  /** The key of a block of `file`. */
  function BlockKey(file: FileRef, id: string): string {
    StripMd(file.path) + id
  }

  /** The key of a heading of `file`. */
  function HeadingKey(h: Host, file: FileRef, heading: string): string {
    StripMd(file.path) + h.stripHeading(heading)
  }

  /** A link whose path part is not empty gets the same key whichever file it comes from. */
  lemma KeyIndependentOfSource(h: Host, a: string, b: string, link: string)
    requires h.parseLinktext(link).path != ""
    ensures CanonicalKey(h, a, link) == CanonicalKey(h, b, link)
  {
  }

  /**
   * A link with an empty path part (a same-page "#heading" link) is keyed by
   * its source file: that file's own target, or its path when that does not resolve.
   */
  lemma SelfReferenceFallback(h: Host, src: string, link: string)
    requires h.parseLinktext(link).path == ""
    ensures h.firstLinkpathDest(StripMd(src)).None? ==> CanonicalKey(h, src, link) == StripMd(src)
    ensures h.firstLinkpathDest(StripMd(src)).Some? ==>
      CanonicalKey(h, src, link)
        == StripMd(h.firstLinkpathDest(StripMd(src)).value) + h.stripHeading(h.parseLinktext(link).subpath)
  {
  }

  /** A ghost link is keyed by its parsed path, without its subpath. */
  lemma GhostKeyIsParsedPath(h: Host, src: string, link: string)
    requires h.parseLinktext(link).path != ""
    requires h.firstLinkpathDest(h.parseLinktext(link).path).None?
    ensures CanonicalKey(h, src, link) == h.parseLinktext(link).path
  {
  }

  /**
   * For a link with a path part, `parseLinkTextToFullPath` is the build
   * pass's key when the target exists and "" for a ghost link.
   */
  lemma FullPathAgreesWithBuildKey(h: Host, src: string, link: string)
    requires h.parseLinktext(link).path != ""
    ensures h.firstLinkpathDest(h.parseLinktext(link).path).Some? ==>
      ParseLinkTextToFullPath(h, link) == CanonicalKey(h, src, link)
    ensures h.firstLinkpathDest(h.parseLinktext(link).path).None? ==> ParseLinkTextToFullPath(h, link) == ""
  {
  }

  /**
   * A link that resolves to a key not starting with '#' is looked up by a page
   * view under exactly the key the build pass groups it under.
   */
  lemma ViewLinkKeyMatchesBuildKey(h: Host, src: string, file: FileRef, link: string)
    requires h.parseLinktext(link).path != ""
    requires ParseLinkTextToFullPath(h, link) != ""
    requires !StartsWith(ParseLinkTextToFullPath(h, link), "#")
    ensures LinkKey(h, file, link) == CanonicalKey(h, src, link)
    ensures EmbedKey(h, file, link) == CanonicalKey(h, src, link)
  {
    assert !StartsWith(ParseLinkTextToFullPath(h, link), "#^");
  }

  /**
   * A page view keeps an unresolved, non-anchor link under its literal text,
   * while the build pass groups it under its parsed path: the two agree only
   * when the link text is its own path (no subpath, no alias).
   */
  lemma GhostLinkViewKey(h: Host, src: string, file: FileRef, link: string)
    requires h.parseLinktext(link).path != ""
    requires h.firstLinkpathDest(h.parseLinktext(link).path).None?
    requires !StartsWith(link, "#")
    ensures LinkKey(h, file, link) == link
    ensures EmbedKey(h, file, link) == ""
    ensures LinkKey(h, file, link) == CanonicalKey(h, src, link) <==> link == h.parseLinktext(link).path
  {
    BlockAnchorIsAnchor(link);
  }

  /** A same-page anchor link that does not resolve is keyed by the page itself. */
  lemma SamePageLinkKey(h: Host, file: FileRef, link: string)
    requires ParseLinkTextToFullPath(h, link) == ""
    requires StartsWith(link, "#")
    ensures LinkKey(h, file, link) == StripMd(file.path) + h.stripHeading(link)
    ensures EmbedKey(h, file, link) == StripMd(file.path) + h.stripHeading(link)
  {
  }
}
