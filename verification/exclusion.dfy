/**
 * The exclusion flag of the build pass: after flattening, every record is
 * re-flagged from the list of files whose front matter opts them out of the
 * index.  Flagged records stay in the index.
 */
module Exclusion {
  import opened Wrappers
  import opened Records

  /** The record resolves to a file, with a non-empty path, that is on the exceptions list. */
  predicate Excluded(r: Link, exceptions: seq<string>) {
    r.resolvedFile.Some? && r.resolvedFile.value != "" && r.resolvedFile.value in exceptions
  }

  /** The flattened list with every record's flag recomputed. */
  function Marked(rs: seq<Link>, exceptions: seq<string>): (r: seq<Link>)
    ensures |r| == |rs|
  {
    seq(|rs|, i requires 0 <= i < |rs| => rs[i].(excludedFile := Excluded(rs[i], exceptions)))
  }

  /** The inner scan of the exceptions list, stopping at the first match. */
  method IsIndexException(fileName: string, exceptions: seq<string>) returns (found: bool)
    ensures found <==> fileName in exceptions
  {
    found := false;
    for e := 0 to |exceptions|
      invariant forall d :: 0 <= d < e ==> exceptions[d] != fileName
    {
      if fileName == exceptions[e] {
        found := true;
        break;
      }
    }
  }

  /**
   * The flag loop: each record's flag is reset, then set when its resolved
   * file's path is on the exceptions list.  No record is removed or moved, no
   * other field changes, and a ghost record (no resolved file) ends unflagged.
   */
  method MarkExcluded(rs: seq<Link>, exceptions: seq<string>) returns (out: seq<Link>)
    ensures out == Marked(rs, exceptions)
    ensures |out| == |rs|
    ensures forall i :: 0 <= i < |rs| ==> out[i] == rs[i].(excludedFile := out[i].excludedFile)
    ensures forall i :: 0 <= i < |rs| ==>
      (out[i].excludedFile <==>
        rs[i].resolvedFile.Some? && rs[i].resolvedFile.value != "" && rs[i].resolvedFile.value in exceptions)
    ensures forall i :: 0 <= i < |rs| && rs[i].resolvedFile.None? ==> !out[i].excludedFile
  {
    out := rs;
    for i := 0 to |out|
      invariant |out| == |rs|
      invariant forall j :: 0 <= j < i ==> out[j] == rs[j].(excludedFile := Excluded(rs[j], exceptions))
      invariant forall j :: i <= j < |rs| ==> out[j] == rs[j]
    {
      out := out[i := out[i].(excludedFile := false)];
      var resolved := out[i].resolvedFile;
      if resolved.Some? && resolved.value != "" {
        var fileName := resolved.value;
        var found := IsIndexException(fileName, exceptions);
        if found {
          out := out[i := out[i].(excludedFile := true)];
        }
      }
    }
  }
}
