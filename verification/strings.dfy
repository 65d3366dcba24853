/** The few JavaScript string operations the indexer uses, on `seq<char>`. */
module Strings {

  /** `s.startsWith(pre)`. */
  predicate StartsWith(s: string, pre: string) {
    |pre| <= |s| && s[..|pre|] == pre
  }

  /** `s.includes(sub)`. */
  predicate Contains(s: string, sub: string)
    decreases |s|
  {
    StartsWith(s, sub) || (|s| > 0 && Contains(s[1..], sub))
  }

  /** ".md" starts at index `i` of `s`. */
  predicate MdAt(s: string, i: int) {
    0 <= i && i + 3 <= |s| && s[i..i + 3] == ".md"
  }

  /**
   * `s.replace(".md", "")`: with a string pattern JavaScript replaces only the
   * FIRST occurrence, wherever it is (not only a trailing extension).
   */
  function StripMd(s: string): (r: string)
    ensures |r| == |s| || |r| + 3 == |s|
    ensures |r| <= |s|
    decreases |s|
  {
    if |s| < 3 then s
    else if s[..3] == ".md" then s[3..]
    else [s[0]] + StripMd(s[1..])
  }

  /** Without any ".md" in it, a string is left as it is. */
  lemma {:induction false} StripMdNoOccurrence(s: string)
    requires forall i :: 0 <= i < |s| ==> !MdAt(s, i)
    ensures StripMd(s) == s
    decreases |s|
  {
    if |s| >= 3 {
      assert !MdAt(s, 0);
      forall i | 0 <= i < |s[1..]| ensures !MdAt(s[1..], i) {
        assert !MdAt(s, i + 1);
        if i + 3 <= |s[1..]| {
          assert s[1..][i..i + 3] == s[i + 1..i + 4];
        }
      }
      StripMdNoOccurrence(s[1..]);
    }
  }

  /** Exactly the first ".md" is removed; any later one stays. */
  lemma {:induction false} StripMdRemovesFirst(p: string, q: string)
    requires forall i :: 0 <= i < |p| ==> !MdAt(p + ".md" + q, i)
    ensures StripMd(p + ".md" + q) == p + q
    decreases |p|
  {
    var s := p + ".md" + q;
    if |p| == 0 {
      assert s[..3] == ".md";
      assert s[3..] == q;
    } else {
      assert !MdAt(s, 0);
      assert s[1..] == p[1..] + ".md" + q;
      forall i | 0 <= i < |p[1..]| ensures !MdAt(p[1..] + ".md" + q, i) {
        assert !MdAt(s, i + 1);
        assert s[1..][i..i + 3] == s[i + 1..i + 4];
      }
      StripMdRemovesFirst(p[1..], q);
      assert [s[0]] + (p[1..] + q) == p + q;
    }
  }

  /** A "#^" block anchor is also a "#" anchor. */
  lemma BlockAnchorIsAnchor(s: string)
    ensures StartsWith(s, "#^") ==> StartsWith(s, "#")
  {
    if |s| >= 2 {
      assert s[..1] == s[..2][..1];
    }
  }

  /** Everything after the first `c` (empty when there is none). */
  function DropThrough(s: string, c: char): (r: string)
    ensures |r| <= |s|
    ensures c !in s ==> r == []
    ensures c in s ==> var i := |s| - |r| - 1;
      0 <= i && s[i] == c && c !in s[..i] && r == s[i + 1..]
  {
    if s == [] then []
    else if s[0] == c then s[1..]
    else DropThrough(s[1..], c)
  }

  /** Everything before the first `c` (all of `s` when there is none). */
  function TakeUntil(s: string, c: char): (r: string)
    ensures |r| <= |s|
    ensures r == s[..|r|]
    ensures c !in r
    ensures |r| == |s| || s[|r|] == c
  {
    if s == [] then []
    else if s[0] == c then []
    else [s[0]] + TakeUntil(s[1..], c)
  }

  /** `s.split("#")[1]`, for a string that holds at least one '#'. */
  function SecondHashPart(s: string): string {
    TakeUntil(DropThrough(s, '#'), '#')
  }

  /** `"#".repeat(n)`. */
  function Hashes(n: nat): (r: string)
    ensures |r| == n
    ensures forall i :: 0 <= i < n ==> r[i] == '#'
  {
    if n == 0 then "" else "#" + Hashes(n - 1)
  }
}
