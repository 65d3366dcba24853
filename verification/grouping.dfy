/**
 * Aggregation at the end of a build pass: the per-source record lists are
 * flattened into `allLinkResolutions`, and that list is grouped into the
 * `references` index by canonical key.
 */
module Grouping {
  import opened Wrappers
  import opened Records

  /** `allLinkResolutions`: the stored lists of the sources, concatenated in map order. */
  function Flatten(order: seq<string>, m: map<string, SrcRecord>): (r: seq<Link>)
  {
    if order == [] then []
    else
      var k := order[|order| - 1];
      Flatten(order[..|order| - 1], m) + (if k in m then m[k].linkReferenceCache else [])
  }

  /** A record is in the flattened list exactly when some listed source stores it. */
  lemma {:induction false} FlattenMembership(order: seq<string>, m: map<string, SrcRecord>, x: Link)
    ensures x in Flatten(order, m) <==>
      exists j :: 0 <= j < |order| && order[j] in m && x in m[order[j]].linkReferenceCache
  {
    if order != [] {
      var n := |order| - 1;
      FlattenMembership(order[..n], m, x);
      if x in Flatten(order, m) && x !in Flatten(order[..n], m) {
        assert order[n] in m && x in m[order[n]].linkReferenceCache;
      }
      if exists j :: 0 <= j < |order| && order[j] in m && x in m[order[j]].linkReferenceCache {
        var j :| 0 <= j < |order| && order[j] in m && x in m[order[j]].linkReferenceCache;
        if j < n {
          assert order[..n][j] == order[j];
        }
      }
    }
  }

  /** The total length of the flattened list is the sum of the stored list lengths. */
  function StoredCount(order: seq<string>, m: map<string, SrcRecord>): nat
  {
    if order == [] then 0
    else
      var k := order[|order| - 1];
      StoredCount(order[..|order| - 1], m) + (if k in m then |m[k].linkReferenceCache| else 0)
  }

  lemma {:induction false} FlattenLength(order: seq<string>, m: map<string, SrcRecord>)
    ensures |Flatten(order, m)| == StoredCount(order, m)
  {
    if order != [] {
      FlattenLength(order[..|order| - 1], m);
    }
  }

  /** The records of `rs` whose key is `k`, in scan order. */
  function Filter(rs: seq<Link>, k: string): (r: seq<Link>)
    ensures |r| <= |rs|
    ensures forall x :: x in r ==> x in rs && KeyOf(x) == k
  {
    if rs == [] then []
    else
      var last := rs[|rs| - 1];
      Filter(rs[..|rs| - 1], k) + (if KeyOf(last) == k then [last] else [])
  }

  /** The keys the records of `rs` carry. */
  function KeysOf(rs: seq<Link>): set<string> {
    set x | x in rs :: KeyOf(x)
  }

  /**
   * The grouping of `rs` by key: one group per key present, holding exactly
   * the records with that key, in scan order.
   */
  function Group(rs: seq<Link>): map<string, seq<Link>> {
    map k | k in KeysOf(rs) :: Filter(rs, k)
  }

  /** `references[key] || []`. */
  function Lookup(refs: map<string, seq<Link>>, key: string): seq<Link> {
    if key in refs then refs[key] else []
  }

  lemma {:induction false} FilterSnoc(rs: seq<Link>, x: Link, k: string)
    ensures Filter(rs + [x], k) == Filter(rs, k) + (if KeyOf(x) == k then [x] else [])
  {
    assert (rs + [x])[..|rs|] == rs;
  }

  /** Every record of `rs` is in the group of its own key. */
  lemma {:induction false} FilterContains(rs: seq<Link>, i: int)
    requires 0 <= i < |rs|
    ensures rs[i] in Filter(rs, KeyOf(rs[i]))
  {
    var n := |rs| - 1;
    if i < n {
      FilterContains(rs[..n], i);
      assert rs[..n][i] == rs[i];
    }
  }

  /** A looked-up group is exactly the filter of its key, also when no record has it. */
  lemma LookupGroup(rs: seq<Link>, k: string)
    ensures Lookup(Group(rs), k) == Filter(rs, k)
  {
  }

  /** Adding one record extends only the group of its own key. */
  lemma GroupSnoc(rs: seq<Link>, x: Link)
    ensures Group(rs + [x]) == Group(rs)[KeyOf(x) := Lookup(Group(rs), KeyOf(x)) + [x]]
  {
    var l, r := Group(rs + [x]), Group(rs)[KeyOf(x) := Lookup(Group(rs), KeyOf(x)) + [x]];
    assert KeysOf(rs + [x]) == KeysOf(rs) + {KeyOf(x)} by {
      forall y | y in rs + [x] ensures y in rs || y == x { }
    }
    forall k | k in l ensures k in r && l[k] == r[k] {
      FilterSnoc(rs, x, k);
      LookupGroup(rs, k);
    }
    assert l == r;
  }

  /** Some element of a non-empty set of keys. */
  ghost function Pick(ks: set<string>): string
    requires ks != {}
  {
    var k :| k in ks; k
  }

  /** The sum of the sizes of the groups under the keys `ks`. */
  ghost function SumOver(m: map<string, seq<Link>>, ks: set<string>): nat
    requires ks <= m.Keys
    decreases ks
  {
    if ks == {} then 0
    else
      var k := Pick(ks);
      |m[k]| + SumOver(m, ks - {k})
  }

  /** The sum of the group sizes of a grouping. */
  ghost function SumSizes(m: map<string, seq<Link>>): nat {
    SumOver(m, m.Keys)
  }

  lemma {:induction false} SumOverRemove(m: map<string, seq<Link>>, ks: set<string>, k: string)
    requires ks <= m.Keys && k in ks
    ensures SumOver(m, ks) == |m[k]| + SumOver(m, ks - {k})
    decreases ks
  {
    var j := Pick(ks);
    if j != k {
      SumOverRemove(m, ks - {j}, k);
      SumOverRemove(m, ks - {k}, j);
      assert ks - {j} - {k} == ks - {k} - {j};
    }
  }

  lemma {:induction false} SumOverAgree(m: map<string, seq<Link>>, m': map<string, seq<Link>>, ks: set<string>)
    requires ks <= m.Keys && ks <= m'.Keys
    requires forall k :: k in ks ==> m[k] == m'[k]
    ensures SumOver(m, ks) == SumOver(m', ks)
    decreases ks
  {
    if ks != {} {
      SumOverAgree(m, m', ks - {Pick(ks)});
    }
  }

  lemma SumSizesUpdate(m: map<string, seq<Link>>, k: string, v: seq<Link>)
    ensures SumSizes(m[k := v]) + |Lookup(m, k)| == SumSizes(m) + |v|
  {
    var m' := m[k := v];
    SumOverRemove(m', m'.Keys, k);
    SumOverAgree(m, m', m.Keys - {k});
    assert m'.Keys - {k} == m.Keys - {k};
    if k in m {
      SumOverRemove(m, m.Keys, k);
    } else {
      assert m.Keys - {k} == m.Keys;
    }
  }

  /**
   * The grouping is a partition of the flattened list: every record sits in
   * the group of its own key, every group is non-empty and holds only records
   * of its key, and the group sizes add up to the number of records.
   */
  lemma {:induction false} GroupIsPartition(rs: seq<Link>)
    ensures forall i :: 0 <= i < |rs| ==> KeyOf(rs[i]) in Group(rs) && rs[i] in Group(rs)[KeyOf(rs[i])]
    ensures forall k :: k in Group(rs) ==> Group(rs)[k] != []
    ensures forall k, x :: k in Group(rs) && x in Group(rs)[k] ==> x in rs && KeyOf(x) == k
    ensures SumSizes(Group(rs)) == |rs|
  {
    forall i | 0 <= i < |rs| ensures KeyOf(rs[i]) in Group(rs) && rs[i] in Group(rs)[KeyOf(rs[i])] {
      FilterContains(rs, i);
    }
    forall k | k in Group(rs) ensures Group(rs)[k] != [] {
      var x :| x in rs && KeyOf(x) == k;
      var i :| 0 <= i < |rs| && rs[i] == x;
      FilterContains(rs, i);
    }
    GroupSizes(rs);
  }

  lemma {:induction false} GroupSizes(rs: seq<Link>)
    ensures SumSizes(Group(rs)) == |rs|
  {
    if rs == [] {
      assert Group(rs) == map[];
    } else {
      var n := |rs| - 1;
      GroupSizes(rs[..n]);
      assert rs == rs[..n] + [rs[n]];
      GroupSnoc(rs[..n], rs[n]);
      SumSizesUpdate(Group(rs[..n]), KeyOf(rs[n]), Lookup(Group(rs[..n]), KeyOf(rs[n])) + [rs[n]]);
    }
  }

  /**
   * Two records with the same key text, whatever files they come from, are
   * in the same group.
   */
  lemma SameKeySameGroup(rs: seq<Link>, i: int, j: int)
    requires 0 <= i < |rs| && 0 <= j < |rs|
    requires KeyOf(rs[i]) == KeyOf(rs[j])
    ensures rs[i] in Group(rs)[KeyOf(rs[i])] && rs[j] in Group(rs)[KeyOf(rs[i])]
  {
    FilterContains(rs, i);
    FilterContains(rs, j);
  }

  /** The `reduce` of the build pass: records appended one by one to the group of their key. */
  method GroupByLink(rs: seq<Link>) returns (acc: map<string, seq<Link>>)
    ensures acc == Group(rs)
  {
    acc := map[];
    for i := 0 to |rs|
      invariant acc == Group(rs[..i])
    {
      var key := KeyOf(rs[i]);
      if key !in acc {
        acc := acc[key := []];
      }
      acc := acc[key := acc[key] + [rs[i]]];
      GroupSnoc(rs[..i], rs[i]);
      assert rs[..i + 1] == rs[..i] + [rs[i]];
    }
    assert rs[..|rs|] == rs;
  }
}
