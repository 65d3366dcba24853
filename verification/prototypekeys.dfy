/**
 * The grouping `reduce` of the build pass as written: its accumulator is a
 * plain object literal, so a key that names a member inherited from
 * `Object.prototype` already reads as present (a function, or the prototype
 * itself for "__proto__"); the group array is then never created and the
 * following `push` throws a TypeError, aborting the pass.
 */
module PrototypeKeys {
  import opened Wrappers
  import opened Records
  import opened Grouping

  /** The names every plain object inherits from `Object.prototype`. */
  const ObjectPrototypeNames: set<string> := {
    "constructor", "__proto__", "toString", "toLocaleString", "valueOf", "hasOwnProperty",
    "isPrototypeOf", "propertyIsEnumerable", "__defineGetter__", "__defineSetter__",
    "__lookupGetter__", "__lookupSetter__"}

  /**
   * The reduce as written; `None` is the TypeError.  For an inherited name
   * `!acc[key]` is false, so no array is created, and `acc[key].push` is not
   * a function.
   */
  function ReduceAsWritten(rs: seq<Link>): Option<map<string, seq<Link>>> {
    if rs == [] then Some(map[])
    else
      var last := rs[|rs| - 1];
      match ReduceAsWritten(rs[..|rs| - 1])
      case None => None
      case Some(acc) =>
        if KeyOf(last) in ObjectPrototypeNames then None
        else Some(acc[KeyOf(last) := Lookup(acc, KeyOf(last)) + [last]])
  }

  /** Some record's key is an inherited member name. */
  predicate HasInheritedKey(rs: seq<Link>) {
    exists i :: 0 <= i < |rs| && KeyOf(rs[i]) in ObjectPrototypeNames
  }

  /**
   * The reduce as written fails exactly when some key is an inherited member
   * name, and otherwise computes the intended grouping.
   */
  lemma {:induction false} ReduceAsWrittenBehaviour(rs: seq<Link>)
    ensures ReduceAsWritten(rs).None? <==> HasInheritedKey(rs)
    ensures !HasInheritedKey(rs) ==> ReduceAsWritten(rs) == Some(Group(rs))
  {
    if rs == [] {
      assert Group(rs) == map[];
    } else {
      var n := |rs| - 1;
      ReduceAsWrittenBehaviour(rs[..n]);
      assert rs == rs[..n] + [rs[n]];
      if HasInheritedKey(rs[..n]) {
        var i :| 0 <= i < n && KeyOf(rs[..n][i]) in ObjectPrototypeNames;
        assert rs[i] == rs[..n][i];
      }
      if HasInheritedKey(rs) && KeyOf(rs[n]) !in ObjectPrototypeNames {
        var i :| 0 <= i < |rs| && KeyOf(rs[i]) in ObjectPrototypeNames;
        assert rs[..n][i] == rs[i];
      }
      GroupSnoc(rs[..n], rs[n]);
    }
  }

  /**
   * A vault with one link to a note named "constructor" (a ghost link keyed
   * by its path): the reduce as written throws, while the intended grouping
   * holds that one record under "constructor".
   */
  lemma ConstructorKeyCounterexample(x: Link)
    requires KeyOf(x) == "constructor"
    ensures ReduceAsWritten([x]).None?
    ensures Group([x]) == map["constructor" := [x]]
  {
    assert [x][..0] == [];
    assert Group([]) == map[];
    GroupSnoc([], x);
    assert [] + [x] == [x];
  }
}
