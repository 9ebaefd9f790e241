/**
 Configuration trees: `merge` of crates/fah-api/src/config_store.rs, and what it means for two
 trees to differ at a path.
 */
module ConfigTree {
  import opened Wrappers

  /** A JSON value. Numbers, strings and booleans are told apart by their text. */
  datatype Json = Null | Scalar(text: string) | Array(items: seq<Json>) | Obj(fields: map<string, Json>)

  type Path = seq<string>

  // ---------- Reading ----------

  /** The value under `key`; a missing one reads as null. */
  function Child(j: Json, key: string): Json {
    if j.Obj? && key in j.fields then j.fields[key] else Null
  }

  function At(j: Json, path: Path): Json
    decreases |path|
  {
    if path == [] then j else At(Child(j, path[0]), path[1..])
  }

  function Find(j: Json, path: Path): Option<Json> {
    if path == [] then Some(j)
    else if j.Obj? && path[0] in j.fields then Find(j.fields[path[0]], path[1..])
    else None
  }

  lemma {:induction false} AtConcat(j: Json, path: Path, rest: Path)
    ensures At(j, path + rest) == At(At(j, path), rest)
    decreases |path|
  {
    if path == [] {
      assert path + rest == rest;
    } else {
      assert (path + rest)[1..] == path[1..] + rest;
      AtConcat(Child(j, path[0]), path[1..], rest);
    }
  }

  /** Below a value that is no object there is nothing to read. */
  lemma {:induction false} AtBelowLeaf(j: Json, path: Path)
    requires !j.Obj? && path != []
    ensures At(j, path) == Null
    decreases |path|
  {
    if |path| > 1 {
      AtBelowLeaf(Null, path[1..]);
    }
  }

  // ---------- Merging ----------

  function Merge(target: Json, patch: Json): Json
    decreases patch
  {
    if target.Obj? && patch.Obj? then
      Obj(map key | key in target.fields.Keys + patch.fields.Keys ::
        if key in patch.fields then Merge(Child(target, key), patch.fields[key]) else target.fields[key])
    else
      patch
  }

  /** What the merge leaves under `key` of two objects. */
  function MergedField(target: Json, patch: Json, key: string): Json
    requires patch.Obj?
  {
    if key in patch.fields then Merge(Child(target, key), patch.fields[key]) else Child(target, key)
  }

  /** The target's fields, after the merge has gone through all the patch's keys but `left`. */
  predicate MergedBut(target: Json, patch: Json, left: set<string>, fields: map<string, Json>)
    requires target.Obj? && patch.Obj?
  {
    && fields.Keys == target.fields.Keys + (patch.fields.Keys - left)
    && forall key | key in fields ::
         fields[key] == if key in left then target.fields[key] else MergedField(target, patch, key)
  }

  /** The merge as the code does it: in place, over the patch's keys in any order. */
  method MergeInto(target: Json, patch: Json) returns (merged: Json)
    ensures merged == Merge(target, patch)
    decreases patch
  {
    if !target.Obj? || !patch.Obj? {
      return patch;
    }
    hide Merge, MergedBut;
    var fields := target.fields;
    var left := patch.fields.Keys;
    MergedNone(target, patch);
    while left != {}
      invariant left <= patch.fields.Keys
      invariant MergedBut(target, patch, left, fields)
      decreases |left|
    {
      var key :| key in left;
      var entry := if key in fields then fields[key] else Null;
      var value := MergeInto(entry, patch.fields[key]);
      MergedOneMore(target, patch, left, fields, key);
      fields := fields[key := value];
      left := left - {key};
    }
    MergedAll(target, patch, fields);
    return Obj(fields);
  }

  lemma MergedOneMore(target: Json, patch: Json, left: set<string>, fields: map<string, Json>, key: string)
    requires target.Obj? && patch.Obj? && key in left && left <= patch.fields.Keys
    requires MergedBut(target, patch, left, fields)
    ensures (if key in fields then fields[key] else Null) == Child(target, key)
    ensures MergedBut(target, patch, left - {key}, fields[key := Merge(Child(target, key), patch.fields[key])])
  {
    hide Merge;
  }

  lemma MergedNone(target: Json, patch: Json)
    requires target.Obj? && patch.Obj?
    ensures MergedBut(target, patch, patch.fields.Keys, target.fields)
  {
  }

  lemma MergedAll(target: Json, patch: Json, fields: map<string, Json>)
    requires target.Obj? && patch.Obj? && MergedBut(target, patch, {}, fields)
    ensures Obj(fields) == Merge(target, patch)
  {
    assert fields == Merge(target, patch).fields;
  }

  /** The patch says nothing about `path`: some object on the way has no such key. */
  predicate Untouched(patch: Json, path: Path) {
    path != [] && patch.Obj? && (path[0] in patch.fields ==> Untouched(patch.fields[path[0]], path[1..]))
  }

  /** Every leaf of the patch is in the result. */
  lemma {:induction false} MergeSetsEveryLeaf(target: Json, patch: Json, path: Path)
    requires Find(patch, path).Some? && !Find(patch, path).value.Obj?
    ensures Find(Merge(target, patch), path) == Find(patch, path)
    decreases |path|
  {
    if path != [] && target.Obj? {
      MergeSetsEveryLeaf(Child(target, path[0]), patch.fields[path[0]], path[1..]);
    }
  }

  /** Everything the patch does not mention is as it was. */
  lemma {:induction false} MergeKeepsTheRest(target: Json, patch: Json, path: Path)
    requires Untouched(patch, path)
    ensures Find(Merge(target, patch), path) == Find(target, path)
    decreases |path|
  {
    if path[0] in patch.fields {
      if target.Obj? && path[0] in target.fields {
        MergeKeepsTheRest(target.fields[path[0]], patch.fields[path[0]], path[1..]);
      } else {
        UntouchedIsAbsent(patch.fields[path[0]], path[1..]);
      }
    }
  }

  lemma {:induction false} UntouchedIsAbsent(patch: Json, path: Path)
    requires Untouched(patch, path)
    ensures Find(patch, path).None?
    decreases |path|
  {
    if path[0] in patch.fields {
      UntouchedIsAbsent(patch.fields[path[0]], path[1..]);
    }
  }

  /** Applying a patch twice is applying it once. */
  lemma {:induction false} MergeIsIdempotent(target: Json, patch: Json)
    ensures Merge(Merge(target, patch), patch) == Merge(target, patch)
    decreases patch
  {
    if target.Obj? && patch.Obj? {
      var once := Merge(target, patch);
      var twice := Merge(once, patch);
      forall key | key in once.fields
        ensures twice.fields[key] == once.fields[key]
      {
        if key in patch.fields {
          MergeIsIdempotent(Child(target, key), patch.fields[key]);
        }
      }
      assert twice.fields == once.fields;
    } else if patch.Obj? {
      MergeWithItself(patch);
    }
  }

  lemma {:induction false} MergeWithItself(patch: Json)
    ensures Merge(patch, patch) == patch
    decreases patch
  {
    if patch.Obj? {
      forall key | key in patch.fields
        ensures Merge(patch, patch).fields[key] == patch.fields[key]
      {
        MergeWithItself(patch.fields[key]);
      }
      assert Merge(patch, patch).fields == patch.fields;
    }
  }

  // ---------- Differences ----------

  /** The comparison gets as far as `path`: it finds objects on both sides all the way there. */
  predicate Reaches(before: Json, after: Json, path: Path)
    decreases |path|
  {
    path == []
    || (before.Obj? && after.Obj? && (path[0] in before.fields || path[0] in after.fields)
        && Reaches(Child(before, path[0]), Child(after, path[0]), path[1..]))
  }

  /** Two values differ as a whole: they are not two objects, which are compared key by key. */
  predicate Differ(before: Json, after: Json) {
    !(before.Obj? && after.Obj?) && before != after
  }

  predicate DiffersAt(before: Json, after: Json, path: Path) {
    Reaches(before, after, path) && Differ(At(before, path), At(after, path))
  }

  /** Whoever reads the setting at `path` sees the same before and after. */
  predicate ReadsSame(before: Json, after: Json, path: Path) {
    !Differ(At(before, path), At(after, path))
  }

  lemma DiffersBelow(before: Json, after: Json, path: Path)
    requires path != []
    ensures DiffersAt(before, after, path) <==>
            && before.Obj? && after.Obj? && (path[0] in before.fields || path[0] in after.fields)
            && DiffersAt(Child(before, path[0]), Child(after, path[0]), path[1..])
  {
  }

  /** A setting that reads differently lies at or below a difference. */
  lemma {:induction false} StopsAt(before: Json, after: Json, path: Path) returns (n: nat)
    requires !ReadsSame(before, after, path)
    ensures n <= |path| && DiffersAt(before, after, path[..n])
    decreases |path|
  {
    if path == [] || !before.Obj? || !after.Obj? {
      assert before == after ==> At(before, path) == At(after, path);
      n := 0;
      assert path[..0] == [];
    } else {
      var k := StopsAt(Child(before, path[0]), Child(after, path[0]), path[1..]);
      n := k + 1;
      assert path[..n][0] == path[0] && path[..n][1..] == path[1..][..k];
      SameEverywhere(Null, path[1..][..k]);
    }
  }

  lemma SameEverywhere(j: Json, path: Path)
    ensures !DiffersAt(j, j, path)
  {
  }

  /** The patch, applied to `target`, puts something new at `path`. */
  predicate Sets(target: Json, patch: Json, path: Path)
    decreases |path|
  {
    if path == [] then Differ(target, patch)
    else
      && target.Obj? && patch.Obj? && path[0] in patch.fields
      && Sets(Child(target, path[0]), patch.fields[path[0]], path[1..])
  }

  /** The differences a patch makes are exactly the places where it sets something new. */
  lemma {:induction false} PatchDiffersIff(target: Json, patch: Json, path: Path)
    ensures DiffersAt(target, Merge(target, patch), path) <==> Sets(target, patch, path)
    ensures DiffersAt(target, Merge(target, patch), path) ==> Find(patch, path).Some?
    decreases |path|
  {
    if path != [] {
      var key := path[0];
      DiffersBelow(target, Merge(target, patch), path);
      if target.Obj? && patch.Obj? {
        if key in patch.fields {
          PatchDiffersIff(Child(target, key), patch.fields[key], path[1..]);
        } else if key in target.fields {
          SameEverywhere(target.fields[key], path[1..]);
        }
      }
    }
  }
}
