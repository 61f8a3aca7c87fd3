/** The config merge of src/config-persistence.ts, compared with JSON Merge Patch (RFC 7396, section 2). */
module DeepMerge {
  import opened Wrappers

  datatype Json =
    | Null
    | Bool(flag: bool)
    | Num(value: real)
    | Str(text: string)
    | Arr(items: seq<Json>)
    | Obj(fields: map<string, Json>)

  /** What the merge owes to each key. */
  function Merge(target: Json, source: Json): Json
    requires target.Obj? && source.Obj?
    decreases source
  {
    var t, p := target.fields, source.fields;
    Obj(map k | k in t.Keys + p.Keys && !(k in p && p[k].Null?) ::
          if k !in p then t[k]
          else if p[k].Obj? && k in t && t[k].Obj? then Merge(t[k], p[k])
          else p[k])
  }

  /** `deepMerge`: a copy of the target, assigned to and deleted from key by key. */
  method DeepMerge(target: map<string, Json>, source: map<string, Json>) returns (result: map<string, Json>)
    ensures Obj(result) == Merge(Obj(target), Obj(source))
    decreases Obj(source)
  {
    result := target;
    ghost var merged := Merge(Obj(target), Obj(source)).fields;
    var keys := source.Keys;
    while keys != {}
      invariant keys <= source.Keys
      invariant forall k :: k in keys || k !in source ==> (k in result <==> k in target) && (k in result ==> result[k] == target[k])
      invariant forall k :: k in source && k !in keys ==> (k in result <==> k in merged) && (k in result ==> result[k] == merged[k])
      decreases keys
    {
      var key :| key in keys;
      var srcVal := source[key];
      if srcVal.Null? {
        result := result - {key};
      } else if srcVal.Obj? && key in target && target[key].Obj? {
        assert Obj(source).fields[key] == srcVal;
        var merge := DeepMerge(target[key].fields, srcVal.fields);
        result := result[key := Obj(merge)];
      } else {
        result := result[key := srcVal];
      }
      keys := keys - {key};
    }
    assert result == merged;
  }

  // ---- RFC 7396 ----

  /** MergePatch of RFC 7396, section 2; an absent target counts as a non-object. */
  function MergePatch(target: Json, patch: Json): Json
    decreases patch
  {
    if !patch.Obj? then patch
    else
      var t, p := if target.Obj? then target.fields else map[], patch.fields;
      Obj(map k | k in t.Keys + p.Keys && !(k in p && p[k].Null?) ::
            if k in p then MergePatch(if k in t then t[k] else Null, p[k]) else t[k])
  }

  /** No object nested in `j` through objects holds a null. */
  ghost predicate NullFree(j: Json) {
    j.Obj? ==> forall k :: k in j.fields ==> !j.fields[k].Null? && NullFree(j.fields[k])
  }

  /** No null of the patch sits inside an object that lands on a missing or non-object target. */
  ghost predicate Clean(target: Json, source: Json)
    requires target.Obj? && source.Obj?
    decreases source
  {
    forall k :: k in source.fields && source.fields[k].Obj? ==>
      if k in target.fields && target.fields[k].Obj? then Clean(target.fields[k], source.fields[k])
      else NullFree(source.fields[k])
  }

  /** Patching nothing with an object gives the object back exactly when it holds no null. */
  lemma {:induction false} PatchOntoNothing(target: Json, patch: Json)
    requires !target.Obj? && !patch.Null?
    ensures MergePatch(target, patch) == patch <==> NullFree(patch)
    decreases patch
  {
    if patch.Obj? {
      var r, p := MergePatch(target, patch).fields, patch.fields;
      forall k | k in p && !p[k].Null? ensures r[k] == p[k] <==> NullFree(p[k]) {
        PatchOntoNothing(Null, p[k]);
      }
      if NullFree(patch) {
        assert r == p;
      } else {
        var k :| k in p && (p[k].Null? || !NullFree(p[k]));
        assert k !in r || r[k] != p[k];
      }
    }
  }

  /** The config merge is JSON Merge Patch exactly on the pairs where no null would be copied verbatim. */
  lemma {:induction false} MergeIsMergePatchExactly(target: Json, source: Json)
    requires target.Obj? && source.Obj?
    ensures Merge(target, source) == MergePatch(target, source) <==> Clean(target, source)
    decreases source
  {
    var t, p := target.fields, source.fields;
    var a, b := Merge(target, source).fields, MergePatch(target, source).fields;
    assert a.Keys == b.Keys;
    forall k | k in a ensures a[k] == b[k] <==> CleanAt(target, source, k) {
      if k in p && p[k].Obj? {
        if k in t && t[k].Obj? {
          MergeIsMergePatchExactly(t[k], p[k]);
        } else {
          PatchOntoNothing(if k in t then t[k] else Null, p[k]);
        }
      } else if k in p {
        assert MergePatch(if k in t then t[k] else Null, p[k]) == p[k];
      }
    }
    if Clean(target, source) {
      assert a == b;
    } else {
      var k :| k in p && p[k].Obj? && !CleanAt(target, source, k);
      assert a[k] != b[k];
    }
  }

  ghost predicate CleanAt(target: Json, source: Json, k: string)
    requires target.Obj? && source.Obj?
  {
    k in source.fields && source.fields[k].Obj? ==>
      if k in target.fields && target.fields[k].Obj? then Clean(target.fields[k], source.fields[k])
      else NullFree(source.fields[k])
  }

  // ---- twice is once ----

  /** Merging an object into itself gives it back exactly when it holds no null. */
  lemma {:induction false} MergeOntoItself(j: Json)
    requires j.Obj?
    ensures Merge(j, j) == j <==> NullFree(j)
    decreases j
  {
    var r, f := Merge(j, j).fields, j.fields;
    forall k | k in f && f[k].Obj? ensures r[k] == f[k] <==> NullFree(f[k]) {
      MergeOntoItself(f[k]);
    }
    if NullFree(j) {
      assert r == f;
    } else {
      var k :| k in f && (f[k].Null? || !NullFree(f[k]));
      assert k !in r || r[k] != f[k];
    }
  }

  /** Applying a patch twice equals applying it once exactly under the same condition. */
  lemma {:induction false} MergeIdempotentExactly(target: Json, source: Json)
    requires target.Obj? && source.Obj?
    ensures Merge(Merge(target, source), source) == Merge(target, source) <==> Clean(target, source)
    decreases source
  {
    var t, p := target.fields, source.fields;
    var once := Merge(target, source);
    var twice := Merge(once, source).fields;
    assert twice.Keys == once.fields.Keys;
    forall k | k in twice ensures twice[k] == once.fields[k] <==> CleanAt(target, source, k) {
      if k in p && p[k].Obj? {
        if k in t && t[k].Obj? {
          MergeIdempotentExactly(t[k], p[k]);
        } else {
          MergeOntoItself(p[k]);
        }
      }
    }
    if Clean(target, source) {
      assert twice == once.fields;
    } else {
      var k :| k in p && p[k].Obj? && !CleanAt(target, source, k);
      assert twice[k] != once.fields[k];
    }
  }

  // ---- paths ----

  function Get(j: Json, path: seq<string>): Option<Json> {
    if path == [] then Some(j)
    else if j.Obj? && path[0] in j.fields then Get(j.fields[path[0]], path[1..])
    else None
  }

  /** The patch says something at the path or at a value on the way to it. */
  predicate Mentions(source: Json, path: seq<string>)
    requires path != []
  {
    && source.Obj?
    && path[0] in source.fields
    && (|path| == 1 || !source.fields[path[0]].Obj? || Mentions(source.fields[path[0]], path[1..]))
  }

  lemma {:induction false} UnmentionedIsAbsent(source: Json, path: seq<string>)
    requires source.Obj? && path != [] && !Mentions(source, path)
    ensures Get(source, path) == None
    decreases |path|
  {
    if path[0] in source.fields {
      UnmentionedIsAbsent(source.fields[path[0]], path[1..]);
    }
  }

  /** Every path the patch does not mention keeps its value, or its absence. */
  lemma {:induction false} UnmentionedIsKept(target: Json, source: Json, path: seq<string>)
    requires target.Obj? && source.Obj? && path != [] && !Mentions(source, path)
    ensures Get(Merge(target, source), path) == Get(target, path)
    decreases |path|
  {
    var k, t, p := path[0], target.fields, source.fields;
    if k in p {
      if k in t && t[k].Obj? {
        UnmentionedIsKept(t[k], p[k], path[1..]);
      } else {
        UnmentionedIsAbsent(p[k], path[1..]);
      }
    }
  }

  /** A leaf of the patch is what the merge holds at its path. */
  lemma {:induction false} LeafIsSet(target: Json, source: Json, path: seq<string>)
    requires target.Obj? && source.Obj? && path != []
    requires Get(source, path).Some? && !Get(source, path).value.Obj? && !Get(source, path).value.Null?
    ensures Get(Merge(target, source), path) == Get(source, path)
    decreases |path|
  {
    var k, t, p := path[0], target.fields, source.fields;
    if |path| > 1 && k in t && t[k].Obj? {
      LeafIsSet(t[k], p[k], path[1..]);
    }
  }

  /** A null of the patch removes its path, unless it was copied verbatim. */
  lemma {:induction false} NullRemoves(target: Json, source: Json, path: seq<string>)
    requires target.Obj? && source.Obj? && path != [] && Clean(target, source)
    requires Get(source, path) == Some(Null)
    ensures Get(Merge(target, source), path) == None
    decreases |path|
  {
    var k, t, p := path[0], target.fields, source.fields;
    if |path| > 1 {
      if k in t && t[k].Obj? {
        NullRemoves(t[k], p[k], path[1..]);
      } else {
        NoNullInside(p[k], path[1..]);
      }
    }
  }

  lemma {:induction false} NoNullInside(j: Json, path: seq<string>)
    requires NullFree(j) && path != []
    ensures Get(j, path) != Some(Null)
    decreases |path|
  {
    if j.Obj? && path[0] in j.fields && |path| > 1 {
      NoNullInside(j.fields[path[0]], path[1..]);
    }
  }

  /** The exact place the two differ: an object patch onto a missing key keeps its inner null. */
  lemma VerbatimNullSurvives()
    ensures var patch := Obj(map["a" := Obj(map["b" := Null])]);
            && Merge(Obj(map[]), patch) == patch
            && MergePatch(Obj(map[]), patch) == Obj(map["a" := Obj(map[])])
  {
    var inner := Obj(map["b" := Null]);
    var patch := Obj(map["a" := inner]);
    assert MergePatch(Null, inner).fields == map[];
    assert MergePatch(Obj(map[]), patch).fields == map["a" := Obj(map[])];
    assert Merge(Obj(map[]), patch).fields == patch.fields;
  }
}
