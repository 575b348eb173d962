/** The configuration tree (ConfigSource / NextConfig) and its deep merge.

    A node is an object (string keys to nodes), an array, or a scalar.
    Equality is structural; a deep copy of a value is the value itself, so
    copying before a merge and "the argument is not mutated" hold by
    construction in this value model.
 */
module Configs {

  datatype Config =
    | Obj(fields: map<string, Config>)
    | Arr(items: seq<Config>)
    | Str(s: string)
    | Num(n: int)
    | Bool(b: bool)
    | Null

  /** A fresh `new NextConfig()`: the empty object. */
  function Empty(): (r: Config)
    ensures r.Obj? && r.fields == map[]
  {
    Obj(map[])
  }

  /** `a.mergeRecursively(b)`: keys present in both whose values are both
      objects are merged recursively; otherwise b's value replaces a's. */
  function Merge(a: Config, b: Config): (r: Config)
    ensures a.Obj? && b.Obj? ==> r.Obj? && r.fields.Keys == a.fields.Keys + b.fields.Keys
    ensures !a.Obj? || !b.Obj? ==> r == b
  {
    if a.Obj? && b.Obj? then
      Obj(map k | k in a.fields.Keys + b.fields.Keys ::
        if k !in b.fields then a.fields[k]
        else if k in a.fields then Merge(a.fields[k], b.fields[k])
        else b.fields[k])
    else b
  }

  /** The value a merge leaves at each key of two objects. */
  lemma MergeFieldRules(a: Config, b: Config, k: string)
    requires a.Obj? && b.Obj?
    ensures k in Merge(a, b).fields <==> k in a.fields || k in b.fields
    ensures k in a.fields && k !in b.fields ==> Merge(a, b).fields[k] == a.fields[k]
    ensures (k in b.fields && (k !in a.fields || !a.fields[k].Obj? || !b.fields[k].Obj?))
      ==> Merge(a, b).fields[k] == b.fields[k]
    ensures (k in a.fields && k in b.fields && a.fields[k].Obj? && b.fields[k].Obj?)
      ==> Merge(a, b).fields[k] == Merge(a.fields[k], b.fields[k])
  {
  }

  /** Merging the empty object into an object changes nothing. */
  lemma MergeEmptyRight(a: Config)
    requires a.Obj?
    ensures Merge(a, Empty()) == a
  {
    assert Merge(a, Empty()).fields == a.fields;
  }

  /** Merging an object into the empty object yields that object. */
  lemma MergeEmptyLeft(b: Config)
    requires b.Obj?
    ensures Merge(Empty(), b) == b
  {
    assert Merge(Empty(), b).fields == b.fields;
  }

  /** Idempotence: merging a tree into itself changes nothing. */
  lemma {:induction false} MergeSelf(a: Config)
    ensures Merge(a, a) == a
  {
    if a.Obj? {
      forall k | k in a.fields
        ensures Merge(a, a).fields[k] == a.fields[k]
      {
        MergeSelf(a.fields[k]);
      }
      assert Merge(a, a).fields == a.fields;
    }
  }

  /** Merging the same tree a second time changes nothing: once a guess
      repeats, the accumulated configuration is a fixed point. */
  lemma {:induction false} MergeAbsorbs(a: Config, b: Config)
    ensures Merge(Merge(a, b), b) == Merge(a, b)
  {
    if a.Obj? && b.Obj? {
      var m := Merge(a, b);
      forall k | k in m.fields
        ensures Merge(m, b).fields[k] == m.fields[k]
      {
        if k in b.fields {
          if k in a.fields {
            MergeAbsorbs(a.fields[k], b.fields[k]);
          } else {
            MergeSelf(b.fields[k]);
          }
        }
      }
      assert Merge(m, b).fields == m.fields;
    } else {
      MergeSelf(b);
    }
  }

  /** The overwrite rule on the two canonical inputs: sibling keys of nested
      objects combine, scalars are replaced. */
  lemma MergeOverwriteExamples()
    ensures Merge(Obj(map["x" := Obj(map["a" := Num(1)])]), Obj(map["x" := Obj(map["b" := Num(2)])]))
            == Obj(map["x" := Obj(map["a" := Num(1), "b" := Num(2)])])
    ensures Merge(Obj(map["x" := Num(1)]), Obj(map["x" := Num(2)])) == Obj(map["x" := Num(2)])
  {
    var inner := Merge(Obj(map["a" := Num(1)]), Obj(map["b" := Num(2)]));
    assert inner.fields == map["a" := Num(1), "b" := Num(2)];
    var outer := Merge(Obj(map["x" := Obj(map["a" := Num(1)])]), Obj(map["x" := Obj(map["b" := Num(2)])]));
    assert outer.fields == map["x" := inner];
    assert Merge(Obj(map["x" := Num(1)]), Obj(map["x" := Num(2)])).fields == map["x" := Num(2)];
  }
}
