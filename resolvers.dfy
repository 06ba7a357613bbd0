/**
 * The two path walks of the program side by side. `src/main.rs` never uses
 * `src/filter.rs`, so its walk is a separate, stricter one: it only follows
 * object keys, while the filter's walk also looks inside arrays. Where the
 * strict walk succeeds both agree; on arrays they part ways.
 */
module Resolvers {
  import opened Wrappers
  import opened JsonValue
  import PathFilter
  import Extract

  /** Whatever the object-only walk finds, the array-unwrapping walk finds too. */
  lemma {:induction false} LookupPathAgreesWithResolve(v: Json, path: seq<string>)
    requires Extract.LookupPath(v, path).Some?
    ensures PathFilter.Resolve(v, path) == Extract.LookupPath(v, path)
    decreases path
  {
    if path != [] {
      LookupPathAgreesWithResolve(v.fields[path[0]], path[1..]);
    }
  }

  /** The record {"a": [{"b": 1}, {"b": 2}]}. */
  function ArrayRecord(): Json
  {
    Object(map["a" := Array([Object(map["b" := Number(PosInt(1))]), Object(map["b" := Number(PosInt(2))])])])
  }

  /**
   * On {"a": [{"b": 1}, {"b": 2}]} the path a, b gives 1 (the first match,
   * never 2) to the filter's walk, and nothing to the extraction's walk.
   */
  lemma ArraysPartTheWalks()
    ensures PathFilter.Resolve(ArrayRecord(), ["a", "b"]) == Some(Number(PosInt(1)))
    ensures Extract.LookupPath(ArrayRecord(), ["a", "b"]) == None
  {
    var a := ArrayRecord().fields["a"];
    assert PathFilter.ConvertValueAndGet(ArrayRecord(), "a") == Some(a);
    assert PathFilter.ConvertValueAndGet(a.elems[0], "b") == Some(Number(PosInt(1)));
    assert PathFilter.FirstHit(a, 0, "b") == Some(Number(PosInt(1)));
    assert ["a", "b"][1..] == ["b"];
  }
}
