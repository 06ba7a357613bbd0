/** Worked examples of the filter and of the extraction loop on small records. */
module Examples {
  import opened Wrappers
  import opened Segments
  import opened JsonValue
  import PathFilter
  import Extract
  import Sequences

  /** The record {"a": {"b": n}}. */
  function Nested(n: Json): Json
  {
    Object(map["a" := Object(map["b" := n])])
  }

  lemma SplitSlashed()
    ensures Split("a/b/5", '/') == ["a", "b", "5"]
  {
    SplitWithoutSeparator("5", '/');
    SplitAfterPiece("b", "5", '/');
    assert "b" + ['/'] + "5" == "b/5";
    SplitAfterPiece("a", "b/5", '/');
    assert "a" + ['/'] + "b/5" == "a/b/5";
  }

  lemma ParseFive()
    ensures PathFilter.ParseU64("5") == Some(5)
  {
    assert "5"[..0] == [];
    assert PathFilter.DecimalValue("5") == 5;
  }

  /** Leading zeros keep the value of the digits: "007" and "+007" parse to 7. */
  lemma ParseLeadingZeros()
    ensures PathFilter.ParseU64("007") == Some(7)
    ensures PathFilter.ParseU64("+007") == Some(7)
  {
    assert "007"[..2] == "00" && "00"[..1] == "0" && "0"[..0] == [];
    assert PathFilter.DecimalValue("007") == 7;
    PathFilter.ParseU64Value("", "007");
    PathFilter.ParseU64Value("+", "007");
    assert "" + "007" == "007";
  }

  /** The filter "a/b/5" has the pattern a, b and the integer literal 5, whatever the float parser. */
  lemma FilterFromSlashedText(parseFloat: string -> Option<F64>)
    ensures PathFilter.FilterFromStr("a/b/5", parseFloat)
      == Ok(PathFilter.Filter(PathFilter.Pattern(["a", "b"]), PathFilter.Int(5)))
  {
    SplitSlashed();
    ParseFive();
    var entries := Split("a/b/5", '/');
    assert entries[..|entries| - 1] == ["a", "b"];
  }

  /** That filter passes {"a": {"b": 5}} and rejects {"a": {"b": 6}} and {"a": {"b": "5"}}. */
  lemma FilterIsTypeExact(ofInt: int -> F64)
    ensures
      var f := PathFilter.Filter(PathFilter.Pattern(["a", "b"]), PathFilter.Int(5));
      && PathFilter.ApplyFilter(f, Nested(Number(PosInt(5))), ofInt)
      && !PathFilter.ApplyFilter(f, Nested(Number(PosInt(6))), ofInt)
      && !PathFilter.ApplyFilter(f, Nested(String("5")), ofInt)
  {
    forall n: Json
      ensures PathFilter.Resolve(Nested(n), ["a", "b"]) == Some(n)
    {
      assert ["a", "b"][1..] == ["b"];
    }
  }

  /** A path that names a missing key finds nothing. */
  lemma MissingKeyFindsNothing()
    ensures PathFilter.Resolve(Nested(Number(PosInt(5))), ["a", "c"]) == None
  {
    assert ["a", "c"][1..] == ["c"];
  }

  const One: F64 := F64(0x3FF0_0000_0000_0000)
  const Two: F64 := F64(0x4000_0000_0000_0000)

  /** The record {"time": t, "a": {"b": n}}. */
  function Event(t: F64, n: nat): Json
    requires n < 0x1_0000_0000_0000_0000
  {
    Object(map["time" := Number(Float(t)), "a" := Object(map["b" := Number(PosInt(n))])])
  }

  lemma SplitComma()
    ensures Extract.PatternFromStr("a,b") == Extract.Pattern(["a", "b"])
  {
    SplitWithoutSeparator("b", ',');
    SplitAfterPiece("a", "b", ',');
    assert "a" + [','] + "b" == "a,b";
  }

  /** An event yields its time and its value at a, b. */
  lemma EventRow(t: F64, n: nat, ofInt: int -> F64)
    requires n < 0x1_0000_0000_0000_0000
    ensures Extract.GetItem(Event(t, n), Extract.Pattern(["a", "b"]), ofInt) == Some((t, Number(PosInt(n))))
  {
    assert ["a", "b"][1..] == ["b"];
  }

  /** The rows of three records, the first yielding none and the others one each. */
  lemma RowsOfEventsAfterSkip(a: Json, b: Json, c: Json, pattern: Extract.Pattern, ofInt: int -> F64)
    requires Extract.GetItem(a, pattern, ofInt).None?
    requires Extract.GetItem(b, pattern, ofInt).Some? && Extract.GetItem(c, pattern, ofInt).Some?
    ensures Extract.RowsOf([a, b, c], pattern, ofInt)
      == [Extract.GetItem(b, pattern, ofInt).value, Extract.GetItem(c, pattern, ofInt).value]
  {
    Extract.RowsOfCons(c, [], pattern, ofInt);
    assert [c] + [] == [c];
    Extract.RowsOfCons(b, [c], pattern, ofInt);
    assert [b] + [c] == [b, c];
    Extract.RowsOfCons(a, [b, c], pattern, ofInt);
    assert [a] + [b, c] == [a, b, c];
  }

  /**
   * With the path "a,b", the stream {"x": 1}, {"time": 1.0, "a": {"b": 7}},
   * {"time": 2.0, "a": {"b": 8}} gives the header ("time", "b") and the rows
   * (1.0, 7) and (2.0, 8): the first record has no "time" and is skipped.
   */
  lemma EndToEnd(ofInt: int -> F64)
    ensures
      var pattern := Extract.PatternFromStr("a,b");
      var records := [Object(map["x" := Number(PosInt(1))]), Event(One, 7), Event(Two, 8)];
      && Extract.Header(pattern) == ("time", "b")
      && Extract.RowsOf(records, pattern, ofInt) == [(One, Number(PosInt(7))), (Two, Number(PosInt(8)))]
  {
    SplitComma();
    var pattern := Extract.Pattern(["a", "b"]);
    var first := Object(map["x" := Number(PosInt(1))]);
    var records := [first, Event(One, 7), Event(Two, 8)];
    EventRow(One, 7, ofInt);
    EventRow(Two, 8, ofInt);
    assert Extract.GetItem(first, pattern, ofInt) == None;
    RowsOfEventsAfterSkip(first, Event(One, 7), Event(Two, 8), pattern, ofInt);
  }
}
