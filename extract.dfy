/**
 * The per-record extraction of `src/main.rs`: a ','-separated key path, the
 * record's top-level "time", an object-only walk down the path (arrays are
 * NOT unwrapped here, unlike the filter's resolver), the CSV header, and the
 * main loop that keeps one row per record that yields one.
 */
module Extract {
  import opened Wrappers
  import opened Segments
  import opened JsonValue
  import opened Sequences

  /** The path of keys given on the command line, one key per ','-separated piece. */
  datatype Pattern = Pattern(segments: seq<string>)

  /** One output row: the record's time and the value found at the end of the path. */
  type Row = (F64, Json)

  /** This file's `Pattern::from_str`: split on ','. It never fails. */
  function PatternFromStr(s: string): (r: Pattern)
    ensures |r.segments| == Occurrences(s, ',') + 1
    ensures Join(r.segments, ',') == s
    ensures forall i :: 0 <= i < |r.segments| ==> ',' !in r.segments[i]
  {
    SplitLength(s, ',');
    JoinSplit(s, ',');
    SplitPiecesFree(s, ',');
    Pattern(Split(s, ','))
  }

  /** The `try_fold` of `get_item`: successive key lookups, each on an object. */
  function LookupPath(v: Json, path: seq<string>): Option<Json>
    decreases path
  {
    if path == [] then Some(v)
    else if v.Object? && path[0] in v.fields then LookupPath(v.fields[path[0]], path[1..])
    else None
  }

  /**
   * `chain` is the sequence of values visited when walking `path` from `v`:
   * every value but the last is an object holding the next key, whose value is
   * the next element of the chain.
   */
  ghost predicate IsKeyChain(chain: seq<Json>, v: Json, path: seq<string>)
  {
    && |chain| == |path| + 1
    && chain[0] == v
    && forall i :: 0 <= i < |path| ==>
         chain[i].Object? && path[i] in chain[i].fields && chain[i].fields[path[i]] == chain[i + 1]
  }

  /** A successful walk visits a chain of objects from `v` to its result. */
  lemma {:induction false} LookupPathHasKeyChain(v: Json, path: seq<string>)
    requires LookupPath(v, path).Some?
    ensures exists chain: seq<Json> :: IsKeyChain(chain, v, path) && chain[|path|] == LookupPath(v, path).value
    decreases path
  {
    if path == [] {
      assert IsKeyChain([v], v, path);
    } else {
      var u := v.fields[path[0]];
      LookupPathHasKeyChain(u, path[1..]);
      var tail: seq<Json> :| IsKeyChain(tail, u, path[1..]) && tail[|path| - 1] == LookupPath(u, path[1..]).value;
      var chain := [v] + tail;
      assert forall i :: 1 <= i < |path| ==> chain[i] == tail[i - 1] && path[i] == path[1..][i - 1];
      assert IsKeyChain(chain, v, path);
    }
  }

  /** A chain of objects from `v` by the keys of the path makes the walk reach its end. */
  lemma {:induction false} KeyChainMakesLookupPath(chain: seq<Json>, v: Json, path: seq<string>)
    requires IsKeyChain(chain, v, path)
    ensures LookupPath(v, path) == Some(chain[|path|])
    decreases path
  {
    if path != [] {
      var tail := chain[1..];
      assert forall i :: 0 <= i < |path| - 1 ==> tail[i] == chain[i + 1] && path[1..][i] == path[i + 1];
      assert IsKeyChain(tail, chain[1], path[1..]);
      KeyChainMakesLookupPath(tail, chain[1], path[1..]);
    }
  }

  /**
   * The walk yields `w` exactly when a chain of objects leads from `v` to `w`
   * by the keys of the path in order. An array, a scalar or a missing key
   * anywhere before the end makes it fail.
   */
  lemma LookupPathIsKeyChain(v: Json, path: seq<string>, w: Json)
    ensures LookupPath(v, path) == Some(w) <==> exists chain: seq<Json> :: IsKeyChain(chain, v, path) && chain[|path|] == w
  {
    if LookupPath(v, path) == Some(w) {
      LookupPathHasKeyChain(v, path);
    }
    if exists chain: seq<Json> :: IsKeyChain(chain, v, path) && chain[|path|] == w {
      var chain: seq<Json> :| IsKeyChain(chain, v, path) && chain[|path|] == w;
      KeyChainMakesLookupPath(chain, v, path);
    }
  }

  /** Walking a concatenated path is walking the first part, then the rest from there. */
  lemma {:induction false} LookupPathAppend(v: Json, ps: seq<string>, qs: seq<string>)
    ensures LookupPath(v, ps + qs) ==
      match LookupPath(v, ps)
      case None => None
      case Some(w) => LookupPath(w, qs)
    decreases ps
  {
    if ps == [] {
      assert ps + qs == qs;
    } else {
      assert (ps + qs)[0] == ps[0];
      assert (ps + qs)[1..] == ps[1..] + qs;
      if v.Object? && ps[0] in v.fields {
        LookupPathAppend(v.fields[ps[0]], ps[1..], qs);
      }
    }
  }

  /** A non-empty walk that starts on anything but an object (an array included) fails. */
  lemma LookupPathNeedsObject(v: Json, path: seq<string>)
    requires |path| > 0 && !v.Object?
    ensures LookupPath(v, path) == None
  {
  }

  /**
   * `get_item`: the record must be an object whose top-level "time" is a
   * number; the row is that time (through `as_f64`) and the value at the end
   * of the object-only walk from the record root. Otherwise there is no row.
   */
  function GetItem(value: Json, pattern: Pattern, ofInt: int -> F64): (r: Option<Row>)
    // The first two clauses are corollaries of the third, stated for the common rejections.
    ensures !value.Object? ==> r == None
    ensures value.Object? && ("time" !in value.fields || !value.fields["time"].Number?) ==> r == None
    ensures r.Some? <==>
      && value.Object? && "time" in value.fields && value.fields["time"].Number?
      && LookupPath(value, pattern.segments).Some?
    ensures r.Some? ==>
      && r.value.0 == AsF64(value.fields["time"], ofInt).value
      && LookupPath(value, pattern.segments) == Some(r.value.1)
  {
    if !value.Object? || "time" !in value.fields then None
    else
      match AsF64(value.fields["time"], ofInt)
      case None => None
      case Some(time) =>
        match LookupPath(value, pattern.segments)
        case None => None
        case Some(v) => Some((time, v))
  }

  /** The CSV header: "time", then the last key of the path (or "" for an empty path). */
  function Header(pattern: Pattern): (string, string)
  {
    ("time", if |pattern.segments| == 0 then "" else pattern.segments[|pattern.segments| - 1])
  }

  /**
   * For a path parsed from `s`, the second label is the text after the last
   * ',' of `s` (all of `s` when it has none); the "" fallback is never used.
   */
  lemma HeaderOfParsed(s: string)
    ensures Header(PatternFromStr(s)).0 == "time"
    ensures ',' !in Header(PatternFromStr(s)).1
    ensures Occurrences(s, ',') == 0 ==> Header(PatternFromStr(s)).1 == s
    ensures Occurrences(s, ',') > 0 ==> exists pre :: s == pre + [','] + Header(PatternFromStr(s)).1
  {
    var segs := PatternFromStr(s).segments;
    var last := segs[|segs| - 1];
    if |segs| > 1 {
      var init := segs[..|segs| - 1];
      assert init + [last] == segs;
      JoinSnoc(init, last, ',');
    }
  }

  // ---------------------------------------------------------------------
  // The main loop

  /** One element yielded by the JSON-sequence reader: a record, or a decode error. */
  datatype Decoded = Decoded(value: Json) | DecodeError(message: string)

  /** The records the loop reads: those before the first decode error. */
  function RecordsRead(stream: seq<Decoded>): seq<Json>
  {
    if stream == [] || stream[0].DecodeError? then []
    else [stream[0].value] + RecordsRead(stream[1..])
  }

  /** The first decode error of the stream, if any. */
  function FirstError(stream: seq<Decoded>): Option<string>
  {
    if stream == [] then None
    else if stream[0].DecodeError? then Some(stream[0].message)
    else FirstError(stream[1..])
  }

  /** The rows of `records`: the `get_item` results that exist, in record order. */
  function RowsOf(records: seq<Json>, pattern: Pattern, ofInt: int -> F64): seq<Row>
  {
    FilterMap(records, (r: Json) => GetItem(r, pattern, ofInt))
  }

  /**
   * `main`'s loop over the reader: the header first, then one row per record
   * for which `get_item` succeeds, in input order; the first decode error ends
   * the run with that error.
   */
  method Run(pattern: Pattern, stream: seq<Decoded>, ofInt: int -> F64)
    returns (header: (string, string), rows: seq<Row>, outcome: Result<(), string>)
    ensures header == Header(pattern)
    ensures rows == RowsOf(RecordsRead(stream), pattern, ofInt)
    ensures outcome == if FirstError(stream).Some? then Err(FirstError(stream).value) else Ok(())
  {
    header := Header(pattern);
    rows := [];
    var i := 0;
    while i < |stream|
      invariant 0 <= i <= |stream|
      invariant FirstError(stream[i..]) == FirstError(stream)
      invariant rows + RowsOf(RecordsRead(stream[i..]), pattern, ofInt) == RowsOf(RecordsRead(stream), pattern, ofInt)
    {
      StreamStep(stream, i);
      if stream[i].DecodeError? {
        outcome := Err(stream[i].message);
        return;
      }
      RowsOfCons(stream[i].value, RecordsRead(stream[i + 1..]), pattern, ofInt);
      match GetItem(stream[i].value, pattern, ofInt) {
        case Some(row) => rows := rows + [row];
        case None =>
      }
      i := i + 1;
    }
    outcome := Ok(());
  }

  /** How the stream looks from element `i` on, depending on what that element is. */
  lemma StreamStep(stream: seq<Decoded>, i: nat)
    requires i < |stream|
    ensures stream[i].Decoded? ==>
      && RecordsRead(stream[i..]) == [stream[i].value] + RecordsRead(stream[i + 1..])
      && FirstError(stream[i..]) == FirstError(stream[i + 1..])
    ensures stream[i].DecodeError? ==>
      RecordsRead(stream[i..]) == [] && FirstError(stream[i..]) == Some(stream[i].message)
  {
    assert stream[i..][0] == stream[i];
    assert stream[i..][1..] == stream[i + 1..];
  }

  /** The rows of a record followed by more records. */
  lemma RowsOfCons(v: Json, rest: seq<Json>, pattern: Pattern, ofInt: int -> F64)
    ensures RowsOf([v] + rest, pattern, ofInt) ==
      (match GetItem(v, pattern, ofInt) case Some(row) => [row] case None => []) + RowsOf(rest, pattern, ofInt)
  {
    assert ([v] + rest)[0] == v;
    assert ([v] + rest)[1..] == rest;
  }

  /** With no decode error, every element is read; otherwise exactly those before the first error are. */
  lemma {:induction false} RecordsReadUpToError(stream: seq<Decoded>)
    ensures FirstError(stream).None? <==> forall i :: 0 <= i < |stream| ==> stream[i].Decoded?
    ensures FirstError(stream).None? ==>
      |RecordsRead(stream)| == |stream| && forall i :: 0 <= i < |stream| ==> RecordsRead(stream)[i] == stream[i].value
    ensures FirstError(stream).Some? ==>
      var n := |RecordsRead(stream)|;
      && n < |stream| && stream[n] == DecodeError(FirstError(stream).value)
      && forall i :: 0 <= i < n ==> stream[i].Decoded? && RecordsRead(stream)[i] == stream[i].value
  {
    if stream != [] {
      RecordsReadUpToError(stream[1..]);
      if stream[0].Decoded? {
        assert forall i :: 1 <= i < |stream| ==> stream[i] == stream[1..][i - 1];
      }
    }
  }

  /** The rows of two batches of records are the rows of each, one after the other. */
  lemma RowsOfAppend(a: seq<Json>, b: seq<Json>, pattern: Pattern, ofInt: int -> F64)
    ensures RowsOf(a + b, pattern, ofInt) == RowsOf(a, pattern, ofInt) + RowsOf(b, pattern, ofInt)
  {
    FilterMapAppend(a, b, (r: Json) => GetItem(r, pattern, ofInt));
  }

  /**
   * The rows are exactly the existing `get_item` results, in input order: the
   * k-th row comes from the k-th record that yields one, those records come in
   * increasing order, and none that yields a row is skipped.
   */
  lemma RowsOfSelects(records: seq<Json>, pattern: Pattern, ofInt: int -> F64)
    returns (idx: seq<nat>)
    ensures |idx| == |RowsOf(records, pattern, ofInt)|
    ensures forall k :: 0 <= k < |idx| ==>
      idx[k] < |records| && GetItem(records[idx[k]], pattern, ofInt) == Some(RowsOf(records, pattern, ofInt)[k])
    ensures forall k, l :: 0 <= k < l < |idx| ==> idx[k] < idx[l]
    ensures forall j :: 0 <= j < |records| && GetItem(records[j], pattern, ofInt).Some? ==> j in idx
  {
    var f := (r: Json) => GetItem(r, pattern, ofInt);
    idx := Kept(records, f);
    FilterMapKept(records, f);
    KeptIncreasing(records, f);
    forall j | 0 <= j < |records| && GetItem(records[j], pattern, ofInt).Some?
      ensures j in idx
    {
      KeptComplete(records, f, j);
    }
  }
}
