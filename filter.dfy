/**
 * The path filter of `src/filter.rs`: a '/'-separated pattern, a typed
 * literal parsed from the last segment, the one-step lookup that unwraps
 * arrays to their first matching element, and the type-exact comparison.
 */
module PathFilter {
  import opened Wrappers
  import opened Segments
  import opened JsonValue

  /** A path of keys, one per segment of a '/'-separated string. */
  datatype Pattern = Pattern(segments: seq<string>)

  /** The literal a filter compares against, one variant per accepted parse. */
  datatype ValueFilter = Int(u: U64) | String(s: string) | Float(f: F64)

  /** A filter: the path to follow, then the literal the value found must equal. */
  datatype Filter = Filter(pattern: Pattern, value: ValueFilter)

  /** `Pattern::from_str`: split on '/'. It never fails. */
  function PatternFromStr(s: string): (r: Pattern)
    ensures |r.segments| == Occurrences(s, '/') + 1
    ensures Join(r.segments, '/') == s
    ensures forall i :: 0 <= i < |r.segments| ==> '/' !in r.segments[i]
  {
    SplitLength(s, '/');
    JoinSplit(s, '/');
    SplitPiecesFree(s, '/');
    Pattern(Split(s, '/'))
  }

  // ---------------------------------------------------------------------
  // Rust's `u64::from_str`

  predicate IsDigit(c: char)
  {
    '0' <= c <= '9'
  }

  /** The value of one decimal digit. */
  function DigitValue(c: char): (d: nat)
    requires IsDigit(c)
    ensures d < 10
  {
    c as int - '0' as int
  }

  /** The value of a string of decimal digits, read left to right. */
  function DecimalValue(ds: string): nat
    requires forall i :: 0 <= i < |ds| ==> IsDigit(ds[i])
  {
    if ds == [] then 0
    else DecimalValue(ds[..|ds| - 1]) * 10 + DigitValue(ds[|ds| - 1])
  }

  /**
   * `u64::from_str`: an optional '+', then one or more ASCII digits whose value
   * fits in 64 bits. A '-' sign, any other character, an empty digit string and
   * an overflowing value are all rejected.
   */
  function ParseU64(s: string): (r: Option<U64>)
    ensures r.Some? ==> |s| >= 1 && (s[0] == '+' || IsDigit(s[0]))
    ensures r.Some? ==> forall i :: 1 <= i < |s| ==> IsDigit(s[i])
  {
    if s == [] then None
    else
      var digits := if s[0] == '+' then s[1..] else s;
      if digits == [] then None
      else if exists i :: 0 <= i < |digits| && !IsDigit(digits[i]) then None
      else
        var n := DecimalValue(digits);
        if n < 0x1_0000_0000_0000_0000 then Some(n) else None
  }

  /**
   * An optional '+' followed by a non-empty digit string parses to the value of
   * the digits, leading zeros included, exactly when that value fits in 64 bits.
   */
  lemma ParseU64Value(sign: string, ds: string)
    requires sign == "" || sign == "+"
    requires |ds| >= 1 && forall i :: 0 <= i < |ds| ==> IsDigit(ds[i])
    ensures ParseU64(sign + ds) ==
      if DecimalValue(ds) < 0x1_0000_0000_0000_0000 then Some(DecimalValue(ds)) else None
  {
    var s := sign + ds;
    assert s[0] == (if sign == "" then ds[0] else '+');
    assert (if s[0] == '+' then s[1..] else s) == ds;
  }

  /** The canonical decimal rendering of `n`, without sign or leading zeros. */
  function DecimalString(n: nat): (r: string)
    ensures |r| >= 1 && forall i :: 0 <= i < |r| ==> IsDigit(r[i])
  {
    if n < 10 then [('0' as int + n) as char]
    else DecimalString(n / 10) + [('0' as int + n % 10) as char]
  }

  /** Reading back a rendering gives the number. */
  lemma {:induction false} DecimalRoundTrip(n: nat)
    ensures DecimalValue(DecimalString(n)) == n
  {
    if n >= 10 {
      DecimalRoundTrip(n / 10);
      var d := DecimalString(n);
      assert d[..|d| - 1] == DecimalString(n / 10);
    }
  }

  /** Every 64-bit value's rendering parses, with or without a leading '+'. */
  lemma ParseU64RoundTrip(n: U64)
    ensures ParseU64(DecimalString(n)) == Some(n)
    ensures ParseU64("+" + DecimalString(n)) == Some(n)
  {
    DecimalRoundTrip(n);
    assert ("+" + DecimalString(n))[1..] == DecimalString(n);
  }

  /** The rendering of any value of 2^64 or more is rejected, with or without a leading '+'. */
  lemma ParseU64Overflow(n: nat)
    requires n >= 0x1_0000_0000_0000_0000
    ensures ParseU64(DecimalString(n)) == None
    ensures ParseU64("+" + DecimalString(n)) == None
  {
    DecimalRoundTrip(n);
    ParseU64Value("", DecimalString(n));
    ParseU64Value("+", DecimalString(n));
    assert "" + DecimalString(n) == DecimalString(n);
  }

  /** A leading '-', an empty string and a lone '+' are rejected. */
  lemma ParseU64Rejects(s: string)
    ensures |s| >= 1 && s[0] == '-' ==> ParseU64(s) == None
    ensures ParseU64("") == None
    ensures ParseU64("+") == None
  {
  }

  // ---------------------------------------------------------------------
  // `Filter::from_str`

  /**
   * The literal of `Filter::from_str`: `u64` if the text parses as one, else
   * `f64` if `parseFloat` accepts it, else the text itself.
   */
  function Literal(last: string, parseFloat: string -> Option<F64>): (lit: ValueFilter)
    ensures lit.Int? <==> ParseU64(last).Some?
    ensures lit.Int? ==> lit.u == ParseU64(last).value
    ensures lit.Float? <==> ParseU64(last).None? && parseFloat(last).Some?
    ensures lit.Float? ==> lit.f == parseFloat(last).value
    ensures lit.String? <==> ParseU64(last).None? && parseFloat(last).None?
    ensures lit.String? ==> lit.s == last
  {
    if ParseU64(last).Some? then Int(ParseU64(last).value)
    else if parseFloat(last).Some? then ValueFilter.Float(parseFloat(last).value)
    else ValueFilter.String(last)
  }

  /**
   * `Filter::from_str`: the last '/'-segment becomes the literal and the other
   * segments are the pattern. It always succeeds: a split is never empty, so
   * the "Entries of 0 length" error cannot be returned.
   */
  function FilterFromStr(s: string, parseFloat: string -> Option<F64>): (r: Result<Filter, string>)
    ensures r.Ok?
    ensures |r.value.pattern.segments| == Occurrences(s, '/')
    ensures
      var entries := Split(s, '/');
      var last := entries[|entries| - 1];
      && Join(r.value.pattern.segments + [last], '/') == s
      && '/' !in last
      && r.value.value == Literal(last, parseFloat)
  {
    var entries := Split(s, '/');
    if |entries| == 0 then Err("Entries of 0 length")
    else
      SplitLast(s, '/');
      SplitPiecesFree(s, '/');
      Ok(Filter(Pattern(entries[..|entries| - 1]), Literal(entries[|entries| - 1], parseFloat)))
  }

  // ---------------------------------------------------------------------
  // `convert_value_and_get` and the fold of `Filter::filter`

  /**
   * One lookup step. An object gives its value at key `p`; an array gives the
   * result of the first element for which the step succeeds; any other value
   * gives nothing. Whatever is returned lies strictly inside `v`.
   */
  function ConvertValueAndGet(v: Json, p: string): (r: Option<Json>)
    ensures v.Object? ==> (r.Some? <==> p in v.fields) && (r.Some? ==> r.value == v.fields[p])
    ensures !v.Object? && !v.Array? ==> r == None
    decreases v, 1, 0
  {
    match v
    case Object(m) => if p in m then Some(m[p]) else None
    case Array(_) => FirstHit(v, 0, p)
    case _ => None
  }

  /**
   * The `filter_map(..).next()` over the elements of array `v` from index `i`:
   * the result of the first element whose step succeeds; later elements are
   * never consulted.
   */
  function FirstHit(v: Json, i: nat, p: string): Option<Json>
    requires v.Array? && i <= |v.elems|
    decreases v, 0, |v.elems| - i
  {
    if i == |v.elems| then None
    else
      match ConvertValueAndGet(v.elems[i], p)
      case Some(w) => Some(w)
      case None => FirstHit(v, i + 1, p)
  }

  /**
   * From index `i`, the scan succeeds iff some element's step does, and then it
   * returns the result of the first such element.
   */
  lemma {:induction false} FirstHitIsFirstMatch(v: Json, i: nat, p: string)
    requires v.Array? && i <= |v.elems|
    ensures FirstHit(v, i, p).Some? <==>
      exists j :: i <= j < |v.elems| && ConvertValueAndGet(v.elems[j], p).Some?
    ensures FirstHit(v, i, p).Some? ==>
      exists j :: i <= j < |v.elems| && ConvertValueAndGet(v.elems[j], p) == FirstHit(v, i, p)
        && forall k :: i <= k < j ==> ConvertValueAndGet(v.elems[k], p).None?
    decreases |v.elems| - i
  {
    if i < |v.elems| {
      FirstHitIsFirstMatch(v, i + 1, p);
      if ConvertValueAndGet(v.elems[i], p).None? {
        if FirstHit(v, i, p).Some? {
          var j :| i + 1 <= j < |v.elems| && ConvertValueAndGet(v.elems[j], p) == FirstHit(v, i, p)
            && forall k :: i + 1 <= k < j ==> ConvertValueAndGet(v.elems[k], p).None?;
          assert forall k :: i <= k < j ==> ConvertValueAndGet(v.elems[k], p).None?;
        }
      }
    }
  }

  /** On an array the step succeeds iff some element's step does, with the first such result. */
  lemma ConvertOnArray(a: seq<Json>, p: string)
    ensures ConvertValueAndGet(Array(a), p).Some? <==>
      exists j :: 0 <= j < |a| && ConvertValueAndGet(a[j], p).Some?
    ensures ConvertValueAndGet(Array(a), p).Some? ==>
      exists j :: 0 <= j < |a| && ConvertValueAndGet(a[j], p) == ConvertValueAndGet(Array(a), p)
        && forall k :: 0 <= k < j ==> ConvertValueAndGet(a[k], p).None?
  {
    FirstHitIsFirstMatch(Array(a), 0, p);
  }

  /** Two arrays that agree up to an element whose step succeeds scan alike from `i`. */
  lemma {:induction false} FirstHitStopsAt(v: Json, w: Json, i: nat, j: nat, p: string)
    requires v.Array? && w.Array? && i <= j < |v.elems| && j < |w.elems|
    requires v.elems[..j + 1] == w.elems[..j + 1]
    requires ConvertValueAndGet(v.elems[j], p).Some?
    ensures FirstHit(v, i, p) == FirstHit(w, i, p)
    decreases j - i
  {
    assert v.elems[i] == v.elems[..j + 1][i] == w.elems[..j + 1][i] == w.elems[i];
    if ConvertValueAndGet(v.elems[i], p).None? {
      FirstHitStopsAt(v, w, i + 1, j, p);
    }
  }

  /**
   * Once an element's step succeeds, the elements after it are never observed:
   * two arrays that agree up to that element give the same result.
   */
  lemma LaterElementsUnobserved(a: seq<Json>, b: seq<Json>, j: nat, p: string)
    requires j < |a| && j < |b| && a[..j + 1] == b[..j + 1]
    requires ConvertValueAndGet(a[j], p).Some?
    ensures ConvertValueAndGet(Array(a), p) == ConvertValueAndGet(Array(b), p)
  {
    FirstHitStopsAt(Array(a), Array(b), 0, j, p);
  }

  /** The `try_fold` of `Filter::filter`: apply the step for each segment in turn, failing at the first miss. */
  function Resolve(v: Json, path: seq<string>): Option<Json>
    decreases path
  {
    if path == [] then Some(v)
    else
      match ConvertValueAndGet(v, path[0])
      case None => None
      case Some(w) => Resolve(w, path[1..])
  }

  /** Whatever one step returns lies strictly inside its input; this is also why the recursion ends. */
  lemma {:induction false} ConvertIsDescendant(v: Json, p: string)
    requires ConvertValueAndGet(v, p).Some?
    ensures Descendant(ConvertValueAndGet(v, p).value, v)
    decreases v, 1, 0
  {
    if v.Array? {
      FirstHitIsDescendant(v, 0, p);
    }
  }

  lemma {:induction false} FirstHitIsDescendant(v: Json, i: nat, p: string)
    requires v.Array? && i <= |v.elems|
    requires FirstHit(v, i, p).Some?
    ensures Descendant(FirstHit(v, i, p).value, v)
    decreases v, 0, |v.elems| - i
  {
    var w := ConvertValueAndGet(v.elems[i], p);
    if w.Some? {
      ConvertIsDescendant(v.elems[i], p);
      assert Descendant(w.value, v.elems[i]);
    } else {
      FirstHitIsDescendant(v, i + 1, p);
    }
  }

  /** Resolving a non-empty path ends strictly inside the starting value. */
  lemma {:induction false} ResolveIsDescendant(v: Json, path: seq<string>)
    requires |path| > 0 && Resolve(v, path).Some?
    ensures Descendant(Resolve(v, path).value, v)
    decreases path
  {
    var w := ConvertValueAndGet(v, path[0]).value;
    ConvertIsDescendant(v, path[0]);
    if |path| > 1 {
      ResolveIsDescendant(w, path[1..]);
      DescendantTransitive(Resolve(v, path).value, w, v);
    }
  }

  /**
   * `chain` is the sequence of values the fold visits along `path` from `v`:
   * each next value is what one step from the previous one returns.
   */
  ghost predicate IsStepChain(chain: seq<Json>, v: Json, path: seq<string>)
  {
    && |chain| == |path| + 1
    && chain[0] == v
    && forall i :: 0 <= i < |path| ==> ConvertValueAndGet(chain[i], path[i]) == Some(chain[i + 1])
  }

  /** A successful fold visits a chain of successful steps from `v` to its result. */
  lemma {:induction false} ResolveHasStepChain(v: Json, path: seq<string>)
    requires Resolve(v, path).Some?
    ensures exists chain: seq<Json> :: IsStepChain(chain, v, path) && chain[|path|] == Resolve(v, path).value
    decreases path
  {
    if path == [] {
      assert IsStepChain([v], v, path);
    } else {
      var u := ConvertValueAndGet(v, path[0]).value;
      ResolveHasStepChain(u, path[1..]);
      var tail: seq<Json> :| IsStepChain(tail, u, path[1..]) && tail[|path| - 1] == Resolve(u, path[1..]).value;
      var chain := [v] + tail;
      assert forall i :: 1 <= i < |path| ==> chain[i] == tail[i - 1] && path[i] == path[1..][i - 1];
      assert IsStepChain(chain, v, path);
    }
  }

  /** A chain of successful steps from `v` along the path makes the fold reach its end. */
  lemma {:induction false} StepChainMakesResolve(chain: seq<Json>, v: Json, path: seq<string>)
    requires IsStepChain(chain, v, path)
    ensures Resolve(v, path) == Some(chain[|path|])
    decreases path
  {
    if path != [] {
      var tail := chain[1..];
      assert forall i :: 0 <= i < |path| - 1 ==> tail[i] == chain[i + 1] && path[1..][i] == path[i + 1];
      assert IsStepChain(tail, chain[1], path[1..]);
      StepChainMakesResolve(tail, chain[1], path[1..]);
    }
  }

  /**
   * The fold yields `w` exactly when one step after another, each succeeding,
   * leads from `v` to `w` along the path.
   */
  lemma ResolveIsStepChain(v: Json, path: seq<string>, w: Json)
    ensures Resolve(v, path) == Some(w) <==> exists chain: seq<Json> :: IsStepChain(chain, v, path) && chain[|path|] == w
  {
    if Resolve(v, path) == Some(w) {
      ResolveHasStepChain(v, path);
    }
    if exists chain: seq<Json> :: IsStepChain(chain, v, path) && chain[|path|] == w {
      var chain: seq<Json> :| IsStepChain(chain, v, path) && chain[|path|] == w;
      StepChainMakesResolve(chain, v, path);
    }
  }

  /** Resolving a concatenated path is resolving the first part, then the rest from there. */
  lemma {:induction false} ResolveAppend(v: Json, ps: seq<string>, qs: seq<string>)
    ensures Resolve(v, ps + qs) ==
      match Resolve(v, ps)
      case None => None
      case Some(w) => Resolve(w, qs)
    decreases ps
  {
    if ps != [] {
      assert (ps + qs)[0] == ps[0];
      assert (ps + qs)[1..] == ps[1..] + qs;
      match ConvertValueAndGet(v, ps[0])
      case None =>
      case Some(w) => ResolveAppend(w, ps[1..], qs);
    } else {
      assert ps + qs == qs;
    }
  }

  /** A single failed step anywhere along the path makes the whole resolution fail. */
  lemma ResolveShortCircuit(v: Json, path: seq<string>, i: nat)
    requires i < |path|
    requires Resolve(v, path[..i]).Some?
    requires ConvertValueAndGet(Resolve(v, path[..i]).value, path[i]).None?
    ensures Resolve(v, path) == None
  {
    assert path[..i] + path[i..] == path;
    ResolveAppend(v, path[..i], path[i..]);
    assert path[i..][0] == path[i];
  }

  // ---------------------------------------------------------------------
  // `Filter::cmp_value` and `Filter::filter`

  /**
   * `Filter::cmp_value`: the value must be of the literal's own kind. An integer
   * literal matches only the same non-negative integer, a string literal only
   * the same JSON string, a float literal only a number whose `as_f64` is IEEE
   * equal to it.
   */
  function CmpValue(lit: ValueFilter, v: Json, ofInt: int -> F64): (r: bool)
    ensures lit.Int? ==> (r <==> v == Json.Number(PosInt(lit.u)))
    ensures lit.String? ==> (r <==> v == Json.String(lit.s))
    ensures lit.Float? ==> (r <==> v.Number? && FloatEq(AsF64(v, ofInt).value, lit.f))
  {
    match lit
    case Int(u) => AsU64(v) == Some(u)
    case Float(f) => AsF64(v, ofInt).Some? && FloatEq(AsF64(v, ofInt).value, f)
    case String(t) => AsStr(v) == Some(t)
  }

  /** A NaN literal matches no value at all. */
  lemma NaNLiteralMatchesNothing(f: F64, v: Json, ofInt: int -> F64)
    requires IsNaN(f)
    ensures !CmpValue(ValueFilter.Float(f), v, ofInt)
  {
    if v.Number? {
      FloatEqProperties(f, AsF64(v, ofInt).value);
    }
  }

  /**
   * `Filter::filter`: follow the pattern from `v`, then compare. A missing value
   * never passes; an empty pattern compares the literal with `v` itself.
   */
  function ApplyFilter(f: Filter, v: Json, ofInt: int -> F64): (r: bool)
    ensures r <==>
      Resolve(v, f.pattern.segments).Some? && CmpValue(f.value, Resolve(v, f.pattern.segments).value, ofInt)
    // Corollary of the clause above, stated for callers that only need it.
    ensures r ==> Resolve(v, f.pattern.segments).Some?
    ensures f.pattern.segments == [] ==> (r <==> CmpValue(f.value, v, ofInt))
  {
    match Resolve(v, f.pattern.segments)
    case Some(w) => CmpValue(f.value, w, ofInt)
    case None => false
  }

  /** A filter fails when any step of its pattern finds nothing. */
  lemma ApplyFilterShortCircuit(f: Filter, v: Json, ofInt: int -> F64, i: nat)
    requires i < |f.pattern.segments|
    requires Resolve(v, f.pattern.segments[..i]).Some?
    requires ConvertValueAndGet(Resolve(v, f.pattern.segments[..i]).value, f.pattern.segments[i]).None?
    ensures !ApplyFilter(f, v, ofInt)
  {
    ResolveShortCircuit(v, f.pattern.segments, i);
  }

  /** A filter that passes found, along its pattern, a value of the literal's own kind. */
  lemma ApplyFilterTypeExact(f: Filter, v: Json, ofInt: int -> F64)
    requires ApplyFilter(f, v, ofInt)
    ensures var w := Resolve(v, f.pattern.segments).value;
      && (f.value.Int? ==> w == Json.Number(PosInt(f.value.u)))
      && (f.value.String? ==> w == Json.String(f.value.s))
      && (f.value.Float? ==> w.Number? && FloatEq(AsF64(w, ofInt).value, f.value.f))
  {
  }
}
