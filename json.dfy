/**
 * The JSON value tree the program reads (serde_json's `Value`), restricted to
 * what the filter and the extraction step observe: the kind of each node,
 * object key lookup, array elements in order, and the accessors `as_u64`,
 * `as_f64`, `as_str`.
 */
module JsonValue {
  import opened Wrappers

  /** An unsigned 64-bit integer. */
  type U64 = x: int | 0 <= x < 0x1_0000_0000_0000_0000

  /** A negative signed 64-bit integer (serde_json keeps non-negative ones as U64). */
  type NegI64 = x: int | -0x8000_0000_0000_0000 <= x < 0 witness -1

  /** A 64-bit IEEE 754 binary floating-point value, held as its bit pattern. */
  datatype F64 = F64(bits: U64)

  /** A JSON number as serde_json stores it. */
  datatype Number = PosInt(u: U64) | NegInt(i: NegI64) | Float(f: F64)

  /** A JSON value. Object order is irrelevant to the program: only lookup is used. */
  datatype Json =
    | Null
    | Bool(b: bool)
    | Number(n: Number)
    | String(s: string)
    | Array(elems: seq<Json>)
    | Object(fields: map<string, Json>)

  /** `w` lies strictly inside `v`: it is reached from `v` by one or more child steps. */
  ghost predicate Descendant(w: Json, v: Json)
    decreases v
  {
    match v
    case Array(a) => exists i :: 0 <= i < |a| && (w == a[i] || Descendant(w, a[i]))
    case Object(m) => exists k :: k in m && (w == m[k] || Descendant(w, m[k]))
    case _ => false
  }

  /** Being strictly inside is transitive. */
  lemma {:induction false} DescendantTransitive(u: Json, w: Json, v: Json)
    requires Descendant(u, w) && Descendant(w, v)
    ensures Descendant(u, v)
    decreases v
  {
    match v
    case Array(a) =>
      var i :| 0 <= i < |a| && (w == a[i] || Descendant(w, a[i]));
      if w != a[i] {
        DescendantTransitive(u, w, a[i]);
      }
    case Object(m) =>
      var k :| k in m && (w == m[k] || Descendant(w, m[k]));
      if w != m[k] {
        DescendantTransitive(u, w, m[k]);
      }
  }

  /** serde_json's `Value::as_u64`: only a non-negative integer converts. */
  function AsU64(v: Json): (r: Option<U64>)
    ensures r.Some? <==> v.Number? && v.n.PosInt?
    ensures r.Some? ==> r.value == v.n.u
  {
    match v
    case Number(PosInt(u)) => Some(u)
    case _ => None
  }

  /**
   * serde_json's `Value::as_f64`: every number converts, a float to itself and
   * an integer through the cast `ofInt` (Rust's `as f64`, which rounds).
   */
  function AsF64(v: Json, ofInt: int -> F64): (r: Option<F64>)
    ensures r.Some? <==> v.Number?
    ensures v.Number? && v.n.PosInt? ==> r == Some(ofInt(v.n.u))
    ensures v.Number? && v.n.NegInt? ==> r == Some(ofInt(v.n.i))
    ensures v.Number? && v.n.Float? ==> r == Some(v.n.f)
  {
    match v
    case Number(PosInt(u)) => Some(ofInt(u))
    case Number(NegInt(i)) => Some(ofInt(i))
    case Number(Float(f)) => Some(f)
    case _ => None
  }

  /** serde_json's `Value::as_str`: only a string converts. */
  function AsStr(v: Json): (r: Option<string>)
    ensures r.Some? <==> v.String?
    ensures r.Some? ==> r.value == v.s
  {
    match v
    case String(s) => Some(s)
    case _ => None
  }

  const TwoTo52: nat := 0x10_0000_0000_0000
  const TwoTo63: nat := 0x8000_0000_0000_0000

  /** A NaN: all exponent bits set and a non-zero fraction. */
  predicate IsNaN(x: F64)
  {
    (x.bits / TwoTo52) % 0x800 == 0x7FF && x.bits % TwoTo52 != 0
  }

  /** Positive or negative zero: every bit but the sign clear. */
  predicate IsZero(x: F64)
  {
    x.bits % TwoTo63 == 0
  }

  /** IEEE 754 equality (Rust's `==` on `f64`). */
  predicate FloatEq(x: F64, y: F64)
  {
    !IsNaN(x) && !IsNaN(y) && (x == y || (IsZero(x) && IsZero(y)))
  }

  /** NaN equals nothing, itself included; the two zeros are equal; otherwise equality is identity. */
  lemma FloatEqProperties(x: F64, y: F64)
    ensures IsNaN(x) ==> !FloatEq(x, y) && !FloatEq(y, x)
    ensures !IsNaN(x) ==> FloatEq(x, x)
    ensures FloatEq(x, y) <==> FloatEq(y, x)
    ensures FloatEq(F64(0), F64(TwoTo63))
    ensures !IsZero(x) ==> (FloatEq(x, y) <==> !IsNaN(x) && x == y)
  {
  }
}
