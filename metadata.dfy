/** Metadata attached to a stored record: a map from keys to scalar values,
    as the vector store hands them back, with Python's `str()` and
    truthiness on those values. */
module Metadata {
  import opened Text

  /** A metadata value: the ingestion scripts store strings and integers. */
  datatype Scalar = Str(s: string) | Int(n: int)

  type Meta = map<string, Scalar>

  /** `str(v)`, which is also what an f-string inserts. */
  function Render(v: Scalar): string {
    match v
    case Str(s) => s
    case Int(n) => if n < 0 then "-" + Decimal(-n) else Decimal(n)
  }

  /** Python truthiness: the empty string and zero are false. */
  predicate Truthy(v: Scalar) {
    match v
    case Str(s) => s != ""
    case Int(n) => n != 0
  }

  /** `m.get(key, default)`: the default stands in only for an absent key. */
  function GetOr(m: Meta, key: string, default: Scalar): Scalar {
    if key in m then m[key] else default
  }

  /** `m.get(key) or default`: the default stands in for an absent key and for a falsy value. */
  function GetTruthyOr(m: Meta, key: string, default: Scalar): Scalar {
    if key in m && Truthy(m[key]) then m[key] else default
  }

  /** How the two lookups treat a stored value `v` and an absent key, for
      every map: `get(k, d)` returns whatever is stored, even a falsy value,
      while `get(k) or d` replaces a falsy one by `d`; both return `d` for an
      absent key, and storing under one key leaves every other key's lookup
      as it was. */
  lemma GetRules(m: Meta, key: string, other: string, v: Scalar, d: Scalar)
    ensures GetOr(m[key := v], key, d) == v
    ensures GetOr(m - {key}, key, d) == d
    ensures GetTruthyOr(m[key := v], key, d) == if Truthy(v) then v else d
    ensures GetTruthyOr(m - {key}, key, d) == d
    ensures !Truthy(v) ==> GetTruthyOr(m[key := v], key, d) == GetTruthyOr(m - {key}, key, d)
    ensures other != key ==> GetOr(m[key := v], other, d) == GetOr(m, other, d)
    ensures other != key ==> GetTruthyOr(m[key := v], other, d) == GetTruthyOr(m, other, d)
  {
  }
}
