/**
 A decoded JSON document as the Python code sees it after `json.loads`, with
 the two Python behaviours the client's control flow depends on: truthiness
 (`if x:` / `x or y`) and equality against literals.
 */
module JsonValue {
  import opened Numerals

  /** Objects are modelled without key order; floats are not modelled. */
  datatype Value =
    | Null
    | Bool(b: bool)
    | Int(i: int)
    | Str(s: string)
    | Arr(items: seq<Value>)
    | Obj(fields: map<string, Value>)

  const EmptyObj: Value := Obj(map[])

  /** Python's `bool(v)`: None, False, 0 and empty containers are false. */
  predicate Truthy(v: Value) {
    match v
    case Null => false
    case Bool(b) => b
    case Int(i) => i != 0
    case Str(s) => |s| > 0
    case Arr(xs) => |xs| > 0
    case Obj(m) => |m| > 0
  }

  /** `d.get(key, default)` on a decoded object. */
  function Get(fields: map<string, Value>, key: string, default: Value): Value {
    if key in fields then fields[key] else default
  }

  /** Python's `v == n` for an integer literal `n`; booleans compare as 0 and 1. */
  predicate EqualsInt(v: Value, n: int) {
    v == Int(n) || (v.Bool? && (if v.b then 1 else 0) == n)
  }

  /** Python's `str(v) == digits` for a literal made of decimal digits. Only a
      string equal to it or an integer printed as it qualify: `str` of None, of a
      boolean, of a list and of a dict begins with a letter, `[` or `{`. */
  predicate RendersAs(v: Value, digits: string) {
    v == Str(digits) || (v.Int? && Decimal(v.i) == digits)
  }

  /** `str(ret) == "0"` holds of exactly the string "0" and the integer 0. */
  lemma RendersAsZero(v: Value)
    ensures RendersAs(v, "0") <==> v == Str("0") || v == Int(0)
  {
    assert Decimal(0) == "0";
    if v.Int? && Decimal(v.i) == "0" {
      DecimalInjective(v.i, 0);
    }
  }

  /** `str(ret) == "5000"` holds of exactly the string "5000" and the integer 5000. */
  lemma RendersAsFiveThousand(v: Value)
    ensures RendersAs(v, "5000") <==> v == Str("5000") || v == Int(5000)
  {
    assert NatDecimal(5) == "5";
    assert NatDecimal(50) == NatDecimal(5) + "0";
    assert NatDecimal(500) == NatDecimal(50) + "0";
    assert Decimal(5000) == NatDecimal(500) + "0" == "5000";
    if v.Int? && Decimal(v.i) == "5000" {
      DecimalInjective(v.i, 5000);
    }
  }
}
