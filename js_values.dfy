/** The slice of JavaScript's value model the service's helpers depend on:
    truthiness, property reads, the `in` operator, and the string a value
    becomes when it is used as an object key. */
module JsValues {

  datatype Option<T> = None | Some(value: T)

  /** The result of a call that either returns a value or lets an exception escape. */
  datatype Thrown<T> = Returned(value: T) | Threw

  /** A JavaScript value. `Obj` is a plain object with its own enumerable
      properties; `Date` is a Date object built by `new Date(arg)`, kept as an
      opaque wrapper of the value it was built from. */
  datatype JsValue =
    | Undefined
    | Null
    | Bool(b: bool)
    | Num(n: int)
    | Str(s: string)
    | Obj(props: map<string, JsValue>)
    | Date(arg: JsValue)

  /** A plain object, seen through its own properties. */
  type Row = map<string, JsValue>

  /** `!!v`: false exactly for undefined, null, false, 0 and the empty string. */
  predicate Truthy(v: JsValue) {
    match v
    case Undefined => false
    case Null => false
    case Bool(b) => b
    case Num(n) => n != 0
    case Str(s) => s != ""
    case Obj(_) => true
    case Date(_) => true
  }

  /** `a || b` */
  function Or(a: JsValue, b: JsValue): (r: JsValue)
    ensures Truthy(a) ==> r == a
    ensures !Truthy(a) ==> r == b
  {
    if Truthy(a) then a else b
  }

  predicate IsNullish(v: JsValue) {
    v.Undefined? || v.Null?
  }

  /** `typeof v === "object"`, which holds of null as well. */
  predicate TypeofObject(v: JsValue) {
    v.Null? || v.Obj? || v.Date?
  }

  /** `k in v` for an object `v`: an own property of a plain object. */
  predicate HasKey(v: JsValue, k: string) {
    v.Obj? && k in v.props
  }

  /** `row[k]`: the property's value, or undefined when it is absent. */
  function Get(row: Row, k: string): (r: JsValue)
    ensures k !in row ==> r == Undefined
    ensures k in row ==> r == row[k]
  {
    if k in row then row[k] else Undefined
  }

  /** `v.k`: reading a property of null or undefined throws a TypeError
      (None); primitives and Dates have none of the properties read here. */
  function Prop(v: JsValue, k: string): (r: Option<JsValue>)
    ensures r.None? <==> IsNullish(v)
    ensures v.Obj? ==> r == Some(Get(v.props, k))
  {
    match v
    case Undefined => None
    case Null => None
    case Obj(props) => Some(Get(props, k))
    case _ => Some(Undefined)
  }

  function DigitChar(d: nat): char
    requires d < 10
  {
    "0123456789"[d]
  }

  /** Decimal digits of a natural number, most significant first. */
  function NatToString(n: nat): (s: string)
    ensures |s| >= 1 && (|s| == 1 <==> n < 10)
    ensures forall i :: 0 <= i < |s| ==> '0' <= s[i] <= '9'
    decreases n
  {
    if n < 10 then [DigitChar(n)] else NatToString(n / 10) + [DigitChar(n % 10)]
  }

  /** The property key a value becomes in `obj[v]` (its string conversion).
      A Date's string form depends on the host's time zone; the model names a
      Date key after the value it was built from. */
  function PropertyKey(v: JsValue): string {
    match v
    case Undefined => "undefined"
    case Null => "null"
    case Bool(b) => if b then "true" else "false"
    case Num(n) => if n < 0 then "-" + NatToString(-n) else NatToString(n)
    case Str(s) => s
    case Obj(_) => "[object Object]"
    case Date(arg) => "Date(" + PropertyKey(arg) + ")"
  }

  /** Different natural numbers have different decimal forms. */
  lemma {:induction false} NatToStringInjective(a: nat, b: nat)
    ensures NatToString(a) == NatToString(b) ==> a == b
    decreases a
  {
    if a >= 10 && b >= 10 {
      var sa, sb := NatToString(a / 10), NatToString(b / 10);
      assert NatToString(a) == sa + [DigitChar(a % 10)];
      assert NatToString(b) == sb + [DigitChar(b % 10)];
      if NatToString(a) == NatToString(b) {
        assert sa == NatToString(a)[..|sa|] && sb == NatToString(b)[..|sb|];
        NatToStringInjective(a / 10, b / 10);
      }
    }
  }

  /** A negative number's key is a minus sign before its magnitude's digits. */
  lemma NegativeKeysDistinct(m: int, n: int)
    requires m < 0 && n < 0
    ensures PropertyKey(Num(m)) == PropertyKey(Num(n)) ==> m == n
  {
    var km, kn := PropertyKey(Num(m)), PropertyKey(Num(n));
    assert km[1..] == NatToString(-m) && kn[1..] == NatToString(-n);
    NatToStringInjective(-m, -n);
  }

  /** Only a negative number's key starts with a minus sign. */
  lemma SignInKey(m: int)
    ensures PropertyKey(Num(m))[0] == '-' <==> m < 0
  {
  }

  /** Distinct integers become distinct property keys, so records filed
      under different numeric ids never overwrite each other. */
  lemma IntegerKeysDistinct(m: int, n: int)
    ensures PropertyKey(Num(m)) == PropertyKey(Num(n)) ==> m == n
  {
    if m < 0 && n < 0 {
      NegativeKeysDistinct(m, n);
    } else if m < 0 || n < 0 {
      SignInKey(m);
      SignInKey(n);
    } else {
      NatToStringInjective(m, n);
    }
  }
}
