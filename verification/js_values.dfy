/** The fragment of JavaScript's value semantics the request handler relies on:
    UTF-16 strings, `typeof`, truthiness, optional indexing, destructuring with
    a default, and `String.prototype.toLowerCase` restricted to ASCII. */
module JsValues {

  /** A UTF-16 code unit. A JavaScript string is a sequence of these, and
      `.length` and `substring` count and cut code units, not characters. */
  newtype CodeUnit = x: int | 0 <= x < 0x1_0000

  /** A JavaScript string. A lone surrogate is a legal element. */
  type JsString = seq<CodeUnit>

  /** A character outside the Basic Multilingual Plane, which UTF-16 stores
      as a surrogate pair. */
  predicate IsAstral(c: char) {
    c as int >= 0x1_0000
  }

  /** The code unit of a character of the Basic Multilingual Plane. */
  function Unit(c: char): CodeUnit
    requires !IsAstral(c)
  {
    c as int as CodeUnit
  }

  /** UTF-16 encoding of one character: a single code unit inside the Basic
      Multilingual Plane, a high/low surrogate pair outside it. */
  function EncodeChar(c: char): (r: JsString)
    ensures !IsAstral(c) ==> r == [Unit(c)]
    ensures IsAstral(c) ==> |r| == 2 && 0xD800 <= r[0] < 0xDC00 && 0xDC00 <= r[1] < 0xE000
  {
    if !IsAstral(c) then [Unit(c)]
    else
      var v := c as int - 0x1_0000;
      [(0xD800 + v / 0x400) as CodeUnit, (0xDC00 + v % 0x400) as CodeUnit]
  }

  /** A surrogate pair decodes back to the character it encodes. */
  lemma SurrogatePairRoundTrip(c: char)
    requires IsAstral(c)
    ensures 0x1_0000 + (EncodeChar(c)[0] as int - 0xD800) * 0x400 + (EncodeChar(c)[1] as int - 0xDC00) == c as int
  {
  }

  /** The number of characters outside the Basic Multilingual Plane. */
  function AstralCount(s: string): nat {
    if s == [] then 0 else (if IsAstral(s[0]) then 1 else 0) + AstralCount(s[1..])
  }

  /** The JavaScript string holding the text `s`: its `.length` is the number of
      characters plus one for every character that needs a surrogate pair. */
  function Encode(s: string): (r: JsString)
    ensures |r| == |s| + AstralCount(s)
  {
    if s == [] then [] else EncodeChar(s[0]) + Encode(s[1..])
  }

  /** Encoding distributes over concatenation. */
  lemma {:induction false} EncodeAppend(a: string, b: string)
    ensures Encode(a + b) == Encode(a) + Encode(b)
  {
    if a != [] {
      assert (a + b)[0] == a[0] && (a + b)[1..] == a[1..] + b;
      EncodeAppend(a[1..], b);
      assert Encode(a + b) == EncodeChar(a[0]) + (Encode(a[1..]) + Encode(b));
    } else {
      assert a + b == b;
    }
  }

  /** Text inside the Basic Multilingual Plane is encoded unit for character. */
  lemma {:induction false} EncodeBmp(s: string)
    requires forall i :: 0 <= i < |s| ==> !IsAstral(s[i])
    ensures |Encode(s)| == |s|
    ensures forall i :: 0 <= i < |s| ==> Encode(s)[i] == Unit(s[i])
  {
    if s != [] {
      EncodeBmp(s[1..]);
      assert Encode(s) == [Unit(s[0])] + Encode(s[1..]);
    }
  }

  /** A JavaScript value as it can arrive in an untrusted JSON-RPC request.
      Arrays and plain objects are both `typeof 'object'`; `Func` stands for any
      callable value. Numbers are kept as integers: NaN is not modelled.
      Property names are compared as whole names, so they are kept as Dafny
      strings. */
  datatype JsValue =
    | Undefined
    | Null
    | Bool(b: bool)
    | Num(n: int)
    | Str(s: JsString)
    | Arr(elems: seq<JsValue>)
    | Obj(props: map<string, JsValue>)
    | Func

  /** The string the `typeof` operator yields. */
  function TypeOf(v: JsValue): string {
    match v
    case Undefined => "undefined"
    case Null => "object"
    case Bool(_) => "boolean"
    case Num(_) => "number"
    case Str(_) => "string"
    case Arr(_) => "object"
    case Obj(_) => "object"
    case Func => "function"
  }

  /** JavaScript truthiness: what `!v` negates. */
  predicate Truthy(v: JsValue) {
    match v
    case Undefined => false
    case Null => false
    case Bool(b) => b
    case Num(n) => n != 0
    case Str(s) => |s| > 0
    case _ => true
  }

  /** The value of `v?.[0]`: optional chaining yields `undefined` on a nullish
      receiver instead of throwing. */
  function FirstElement(v: JsValue): JsValue {
    match v
    case Arr(elems) => if |elems| > 0 then elems[0] else Undefined
    case Obj(props) => Property(v, "0")
    case Str(s) => if |s| > 0 then Str([s[0]]) else Undefined
    case _ => Undefined
  }

  /** Own-property lookup `v[key]`; a missing property reads as `undefined`.
      Array elements are only reachable through `FirstElement`. */
  function Property(v: JsValue, key: string): JsValue {
    match v
    case Obj(props) => if key in props then props[key] else Undefined
    case _ => Undefined
  }

  /** The value bound by the destructuring pattern `{ key = default }`: the
      default replaces `undefined`, whether the property is absent or present
      and explicitly `undefined`, and nothing else. */
  function PropertyOr(v: JsValue, key: string, default: JsValue): JsValue
  {
    var p := Property(v, key);
    if p.Undefined? then default else p
  }

  predicate IsUpper(u: CodeUnit) {
    Unit('A') <= u <= Unit('Z')
  }

  /** ASCII lower-casing of one code unit. */
  function LowerUnit(u: CodeUnit): CodeUnit {
    if IsUpper(u) then u + 32 else u
  }

  /** `s.toLowerCase()` on ASCII: every upper-case letter is replaced by its
      lower-case counterpart and every other code unit is kept. */
  function Lower(s: JsString): (r: JsString)
    ensures |r| == |s|
    ensures forall i :: 0 <= i < |s| ==> !IsUpper(r[i])
    ensures forall i :: 0 <= i < |s| && !IsUpper(s[i]) ==> r[i] == s[i]
    ensures forall i :: 0 <= i < |s| && IsUpper(s[i]) ==> r[i] == s[i] + 32
  {
    if s == [] then [] else [LowerUnit(s[0])] + Lower(s[1..])
  }

  /** Lower-casing twice is lower-casing once. */
  lemma LowerIdempotent(s: JsString)
    ensures Lower(Lower(s)) == Lower(s)
  {
  }

  /** A string with no upper-case letter is its own lower-case form. */
  lemma LowerFixesLowerCase(s: JsString)
    requires forall i :: 0 <= i < |s| ==> !IsUpper(s[i])
    ensures Lower(s) == s
  {
  }
}
