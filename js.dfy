/**
 * JavaScript values as the handlers see them: what JSON.parse produces and
 * what the document client hands back, with JavaScript's truthiness, property
 * access, String.prototype.trim and Array.prototype.join.
 */
module Js {

  datatype Option<+T> = None | Some(value: T)

  /** A call that either returns a value or throws an error with a message. */
  datatype Result<+T> = Ok(value: T) | Err(message: string)

  /**
   * A JSON value. A number is a real: JSON text has no NaN, and a literal
   * too large for a double (which JSON.parse reads as Infinity) is not
   * modelled. `undefined` is not a value: a missing property is `None`.
   */
  datatype Value =
    | Null
    | Bool(b: bool)
    | Num(n: real)
    | Str(s: string)
    | Arr(elems: seq<Value>)
    | Obj(props: map<string, Value>)

  /** `!!x` in JavaScript, with `None` standing for `undefined`. */
  predicate Truthy(v: Option<Value>)
  {
    match v
    case None => false
    case Some(Null) => false
    case Some(Bool(b)) => b
    case Some(Num(n)) => n != 0.0
    case Some(Str(s)) => s != ""
    case Some(Arr(_)) => true
    case Some(Obj(_)) => true
  }

  /** `v[name]` on a value that is not null: only objects have own properties here. */
  function Prop(v: Value, name: string): (p: Option<Value>)
    ensures p.Some? <==> v.Obj? && name in v.props
    ensures p.Some? ==> p.value == v.props[name]
  {
    if v.Obj? && name in v.props then Some(v.props[name]) else None
  }

  /** Destructuring `const { … } = v` throws a TypeError exactly when `v` is null. */
  predicate Destructurable(v: Value)
  {
    !v.Null?
  }

  /**
   * The characters String.prototype.trim removes: WhiteSpace and
   * LineTerminator of section 12.2 and 12.3 of ECMA-262.
   */
  predicate IsTrimmable(c: char)
  {
    var n := c as int;
    n == 0x09 || n == 0x0A || n == 0x0B || n == 0x0C || n == 0x0D || n == 0x20
    || n == 0xA0 || n == 0x1680 || (0x2000 <= n <= 0x200A) || n == 0x2028 || n == 0x2029
    || n == 0x202F || n == 0x205F || n == 0x3000 || n == 0xFEFF
  }

  /** Every character of `s` is trimmable. */
  predicate Blank(s: string)
  {
    forall i | 0 <= i < |s| :: IsTrimmable(s[i])
  }

  /** How many trimmable characters `s` starts with. */
  function LeadingTrimmable(s: string): (n: nat)
    ensures n <= |s|
    ensures forall i | 0 <= i < n :: IsTrimmable(s[i])
    ensures n < |s| ==> !IsTrimmable(s[n])
  {
    if s != [] && IsTrimmable(s[0]) then 1 + LeadingTrimmable(s[1..]) else 0
  }

  /** The length of `s` once its trailing trimmable characters are dropped. */
  function KeptBeforeTrailing(s: string): (n: nat)
    ensures n <= |s|
    ensures forall i | n <= i < |s| :: IsTrimmable(s[i])
    ensures n > 0 ==> !IsTrimmable(s[n - 1])
  {
    if s != [] && IsTrimmable(s[|s| - 1]) then KeptBeforeTrailing(s[..|s| - 1]) else |s|
  }

  /**
   * String.prototype.trim: the result is the piece of `s` left once the
   * leading and then the trailing trimmable characters are removed; it neither
   * starts nor ends with a trimmable character, and it is empty exactly when
   * `s` is blank.
   */
  function Trim(s: string): (r: string)
    ensures r == "" <==> Blank(s)
    ensures r != "" ==> !IsTrimmable(r[0]) && !IsTrimmable(r[|r| - 1])
    ensures LeadingTrimmable(s) + |r| <= |s| && r == s[LeadingTrimmable(s)..LeadingTrimmable(s) + |r|]
    ensures Blank(s[..LeadingTrimmable(s)]) && Blank(s[LeadingTrimmable(s) + |r|..])
  {
    var t := s[LeadingTrimmable(s)..];
    var r := t[..KeptBeforeTrailing(t)];
    TrimEmptyIffBlank(s);
    assert s[LeadingTrimmable(s) + |r|..] == t[KeptBeforeTrailing(t)..];
    r
  }

  /** Trimming leaves nothing exactly when the string is blank. */
  lemma {:induction false} TrimEmptyIffBlank(s: string)
    ensures var t := s[LeadingTrimmable(s)..]; KeptBeforeTrailing(t) == 0 <==> Blank(s)
  {
    var a := LeadingTrimmable(s);
    var t := s[a..];
    if a < |s| {
      assert t[0] == s[a];
      assert !IsTrimmable(t[0]);
    }
  }

  /** Array.prototype.join: the parts separated by `sep`. */
  function Join(parts: seq<string>, sep: string): string
  {
    if parts == [] then ""
    else if |parts| == 1 then parts[0]
    else parts[0] + sep + Join(parts[1..], sep)
  }
}
