/** The dynamically typed values the configuration file and the offset
    dictionaries hold, with the few Python operations the core applies to
    them: truthiness, `in`, `dict.get` and `int(...)`. */
module PyValue {
  import opened Basics

  /** A value as YAML loading hands it over. Mapping keys are strings. */
  datatype Value =
    | Nil
    | Bool(b: bool)
    | Int(i: int)
    | Float(r: real)
    | Str(s: string)
    | List(items: seq<Value>)
    | Dict(fields: map<string, Value>)

  /** Python's `bool(v)`. */
  predicate Truthy(v: Value)
  {
    match v
    case Nil => false
    case Bool(b) => b
    case Int(i) => i != 0
    case Float(r) => r != 0.0
    case Str(s) => |s| > 0
    case List(items) => |items| > 0
    case Dict(fields) => |fields| > 0
  }

  /** Python's `key in container` for a string key; None where Python raises
      TypeError (numbers, booleans and None are not containers). */
  function Contains(container: Value, key: string): Option<bool>
  {
    match container
    case Dict(fields) => Some(key in fields)
    case List(items) => Some(Str(key) in items)
    case Str(s) => Some(IsSubstring(key, s))
    case _ => None
  }

  /** Python's `d.get(key, default)` on a dictionary. */
  function Get(fields: map<string, Value>, key: string, default: Value): Value
  {
    if key in fields then fields[key] else default
  }

  /** The characters `str.strip()` removes that are ASCII. */
  predicate IsSpace(c: char)
  {
    c == ' ' || 9 <= c as int <= 13 || 28 <= c as int <= 31
  }

  function StripLeft(s: string): (r: string)
    ensures |r| <= |s| && r == s[|s| - |r|..]
    ensures |r| > 0 ==> !IsSpace(r[0])
  {
    if |s| > 0 && IsSpace(s[0]) then StripLeft(s[1..]) else s
  }

  function StripRight(s: string): (r: string)
    ensures |r| <= |s| && r == s[..|r|]
    ensures |r| > 0 ==> !IsSpace(r[|r| - 1])
  {
    if |s| > 0 && IsSpace(s[|s| - 1]) then StripRight(s[..|s| - 1]) else s
  }

  /** Digits in groups separated by single underscores, as `int("1_000")` accepts. */
  predicate IsDigitGroups(s: string)
  {
    && |s| > 0
    && IsDigit(s[0]) && IsDigit(s[|s| - 1])
    && (forall i :: 0 <= i < |s| ==> IsDigit(s[i]) || s[i] == '_')
    && (forall i :: 0 <= i < |s| - 1 ==> !(s[i] == '_' && s[i + 1] == '_'))
  }

  function RemoveUnderscores(s: string): (r: string)
    requires forall i :: 0 <= i < |s| ==> IsDigit(s[i]) || s[i] == '_'
    ensures forall i :: 0 <= i < |r| ==> IsDigit(r[i])
    ensures (forall i :: 0 <= i < |s| ==> IsDigit(s[i])) ==> r == s
  {
    if s == [] then []
    else (if s[0] == '_' then [] else [s[0]]) + RemoveUnderscores(s[1..])
  }

  /** Python's `int(s)` for a string in base 10; None where Python raises ValueError. */
  function ParseInt(s: string): Option<int>
  {
    var t := StripRight(StripLeft(s));
    if |t| == 0 then None
    else
      var negative := t[0] == '-';
      var body := if t[0] == '-' || t[0] == '+' then t[1..] else t;
      if !IsDigitGroups(body) then None
      else
        var magnitude := DigitsValue(RemoveUnderscores(body));
        Some(if negative then 0 - magnitude else magnitude)
  }

  /** Truncation toward zero, as `int(x)` does for a float. */
  function Truncate(r: real): int
  {
    if r >= 0.0 then r.Floor else 0 - (-r).Floor
  }

  /** Python's `int(v)`; None where Python raises ValueError or TypeError. */
  function ToInt(v: Value): Option<int>
  {
    match v
    case Nil => None
    case Bool(b) => Some(if b then 1 else 0)
    case Int(i) => Some(i)
    case Float(r) => Some(Truncate(r))
    case Str(s) => ParseInt(s)
    case List(_) => None
    case Dict(_) => None
  }

  lemma NoSpaceUnstripped(s: string)
    requires |s| > 0 && !IsSpace(s[0]) && !IsSpace(s[|s| - 1])
    ensures StripRight(StripLeft(s)) == s
  {
  }

  lemma DigitsAreGroups(ds: string)
    requires |ds| > 0 && forall i :: 0 <= i < |ds| ==> IsDigit(ds[i])
    ensures IsDigitGroups(ds) && RemoveUnderscores(ds) == ds
  {
  }

  /** `int(str(n)) == n`: the decimal text of any integer converts back to it. */
  lemma ToIntOfDecimalText(n: int)
    ensures ToInt(Str(IntToStr(n))) == Some(n)
  {
    var m := if n < 0 then -n else n;
    var ds := Digits(m);
    DigitsRoundTrip(m);
    DigitsAreGroups(ds);
    var s := IntToStr(n);
    if n < 0 {
      assert s == "-" + ds;
      NoSpaceUnstripped(s);
      assert s[1..] == ds;
    } else {
      assert s == ds;
      NoSpaceUnstripped(s);
    }
  }

  /** Truncation is toward zero for negative floats too: `int(-2.5) == -2`. */
  lemma TruncateNegative()
    ensures ToInt(Float(-2.5)) == Some(-2)
    ensures ToInt(Float(2.5)) == Some(2)
  {
  }
}
