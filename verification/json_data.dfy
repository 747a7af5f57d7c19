/** Parsed JSON values as the renderers receive them, and the text Python's `str()`
    gives a leaf value when it is interpolated into an output line. */
module JsonData {

  /** A parsed JSON document. An object keeps its members in document order, as
      the key/value list the parser hands over (floating-point numbers are not
      modelled). */
  datatype Json =
    | JNull
    | JBool(b: bool)
    | JInt(i: int)
    | JStr(s: string)
    | JArray(items: seq<Json>)
    | JObject(members: seq<(string, Json)>)

  /** The decimal digit for `d`. */
  function DigitChar(d: nat): (c: char)
    requires d < 10
    ensures '0' <= c <= '9' && DigitValue(c) == d
  {
    ('0' as int + d) as char
  }

  /** The number a decimal digit stands for. */
  function DigitValue(c: char): int
  {
    c as int - '0' as int
  }

  /** The number a run of decimal digits stands for, most significant first. */
  function DigitsValue(s: string): int
  {
    if s == [] then 0 else DigitsValue(s[..|s| - 1]) * 10 + DigitValue(s[|s| - 1])
  }

  /** Decimal digits of a natural number, most significant first: they read back
      as `n`, and there is no leading zero. */
  function Digits(n: nat): (r: string)
    ensures |r| >= 1
    ensures forall k :: 0 <= k < |r| ==> '0' <= r[k] <= '9'
    ensures DigitsValue(r) == n
    ensures n > 0 ==> r[0] != '0'
  {
    if n < 10 then [DigitChar(n)]
    else
      var r := Digits(n / 10) + [DigitChar(n % 10)];
      assert r[..|r| - 1] == Digits(n / 10);
      r
  }

  /** The number a text of the form `str()` gives an int stands for. */
  function IntValue(s: string): int
  {
    if s != [] && s[0] == '-' then -DigitsValue(s[1..]) else DigitsValue(s)
  }

  /** `str()` of an int: a minus sign exactly for a negative number, then the
      digits, with no leading zero unless `i` is 0; it reads back as `i`. */
  function IntText(i: int): (r: string)
    ensures |r| >= 1 && (r[0] == '-' <==> i < 0)
    ensures var start := if i < 0 then 1 else 0;
      && start < |r|
      && (forall k :: start <= k < |r| ==> '0' <= r[k] <= '9')
      && (i != 0 ==> r[start] != '0')
    ensures IntValue(r) == i
  {
    if i < 0 then
      var r := "-" + Digits(-i);
      assert r[1..] == Digits(-i);
      r
    else Digits(i)
  }

  /** `str()` of a leaf value: `None`, `True`/`False`, decimal integers and
      strings verbatim; a list is printed with `repr` of its items. */
  function ValueText(v: Json): (r: string)
    ensures v.JInt? ==> IntValue(r) == v.i
    ensures v.JStr? ==> r == v.s
    ensures v.JArray? ==> |r| >= 2 && r[0] == '[' && r[|r| - 1] == ']'
    ensures v.JObject? ==> |r| >= 2 && r[0] == '{' && r[|r| - 1] == '}'
    decreases v, 1, 0
  {
    match v
    case JNull => "None"
    case JBool(b) => if b then "True" else "False"
    case JInt(i) => IntText(i)
    case JStr(s) => s
    case JArray(items) => "[" + ReprItems(v, |items|) + "]"
    case JObject(members) => "{" + ReprMembers(v, |members|) + "}"
  }

  /** `repr()` of a value nested in a list or dict: strings get single quotes. */
  function Repr(v: Json): string
    decreases v, 2, 0
  {
    if v.JStr? then "'" + v.s + "'" else ValueText(v)
  }

  /** The first `k` items of a list, each through `repr`, separated by ", ". */
  function ReprItems(v: Json, k: nat): string
    requires v.JArray? && k <= |v.items|
    decreases v, 0, k
  {
    if k == 0 then ""
    else if k == 1 then Repr(v.items[0])
    else ReprItems(v, k - 1) + ", " + Repr(v.items[k - 1])
  }

  /** The first `k` members of a dict as `'key': repr(value)`, separated by ", ". */
  function ReprMembers(v: Json, k: nat): string
    requires v.JObject? && k <= |v.members|
    decreases v, 0, k
  {
    if k == 0 then ""
    else
      var m := "'" + v.members[k - 1].0 + "': " + Repr(v.members[k - 1].1);
      if k == 1 then m else ReprMembers(v, k - 1) + ", " + m
  }
}
