/**
 * The part of Jackson's JsonNode tree the weather clients read: member lookup
 * with `path`, the lenient `asText`/`asInt`/`asDouble` accessors with their
 * defaults, and iteration over a container's children. Numbers in the tree are
 * integers; text is converted to a number by a decimal reader.
 */
module JsonNode {
  import opened Wrappers
  import opened JavaStrings

  /** A JSON value. An object keeps its members in document order. */
  datatype Node =
    | Missing
    | Null
    | Text(text: string)
    | Number(value: int)
    | Object(members: seq<(string, Node)>)
    | Array(elements: seq<Node>)

  /** The outcome of a RestTemplate call that returns a JSON body: the call
      threw, or it returned a body that may be null. */
  datatype Response = Threw | Received(body: Option<Node>)

  /** The value bound to `key` in a member list (the last binding wins, as
      when Jackson reads a repeated key), or Missing. */
  function Lookup(members: seq<(string, Node)>, key: string): (n: Node)
    ensures n != Missing ==> exists i :: 0 <= i < |members| && members[i] == (key, n)
    ensures (forall i :: 0 <= i < |members| ==> members[i].0 != key) ==> n == Missing
  {
    if members == [] then Missing
    else if members[|members| - 1].0 == key then members[|members| - 1].1
    else Lookup(members[..|members| - 1], key)
  }

  /** JsonNode.path(key): the member of an object, Missing for anything else. */
  function Path(n: Node, key: string): Node {
    if n.Object? then Lookup(n.members, key) else Missing
  }

  /** JsonNode.isMissingNode. */
  predicate IsMissing(n: Node) {
    n == Missing
  }

  /** What `for (JsonNode child : n)` visits: the elements of an array, the
      member values of an object, nothing for a scalar. */
  function Children(n: Node): seq<Node> {
    match n
    case Array(elements) => elements
    case Object(members) => MemberValues(members)
    case _ => []
  }

  /** The values of a member list, in order. */
  function MemberValues(members: seq<(string, Node)>): (vs: seq<Node>)
    ensures |vs| == |members|
    ensures forall i :: 0 <= i < |members| ==> vs[i] == members[i].1
  {
    if members == [] then [] else [members[0].1] + MemberValues(members[1..])
  }

  // ------------------------------------------------------------ decimal text

  predicate IsDigit(c: char) {
    '0' <= c <= '9'
  }

  /** The character of a decimal digit. */
  function DigitChar(d: int): (c: char)
    requires 0 <= d < 10
    ensures IsDigit(c) && c as int - '0' as int == d
  {
    "0123456789"[d]
  }

  predicate AllDigits(s: string) {
    forall i :: 0 <= i < |s| ==> IsDigit(s[i])
  }

  /** The value of a string of decimal digits. */
  function DigitsValue(s: string): nat
    requires AllDigits(s)
  {
    if s == [] then 0
    else 10 * DigitsValue(s[..|s| - 1]) + (s[|s| - 1] as int - '0' as int)
  }

  /** Long.toString on a natural number. */
  function NaturalText(n: nat): (s: string)
    ensures |s| > 0 && AllDigits(s)
  {
    if n < 10 then [DigitChar(n)]
    else NaturalText(n / 10) + [DigitChar(n % 10)]
  }

  /** Integer.toString: the decimal text of any integer. */
  function IntText(n: int): (s: string)
    ensures |s| > 0
  {
    if n < 0 then "-" + NaturalText(-n) else NaturalText(n)
  }

  /** Reading back the digits of a natural number gives that number. */
  lemma {:induction false} DigitsOfNaturalText(n: nat)
    ensures DigitsValue(NaturalText(n)) == n
  {
    if n >= 10 {
      DigitsOfNaturalText(n / 10);
      var s := NaturalText(n);
      assert s[..|s| - 1] == NaturalText(n / 10);
    }
  }

  /** The value of the digits after a decimal point: 0.d1d2… = (d1 + 0.d2…)/10. */
  function FractionValue(s: string): (v: real)
    requires AllDigits(s)
    ensures 0.0 <= v <= 1.0
  {
    if s == [] then 0.0 else ((s[0] as int - '0' as int) as real + FractionValue(s[1..])) / 10.0
  }

  /** The value of `digits.digits` with either side possibly empty but not both
      (the plain decimal forms Double.parseDouble accepts). */
  function UnsignedDecimal(s: string): (r: Option<real>)
    ensures r.Some? ==> r.value >= 0.0
  {
    var dot := IndexOfChar(s, '.');
    if dot == -1 then
      if s != [] && AllDigits(s) then Some(DigitsValue(s) as real) else None
    else
      var whole, fraction := s[..dot], s[dot + 1..];
      if |s| > 1 && AllDigits(whole) && AllDigits(fraction) then
        Some(DigitsValue(whole) as real + FractionValue(fraction))
      else None
  }

  /** The number a trimmed text denotes: an optional sign and a plain decimal. */
  function ParseDecimal(s: string): Option<real> {
    var negative := s != [] && s[0] == '-';
    match UnsignedDecimal(Unsigned(s))
    case Some(v) => Some(if negative then -v else v)
    case None => None
  }

  /** The text after a leading sign, if there is one. */
  function Unsigned(s: string): (u: string)
    ensures s != [] && IsDigit(s[0]) ==> u == s
    ensures s != [] && s[0] == '-' ==> u == s[1..]
  {
    if s != [] && (s[0] == '-' || s[0] == '+') then s[1..] else s
  }

  /** A natural number's text is a plain digit string, which reads back as it. */
  lemma UnsignedNaturalText(n: nat)
    ensures UnsignedDecimal(NaturalText(n)) == Some(n as real)
  {
    var t := NaturalText(n);
    DigitsOfNaturalText(n);
    assert '.' !in t by {
      forall i | 0 <= i < |t| ensures t[i] != '.' {
        assert IsDigit(t[i]);
      }
    }
  }

  /** The text of an integer reads back as that integer. */
  lemma ParseIntText(n: int)
    ensures ParseDecimal(IntText(n)) == Some(n as real)
  {
    var t := NaturalText(if n < 0 then -n else n);
    UnsignedNaturalText(if n < 0 then -n else n);
    if n < 0 {
      ParseNegatedDigits(t, (-n) as real);
      assert IntText(n) == "-" + t;
    } else {
      ParseDigits(t);
      assert IntText(n) == t;
    }
  }

  /** Text starting with a digit reads as its unsigned value. */
  lemma ParseDigits(t: string)
    requires t != [] && IsDigit(t[0])
    ensures ParseDecimal(t) == UnsignedDecimal(t)
  {
    assert Unsigned(t) == t;
  }

  /** A minus sign in front of such text negates its value. */
  lemma ParseNegatedDigits(t: string, v: real)
    requires t != [] && IsDigit(t[0]) && UnsignedDecimal(t) == Some(v)
    ensures ParseDecimal("-" + t) == Some(-v)
  {
    assert Unsigned("-" + t) == t;
  }

  /** The (int) cast of a double: truncation toward zero. */
  function Truncate(x: real): int {
    if x >= 0.0 then x.Floor else -((-x).Floor)
  }

  // ---------------------------------------------------------- the accessors

  /** asText(defaultValue): the text of a text node, the decimal text of a
      number, "" for a container and the default for a missing or null node. */
  function AsText(n: Node, default: string): (r: string)
    ensures n.Text? ==> r == n.text
    ensures n.Missing? || n.Null? ==> r == default
  {
    match n
    case Missing => default
    case Null => default
    case Text(s) => s
    case Number(v) => IntText(v)
    case Object(_) => ""
    case Array(_) => ""
  }

  /** asInt(defaultValue): a number as it is, a text parsed after trimming and
      truncated, the default for anything else or unreadable text. */
  function AsInt(n: Node, default: int): (r: int)
    ensures n.Number? ==> r == n.value
    ensures !n.Number? && !n.Text? ==> r == default
  {
    match n
    case Number(v) => v
    case Text(s) =>
      (match ParseDecimal(Trim(s))
       case Some(v) => Truncate(v)
       case None => default)
    case _ => default
  }

  /** asDouble(defaultValue), with the default carried as None (the clients
      pass NaN). */
  function AsDouble(n: Node): (r: Option<real>)
    ensures n.Number? ==> r == Some(n.value as real)
    ensures !n.Number? && !n.Text? ==> r == None
  {
    match n
    case Number(v) => Some(v as real)
    case Text(s) => ParseDecimal(Trim(s))
    case _ => None
  }

  /** A number written as text reads as the number itself, by asInt… */
  lemma TextualNumberAsInt(v: int, default: int)
    ensures AsInt(Text(IntText(v)), default) == v
  {
    TextualIntParses(v);
    AsIntOfParsed(IntText(v), v as real, default);
    TruncateWhole(v);
  }

  lemma AsIntOfParsed(s: string, x: real, default: int)
    requires ParseDecimal(Trim(s)) == Some(x)
    ensures AsInt(Text(s), default) == Truncate(x)
  {
  }

  /** …and by asDouble. */
  lemma TextualNumberAsDouble(v: int)
    ensures AsDouble(Text(IntText(v))) == Some(v as real)
  {
    TextualIntParses(v);
  }

  lemma TextualIntParses(v: int)
    ensures ParseDecimal(Trim(IntText(v))) == Some(v as real)
  {
    IntTextNeedsNoTrim(v);
    ParseIntText(v);
  }

  /** Truncating a whole number gives it back. */
  lemma TruncateWhole(v: int)
    ensures Truncate(v as real) == v
  {
  }

  /** Integer.toString neither starts nor ends with whitespace. */
  lemma IntTextNeedsNoTrim(v: int)
    ensures Trim(IntText(v)) == IntText(v)
  {
    var s := IntText(v);
    var t := NaturalText(if v < 0 then -v else v);
    assert s[0] == '-' || IsDigit(s[0]);
    assert s[|s| - 1] == t[|t| - 1];
    assert IsDigit(s[|s| - 1]);
    TrimStartOfTrimmed(s);
    TrimEndOfTrimmed(s);
  }
}
