/** JSON values and their compact text, with the character escapes of JavaScript's
    `JSON.stringify` and of Python's `json.dumps`: no two values share a text. */
module JsonText {
  import Decimal

  /** The integers that a JavaScript number holds exactly: up to 2^53 - 1 in size. Both
      languages print them in plain decimal digits. */
  const MAX_SAFE_INTEGER: int := 0x1F_FFFF_FFFF_FFFF
  type SafeInteger = n: int | -MAX_SAFE_INTEGER <= n <= MAX_SAFE_INTEGER

  /** Numbers are safe integers. An object lists its members in enumeration order. */
  datatype Json =
    | Null
    | Bool(b: bool)
    | Num(n: SafeInteger)
    | Str(s: string)
    | Arr(items: seq<Json>)
    | Obj(members: seq<Member>)

  datatype Member = Member(key: string, value: Json)

  // ---- Escapes ----

  function HexDigit(d: nat): char
    requires d < 16
  {
    if d < 10 then '0' + d as char else 'a' + (d - 10) as char
  }

  /** The last `width` hexadecimal digits of n, in lower case. */
  function Hex(n: nat, width: nat): (s: string)
    ensures |s| == width
  {
    if width == 0 then "" else Hex(n / 16, width - 1) + [HexDigit(n % 16)]
  }

  function Pow16(k: nat): nat {
    if k == 0 then 1 else 16 * Pow16(k - 1)
  }

  lemma {:induction false} HexInjective(m: nat, n: nat, width: nat)
    requires m < Pow16(width) && n < Pow16(width) && Hex(m, width) == Hex(n, width)
    ensures m == n
  {
    if width > 0 {
      var x, y := Hex(m, width), Hex(n, width);
      assert x[..width - 1] == Hex(m / 16, width - 1) && y[..width - 1] == Hex(n / 16, width - 1);
      assert x[width - 1] == y[width - 1];
      HexInjective(m / 16, n / 16, width - 1);
    }
  }

  /** The UTF-16 code units of a character. */
  function Units(c: char): (u: seq<nat>)
    ensures |u| == 1 || |u| == 2
    ensures forall x :: x in u ==> x < 0x10000
    ensures |u| == 2 <==> 0xD800 <= u[0] < 0xE000
  {
    var n := c as int;
    if n < 0x10000 then [n] else [0xD800 + (n - 0x10000) / 0x400, 0xDC00 + (n - 0x10000) % 0x400]
  }

  lemma UnitsInjective(c: char, d: char)
    requires Units(c) == Units(d)
    ensures c == d
  {
    assert Units(c)[0] == Units(d)[0];
    if |Units(c)| == 2 {
      assert Units(c)[1] == Units(d)[1];
    }
  }

  function UnitEscape(u: nat): (s: string)
    requires u < 0x10000
    ensures |s| == 6
  {
    "\\u" + Hex(u, 4)
  }

  /** The two-character escapes, which both languages share. */
  function ShortEscape(c: char): (s: string)
    ensures s != [] ==> |s| == 2 && s[0] == '\\' && s[1] != 'u'
  {
    if c == '\"' then "\\\""
    else if c == '\\' then "\\\\"
    else if c == '\n' then "\\n"
    else if c == '\r' then "\\r"
    else if c == '\t' then "\\t"
    else if c == 8 as char then "\\b"
    else if c == 12 as char then "\\f"
    else ""
  }

  /** JavaScript leaves every character from the space upwards as it is. */
  function JsEscape(c: char): string {
    if ShortEscape(c) != "" then ShortEscape(c)
    else if c < ' ' then UnitEscape(c as int)
    else [c]
  }

  /** Python leaves the printable ASCII characters and escapes the code units of the rest. */
  function PyEscape(c: char): string {
    if ShortEscape(c) != "" then ShortEscape(c)
    else if ' ' <= c <= '~' then [c]
    else if |Units(c)| == 1 then UnitEscape(Units(c)[0])
    else UnitEscape(Units(c)[0]) + UnitEscape(Units(c)[1])
  }

  type Escape = char -> string

  /** A string escaped this way can be read back: no code is a prefix of another's, and none
      begins like the closing quote. */
  ghost predicate Decodable(esc: Escape) {
    && (forall c :: esc(c) != [] && esc(c)[0] != '\"')
    && (forall c, d :: esc(c) <= esc(d) ==> c == d)
  }

  lemma UnitEscapeInjective(u: nat, v: nat)
    requires u < 0x10000 && v < 0x10000 && UnitEscape(u) == UnitEscape(v)
    ensures u == v
  {
    hide Hex;
    assert UnitEscape(u)[2..] == Hex(u, 4) && UnitEscape(v)[2..] == Hex(v, 4);
    assert Pow16(4) == 0x10000;
    HexInjective(u, v, 4);
  }

  lemma JsDecodable()
    ensures Decodable(JsEscape)
  {
    forall c, d | JsEscape(c) <= JsEscape(d) ensures c == d {
      JsPrefixFree(c, d);
    }
  }

  lemma JsPrefixFree(c: char, d: char)
    requires JsEscape(c) <= JsEscape(d)
    ensures c == d
  {
    hide Hex;
    var x, y := JsEscape(c), JsEscape(d);
    assert x[0] == y[0] && (|x| > 1 ==> x[1] == y[1]);
    if |x| == |y| {
      assert x == y;
      if |x| == 6 {
        UnitEscapeInjective(c as int, d as int);
      }
    }
  }

  lemma PyDecodable()
    ensures Decodable(PyEscape)
  {
    forall c, d | PyEscape(c) <= PyEscape(d) ensures c == d {
      PyPrefixFree(c, d);
    }
  }

  lemma PyPrefixFree(c: char, d: char)
    requires PyEscape(c) <= PyEscape(d)
    ensures c == d
  {
    hide Hex;
    var x, y := PyEscape(c), PyEscape(d);
    assert x[0] == y[0] && (|x| > 1 ==> x[1] == y[1]);
    if |x| <= 2 {
      assert |x| == |y| ==> x == y;
    } else {
      var u, v := Units(c), Units(d);
      assert x[..6] == UnitEscape(u[0]) && y[..6] == UnitEscape(v[0]);
      assert x[..6] == y[..6];
      UnitEscapeInjective(u[0], v[0]);
      if |u| == 2 {
        assert x[6..] == UnitEscape(u[1]) && y[6..] == UnitEscape(v[1]);
        UnitEscapeInjective(u[1], v[1]);
      }
      assert u == v;
      UnitsInjective(c, d);
    }
  }

  // ---- Text ----

  function EscapeAll(esc: Escape, s: string): string {
    if s == [] then "" else esc(s[0]) + EscapeAll(esc, s[1..])
  }

  function Quote(esc: Escape, s: string): string {
    "\"" + (EscapeAll(esc, s) + "\"")
  }

  function IntText(n: int): (s: string)
    ensures |s| > 0 && (s[0] == '-' || Decimal.IsDigit(s[0]))
  {
    if n < 0 then "-" + Decimal.Text(-n) else Decimal.Text(n)
  }

  /** The text of a value, without spaces. The closing bracket ends the text of a list. */
  function Print(esc: Escape, v: Json): (s: string)
    ensures s != []
    decreases v
  {
    match v
    case Null => "null"
    case Bool(b) => if b then "true" else "false"
    case Num(n) => IntText(n)
    case Str(s) => Quote(esc, s)
    case Arr(items) => "[" + PrintItems(esc, items, true)
    case Obj(members) => "{" + PrintMembers(esc, members, true)
  }

  function PrintItems(esc: Escape, items: seq<Json>, first: bool): (s: string)
    ensures s != []
    decreases items
  {
    if items == [] then "]" else
      (if first then "" else ",") + (Print(esc, items[0]) + PrintItems(esc, items[1..], false))
  }

  function PrintMembers(esc: Escape, members: seq<Member>, first: bool): (s: string)
    ensures s != []
    decreases members
  {
    if members == [] then "}" else
      (if first then "" else ",") +
      (Quote(esc, members[0].key) + (":" + (Print(esc, members[0].value) + PrintMembers(esc, members[1..], false))))
  }

  // ---- Reading text back ----

  /** What may follow a value: the end of the text, or a character no number continues with. */
  predicate Stop(s: string) {
    s == [] || !Decimal.IsDigit(s[0])
  }

  lemma FirstChar(esc: Escape, v: Json)
    ensures var c := Print(esc, v)[0];
      match v
      case Null => c == 'n'
      case Bool(b) => c == if b then 't' else 'f'
      case Num(n) => c == '-' || Decimal.IsDigit(c)
      case Str(_) => c == '\"'
      case Arr(_) => c == '['
      case Obj(_) => c == '{'
  {
  }

  lemma SamePrefix(p: string, q: string, x: string, y: string)
    requires p + x == q + y && |p| == |q|
    ensures p == q && x == y
  {
    assert p == (p + x)[..|p|] && q == (q + y)[..|q|];
    assert x == (p + x)[|p|..] && y == (q + y)[|q|..];
  }

  lemma OneIsPrefix(p: string, q: string, x: string, y: string)
    requires p + x == q + y
    ensures p <= q || q <= p
  {
    if |p| <= |q| {
      assert forall i :: 0 <= i < |p| ==> p[i] == (p + x)[i] == q[i];
    } else {
      assert forall i :: 0 <= i < |q| ==> q[i] == (q + y)[i] == p[i];
    }
  }

  lemma {:induction false} DecodeEscaped(esc: Escape, a: string, b: string, s: string, t: string)
    requires Decodable(esc)
    requires EscapeAll(esc, a) + ("\"" + s) == EscapeAll(esc, b) + ("\"" + t)
    ensures a == b && s == t
    decreases |a| + |b|
  {
    var x, y := EscapeAll(esc, a) + ("\"" + s), EscapeAll(esc, b) + ("\"" + t);
    assert x[0] == if a == [] then '\"' else esc(a[0])[0];
    assert y[0] == if b == [] then '\"' else esc(b[0])[0];
    if a == [] {
      assert b == [];
      assert x == "\"" + s && y == "\"" + t;
      SamePrefix("\"", "\"", s, t);
    } else {
      assert b != [];
      var p, q := EscapeAll(esc, a[1..]) + ("\"" + s), EscapeAll(esc, b[1..]) + ("\"" + t);
      assert x == esc(a[0]) + p && y == esc(b[0]) + q;
      OneIsPrefix(esc(a[0]), esc(b[0]), p, q);
      SamePrefix(esc(a[0]), esc(b[0]), p, q);
      DecodeEscaped(esc, a[1..], b[1..], s, t);
      assert a == [a[0]] + a[1..] && b == [b[0]] + b[1..];
    }
  }

  lemma DecodeQuoted(esc: Escape, a: string, b: string, s: string, t: string)
    requires Decodable(esc) && Quote(esc, a) + s == Quote(esc, b) + t
    ensures a == b && s == t
  {
    var p, q := EscapeAll(esc, a) + ("\"" + s), EscapeAll(esc, b) + ("\"" + t);
    assert Quote(esc, a) + s == "\"" + p && Quote(esc, b) + t == "\"" + q;
    SamePrefix("\"", "\"", p, q);
    DecodeEscaped(esc, a, b, s, t);
  }

  lemma {:induction false} DecodeDigits(a: string, b: string, s: string, t: string)
    requires Decimal.AllDigits(a) && Decimal.AllDigits(b) && Stop(s) && Stop(t)
    requires a + s == b + t
    ensures a == b && s == t
  {
    assert a != [] ==> a[0] in a && (a + s)[0] == a[0];
    assert b != [] ==> b[0] in b && (b + t)[0] == b[0];
    if a != [] && b != [] {
      assert (a + s)[1..] == a[1..] + s && (b + t)[1..] == b[1..] + t;
      DecodeDigits(a[1..], b[1..], s, t);
      assert a == [a[0]] + a[1..] && b == [b[0]] + b[1..];
    } else {
      assert [] + s == s && [] + t == t;
    }
  }

  lemma DecodeNat(m: nat, n: nat, s: string, t: string)
    requires Stop(s) && Stop(t) && Decimal.Text(m) + s == Decimal.Text(n) + t
    ensures m == n && s == t
  {
    DecodeDigits(Decimal.Text(m), Decimal.Text(n), s, t);
    Decimal.TextInjective(m, n);
  }

  lemma IntTextSign(n: int)
    ensures IntText(n)[0] == '-' <==> n < 0
  {
    assert n >= 0 ==> IntText(n)[0] in Decimal.Text(n);
  }

  lemma DecodeInt(m: int, n: int, s: string, t: string)
    requires Stop(s) && Stop(t) && IntText(m) + s == IntText(n) + t
    ensures m == n && s == t
  {
    hide Decimal.Text, Stop;
    assert (IntText(m) + s)[0] == IntText(m)[0] && (IntText(n) + t)[0] == IntText(n)[0];
    IntTextSign(m);
    IntTextSign(n);
    if m < 0 {
      var a, b := Decimal.Text(-m), Decimal.Text(-n);
      assert IntText(m) + s == "-" + (a + s) && IntText(n) + t == "-" + (b + t);
      SamePrefix("-", "-", a + s, b + t);
      DecodeNat(-m, -n, s, t);
    } else {
      DecodeNat(m, n, s, t);
    }
  }

  /** Text decides the value: two texts that agree up to where a value may end are texts of
      one value. */
  lemma {:induction false} Decode(esc: Escape, v: Json, w: Json, s: string, t: string)
    requires Decodable(esc) && Stop(s) && Stop(t)
    requires Print(esc, v) + s == Print(esc, w) + t
    ensures v == w && s == t
    decreases v, 1
  {
    hide Decodable, Quote, IntText;
    FirstChar(esc, v);
    FirstChar(esc, w);
    assert Print(esc, v)[0] == (Print(esc, v) + s)[0] == Print(esc, w)[0];
    match v
    case Null => SamePrefix("null", "null", s, t);
    case Bool(b) => SamePrefix(Print(esc, v), Print(esc, w), s, t);
    case Num(m) => DecodeInt(m, w.n, s, t);
    case Str(a) => DecodeQuoted(esc, a, w.s, s, t);
    case Arr(items) =>
      var p, q := PrintItems(esc, items, true), PrintItems(esc, w.items, true);
      assert Print(esc, v) + s == "[" + (p + s) && Print(esc, w) + t == "[" + (q + t);
      SamePrefix("[", "[", p + s, q + t);
      DecodeItems(esc, items, w.items, true, s, t);
    case Obj(members) =>
      var p, q := PrintMembers(esc, members, true), PrintMembers(esc, w.members, true);
      assert Print(esc, v) + s == "{" + (p + s) && Print(esc, w) + t == "{" + (q + t);
      SamePrefix("{", "{", p + s, q + t);
      DecodeMembers(esc, members, w.members, true, s, t);
  }

  lemma ItemsFirstChar(esc: Escape, items: seq<Json>, first: bool)
    ensures PrintItems(esc, items, first)[0] == ']' <==> items == []
    ensures Stop(PrintItems(esc, items, false))
  {
    if items != [] {
      FirstChar(esc, items[0]);
    }
  }

  lemma {:induction false} DecodeItems(
    esc: Escape, a: seq<Json>, b: seq<Json>, first: bool, s: string, t: string)
    requires Decodable(esc) && PrintItems(esc, a, first) + s == PrintItems(esc, b, first) + t
    ensures a == b && s == t
    decreases a, 0
  {
    hide Decodable, Print;
    var x, y := PrintItems(esc, a, first) + s, PrintItems(esc, b, first) + t;
    ItemsFirstChar(esc, a, first);
    ItemsFirstChar(esc, b, first);
    assert x[0] == PrintItems(esc, a, first)[0] && y[0] == PrintItems(esc, b, first)[0];
    if a == [] {
      SamePrefix("]", "]", s, t);
    } else {
      var comma := if first then "" else ",";
      var p, q := PrintItems(esc, a[1..], false) + s, PrintItems(esc, b[1..], false) + t;
      assert x == comma + (Print(esc, a[0]) + p) && y == comma + (Print(esc, b[0]) + q);
      SamePrefix(comma, comma, Print(esc, a[0]) + p, Print(esc, b[0]) + q);
      ItemsFirstChar(esc, a[1..], false);
      ItemsFirstChar(esc, b[1..], false);
      Decode(esc, a[0], b[0], p, q);
      DecodeItems(esc, a[1..], b[1..], false, s, t);
      assert a == [a[0]] + a[1..] && b == [b[0]] + b[1..];
    }
  }

  lemma MembersFirstChar(esc: Escape, members: seq<Member>, first: bool)
    ensures PrintMembers(esc, members, first)[0] == '}' <==> members == []
    ensures Stop(PrintMembers(esc, members, false))
  {
    if members != [] {
      assert Quote(esc, members[0].key)[0] == '\"';
    }
  }

  lemma {:induction false} DecodeMembers(
    esc: Escape, a: seq<Member>, b: seq<Member>, first: bool, s: string, t: string)
    requires Decodable(esc) && PrintMembers(esc, a, first) + s == PrintMembers(esc, b, first) + t
    ensures a == b && s == t
    decreases a, 0
  {
    hide Decodable, Print, Quote;
    var x, y := PrintMembers(esc, a, first) + s, PrintMembers(esc, b, first) + t;
    MembersFirstChar(esc, a, first);
    MembersFirstChar(esc, b, first);
    assert x[0] == PrintMembers(esc, a, first)[0] && y[0] == PrintMembers(esc, b, first)[0];
    if a == [] {
      SamePrefix("}", "}", s, t);
    } else {
      var comma := if first then "" else ",";
      var p, q := PrintMembers(esc, a[1..], false) + s, PrintMembers(esc, b[1..], false) + t;
      var p1, q1 := Print(esc, a[0].value) + p, Print(esc, b[0].value) + q;
      var p2, q2 := Quote(esc, a[0].key) + (":" + p1), Quote(esc, b[0].key) + (":" + q1);
      assert x == comma + p2 && y == comma + q2;
      SamePrefix(comma, comma, p2, q2);
      DecodeQuoted(esc, a[0].key, b[0].key, ":" + p1, ":" + q1);
      SamePrefix(":", ":", p1, q1);
      MembersFirstChar(esc, a[1..], false);
      MembersFirstChar(esc, b[1..], false);
      Decode(esc, a[0].value, b[0].value, p, q);
      DecodeMembers(esc, a[1..], b[1..], false, s, t);
      assert a == [a[0]] + a[1..] && b == [b[0]] + b[1..];
    }
  }

  /** Different values have different texts. */
  lemma TextDecidesValue(esc: Escape, v: Json, w: Json)
    requires Decodable(esc) && Print(esc, v) == Print(esc, w)
    ensures v == w
  {
    assert Print(esc, v) + "" == Print(esc, w) + "";
    Decode(esc, v, w, "", "");
  }
}
