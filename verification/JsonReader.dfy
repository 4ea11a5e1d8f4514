/** A reader of JSON text without white space, after the grammar of RFC 8259, and what it reads
    in the texts that plans are signed over. It knows nothing of how they are printed. */
module JsonReader {
  import opened Wrappers
  import opened JsonText
  import opened CanonicalJson
  import opened SignedText
  import Decimal
  import KeyTexts
  import LexOrder

  // ---- Strings (section 7) ----

  /** A code unit in four hexadecimal digits of either case. */
  function ReadUnit(s: string): (r: Option<nat>)
    ensures r.Some? ==> |s| >= 4 && r.value < 0x10000
  {
    if |s| < 4 then None else
      var a, b, c, d := KeyTexts.HexValue(s[0]), KeyTexts.HexValue(s[1]), KeyTexts.HexValue(s[2]), KeyTexts.HexValue(s[3]);
      if a.None? || b.None? || c.None? || d.None? then None
      else Some(0x1000 * a.value + 0x100 * b.value + 0x10 * c.value + d.value)
  }

  /** What follows `\u`: one code unit, or a high and a low surrogate. */
  function ReadUnits(s: string): (r: Option<(char, string)>)
    ensures r.Some? ==> |r.value.1| < |s|
  {
    match ReadUnit(s)
    case None => None
    case Some(u) =>
      if u < 0xD800 || u >= 0xE000 then Some((u as char, s[4..]))
      else if u >= 0xDC00 || |s| < 6 || s[4] != '\\' || s[5] != 'u' then None
      else
        match ReadUnit(s[6..])
        case None => None
        case Some(low) =>
          if 0xDC00 <= low < 0xE000
          then Some(((0x10000 + (u - 0xD800) * 0x400 + (low - 0xDC00)) as char, s[10..]))
          else None
  }

  /** The character that a backslash and c stand for. */
  function Escaped(c: char): Option<char> {
    match c
    case '\"' => Some('\"')
    case '\\' => Some('\\')
    case '/' => Some('/')
    case 'b' => Some(8 as char)
    case 'f' => Some(12 as char)
    case 'n' => Some(10 as char)
    case 'r' => Some(13 as char)
    case 't' => Some(9 as char)
    case _ => None
  }

  /** One character of a string; a control character must be escaped. */
  function ReadChar(s: string): (r: Option<(char, string)>)
    ensures r.Some? ==> |r.value.1| < |s|
  {
    if s == [] || s[0] == '\"' || s[0] < ' ' then None
    else if s[0] != '\\' then Some((s[0], s[1..]))
    else if |s| < 2 then None
    else if s[1] == 'u' then ReadUnits(s[2..])
    else
      match Escaped(s[1])
      case None => None
      case Some(c) => Some((c, s[2..]))
  }

  /** The rest of a string whose opening quote has been read. */
  function ReadString(s: string): (r: Option<(string, string)>)
    ensures r.Some? ==> |r.value.1| < |s|
  {
    if s == [] then None
    else if s[0] == '\"' then Some(([], s[1..]))
    else
      match ReadChar(s)
      case None => None
      case Some((c, rest)) =>
        match ReadString(rest)
        case None => None
        case Some((cs, end)) => Some(([c] + cs, end))
  }

  // ---- Numbers (section 6), integers only ----

  function Digits(s: string): (n: nat)
    ensures n <= |s| && Decimal.AllDigits(s[..n])
    ensures n == |s| || !Decimal.IsDigit(s[n])
  {
    if s == [] || !Decimal.IsDigit(s[0]) then 0 else
      var n := Digits(s[1..]);
      assert s[..1 + n] == [s[0]] + s[1..][..n];
      1 + n
  }

  /** One digit, or several that begin with no zero. */
  function ReadNat(s: string): (r: Option<(nat, string)>)
    ensures r.Some? ==> |r.value.1| < |s|
  {
    var n := Digits(s);
    if n == 0 || (n > 1 && s[0] == '0') then None else Some((Decimal.Value(s[..n]), s[n..]))
  }

  function ReadNumber(s: string): (r: Option<(Json, string)>)
    ensures r.Some? ==> |r.value.1| < |s|
  {
    var minus := s != [] && s[0] == '-';
    match ReadNat(if minus then s[1..] else s)
    case None => None
    case Some((n, rest)) => if n > MAX_SAFE_INTEGER then None else Some((Num(if minus then 0 - n else n), rest))
  }

  // ---- Values, arrays and objects (sections 3, 4 and 5) ----

  function ReadValue(s: string): (r: Option<(Json, string)>)
    ensures r.Some? ==> |r.value.1| < |s|
    decreases |s|, 1
  {
    if "null" <= s then Some((Null, s[4..]))
    else if "true" <= s then Some((Bool(true), s[4..]))
    else if "false" <= s then Some((Bool(false), s[5..]))
    else if s == [] then None
    else if s[0] == '\"' then
      match ReadString(s[1..])
      case None => None
      case Some((text, rest)) => Some((Str(text), rest))
    else if s[0] == '[' then
      if |s| > 1 && s[1] == ']' then Some((Arr([]), s[2..])) else
        match ReadItems(s[1..])
        case None => None
        case Some((items, rest)) => Some((Arr(items), rest))
    else if s[0] == '{' then
      if |s| > 1 && s[1] == '}' then Some((Obj([]), s[2..])) else
        match ReadMembers(s[1..])
        case None => None
        case Some((members, rest)) => Some((Obj(members), rest))
    else ReadNumber(s)
  }

  /** Values with commas between them, up to the closing bracket. */
  function ReadItems(s: string): (r: Option<(seq<Json>, string)>)
    ensures r.Some? ==> |r.value.1| < |s|
    decreases |s|, 2
  {
    match ReadValue(s)
    case None => None
    case Some((v, rest)) =>
      if rest == [] then None
      else if rest[0] == ']' then Some(([v], rest[1..]))
      else if rest[0] != ',' then None
      else
        match ReadItems(rest[1..])
        case None => None
        case Some((vs, end)) => Some(([v] + vs, end))
  }

  /** A quoted key, a colon and a value. */
  function ReadMember(s: string): (r: Option<(Member, string)>)
    ensures r.Some? ==> |r.value.1| < |s|
    decreases |s|, 2
  {
    if s == [] || s[0] != '\"' then None else
      match ReadString(s[1..])
      case None => None
      case Some((key, rest)) =>
        if rest == [] || rest[0] != ':' then None else
          match ReadValue(rest[1..])
          case None => None
          case Some((v, end)) => Some((Member(key, v), end))
  }

  /** Members with commas between them, up to the closing brace. */
  function ReadMembers(s: string): (r: Option<(seq<Member>, string)>)
    ensures r.Some? ==> |r.value.1| < |s|
    decreases |s|, 3
  {
    match ReadMember(s)
    case None => None
    case Some((m, rest)) =>
      if rest == [] then None
      else if rest[0] == '}' then Some(([m], rest[1..]))
      else if rest[0] != ',' then None
      else
        match ReadMembers(rest[1..])
        case None => None
        case Some((ms, end)) => Some(([m] + ms, end))
  }

  /** The value of a whole text. */
  function Parse(s: string): Option<Json> {
    match ReadValue(s)
    case None => None
    case Some((v, rest)) => if rest == [] then Some(v) else None
  }

  // ---- Escapes are read back ----

  /** Every escaped character reads back as itself, whatever follows. */
  ghost predicate Readable(esc: Escape) {
    && (forall c :: esc(c) != [] && esc(c)[0] != '\"')
    && (forall c, s :: ReadChar(esc(c) + s) == Some((c, s)))
  }

  lemma UnitReadsBack(u: nat, s: string)
    requires u < 0x10000
    ensures ReadUnit(Hex(u, 4) + s) == Some(u)
  {
    HexFour(u);
    FourDigits(u / 16 / 16 / 16, u / 16 / 16 % 16, u / 16 % 16, u % 16, s);
    SumOfDigits(u, u / 16, u / 16 / 16, u / 16 / 16 / 16);
  }

  lemma SumOfDigits(u: nat, v: nat, w: nat, x: nat)
    requires v == u / 16 && w == v / 16 && x == w / 16
    ensures 0x1000 * x + 0x100 * (w % 16) + 0x10 * (v % 16) + u % 16 == u
  {
  }

  lemma FourDigits(a: nat, b: nat, c: nat, d: nat, s: string)
    requires a < 16 && b < 16 && c < 16 && d < 16
    ensures ReadUnit([HexDigit(a), HexDigit(b), HexDigit(c), HexDigit(d)] + s) == Some(0x1000 * a + 0x100 * b + 0x10 * c + d)
  {
    hide HexDigit, KeyTexts.HexValue, KeyTexts.IsSpace;
    KeyTexts.HexDigitValue(a);
    KeyTexts.HexDigitValue(b);
    KeyTexts.HexDigitValue(c);
    KeyTexts.HexDigitValue(d);
  }

  lemma HexFour(u: nat)
    requires u < 0x10000
    ensures u / 16 / 16 / 16 < 16
    ensures Hex(u, 4) == [HexDigit(u / 16 / 16 / 16), HexDigit(u / 16 / 16 % 16), HexDigit(u / 16 % 16), HexDigit(u % 16)]
  {
    hide HexDigit;
    assert Hex(u / 16 / 16 / 16, 1) == [HexDigit(u / 16 / 16 / 16)];
    assert Hex(u / 16 / 16, 2) == [HexDigit(u / 16 / 16 / 16), HexDigit(u / 16 / 16 % 16)];
  }

  lemma UnitEscapeReads(c: char, s: string)
    requires c as int < 0x10000
    ensures ReadChar(UnitEscape(c as int) + s) == Some((c, s))
  {
    hide Hex, ReadUnit;
    var text, hex := UnitEscape(c as int) + s, Hex(c as int, 4) + s;
    assert text[0] == '\\' && text[1] == 'u' && text[2..] == hex && hex[4..] == s;
    UnitReadsBack(c as int, s);
  }

  lemma PairReads(c: char, s: string)
    requires c as int >= 0x10000
    ensures ReadChar(UnitEscape(Units(c)[0]) + UnitEscape(Units(c)[1]) + s) == Some((c, s))
  {
    hide Hex, ReadUnit;
    var high, low := Units(c)[0], Units(c)[1];
    var text := UnitEscape(high) + UnitEscape(low) + s;
    var rest := UnitEscape(low) + s;
    var second := Hex(low, 4) + s;
    assert text[0] == '\\' && text[1] == 'u' && text[2..] == Hex(high, 4) + rest;
    assert text[2..][4] == rest[0] == '\\' && text[2..][5] == rest[1] == 'u';
    assert text[2..][6..] == second && text[2..][10..] == s;
    UnitReadsBack(high, rest);
    UnitReadsBack(low, s);
  }

  lemma ShortReads(c: char, s: string)
    requires ShortEscape(c) != ""
    ensures ReadChar(ShortEscape(c) + s) == Some((c, s))
  {
    var text := ShortEscape(c) + s;
    assert text[0] == '\\' && text[1] == ShortEscape(c)[1] && text[2..] == s;
  }

  lemma PlainReads(c: char, s: string)
    requires c >= ' ' && c != '\"' && c != '\\'
    ensures ReadChar([c] + s) == Some((c, s))
  {
    assert ([c] + s)[1..] == s;
  }

  lemma JsReadable()
    ensures Readable(JsEscape)
  {
    forall c, s ensures ReadChar(JsEscape(c) + s) == Some((c, s)) {
      JsReads(c, s);
    }
  }

  lemma JsReads(c: char, s: string)
    ensures ReadChar(JsEscape(c) + s) == Some((c, s))
  {
    hide ReadChar, UnitEscape;
    if ShortEscape(c) != "" {
      ShortReads(c, s);
    } else if c < ' ' {
      UnitEscapeReads(c, s);
    } else {
      PlainReads(c, s);
    }
  }

  lemma PyReadable()
    ensures Readable(PyEscape)
  {
    forall c, s ensures ReadChar(PyEscape(c) + s) == Some((c, s)) {
      PyReads(c, s);
    }
  }

  lemma PyReads(c: char, s: string)
    ensures ReadChar(PyEscape(c) + s) == Some((c, s))
  {
    hide ReadChar, UnitEscape;
    if ShortEscape(c) != "" {
      ShortReads(c, s);
    } else if ' ' <= c <= '~' {
      PlainReads(c, s);
    } else if |Units(c)| == 1 {
      UnitEscapeReads(c, s);
    } else {
      PairReads(c, s);
    }
  }

  // ---- Printed values are read back ----

  lemma {:induction false} StringReads(esc: Escape, a: string, t: string)
    requires Readable(esc)
    ensures ReadString(EscapeAll(esc, a) + ("\"" + t)) == Some((a, t))
  {
    hide ReadChar;
    var text := EscapeAll(esc, a) + ("\"" + t);
    if a == [] {
      assert text == "\"" + t && text[1..] == t;
    } else {
      var rest := EscapeAll(esc, a[1..]) + ("\"" + t);
      assert text == esc(a[0]) + rest && text[0] == esc(a[0])[0];
      assert ReadChar(text) == Some((a[0], rest));
      hide Readable, EscapeAll;
      StringReads(esc, a[1..], t);
      assert a == [a[0]] + a[1..];
    }
  }

  lemma QuoteReads(esc: Escape, a: string, t: string)
    requires Readable(esc)
    ensures var text := Quote(esc, a) + t; text[0] == '\"' && ReadString(text[1..]) == Some((a, t))
  {
    assert (Quote(esc, a) + t)[1..] == EscapeAll(esc, a) + ("\"" + t);
    StringReads(esc, a, t);
  }

  lemma {:induction false} DigitsOf(a: string, t: string)
    requires Decimal.AllDigits(a) && Stop(t)
    ensures Digits(a + t) == |a|
  {
    if a == [] {
      assert a + t == t;
    } else {
      assert a[0] in a && (a + t)[1..] == a[1..] + t;
      DigitsOf(a[1..], t);
    }
  }

  lemma {:induction false} NoLeadingZero(n: nat)
    ensures |Decimal.Text(n)| > 1 ==> Decimal.Text(n)[0] != '0'
  {
    if n >= 10 {
      NoLeadingZero(n / 10);
    }
  }

  lemma NatReads(n: nat, t: string)
    requires Stop(t)
    ensures ReadNat(Decimal.Text(n) + t) == Some((n, t))
  {
    var a := Decimal.Text(n);
    DigitsOf(a, t);
    NoLeadingZero(n);
    Decimal.ValueText(n);
    assert (a + t)[..|a|] == a && (a + t)[|a|..] == t;
  }

  lemma NumberReads(n: SafeInteger, t: string)
    requires Stop(t)
    ensures ReadNumber(IntText(n) + t) == Some((Num(n), t))
  {
    hide ReadNat, Stop;
    IntTextSign(n);
    if n < 0 {
      assert (IntText(n) + t)[1..] == Decimal.Text(-n) + t;
      NatReads(-n, t);
    } else {
      NatReads(n, t);
    }
  }

  /** A printed value reads back as itself, up to where it ends. */
  lemma {:induction false} ValueReads(esc: Escape, v: Json, t: string)
    requires Readable(esc) && Stop(t)
    ensures ReadValue(Print(esc, v) + t) == Some((v, t))
    decreases v, 1
  {
    hide Readable, Quote, IntText, ReadItems, ReadMembers, ReadString, ReadNumber;
    var s := Print(esc, v) + t;
    FirstChar(esc, v);
    assert s[0] == Print(esc, v)[0];
    match v
    case Null => assert s[4..] == t;
    case Bool(b) => assert s[|Print(esc, v)|..] == t;
    case Num(n) => NumberReads(n, t);
    case Str(a) => QuoteReads(esc, a, t);
    case Arr(items) =>
      var rest := PrintItems(esc, items, true) + t;
      assert s == "[" + rest && s[1..] == rest;
      if items == [] {
        assert rest == "]" + t && s[2..] == t;
      } else {
        ItemsRead(esc, items, t);
        assert rest[0] == Print(esc, items[0])[0];
        FirstChar(esc, items[0]);
      }
    case Obj(members) =>
      var rest := PrintMembers(esc, members, true) + t;
      assert s == "{" + rest && s[1..] == rest;
      if members == [] {
        assert rest == "}" + t && s[2..] == t;
      } else {
        MembersRead(esc, members, t);
        MembersFirstChar(esc, members, true);
        assert rest[0] == PrintMembers(esc, members, true)[0];
      }
  }

  lemma {:induction false} ItemsRead(esc: Escape, items: seq<Json>, t: string)
    requires Readable(esc) && items != []
    ensures ReadItems(PrintItems(esc, items, true) + t) == Some((items, t))
    decreases items, 0
  {
    hide Readable, Print, ReadValue;
    var more := PrintItems(esc, items[1..], false);
    assert PrintItems(esc, items, true) + t == Print(esc, items[0]) + (more + t);
    ItemsFirstChar(esc, items[1..], false);
    assert (more + t)[0] == more[0];
    ValueReads(esc, items[0], more + t);
    if items[1..] == [] {
      assert more + t == "]" + t && (more + t)[1..] == t;
      assert items == [items[0]];
    } else {
      assert more == "," + PrintItems(esc, items[1..], true);
      assert (more + t)[1..] == PrintItems(esc, items[1..], true) + t;
      ItemsRead(esc, items[1..], t);
      assert items == [items[0]] + items[1..];
    }
  }

  lemma {:induction false} MembersRead(esc: Escape, members: seq<Member>, t: string)
    requires Readable(esc) && members != []
    ensures ReadMembers(PrintMembers(esc, members, true) + t) == Some((members, t))
    decreases members, 0
  {
    hide Readable, Print, ReadValue, Quote, ReadString;
    var m, more := members[0], PrintMembers(esc, members[1..], false);
    var text := Print(esc, m.value) + (more + t);
    assert PrintMembers(esc, members, true) + t == Quote(esc, m.key) + (":" + text);
    MembersFirstChar(esc, members[1..], false);
    assert (more + t)[0] == more[0];
    ValueReads(esc, m.value, more + t);
    QuoteReads(esc, m.key, ":" + text);
    assert (":" + text)[1..] == text;
    if members[1..] == [] {
      assert more + t == "}" + t && (more + t)[1..] == t;
      assert members == [m];
    } else {
      assert more == "," + PrintMembers(esc, members[1..], true);
      assert (more + t)[1..] == PrintMembers(esc, members[1..], true) + t;
      MembersRead(esc, members[1..], t);
      assert members == [m] + members[1..];
    }
  }

  /** Every value printed with readable escapes is the value of its text. */
  lemma PrintParses(esc: Escape, v: Json)
    requires Readable(esc)
    ensures Parse(Print(esc, v)) == Some(v)
  {
    ValueReads(esc, v, "");
    assert Print(esc, v) + "" == Print(esc, v);
  }

  /** The text the browser signs is JSON text of the sorted visible value ... */
  lemma JsTextParses(v: Json)
    ensures Parse(Print(JsEscape, v)) == Some(v)
    ensures Parse(JsText(v)) == Some(JsForm(v))
  {
    JsReadable();
    PrintParses(JsEscape, v);
    PrintParses(JsEscape, JsForm(v));
  }

  /** ... and the text the flight software verifies is JSON text of the sorted value. */
  lemma PyTextParses(v: Json)
    ensures Parse(Print(PyEscape, v)) == Some(v)
    ensures Parse(Dump(v)) == Some(Canon(LexOrder.Less, v))
  {
    PyReadable();
    PrintParses(PyEscape, v);
    DumpIsSortedPrint(v);
    PrintParses(PyEscape, Canon(LexOrder.Less, v));
  }

  // ---- Which escape is used ----

  const SHORT_ESCAPED: set<char> := {'\"', '\\', 8 as char, 9 as char, 10 as char, 12 as char, 13 as char}

  /** A backslash and `u` before four lower-case hexadecimal digits, `units` times. */
  predicate UnitText(s: string, units: nat) {
    && |s| == 6 * units
    && forall i :: 0 <= i < |s| ==>
         if i % 6 == 0 then s[i] == '\\' else if i % 6 == 1 then s[i] == 'u' else KeyTexts.LowerHex(s[i])
  }

  lemma {:induction false} HexLower(n: nat, width: nat)
    ensures forall c :: c in Hex(n, width) ==> KeyTexts.LowerHex(c)
  {
    if width > 0 {
      HexLower(n / 16, width - 1);
    }
  }

  lemma UnitEscapeText(u: nat)
    requires u < 0x10000
    ensures UnitText(UnitEscape(u), 1)
  {
    hide Hex;
    HexLower(u, 4);
    assert forall i :: 2 <= i < 6 ==> UnitEscape(u)[i] == Hex(u, 4)[i - 2];
  }

  /** JavaScript escapes only what must be, and in the short form where there is one. */
  lemma JsEscapeForm(c: char)
    ensures if c in SHORT_ESCAPED then |JsEscape(c)| == 2
            else if c < ' ' then UnitText(JsEscape(c), 1)
            else JsEscape(c) == [c]
  {
    if c < ' ' {
      UnitEscapeText(c as int);
    }
  }

  /** Python also escapes everything beyond the printable ASCII characters, in one code unit or
      two. */
  lemma PyEscapeForm(c: char)
    ensures if c in SHORT_ESCAPED then |PyEscape(c)| == 2
            else if ' ' <= c <= '~' then PyEscape(c) == [c]
            else UnitText(PyEscape(c), if c as int < 0x10000 then 1 else 2)
  {
    hide UnitEscape;
    if ShortEscape(c) == "" && !(' ' <= c <= '~') {
      var u := Units(c);
      UnitEscapeText(u[0]);
      if |u| == 2 {
        UnitEscapeText(u[1]);
        TwoUnits(UnitEscape(u[0]), UnitEscape(u[1]));
      }
    }
  }

  lemma TwoUnits(a: string, b: string)
    requires UnitText(a, 1) && UnitText(b, 1)
    ensures UnitText(a + b, 2)
  {
    var s := a + b;
    forall i | 0 <= i < |s|
      ensures if i % 6 == 0 then s[i] == '\\' else if i % 6 == 1 then s[i] == 'u' else KeyTexts.LowerHex(s[i])
    {
      assert s[i] == if i < 6 then a[i] else b[i - 6];
    }
  }
}
