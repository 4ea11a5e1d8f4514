/** The two texts of keys and signatures: hexadecimal, which the flight software reads, and
    Base64 (section 4 of RFC 4648), which the browser writes. */
module KeyTexts {
  import opened Wrappers
  import opened JsonText

  newtype Byte = x: int | 0 <= x < 256
  type Bytes = seq<Byte>

  function HexValue(c: char): Option<nat> {
    if '0' <= c <= '9' then Some(c as int - '0' as int)
    else if 'a' <= c <= 'f' then Some(c as int - 'a' as int + 10)
    else if 'A' <= c <= 'F' then Some(c as int - 'A' as int + 10)
    else None
  }

  predicate IsSpace(c: char) {
    c == ' ' || '\t' <= c <= '\r'
  }

  /** Python's `bytes.fromhex`: two digits of either case a byte, white space between bytes. */
  function FromHex(s: string): Option<Bytes> {
    if s == [] then Some([])
    else if IsSpace(s[0]) then FromHex(s[1..])
    else if |s| < 2 || HexValue(s[0]).None? || HexValue(s[1]).None? then None
    else
      match FromHex(s[2..])
      case None => None
      case Some(rest) => Some([(16 * HexValue(s[0]).value + HexValue(s[1]).value) as Byte] + rest)
  }

  /** Python's `bytes.hex`: lower case. */
  function ToHex(b: Bytes): string {
    if b == [] then "" else [HexDigit(b[0] as nat / 16), HexDigit(b[0] as nat % 16)] + ToHex(b[1..])
  }

  lemma TwoDigits(n: nat, s: string)
    requires n < 256
    ensures var rest := FromHex(s);
      FromHex([HexDigit(n / 16), HexDigit(n % 16)] + s) == if rest.Some? then Some([n as Byte] + rest.value) else None
  {
    hide HexValue, HexDigit, IsSpace;
    HexDigitValue(n / 16);
    HexDigitValue(n % 16);
    var text := [HexDigit(n / 16), HexDigit(n % 16)] + s;
    assert text[0] == HexDigit(n / 16) && text[1] == HexDigit(n % 16) && text[2..] == s;
    assert 16 * (n / 16) + n % 16 == n;
  }

  lemma {:induction false} FromHexToHex(b: Bytes)
    ensures FromHex(ToHex(b)) == Some(b)
  {
    if b != [] {
      FromHexToHex(b[1..]);
      TwoDigits(b[0] as nat, ToHex(b[1..]));
      assert b == [b[0]] + b[1..];
    }
  }

  lemma HexDigitValue(d: nat)
    requires d < 16
    ensures HexValue(HexDigit(d)) == Some(d) && !IsSpace(HexDigit(d))
  {
  }

  const HEX_ALPHABET: string := "0123456789abcdef"
  const UPPER_HEX_ALPHABET: string := "0123456789ABCDEF"

  /** The digit characters, of either case, and no others. */
  lemma HexAlphabet(c: char, v: nat)
    ensures |HEX_ALPHABET| == |UPPER_HEX_ALPHABET| == 16
    ensures v < 16 ==> HexDigit(v) == HEX_ALPHABET[v]
    ensures HexValue(c) == Some(v) <==> v < 16 && (c == HEX_ALPHABET[v] || c == UPPER_HEX_ALPHABET[v])
  {
    if v < 10 {
      DecimalPlaces(v);
    } else if v < 16 {
      LetterPlaces(v);
    }
  }

  lemma DecimalPlaces(v: nat)
    requires v < 10
    ensures HEX_ALPHABET[v] == UPPER_HEX_ALPHABET[v] == '0' + v as char
  {
    assert HEX_ALPHABET[..10] == UPPER_HEX_ALPHABET[..10] == "0123456789";
  }

  lemma LetterPlaces(v: nat)
    requires 10 <= v < 16
    ensures HEX_ALPHABET[v] == 'a' + (v - 10) as char && UPPER_HEX_ALPHABET[v] == 'A' + (v - 10) as char
  {
    assert HEX_ALPHABET[10] == 'a' && HEX_ALPHABET[11] == 'b' && HEX_ALPHABET[12] == 'c';
    assert HEX_ALPHABET[13] == 'd' && HEX_ALPHABET[14] == 'e' && HEX_ALPHABET[15] == 'f';
    assert UPPER_HEX_ALPHABET[10] == 'A' && UPPER_HEX_ALPHABET[11] == 'B' && UPPER_HEX_ALPHABET[12] == 'C';
    assert UPPER_HEX_ALPHABET[13] == 'D' && UPPER_HEX_ALPHABET[14] == 'E' && UPPER_HEX_ALPHABET[15] == 'F';
  }

  /** A readable text in front reads on its own and stays in front. */
  lemma {:induction false} FromHexConcat(s: string, t: string)
    requires FromHex(s).Some?
    ensures FromHex(s + t) == if FromHex(t).Some? then Some(FromHex(s).value + FromHex(t).value) else None
  {
    if s == [] {
      assert s + t == t;
      assert FromHex(t).Some? ==> [] + FromHex(t).value == FromHex(t).value;
    } else if IsSpace(s[0]) {
      hide HexValue, IsSpace;
      assert (s + t)[0] == s[0] && (s + t)[1..] == s[1..] + t;
      FromHexConcat(s[1..], t);
    } else {
      hide HexValue, IsSpace;
      var rest := FromHex(s[2..]).value;
      var first := FromHex(s).value[..1];
      assert FromHex(s).value == first + rest;
      assert (s + t)[0] == s[0] && (s + t)[1] == s[1] && (s + t)[2..] == s[2..] + t;
      FromHexConcat(s[2..], t);
      if FromHex(t).Some? {
        assert FromHex(s + t) == Some(first + (rest + FromHex(t).value));
        assert first + (rest + FromHex(t).value) == first + rest + FromHex(t).value;
      }
    }
  }

  const SPACES: set<char> := {' ', 9 as char, 10 as char, 11 as char, 12 as char, 13 as char}

  /** One white-space character is no byte, a pair of digits of either case is one, and a single
      other character does not read; with FromHexConcat this says how every text reads. */
  lemma FromHexPieces(c: char, d: char)
    ensures FromHex([c]) == if c in SPACES then Some([]) else None
    ensures c !in SPACES && (HexValue(c).None? || HexValue(d).None?) ==> FromHex([c, d]) == None
    ensures c !in SPACES && HexValue(c).Some? && HexValue(d).Some? ==>
      FromHex([c, d]) == Some([(16 * HexValue(c).value + HexValue(d).value) as Byte])
  {
    SpaceIs(c);
    assert HexValue(c).Some? ==> HexValue(c).value < 16;
    assert HexValue(d).Some? ==> HexValue(d).value < 16;
    hide IsSpace, HexValue, SPACES;
    var one, two := [c], [c, d];
    assert one[1..] == [] && two[2..] == [];
    assert FromHex([]) == Some([]);
    if !IsSpace(c) && HexValue(c).Some? && HexValue(d).Some? {
      var byte := (16 * HexValue(c).value + HexValue(d).value) as Byte;
      assert FromHex(two) == Some([byte] + []);
      assert [byte] + [] == [byte];
    }
  }

  lemma SpaceIs(c: char)
    ensures IsSpace(c) <==> c in SPACES
  {
    assert c as int in {9, 10, 11, 12, 13} <==> 9 <= c as int <= 13;
  }

  // ---- Which texts are hexadecimal ----

  predicate LowerHex(c: char) {
    '0' <= c <= '9' || 'a' <= c <= 'f'
  }

  /** A text is what `bytes.hex` writes for some bytes exactly if it is an even number of
      digits in lower case. */
  lemma {:induction false} WrittenByHexIff(s: string)
    ensures (exists b :: s == ToHex(b)) <==> |s| % 2 == 0 && forall c :: c in s ==> LowerHex(c)
  {
    if exists b :: s == ToHex(b) {
      var b :| s == ToHex(b);
      ToHexShape(b);
    }
    if |s| % 2 == 0 && forall c :: c in s ==> LowerHex(c) {
      ToHexFromHex(s);
    }
  }

  lemma {:induction false} ToHexShape(b: Bytes)
    ensures |ToHex(b)| == 2 * |b| && forall c :: c in ToHex(b) ==> LowerHex(c)
  {
    if b != [] {
      ToHexShape(b[1..]);
    }
  }

  lemma {:induction false} ToHexFromHex(s: string)
    requires |s| % 2 == 0 && forall c :: c in s ==> LowerHex(c)
    ensures FromHex(s).Some? && ToHex(FromHex(s).value) == s
  {
    if s != [] {
      assert s[0] in s && s[1] in s;
      LowerDigit(s[0]);
      LowerDigit(s[1]);
      ToHexFromHex(s[2..]);
      hide FromHex, HexDigit, HexValue;
      var x, y, rest := HexValue(s[0]).value, HexValue(s[1]).value, s[2..];
      PairDigits(x, y);
      TwoDigits(16 * x + y, rest);
      assert s == [s[0], s[1]] + rest;
      ToHexHead((16 * x + y) as Byte, FromHex(rest).value);
    }
  }

  lemma LowerDigit(c: char)
    requires LowerHex(c)
    ensures HexValue(c).Some? && HexValue(c).value < 16 && HexDigit(HexValue(c).value) == c
  {
  }

  lemma PairDigits(x: nat, y: nat)
    requires x < 16 && y < 16
    ensures (16 * x + y) / 16 == x && (16 * x + y) % 16 == y
  {
  }

  lemma ToHexHead(n: Byte, rest: Bytes)
    ensures ToHex([n] + rest) == [HexDigit(n as nat / 16), HexDigit(n as nat % 16)] + ToHex(rest)
  {
    assert ([n] + rest)[1..] == rest;
  }

  /** A text without white space reads as hexadecimal exactly if it is an even number of
      digits of either case. */
  lemma {:induction false} ReadsAsHexIff(s: string)
    requires forall c :: c in s ==> !IsSpace(c)
    ensures FromHex(s).Some? <==> |s| % 2 == 0 && forall c :: c in s ==> HexValue(c).Some?
  {
    if s != [] {
      assert s[0] in s;
      if |s| >= 2 {
        var rest := s[2..];
        assert s == [s[0], s[1]] + rest;
        assert forall c :: c in s <==> c == s[0] || c == s[1] || c in rest;
        ReadsAsHexIff(rest);
      }
    }
  }

  // ---- Base64 ----

  function Base64Digit(d: nat): char
    requires d < 64
  {
    if d < 26 then 'A' + d as char
    else if d < 52 then 'a' + (d - 26) as char
    else if d < 62 then '0' + (d - 52) as char
    else if d == 62 then '+'
    else '/'
  }

  /** The four six-bit groups of three bytes. */
  function First6(x: nat): (d: nat)
    requires x < 256
    ensures d < 64
  {
    x / 4
  }

  function Second6(x: nat, y: nat): (d: nat)
    requires x < 256 && y < 256
    ensures d < 64
  {
    x % 4 * 16 + y / 16
  }

  function Third6(y: nat, z: nat): (d: nat)
    requires y < 256 && z < 256
    ensures d < 64
  {
    y % 16 * 4 + z / 64
  }

  function Fourth6(z: nat): (d: nat)
    ensures d < 64
  {
    z % 64
  }

  /** Three bytes are four digits; a shorter end is filled up with zero bits and padded with
      equals signs. */
  function Base64(b: Bytes): string {
    if b == [] then ""
    else
      var x := b[0] as nat;
      if |b| == 1 then
        [Base64Digit(First6(x)), Base64Digit(Second6(x, 0)), '=', '=']
      else
        var y := b[1] as nat;
        if |b| == 2 then
          [Base64Digit(First6(x)), Base64Digit(Second6(x, y)), Base64Digit(Third6(y, 0)), '=']
        else
          var z := b[2] as nat;
          [Base64Digit(First6(x)), Base64Digit(Second6(x, y)), Base64Digit(Third6(y, z)), Base64Digit(Fourth6(z))]
          + Base64(b[3..])
  }

  lemma DigitPlain(d: nat)
    requires d < 64
    ensures !IsSpace(Base64Digit(d)) && Base64Digit(d) != '='
  {
  }

  /** The length is even, and there is padding exactly if the number of bytes is
      no multiple of three. */
  lemma {:induction false} Base64Shape(b: Bytes)
    ensures |Base64(b)| % 2 == 0 && forall c :: c in Base64(b) ==> !IsSpace(c)
    ensures '=' in Base64(b) <==> |b| % 3 != 0
  {
    hide Base64Digit, IsSpace, First6, Second6, Third6, Fourth6;
    forall d: nat | d < 64 ensures !IsSpace(Base64Digit(d)) && Base64Digit(d) != '=' {
      DigitPlain(d);
    }
    assert !IsSpace('=') by {
      PadPlain();
    }
    if |b| >= 3 {
      Base64Shape(b[3..]);
    }
  }

  lemma PadPlain()
    ensures !IsSpace('=')
  {
  }

  /** Base64 text reads as hexadecimal exactly if its digits happen to be hexadecimal ones; so
      never if the number of bytes is no multiple of three, as for a key of 32 bytes or a
      signature of 64. */
  lemma {:induction false} Base64ReadsAsHexIff(b: Bytes)
    ensures FromHex(Base64(b)).Some? <==> forall c :: c in Base64(b) ==> HexValue(c).Some?
    ensures |b| % 3 != 0 ==> FromHex(Base64(b)).None?
  {
    assert HexValue('=').None?;
    hide Base64, FromHex, HexValue, IsSpace;
    Base64Shape(b);
    ReadsAsHexIff(Base64(b));
  }

  function Base64Value(c: char): Option<nat> {
    if 'A' <= c <= 'Z' then Some(c as int - 'A' as int)
    else if 'a' <= c <= 'z' then Some(c as int - 'a' as int + 26)
    else if '0' <= c <= '9' then Some(c as int - '0' as int + 52)
    else if c == '+' then Some(62)
    else if c == '/' then Some(63)
    else None
  }

  /** The three bytes of four six-bit groups. */
  function FirstByte(p: nat, q: nat): Byte {
    ((p * 4 + q / 16) % 256) as Byte
  }

  function SecondByte(q: nat, r: nat): Byte {
    ((q % 16 * 16 + r / 4) % 256) as Byte
  }

  function ThirdByte(r: nat, t: nat): Byte {
    ((r % 4 * 64 + t) % 256) as Byte
  }

  /** Reading Base64 back, group by group. */
  function FromBase64(s: string): Option<Bytes> {
    if s == [] then Some([])
    else if |s| < 4 || Base64Value(s[0]).None? || Base64Value(s[1]).None? then None
    else
      var p, q := Base64Value(s[0]).value, Base64Value(s[1]).value;
      if |s| == 4 && s[2] == '=' && s[3] == '=' then Some([FirstByte(p, q)])
      else if Base64Value(s[2]).None? then None
      else
        var r := Base64Value(s[2]).value;
        if |s| == 4 && s[3] == '=' then Some([FirstByte(p, q), SecondByte(q, r)])
        else if Base64Value(s[3]).None? then None
        else
          match FromBase64(s[4..])
          case None => None
          case Some(rest) =>
            Some([FirstByte(p, q), SecondByte(q, r), ThirdByte(r, Base64Value(s[3]).value)] + rest)
  }

  lemma DigitReads(d: nat)
    requires d < 64
    ensures Base64Value(Base64Digit(d)) == Some(d)
  {
  }

  const UPPER: string := "ABCDEFGHIJKLMNOPQRSTUVWXYZ"
  const LOWER: string := "abcdefghijklmnopqrstuvwxyz"
  const DIGITS: string := "0123456789"

  /** The Base64 alphabet (Table 1 of RFC 4648). */
  lemma Base64Alphabet(d: nat)
    requires d < 64
    ensures Base64Digit(d) == (UPPER + LOWER + DIGITS + "+/")[d]
  {
    if d < 26 {
      UpperPlaces(d);
    } else if d < 52 {
      LowerPlaces(d - 26);
    } else if d < 62 {
      DigitPlaces(d - 52);
    }
  }

  lemma UpperPlaces(d: nat)
    requires d < 26
    ensures UPPER[d] == 'A' + d as char
  {
  }

  lemma LowerPlaces(d: nat)
    requires d < 26
    ensures LOWER[d] == 'a' + d as char
  {
  }

  lemma DigitPlaces(d: nat)
    requires d < 10
    ensures DIGITS[d] == '0' + d as char
  {
  }

  /** The number that four Base64 digits make, an equals sign counting as zero. */
  function GroupValue(a: char, b: char, c: char, d: char): nat {
    ((Base64Value(a).GetOr(0) * 64 + Base64Value(b).GetOr(0)) * 64 + Base64Value(c).GetOr(0)) * 64 + Base64Value(d).GetOr(0)
  }

  /** The text of three bytes is the four base-64 digits of the number they make ... */
  lemma Base64OfThree(x: Byte, y: Byte, z: Byte, rest: Bytes)
    ensures var s := Base64([x, y, z] + rest);
      && |s| >= 4 && '=' !in s[..4] && s[4..] == Base64(rest)
      && GroupValue(s[0], s[1], s[2], s[3]) == (x as nat * 256 + y as nat) * 256 + z as nat
  {
    var a, b, c := x as nat, y as nat, z as nat;
    assert ([x, y, z] + rest)[3..] == rest;
    SixBitGroups(a, b, c);
    GroupReads(First6(a), Second6(a, b), Third6(b, c), Fourth6(c));
    hide Base64Digit, First6, Second6, Third6, Fourth6, GroupValue;
    var four := [Base64Digit(First6(a)), Base64Digit(Second6(a, b)), Base64Digit(Third6(b, c)), Base64Digit(Fourth6(c))];
    assert Base64([x, y, z] + rest) == four + Base64(rest);
    assert (four + Base64(rest))[..4] == four;
  }

  /** ... and a shorter end is that of its bytes followed by zero bytes, with the last one or two
      digits replaced by equals signs. */
  lemma Base64OfTwo(x: Byte, y: Byte)
    ensures var s := Base64([x, y]);
      && |s| == 4 && s[3] == '=' && '=' !in s[..3]
      && GroupValue(s[0], s[1], s[2], s[3]) == (x as nat * 256 + y as nat) * 256
  {
    var a, b := x as nat, y as nat;
    SixBitGroups(a, b, 0);
    var p, q, r := First6(a), Second6(a, b), Third6(b, 0);
    assert Base64([x, y]) == [Base64Digit(p), Base64Digit(q), Base64Digit(r), '='];
    hide Base64, First6, Second6, Third6, Fourth6;
    PaddedReads(p, q, r);
  }

  lemma Base64OfOne(x: Byte)
    ensures var s := Base64([x]);
      && |s| == 4 && s[2] == s[3] == '=' && '=' !in s[..2]
      && GroupValue(s[0], s[1], s[2], s[3]) == x as nat * 256 * 256
  {
    var p, q := First6(x as nat), Second6(x as nat, 0);
    OneGroup(x);
    hide Base64, First6, Second6, GroupValue, Base64Digit;
    PaddedReads(p, q, 0);
  }

  lemma OneGroup(x: Byte)
    ensures Base64([x]) == [Base64Digit(First6(x as nat)), Base64Digit(Second6(x as nat, 0)), '=', '=']
    ensures (First6(x as nat) * 64 + Second6(x as nat, 0)) * 64 * 64 == x as nat * 256 * 256
  {
  }

  lemma PaddedReads(p: nat, q: nat, r: nat)
    requires p < 64 && q < 64 && r < 64
    ensures GroupValue(Base64Digit(p), Base64Digit(q), Base64Digit(r), '=') == ((p * 64 + q) * 64 + r) * 64
    ensures GroupValue(Base64Digit(p), Base64Digit(q), '=', '=') == (p * 64 + q) * 64 * 64
    ensures Base64Digit(p) != '=' && Base64Digit(q) != '=' && Base64Digit(r) != '='
  {
    PadIsZero();
    hide Base64Digit, Base64Value, IsSpace;
    DigitReads(p);
    DigitReads(q);
    DigitReads(r);
    DigitPlain(p);
    DigitPlain(q);
    DigitPlain(r);
  }

  lemma PadIsZero()
    ensures Base64Value('=') == None && Base64Value(Base64Digit(0)) == Some(0)
  {
  }

  lemma GroupReads(p: nat, q: nat, r: nat, t: nat)
    requires p < 64 && q < 64 && r < 64 && t < 64
    ensures GroupValue(Base64Digit(p), Base64Digit(q), Base64Digit(r), Base64Digit(t)) == ((p * 64 + q) * 64 + r) * 64 + t
    ensures '=' !in [Base64Digit(p), Base64Digit(q), Base64Digit(r), Base64Digit(t)]
  {
    hide Base64Digit, Base64Value, IsSpace;
    DigitReads(p);
    DigitReads(q);
    DigitReads(r);
    DigitReads(t);
    DigitPlain(p);
    DigitPlain(q);
    DigitPlain(r);
    DigitPlain(t);
  }

  lemma SixBitGroups(a: nat, b: nat, c: nat)
    requires a < 256 && b < 256 && c < 256
    ensures ((First6(a) * 64 + Second6(a, b)) * 64 + Third6(b, c)) * 64 + Fourth6(c) == (a * 256 + b) * 256 + c
    ensures c == 0 ==> Fourth6(c) == 0
    ensures b == 0 && c == 0 ==> Third6(b, c) == 0
  {
    assert a == 4 * (a / 4) + a % 4 && b == 16 * (b / 16) + b % 16 && c == 64 * (c / 64) + c % 64;
  }

  lemma FirstReads(x: nat, y: nat)
    requires x < 256 && y < 256
    ensures FirstByte(First6(x), Second6(x, y)) as nat == x
  {
    var hi, lo := x % 4, y / 16;
    assert lo < 16 && (hi * 16 + lo) / 16 == hi;
  }

  lemma LowHalf(a: nat, b: nat)
    requires b < 16
    ensures (a * 16 + b) % 16 == b
  {
  }

  lemma HighPart(c: nat, d: nat)
    requires d < 4
    ensures (c * 4 + d) / 4 == c
  {
  }

  lemma SecondReads(x: nat, y: nat, z: nat)
    requires x < 256 && y < 256 && z < 256
    ensures SecondByte(Second6(x, y), Third6(y, z)) as nat == y
  {
    var hi, lo := y / 16, y % 16;
    LowHalf(x % 4, hi);
    HighPart(lo, z / 64);
    assert hi * 16 + lo == y;
  }

  lemma ThirdReads(y: nat, z: nat)
    requires y < 256 && z < 256
    ensures ThirdByte(Third6(y, z), Fourth6(z)) as nat == z
  {
    var c, d := y % 16, z / 64;
    assert d < 4 && (c * 4 + d) % 4 == d;
  }

  lemma ReadGroup(p: nat, q: nat, r: nat, t: nat, rest: string)
    requires p < 64 && q < 64 && r < 64 && t < 64 && FromBase64(rest).Some?
    ensures var text := [Base64Digit(p), Base64Digit(q), Base64Digit(r), Base64Digit(t)] + rest;
      FromBase64(text) == Some([FirstByte(p, q), SecondByte(q, r), ThirdByte(r, t)] + FromBase64(rest).value)
  {
    hide Base64Digit, Base64Value, FirstByte, SecondByte, ThirdByte;
    DigitReads(p);
    DigitReads(q);
    DigitReads(r);
    DigitReads(t);
    PadNoDigit();
    var text := [Base64Digit(p), Base64Digit(q), Base64Digit(r), Base64Digit(t)] + rest;
    assert text[4..] == rest;
  }

  lemma ReadEnd(p: nat, q: nat, r: nat)
    requires p < 64 && q < 64 && r < 64
    ensures FromBase64([Base64Digit(p), Base64Digit(q), '=', '=']) == Some([FirstByte(p, q)])
    ensures FromBase64([Base64Digit(p), Base64Digit(q), Base64Digit(r), '=']) == Some([FirstByte(p, q), SecondByte(q, r)])
  {
    hide Base64Digit, Base64Value, FirstByte, SecondByte;
    DigitReads(p);
    DigitReads(q);
    DigitReads(r);
    PadNoDigit();
  }

  /** Base64 text reads back as the bytes. */
  lemma {:induction false} FromBase64ToBase64(b: Bytes)
    ensures FromBase64(Base64(b)) == Some(b)
  {
    hide Base64Digit, First6, Second6, Third6, Fourth6, FirstByte, SecondByte, ThirdByte;
    if b != [] {
      var x, y, z := b[0] as nat, if |b| > 1 then b[1] as nat else 0, if |b| > 2 then b[2] as nat else 0;
      FirstReads(x, y);
      SecondReads(x, y, z);
      ThirdReads(y, z);
      if |b| >= 3 {
        FromBase64ToBase64(b[3..]);
        hide FromBase64;
        ReadGroup(First6(x), Second6(x, y), Third6(y, z), Fourth6(z), Base64(b[3..]));
        assert b == [b[0], b[1], b[2]] + b[3..];
      } else {
        hide FromBase64;
        ReadEnd(First6(x), Second6(x, y), Third6(y, 0));
        if |b| == 2 {
          assert Base64(b) == [Base64Digit(First6(x)), Base64Digit(Second6(x, y)), Base64Digit(Third6(y, 0)), '='];
          assert b == [b[0], b[1]];
        } else {
          assert Base64(b) == [Base64Digit(First6(x)), Base64Digit(Second6(x, 0)), '=', '='];
          assert b == [b[0]];
        }
      }
    }
  }

  lemma PadNoDigit()
    ensures Base64Value('=') == None
  {
  }
}
