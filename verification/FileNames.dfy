/** The names DiskQueue gives its message files, and how they sort. */
module FileNames {
  import opened Wrappers
  import Decimal
  import LexOrder

  const SUFFIX: string := ".json"
  const TMP_SUFFIX: string := ".json.tmp"
  const NAME_WIDTH: nat := 6

  function FileName(id: nat): (name: string) {
    Decimal.Padded(id, NAME_WIDTH) + SUFFIX
  }

  function TmpName(id: nat): (name: string) {
    Decimal.Padded(id, NAME_WIDTH) + TMP_SUFFIX
  }

  predicate EndsWith(s: string, t: string) {
    |t| <= |s| && s[|s| - |t|..] == t
  }

  /** `f.suffix == ".json" and not f.name.endswith(".tmp")`: a name that is nothing but
      ".json" has no suffix. */
  predicate IsQueueName(name: string) {
    EndsWith(name, SUFFIX) && |name| > |SUFFIX|
  }

  /** `name.replace(".json", "")`. */
  function Strip(name: string): (s: string) {
    if |name| < |SUFFIX| then name
    else if name[..|SUFFIX|] == SUFFIX then Strip(name[|SUFFIX|..])
    else [name[0]] + Strip(name[1..])
  }

  function SeqFromFileName(name: string): Option<nat> {
    Decimal.Parse(Strip(name))
  }

  /** A queue file's name is anything but nothing before the suffix. */
  lemma QueueNameIff(name: string)
    ensures IsQueueName(name) <==> exists stem :: stem != "" && name == stem + ".json"
  {
    if IsQueueName(name) {
      assert name == name[..|name| - 5] + ".json";
    }
  }

  lemma {:induction false} StripDigits(s: string)
    requires Decimal.AllDigits(s)
    ensures Strip(s + SUFFIX) == s
  {
    if s == [] {
      assert s + SUFFIX == SUFFIX;
    } else {
      assert (s + SUFFIX)[0] == s[0] && Decimal.IsDigit(s[0]);
      assert (s + SUFFIX)[..|SUFFIX|][0] == s[0];
      assert (s + SUFFIX)[1..] == s[1..] + SUFFIX;
      StripDigits(s[1..]);
    }
  }

  /** The name of an id is a queue file name that reads back as that id. */
  lemma {:induction false} NameRoundTrip(id: nat)
    ensures IsQueueName(FileName(id))
    ensures SeqFromFileName(FileName(id)) == Some(id)
  {
    var p := Decimal.Padded(id, NAME_WIDTH);
    StripDigits(p);
    Decimal.ValuePadded(id, NAME_WIDTH);
  }

  /** A temporary file is invisible to every listing. */
  lemma {:induction false} TmpNameHidden(id: nat)
    ensures !IsQueueName(TmpName(id))
    ensures forall other: nat :: FileName(other) != TmpName(id)
  {
    var name := TmpName(id);
    assert name[|name| - |SUFFIX|..][|SUFFIX| - 1] == 'p';
    forall other: nat ensures FileName(other) != name {
      assert FileName(other)[|FileName(other)| - 1] == 'n';
    }
  }

  /** How many digits the name of an id carries. */
  function NameDigits(id: nat): nat {
    |Decimal.Padded(id, NAME_WIDTH)|
  }

  lemma {:induction false} NameDigitsMonotone(a: nat, b: nat)
    requires a <= b
    ensures NameDigits(a) <= NameDigits(b)
  {
    Decimal.TextLengthMonotone(a, b);
  }

  /** Exactly when two names sort as their ids do: cut the larger id to as many leading
      digits as the smaller one's name has; the smaller id must not exceed that. */
  lemma {:induction false} NameOrder(a: nat, b: nat)
    requires a < b
    ensures NameDigits(a) <= NameDigits(b)
    ensures LexOrder.Less(FileName(a), FileName(b))
            <==> a <= b / Decimal.Pow10(NameDigits(b) - NameDigits(a))
  {
    NameDigitsMonotone(a, b);
    var s, t := Decimal.Padded(a, NAME_WIDTH), Decimal.Padded(b, NAME_WIDTH);
    var t1, t2 := t[..|s|], t[|s|..];
    assert t == t1 + t2;
    Decimal.ValuePadded(a, NAME_WIDTH);
    Decimal.ValuePadded(b, NAME_WIDTH);
    Decimal.LeadingPart(t1, t2);
    Decimal.EqualWidthOrder(s, t1);
    assert FileName(b) == t1 + (t2 + SUFFIX);
    if s == t1 {
      LexOrder.CommonPrefix(s, SUFFIX, t2 + SUFFIX);
      assert t2 == [] ==> s == t;
      assert t2 != [] ==> Decimal.IsDigit(t2[0]);
    } else {
      LexOrder.DecidedByPrefix(s, t1, SUFFIX, t2 + SUFFIX);
    }
  }

  /** The ids for which six digits suffice. */
  const ID_LIMIT: nat := 1_000_000

  lemma {:induction false} SixDigits(id: nat)
    requires id < ID_LIMIT
    ensures NameDigits(id) == NAME_WIDTH
  {
    Decimal.TextLength(id);
    Decimal.Pow10Monotone(NAME_WIDTH, |Decimal.Text(id)| - 1);
    assert Decimal.Pow10(6) == ID_LIMIT by {
      assert Decimal.Pow10(3) == 1000;
      assert Decimal.Pow10(4) == 10 * Decimal.Pow10(3);
      assert Decimal.Pow10(5) == 10 * Decimal.Pow10(4);
    }
  }

  /** Below one million, names sort as their ids do. */
  lemma {:induction false} NameOrderBelowLimit(a: nat, b: nat)
    requires a < b < ID_LIMIT
    ensures LexOrder.Less(FileName(a), FileName(b))
  {
    hide FileName, LexOrder.Less, NameDigits;
    assert Decimal.Pow10(0) == 1;
    SixDigits(a);
    SixDigits(b);
    NameOrder(a, b);
  }

  /** The first pair the text order gets wrong. */
  lemma {:induction false} FirstNameOutOfOrder()
    ensures LexOrder.Less(FileName(1_000_000), FileName(999_999))
  {
    assert Decimal.Text(100) == "100";
    assert Decimal.Text(10_000) == Decimal.Text(1_000) + "0";
    assert Decimal.Text(1_000_000) == Decimal.Text(100_000) + "0";
    assert Decimal.Text(999) == "999";
    assert Decimal.Text(99_999) == Decimal.Text(9_999) + "9";
  }
}
