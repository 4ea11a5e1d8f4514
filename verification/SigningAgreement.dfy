/** When the browser and the flight software sign and verify the same text. */
module SigningAgreement {
  import opened JsonText
  import opened CanonicalJson
  import opened SignedText
  import Decimal
  import LexOrder

  /** Nothing beyond printable ASCII; control characters, which both escape alike, are fine. */
  predicate Plain(s: string) {
    forall c :: c in s ==> c <= '~'
  }

  ghost predicate PlainValue(v: Json) {
    match v
    case Str(s) => Plain(s)
    case Arr(items) => forall x :: x in items ==> PlainValue(x)
    case Obj(members) => forall m :: m in members ==> Plain(m.key) && PlainValue(m.value)
    case _ => true
  }

  /** No property named `__proto__` at any depth. */
  predicate Ordinary(v: Json) {
    match v
    case Arr(items) => forall x :: x in items ==> Ordinary(x)
    case Obj(members) => forall m :: m in members ==> m.key != PROTO && Ordinary(m.value)
    case _ => true
  }

  /** The property order puts these keys in text order. */
  predicate KeysAgree(members: seq<Member>) {
    forall a, b :: a in members && b in members ==> PropertyOrder(a.key, b.key) ==> LexOrder.Less(a.key, b.key)
  }

  /** A value that both ends print alike, as a signer could check beforehand. */
  predicate Portable(v: Json) {
    match v
    case Str(s) => Plain(s)
    case Arr(items) => forall x :: x in items ==> Portable(x)
    case Obj(members) =>
      && KeysAgree(members)
      && forall m :: m in members ==> Plain(m.key) && m.key != PROTO && Portable(m.value)
    case _ => true
  }

  // ---- Ordinary values and idempotence ----

  lemma {:induction false} OrdinaryVisible(v: Json)
    requires Ordinary(v)
    ensures Visible(v) == v
    decreases v, 1
  {
    match v
    case Arr(items) =>
      forall i | 0 <= i < |items| ensures Visible(items[i]) == items[i] {
        OrdinaryVisible(items[i]);
      }
      assert VisibleItems(items) == items;
    case Obj(members) => OrdinaryMembersVisible(members);
    case _ =>
  }

  lemma {:induction false} OrdinaryMembersVisible(members: seq<Member>)
    requires forall m :: m in members ==> m.key != PROTO && Ordinary(m.value)
    ensures VisibleMembers(members) == members
    decreases members, 0
  {
    if members != [] {
      assert members[0] in members;
      OrdinaryVisible(members[0].value);
      OrdinaryMembersVisible(members[1..]);
      assert members == [members[0]] + members[1..];
    }
  }

  lemma {:induction false} FormOrdinary(v: Json)
    ensures Ordinary(JsForm(v))
    decreases v
  {
    match v
    case Arr(items) =>
      forall i | 0 <= i < |items| ensures Ordinary(JsForm(items[i])) {
        FormOrdinary(items[i]);
      }
    case Obj(members) =>
      FormMembers(members);
      forall x | IsForm(members, x) ensures x.key != PROTO && Ordinary(x.value) {
        var m :| m in members && m.key != PROTO && x == Member(m.key, JsForm(m.value));
        FormOrdinary(m.value);
      }
    case _ =>
  }

  /** Sorting deeply twice is sorting once. */
  lemma SortDeepIdempotent(v: Json)
    requires WellFormed(v)
    ensures JsForm(JsForm(v)) == JsForm(v)
  {
    FormOrdinary(v);
    OrdinaryVisible(JsForm(v));
    PropertyOrderTotal();
    VisibleWellFormed(v);
    CanonIdempotent(PropertyOrder, Visible(v));
  }

  // ---- Escapes ----

  lemma PlainParts(s: string)
    requires s != []
    ensures Plain(s) <==> s[0] <= '~' && Plain(s[1..])
  {
    assert s == [s[0]] + s[1..];
    PlainConcat([s[0]], s[1..]);
    assert s[0] in [s[0]];
  }

  lemma {:induction false} EscapePlain(s: string)
    ensures Plain(s) ==> EscapeAll(JsEscape, s) == EscapeAll(PyEscape, s)
    ensures Plain(EscapeAll(PyEscape, s))
    ensures Plain(EscapeAll(JsEscape, s)) ==> Plain(s)
  {
    if s != [] {
      EscapePlain(s[1..]);
      EscapeOnePlain(s[0]);
      PlainParts(s);
      PlainConcat(JsEscape(s[0]), EscapeAll(JsEscape, s[1..]));
      PlainConcat(PyEscape(s[0]), EscapeAll(PyEscape, s[1..]));
    }
  }

  lemma EscapeOnePlain(c: char)
    ensures c <= '~' ==> JsEscape(c) == PyEscape(c)
    ensures Plain(PyEscape(c))
    ensures c > '~' ==> !Plain(JsEscape(c))
  {
    hide Hex;
    if c > '~' {
      assert JsEscape(c) == [c] && c in JsEscape(c);
    }
    UnitEscapePlain(Units(c)[0]);
    UnitEscapePlain(Units(c)[|Units(c)| - 1]);
  }

  lemma {:induction false} HexPlain(n: nat, width: nat)
    ensures Plain(Hex(n, width))
  {
    if width > 0 {
      HexPlain(n / 16, width - 1);
    }
  }

  lemma UnitEscapePlain(u: nat)
    requires u < 0x10000
    ensures Plain(UnitEscape(u))
  {
    HexPlain(u, 4);
  }

  lemma PlainConcat(s: string, t: string)
    ensures Plain(s + t) <==> Plain(s) && Plain(t)
  {
    assert forall c :: c in s + t <==> c in s || c in t;
  }

  // ---- Text ----

  lemma QuotePlain(s: string)
    ensures Plain(s) ==> Quote(JsEscape, s) == Quote(PyEscape, s)
    ensures Plain(Quote(PyEscape, s))
    ensures Plain(Quote(JsEscape, s)) ==> Plain(s)
  {
    EscapePlain(s);
    PlainConcat("\"", EscapeAll(JsEscape, s) + "\"");
    PlainConcat(EscapeAll(JsEscape, s), "\"");
    PlainConcat("\"", EscapeAll(PyEscape, s) + "\"");
    PlainConcat(EscapeAll(PyEscape, s), "\"");
  }

  lemma IntTextPlain(n: int)
    ensures Plain(IntText(n))
  {
    var text := Decimal.Text(if n < 0 then -n else n);
    assert Plain(text) by {
      assert forall c :: c in text ==> Decimal.IsDigit(c);
    }
    PlainConcat("-", text);
  }

  /** Flight text is ASCII. Browser text is ASCII only if the value is, and then it is the text
      that flight escapes would give. */
  lemma {:induction false} PrintPlain(v: Json)
    ensures PlainValue(v) ==> Print(JsEscape, v) == Print(PyEscape, v)
    ensures Plain(Print(PyEscape, v))
    ensures Plain(Print(JsEscape, v)) ==> PlainValue(v)
    decreases v, 1
  {
    hide Quote, IntText;
    match v
    case Null =>
    case Bool(_) =>
    case Num(n) => IntTextPlain(n);
    case Str(s) => QuotePlain(s);
    case Arr(items) =>
      PrintItemsPlain(items, true);
      PlainConcat("[", PrintItems(JsEscape, items, true));
      PlainConcat("[", PrintItems(PyEscape, items, true));
    case Obj(members) =>
      PrintMembersPlain(members, true);
      PlainConcat("{", PrintMembers(JsEscape, members, true));
      PlainConcat("{", PrintMembers(PyEscape, members, true));
  }

  lemma {:induction false} PrintItemsPlain(items: seq<Json>, first: bool)
    ensures (forall x :: x in items ==> PlainValue(x)) ==> PrintItems(JsEscape, items, first) == PrintItems(PyEscape, items, first)
    ensures Plain(PrintItems(PyEscape, items, first))
    ensures Plain(PrintItems(JsEscape, items, first)) ==> forall x :: x in items ==> PlainValue(x)
    decreases items, 0
  {
    hide PlainValue, Print;
    if items != [] {
      PrintPlain(items[0]);
      PrintItemsPlain(items[1..], false);
      PlainPieces(JsEscape, items, first);
      PlainPieces(PyEscape, items, first);
      assert items == [items[0]] + items[1..];
    }
  }

  lemma PlainPieces(esc: Escape, items: seq<Json>, first: bool)
    requires items != []
    ensures Plain(PrintItems(esc, items, first)) <==> Plain(Print(esc, items[0])) && Plain(PrintItems(esc, items[1..], false))
  {
    hide Print;
    var tail := Print(esc, items[0]) + PrintItems(esc, items[1..], false);
    PlainConcat(if first then "" else ",", tail);
    PlainConcat(Print(esc, items[0]), PrintItems(esc, items[1..], false));
  }

  lemma {:induction false} PrintMembersPlain(members: seq<Member>, first: bool)
    ensures (forall m :: m in members ==> Plain(m.key) && PlainValue(m.value)) ==>
      PrintMembers(JsEscape, members, first) == PrintMembers(PyEscape, members, first)
    ensures Plain(PrintMembers(PyEscape, members, first))
    ensures Plain(PrintMembers(JsEscape, members, first)) ==>
      forall m :: m in members ==> Plain(m.key) && PlainValue(m.value)
    decreases members, 0
  {
    hide PlainValue, Print, Quote, Plain;
    if members != [] {
      PrintPlain(members[0].value);
      QuotePlain(members[0].key);
      PrintMembersPlain(members[1..], false);
      PlainMemberPieces(JsEscape, members, first);
      PlainMemberPieces(PyEscape, members, first);
      assert members == [members[0]] + members[1..];
    } else {
      assert Plain("}") by {
        BracePlain();
      }
    }
  }

  lemma BracePlain()
    ensures Plain("}")
  {
  }

  lemma PlainMemberPieces(esc: Escape, members: seq<Member>, first: bool)
    requires members != []
    ensures Plain(PrintMembers(esc, members, first)) <==>
      && Plain(Quote(esc, members[0].key))
      && Plain(Print(esc, members[0].value))
      && Plain(PrintMembers(esc, members[1..], false))
  {
    hide Print, Quote;
    var q, p, r := Quote(esc, members[0].key), Print(esc, members[0].value), PrintMembers(esc, members[1..], false);
    PlainConcat(if first then "" else ",", q + (":" + (p + r)));
    PlainConcat(q, ":" + (p + r));
    PlainConcat(":", p + r);
    PlainConcat(p, r);
  }

  // ---- Agreement ----

  lemma CanonMembersPlain(less: Order, members: seq<Member>)
    requires forall m :: m in members ==> (PlainValue(Canon(less, m.value)) <==> PlainValue(m.value))
    ensures PlainValue(Obj(SortBy(less, CanonMembers(less, members)))) <==> PlainValue(Obj(members))
  {
    hide Plain, Canon;
    var r := CanonMembers(less, members);
    forall i | 0 <= i < |members|
      ensures members[i] in members && r[i] in r && r[i].key == members[i].key
      ensures PlainValue(r[i].value) <==> PlainValue(members[i].value)
    {
    }
    assert forall x :: x in r ==> exists i :: 0 <= i < |members| && r[i] == x;
  }

  lemma {:induction false} CanonPlain(less: Order, v: Json)
    ensures PlainValue(Canon(less, v)) <==> PlainValue(v)
    decreases v
  {
    match v
    case Arr(items) =>
      var r := CanonItems(less, items);
      forall i | 0 <= i < |items| ensures PlainValue(r[i]) <==> PlainValue(items[i]) {
        CanonPlain(less, items[i]);
      }
      assert forall x :: x in r ==> exists i :: 0 <= i < |items| && r[i] == x;
    case Obj(members) =>
      forall m | m in members ensures PlainValue(Canon(less, m.value)) <==> PlainValue(m.value) {
        CanonPlain(less, m.value);
      }
      CanonMembersPlain(less, members);
    case _ =>
  }

  lemma {:induction false} KeysAgreeAscending(members: seq<Member>)
    requires Ascending(PropertyOrder, members) && KeysAgree(members)
    ensures Ascending(LexOrder.Less, members)
  {
    hide PropertyOrder, LexOrder.Less;
    if members != [] {
      KeysAgreeAscending(members[1..]);
    }
  }

  /** On a portable value the two forms are one. */
  lemma {:induction false} PortableForms(v: Json)
    requires WellFormed(v) && Portable(v)
    ensures JsForm(v) == Canon(LexOrder.Less, v) && PlainValue(v)
    decreases v
  {
    hide PropertyOrder, LexOrder.Less;
    match v
    case Arr(items) =>
      forall i | 0 <= i < |items| ensures JsForm(items[i]) == Canon(LexOrder.Less, items[i]) && PlainValue(items[i]) {
        PortableForms(items[i]);
      }
      assert JsForm(v).items == Canon(LexOrder.Less, v).items;
    case Obj(members) =>
      forall i | 0 <= i < |members|
        ensures JsForm(members[i].value) == Canon(LexOrder.Less, members[i].value) && PlainValue(members[i].value)
      {
        assert members[i] in members;
        PortableForms(members[i].value);
      }
      PortableMembers(members);
    case _ =>
  }

  lemma SortedBothWays(members: seq<Member>)
    requires DistinctKeys(members)
    ensures Ascending(PropertyOrder, SortBy(PropertyOrder, CanonMembers(PropertyOrder, VisibleMembers(members))))
    ensures Ascending(LexOrder.Less, SortBy(LexOrder.Less, CanonMembers(LexOrder.Less, members)))
  {
    hide PropertyOrder, LexOrder.Less;
    VisibleMembersIs(members);
    CanonMembersDistinct(PropertyOrder, VisibleMembers(members));
    CanonMembersDistinct(LexOrder.Less, members);
    PropertyOrderTotal();
    TextOrderTotal();
    SortByAscending(PropertyOrder, CanonMembers(PropertyOrder, VisibleMembers(members)));
    SortByAscending(LexOrder.Less, CanonMembers(LexOrder.Less, members));
  }

  /** Member by member, the two ends form the same things. */
  lemma SameMemberForms(members: seq<Member>)
    requires forall m :: m in members ==> m.key != PROTO
    requires forall m :: m in members ==> JsForm(m.value) == Canon(LexOrder.Less, m.value)
    ensures forall x :: x in CanonMembers(LexOrder.Less, members) <==> IsForm(members, x)
  {
    hide LexOrder.Less, JsForm, Canon;
    var each := CanonMembers(LexOrder.Less, members);
    forall x ensures x in each <==> IsForm(members, x) {
      if IsForm(members, x) {
        var m :| m in members && m.key != PROTO && x == Member(m.key, JsForm(m.value));
        var i :| 0 <= i < |members| && members[i] == m;
        assert each[i] == x;
      }
      if x in each {
        var i :| 0 <= i < |each| && each[i] == x;
        assert members[i] in members && x == Member(members[i].key, JsForm(members[i].value));
      }
    }
  }

  lemma FormKeysAgree(members: seq<Member>, forms: seq<Member>)
    requires KeysAgree(members) && forall x :: x in forms ==> IsForm(members, x)
    ensures KeysAgree(forms)
  {
    hide PropertyOrder, LexOrder.Less, JsForm;
    forall x, y | x in forms && y in forms && PropertyOrder(x.key, y.key) ensures LexOrder.Less(x.key, y.key) {
      var m :| m in members && m.key != PROTO && x == Member(m.key, JsForm(m.value));
      var n :| n in members && n.key != PROTO && y == Member(n.key, JsForm(n.value));
    }
  }

  lemma {:induction false} PortableMembers(members: seq<Member>)
    requires DistinctKeys(members) && KeysAgree(members)
    requires forall m :: m in members ==> m.key != PROTO
    requires forall m :: m in members ==> JsForm(m.value) == Canon(LexOrder.Less, m.value)
    ensures SortBy(PropertyOrder, CanonMembers(PropertyOrder, VisibleMembers(members))) ==
      SortBy(LexOrder.Less, CanonMembers(LexOrder.Less, members))
  {
    hide PropertyOrder, LexOrder.Less, JsForm, KeysAgree, IsForm;
    var a := SortBy(PropertyOrder, CanonMembers(PropertyOrder, VisibleMembers(members)));
    var b := SortBy(LexOrder.Less, CanonMembers(LexOrder.Less, members));
    FormMembers(members);
    SameMemberForms(members);
    SortedBothWays(members);
    FormKeysAgree(members, a);
    KeysAgreeAscending(a);
    TextOrderTotal();
    AscendingUnique(LexOrder.Less, a, b);
  }

  lemma {:induction false} DistinctAt(members: seq<Member>, m: Member, n: Member)
    requires DistinctKeys(members) && m in members && n in members && m.key == n.key
    ensures m == n
  {
    if m in members[1..] && n in members[1..] {
      DistinctAt(members[1..], m, n);
    }
  }

  /** A list ascending in two strict orders makes them agree on its keys. */
  lemma BothAscending(sorted: seq<Member>, x: Member, y: Member)
    requires Ascending(PropertyOrder, sorted) && Ascending(LexOrder.Less, sorted)
    requires x in sorted && y in sorted && PropertyOrder(x.key, y.key)
    ensures LexOrder.Less(x.key, y.key)
  {
    hide PropertyOrder, LexOrder.Less;
    var i :| 0 <= i < |sorted| && sorted[i] == x;
    var j :| 0 <= j < |sorted| && sorted[j] == y;
    PropertyOrderTotal();
    if i < j {
      AscendingAt(LexOrder.Less, sorted, i, j);
    } else if j < i {
      AscendingAt(PropertyOrder, sorted, j, i);
    }
  }

  /** Member by member, one form means one visible key and one form of the value. */
  lemma SameFormMembers(members: seq<Member>, m: Member)
    requires DistinctKeys(members) && m in members
    requires SortBy(PropertyOrder, CanonMembers(PropertyOrder, VisibleMembers(members))) ==
      SortBy(LexOrder.Less, CanonMembers(LexOrder.Less, members))
    ensures m.key != PROTO && JsForm(m.value) == Canon(LexOrder.Less, m.value)
    ensures Member(m.key, JsForm(m.value)) in SortBy(LexOrder.Less, CanonMembers(LexOrder.Less, members))
  {
    hide PropertyOrder, LexOrder.Less, JsForm;
    var forms, each := CanonMembers(PropertyOrder, VisibleMembers(members)), CanonMembers(LexOrder.Less, members);
    FormMembers(members);
    var i :| 0 <= i < |members| && members[i] == m;
    var x := Member(m.key, Canon(LexOrder.Less, m.value));
    assert each[i] == x && x in each;
    assert x in SortBy(PropertyOrder, forms);
    var n :| n in members && n.key != PROTO && x == Member(n.key, JsForm(n.value));
    DistinctAt(members, m, n);
  }

  /** Where the two forms are one, the value is portable. */
  lemma {:induction false} SameFormsPortable(v: Json)
    requires WellFormed(v) && PlainValue(v) && JsForm(v) == Canon(LexOrder.Less, v)
    ensures Portable(v)
    decreases v
  {
    hide PropertyOrder, LexOrder.Less;
    match v
    case Arr(items) =>
      forall i | 0 <= i < |items| ensures Portable(items[i]) {
        assert JsForm(v).items[i] == Canon(LexOrder.Less, v).items[i];
        SameFormsPortable(items[i]);
      }
    case Obj(members) =>
      var sorted := SortBy(LexOrder.Less, CanonMembers(LexOrder.Less, members));
      assert sorted == SortBy(PropertyOrder, CanonMembers(PropertyOrder, VisibleMembers(members)));
      SortedBothWays(members);
      forall m | m in members ensures m.key != PROTO && Portable(m.value) {
        SameFormMembers(members, m);
        SameFormsPortable(m.value);
      }
      forall a, b | a in members && b in members && PropertyOrder(a.key, b.key) ensures LexOrder.Less(a.key, b.key) {
        SameFormMembers(members, a);
        SameFormMembers(members, b);
        BothAscending(sorted, Member(a.key, JsForm(a.value)), Member(b.key, JsForm(b.value)));
      }
    case _ =>
  }

  /** The browser and the flight software print one text exactly for the portable values. */
  lemma TextsAgreeIff(v: Json)
    requires WellFormed(v)
    ensures JsText(v) == Dump(v) <==> Portable(v)
  {
    DumpIsSortedPrint(v);
    var f, g := JsForm(v), Canon(LexOrder.Less, v);
    PrintPlain(f);
    PrintPlain(g);
    if Portable(v) {
      PortableForms(v);
      CanonPlain(LexOrder.Less, v);
    }
    if JsText(v) == Dump(v) {
      PyDecodable();
      TextDecidesValue(PyEscape, f, g);
      CanonPlain(LexOrder.Less, v);
      SameFormsPortable(v);
    }
  }

  // ---- Which keys are portable ----

  lemma {:induction false} PlainOrder(a: string, b: string)
    requires Plain(a) && Plain(b)
    ensures Utf16Less(a, b) <==> LexOrder.Less(a, b)
  {
    if a != [] && b != [] {
      PlainParts(a);
      PlainParts(b);
      assert Utf16(a)[0] == a[0] as int && Utf16(a)[1..] == Utf16(a[1..]);
      assert Utf16(b)[0] == b[0] as int && Utf16(b)[1..] == Utf16(b[1..]);
      PlainOrder(a[1..], b[1..]);
    }
  }

  /** ASCII keys that are no array index come out in text order. */
  lemma PlainNamesAgree(members: seq<Member>)
    requires forall m :: m in members ==> Plain(m.key) && ArrayIndex(m.key).None?
    ensures KeysAgree(members)
  {
    hide Utf16Less, LexOrder.Less, ArrayIndex;
    forall a, b | a in members && b in members && PropertyOrder(a.key, b.key) ensures LexOrder.Less(a.key, b.key) {
      PlainOrder(a.key, b.key);
    }
  }

  lemma NineBeforeTen()
    ensures PropertyOrder("9", "10") && !LexOrder.Less("9", "10")
  {
    assert Decimal.Value("9") == 9;
    assert "10"[..1] == "1" && Decimal.Value("1") == 1 && Decimal.Value("10") == 10;
    assert Decimal.Text(9) == "9" && Decimal.Text(1) == "1" && Decimal.Text(10) == "10";
  }

  /** Array-index keys need not: the browser lists 9 before 10, the flight text 10 before 9. */
  lemma {:induction false} IndexKeysDisagree()
    ensures var v := Obj([Member("10", Null), Member("9", Null)]);
      WellFormed(v) && JsText(v) != Dump(v)
  {
    hide PropertyOrder, LexOrder.Less, JsText, Dump;
    var v := Obj([Member("10", Null), Member("9", Null)]);
    assert v.members[0] in v.members && v.members[1] in v.members;
    NineBeforeTen();
    TextsAgreeIff(v);
  }
}
