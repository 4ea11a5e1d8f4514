/** The text that a command plan is signed over: built in the browser by sorting a copy of the
    value and printing it, and on board by printing with sorted keys. */
module SignedText {
  import opened Wrappers
  import opened JsonText
  import opened CanonicalJson
  import Decimal
  import LexOrder

  // ---- Property order of JavaScript objects ----

  function Utf16(s: string): (u: seq<nat>)
    ensures |u| >= |s|
  {
    if s == [] then [] else Units(s[0]) + Utf16(s[1..])
  }

  predicate UnitsLess(a: seq<nat>, b: seq<nat>) {
    |b| > 0 && (|a| == 0 || a[0] < b[0] || (a[0] == b[0] && UnitsLess(a[1..], b[1..])))
  }

  /** The order of `Array.prototype.sort` on strings: by UTF-16 code unit. */
  predicate Utf16Less(a: string, b: string) {
    UnitsLess(Utf16(a), Utf16(b))
  }

  /** Keys such as "0" or "17" are array indices, which a JavaScript object lists first and in
      numeric order. */
  function ArrayIndex(key: string): Option<nat> {
    match Decimal.Parse(key)
    case Some(n) => if Decimal.Text(n) == key && n < 0xFFFF_FFFF then Some(n) else None
    case None => None
  }

  /** The shortest decimal texts up to 2^32 - 2, and only those, are indices. */
  lemma ArrayIndexIs(key: string, n: nat)
    ensures ArrayIndex(key) == Some(n) <==> key == Decimal.Text(n) && n <= 4294967294
  {
    Decimal.ValueText(n);
  }

  /** The order in which an object lists properties that were added in Utf16Less order. */
  predicate PropertyOrder(a: string, b: string) {
    var i, j := ArrayIndex(a), ArrayIndex(b);
    if i.Some? && j.Some? then i.value < j.value
    else if i.Some? || j.Some? then i.Some?
    else Utf16Less(a, b)
  }

  lemma {:induction false} Utf16Injective(a: string, b: string)
    requires Utf16(a) == Utf16(b)
    ensures a == b
  {
    if a != [] && b != [] {
      var x, y := Utf16(a), Utf16(b);
      assert x[0] == Units(a[0])[0] && y[0] == Units(b[0])[0];
      assert Units(a[0]) == x[..|Units(a[0])|] && Units(b[0]) == y[..|Units(b[0])|];
      UnitsInjective(a[0], b[0]);
      assert Utf16(a[1..]) == x[|Units(a[0])|..] && Utf16(b[1..]) == y[|Units(b[0])|..];
      Utf16Injective(a[1..], b[1..]);
      assert a == [a[0]] + a[1..] && b == [b[0]] + b[1..];
    }
  }

  lemma {:induction false} UnitsLessTotal(a: seq<nat>, b: seq<nat>)
    ensures !UnitsLess(a, a)
    ensures a == b || UnitsLess(a, b) || UnitsLess(b, a)
  {
    if a != [] {
      UnitsLessTotal(a[1..], if b == [] then [] else b[1..]);
      assert b != [] && a[0] == b[0] && a[1..] == b[1..] ==> a == [a[0]] + a[1..] == b;
    }
  }

  lemma {:induction false} UnitsLessTransitive(a: seq<nat>, b: seq<nat>, c: seq<nat>)
    requires UnitsLess(a, b) && UnitsLess(b, c)
    ensures UnitsLess(a, c)
  {
    if a != [] && a[0] == b[0] == c[0] {
      UnitsLessTransitive(a[1..], b[1..], c[1..]);
    }
  }

  lemma Utf16Total()
    ensures StrictTotal(Utf16Less)
  {
    forall a, b ensures !Utf16Less(a, a) && (a == b || Utf16Less(a, b) || Utf16Less(b, a)) {
      UnitsLessTotal(Utf16(a), Utf16(b));
      if Utf16(a) == Utf16(b) {
        Utf16Injective(a, b);
      }
    }
    forall a, b, c | Utf16Less(a, b) && Utf16Less(b, c) ensures Utf16Less(a, c) {
      UnitsLessTransitive(Utf16(a), Utf16(b), Utf16(c));
    }
  }

  lemma PropertyOrderTotal()
    ensures StrictTotal(PropertyOrder)
  {
    hide Utf16Less, ArrayIndex;
    Utf16Total();
    forall a, b | ArrayIndex(a).Some? && ArrayIndex(a) == ArrayIndex(b) ensures a == b {
      IndexInjective(a, b);
    }
  }

  lemma IndexInjective(a: string, b: string)
    requires ArrayIndex(a).Some? && ArrayIndex(a) == ArrayIndex(b)
    ensures a == b
  {
  }

  lemma TextOrderTotal()
    ensures StrictTotal(LexOrder.Less)
  {
    forall a, b ensures !LexOrder.Less(a, a) && (a == b || LexOrder.Less(a, b) || LexOrder.Less(b, a)) {
      LexOrder.Total(a, b);
      if LexOrder.Less(a, a) {
        LexOrder.Asymmetric(a, a);
      }
    }
    forall a, b, c | LexOrder.Less(a, b) && LexOrder.Less(b, c) ensures LexOrder.Less(a, c) {
      LexOrder.Transitive(a, b, c);
    }
  }

  // ---- The browser ----

  const PROTO: string := "__proto__"

  /** Assigning to this name sets an object's prototype and adds no property. */
  function Visible(v: Json): (r: Json)
    decreases v
  {
    match v
    case Arr(items) => Arr(VisibleItems(items))
    case Obj(members) => Obj(VisibleMembers(members))
    case _ => v
  }

  function VisibleItems(items: seq<Json>): (r: seq<Json>)
    ensures |r| == |items| && forall i :: 0 <= i < |items| ==> r[i] == Visible(items[i])
    decreases items
  {
    if items == [] then [] else [Visible(items[0])] + VisibleItems(items[1..])
  }

  function Shown(m: Member): Member {
    Member(m.key, Visible(m.value))
  }

  function VisibleMembers(members: seq<Member>): (r: seq<Member>)
    decreases members
  {
    if members == [] then [] else
      (if members[0].key == PROTO then [] else [Member(members[0].key, Visible(members[0].value))])
      + VisibleMembers(members[1..])
  }

  lemma {:induction false} VisibleMembersIs(members: seq<Member>)
    ensures forall m :: m in members && m.key != PROTO ==> Shown(m) in VisibleMembers(members)
    ensures forall x :: x in VisibleMembers(members) ==>
      exists m :: m in members && m.key != PROTO && x == Shown(m)
    ensures forall k :: NoKey(members, k) ==> NoKey(VisibleMembers(members), k)
    ensures DistinctKeys(members) ==> DistinctKeys(VisibleMembers(members))
  {
    if members != [] {
      VisibleMembersIs(members[1..]);
      assert members == [members[0]] + members[1..];
      var r, rest := VisibleMembers(members), VisibleMembers(members[1..]);
      if members[0].key == PROTO {
        assert r == rest;
      } else {
        assert r[0].key == members[0].key && r[1..] == rest;
      }
    }
  }

  lemma {:induction false} VisibleWellFormed(v: Json)
    requires WellFormed(v)
    ensures WellFormed(Visible(v))
    decreases v
  {
    match v
    case Arr(items) =>
      forall i | 0 <= i < |items| ensures WellFormed(Visible(items[i])) {
        VisibleWellFormed(items[i]);
      }
    case Obj(members) =>
      VisibleMembersIs(members);
      forall x | x in VisibleMembers(members) ensures WellFormed(x.value) {
        var m :| m in members && m.key != PROTO && x == Shown(m);
        VisibleWellFormed(m.value);
      }
    case _ =>
  }

  /** `o[key] = value` for a key that o does not have yet. */
  function Put(o: seq<Member>, key: string, value: Json): seq<Member>
    requires NoKey(o, key)
  {
    if key == PROTO then o
    else if ArrayIndex(key).Some? then Insert(PropertyOrder, o, Member(key, value))
    else o + [Member(key, value)]
  }

  function JsForm(v: Json): Json {
    Canon(PropertyOrder, Visible(v))
  }

  ghost predicate IsForm(members: seq<Member>, x: Member) {
    exists m :: m in members && m.key != PROTO && x == Member(m.key, JsForm(m.value))
  }

  lemma FormMembers(members: seq<Member>)
    ensures forall x :: x in CanonMembers(PropertyOrder, VisibleMembers(members)) <==> IsForm(members, x)
  {
    var shown := VisibleMembers(members);
    var forms := CanonMembers(PropertyOrder, shown);
    VisibleMembersIs(members);
    forall x | x in forms ensures IsForm(members, x) {
      var i :| 0 <= i < |forms| && forms[i] == x;
      assert shown[i] in shown;
      var m :| m in members && m.key != PROTO && shown[i] == Shown(m);
    }
    forall x | IsForm(members, x) ensures x in forms {
      var m :| m in members && m.key != PROTO && x == Member(m.key, JsForm(m.value));
      var i :| 0 <= i < |shown| && shown[i] == Shown(m);
      assert forms[i] == x;
    }
  }

  lemma {:induction false} AppendAscending(less: Order, members: seq<Member>, m: Member)
    requires Ascending(less, members) && forall x :: x in members ==> less(x.key, m.key)
    ensures Ascending(less, members + [m])
  {
    if members == [] {
      assert members + [m] == [m];
    } else {
      assert (members + [m])[1..] == members[1..] + [m];
      AppendAscending(less, members[1..], m);
    }
  }

  lemma {:induction false} AscendingAt(less: Order, members: seq<Member>, i: nat, j: nat)
    requires Ascending(less, members) && i < j < |members|
    ensures less(members[i].key, members[j].key)
  {
    if i == 0 {
      assert members[j] in members[1..];
    } else {
      AscendingAt(less, members[1..], i - 1, j - 1);
    }
  }

  /** Putting the next key in text order keeps the enumeration order. */
  lemma PutAscending(byKey: seq<Member>, o: seq<Member>, i: nat, value: Json)
    requires Ascending(Utf16Less, byKey) && i < |byKey| && Ascending(PropertyOrder, o)
    requires forall x :: x in o ==> exists j :: 0 <= j < i && byKey[j].key == x.key
    ensures NoKey(o, byKey[i].key)
    ensures Ascending(PropertyOrder, Put(o, byKey[i].key, value))
    ensures forall x :: x in Put(o, byKey[i].key, value) <==>
      x in o || (byKey[i].key != PROTO && x == Member(byKey[i].key, value))
  {
    hide Utf16Less, ArrayIndex;
    var key := byKey[i].key;
    Utf16Total();
    PropertyOrderTotal();
    forall x | x in o ensures x.key != key && (ArrayIndex(key).None? ==> PropertyOrder(x.key, key)) {
      var j :| 0 <= j < i && byKey[j].key == x.key;
      AscendingAt(Utf16Less, byKey, j, i);
    }
    if key != PROTO {
      if ArrayIndex(key).Some? {
        InsertAscending(PropertyOrder, o, Member(key, value));
      } else {
        AppendAscending(PropertyOrder, o, Member(key, value));
      }
    }
  }

  method SortDeep(v: Json) returns (r: Json)
    requires WellFormed(v)
    ensures r == JsForm(v)
    decreases v
  {
    hide PropertyOrder, Utf16Less, IsForm;
    match v
    case Arr(items) =>
      var mapped: seq<Json> := [];
      for i := 0 to |items|
        invariant |mapped| == i && forall j :: 0 <= j < i ==> mapped[j] == JsForm(items[j])
      {
        var x := SortDeep(items[i]);
        mapped := mapped + [x];
      }
      r := Arr(mapped);
      assert mapped == CanonItems(PropertyOrder, VisibleItems(items));
    case Obj(members) =>
      Utf16Total();
      SortByAscending(Utf16Less, members);
      var byKey := SortBy(Utf16Less, members);
      var sorted: seq<Member> := [];
      NoForms();
      assert byKey[..0] == [];
      for i := 0 to |byKey|
        invariant Ascending(PropertyOrder, sorted)
        invariant forall x :: x in sorted <==> IsForm(byKey[..i], x)
      {
        assert byKey[i] in members;
        var x := SortDeep(byKey[i].value);
        FormStep(byKey, i, sorted);
        PutAscending(byKey, sorted, i, x);
        sorted := Put(sorted, byKey[i].key, x);
      }
      assert byKey[..|byKey|] == byKey;
      FormUnique(members, sorted, byKey);
      r := Obj(sorted);
    case _ =>
      r := v;
  }

  lemma NoForms()
    ensures forall x :: !IsForm([], x)
  {
  }

  lemma FormStep(byKey: seq<Member>, i: nat, sorted: seq<Member>)
    requires i < |byKey| && forall x :: x in sorted <==> IsForm(byKey[..i], x)
    ensures forall x :: x in sorted ==> exists j :: 0 <= j < i && byKey[j].key == x.key
    ensures forall x :: IsForm(byKey[..i + 1], x) <==>
      IsForm(byKey[..i], x) || (byKey[i].key != PROTO && x == Member(byKey[i].key, JsForm(byKey[i].value)))
  {
    hide JsForm;
    assert byKey[..i + 1] == byKey[..i] + [byKey[i]];
    forall x | x in sorted ensures exists j :: 0 <= j < i && byKey[j].key == x.key {
      var m :| m in byKey[..i] && m.key != PROTO && x == Member(m.key, JsForm(m.value));
      var j :| 0 <= j < i && byKey[j] == m;
    }
    forall x ensures IsForm(byKey[..i + 1], x) <==>
      IsForm(byKey[..i], x) || (byKey[i].key != PROTO && x == Member(byKey[i].key, JsForm(byKey[i].value)))
    {
      if IsForm(byKey[..i], x) {
        var m :| m in byKey[..i] && m.key != PROTO && x == Member(m.key, JsForm(m.value));
        assert m in byKey[..i + 1];
      }
      if byKey[i].key != PROTO && x == Member(byKey[i].key, JsForm(byKey[i].value)) {
        assert byKey[i] in byKey[..i + 1];
      }
    }
  }

  lemma FormUnique(members: seq<Member>, sorted: seq<Member>, byKey: seq<Member>)
    requires DistinctKeys(members) && Ascending(PropertyOrder, sorted)
    requires forall x :: x in byKey <==> x in members
    requires forall x :: x in sorted <==> IsForm(byKey, x)
    ensures sorted == SortBy(PropertyOrder, CanonMembers(PropertyOrder, VisibleMembers(members)))
  {
    var forms := CanonMembers(PropertyOrder, VisibleMembers(members));
    VisibleMembersIs(members);
    CanonMembersDistinct(PropertyOrder, VisibleMembers(members));
    PropertyOrderTotal();
    SortByAscending(PropertyOrder, forms);
    FormMembers(members);
    forall x ensures x in sorted <==> x in SortBy(PropertyOrder, forms) {
      assert IsForm(byKey, x) <==> IsForm(members, x) by {
        hide JsForm;
      }
    }
    AscendingUnique(PropertyOrder, sorted, SortBy(PropertyOrder, forms));
  }

  function JsText(v: Json): string {
    Print(JsEscape, JsForm(v))
  }

  /** The browser's text decides the value up to member order, `__proto__` members aside. */
  lemma JsTextDecides(v: Json, w: Json)
    requires WellFormed(v) && WellFormed(w)
    ensures JsText(v) == JsText(w) <==> Meaning(Visible(v)) == Meaning(Visible(w))
  {
    PropertyOrderTotal();
    JsDecodable();
    VisibleWellFormed(v);
    VisibleWellFormed(w);
    CanonTextDecides(JsEscape, PropertyOrder, Visible(v), Visible(w));
  }

  // ---- On board ----

  /** `json.dumps` with sorted keys and compact separators: the members of an object are
      sorted as they are printed. */
  function Dump(v: Json): string
    decreases v, 1, 0
  {
    match v
    case Null => "null"
    case Bool(b) => if b then "true" else "false"
    case Num(n) => IntText(n)
    case Str(s) => Quote(PyEscape, s)
    case Arr(items) => "[" + DumpItems(items, true)
    case Obj(members) => "{" + DumpMembers(v, SortBy(LexOrder.Less, members), true)
  }

  function DumpItems(items: seq<Json>, first: bool): string
    decreases items, 0, |items|
  {
    if items == [] then "]" else
      (if first then "" else ",") + (Dump(items[0]) + DumpItems(items[1..], false))
  }

  function DumpMembers(v: Json, rest: seq<Member>, first: bool): string
    requires v.Obj? && forall m :: m in rest ==> m in v.members
    decreases v, 0, |rest|
  {
    if rest == [] then "}" else
      assert rest[0] in v.members;
      (if first then "" else ",") +
      (Quote(PyEscape, rest[0].key) + (":" + (Dump(rest[0].value) + DumpMembers(v, rest[1..], false))))
  }

  lemma {:induction false} InsertCommutes(less: Order, members: seq<Member>, m: Member)
    ensures CanonMembers(less, Insert(less, members, m)) ==
      Insert(less, CanonMembers(less, members), Member(m.key, Canon(less, m.value)))
  {
    hide Canon;
    if members != [] {
      var r, c := Insert(less, members, m), CanonMembers(less, members);
      assert c[1..] == CanonMembers(less, members[1..]);
      if less(m.key, members[0].key) {
        assert r[1..] == members;
      } else {
        assert r[1..] == Insert(less, members[1..], m);
        InsertCommutes(less, members[1..], m);
      }
    }
  }

  lemma {:induction false} SortByCommutes(less: Order, members: seq<Member>)
    ensures CanonMembers(less, SortBy(less, members)) == SortBy(less, CanonMembers(less, members))
  {
    hide Canon;
    if members != [] {
      SortByCommutes(less, members[1..]);
      assert CanonMembers(less, members)[1..] == CanonMembers(less, members[1..]);
      InsertCommutes(less, SortBy(less, members[1..]), members[0]);
    }
  }

  /** Printing with sorted keys is sorting and then printing. */
  lemma {:induction false} DumpIsSortedPrint(v: Json)
    ensures Dump(v) == Print(PyEscape, Canon(LexOrder.Less, v))
    decreases v, 1, 0
  {
    match v
    case Arr(items) => DumpItemsIsPrint(items, true);
    case Obj(members) =>
      var sorted := SortBy(LexOrder.Less, members);
      DumpMembersIsPrint(v, sorted, true);
      SortByCommutes(LexOrder.Less, members);
    case _ =>
  }

  lemma {:induction false} DumpItemsIsPrint(items: seq<Json>, first: bool)
    ensures DumpItems(items, first) == PrintItems(PyEscape, CanonItems(LexOrder.Less, items), first)
    decreases items, 0, |items|
  {
    hide Canon, Dump, Print;
    if items != [] {
      DumpIsSortedPrint(items[0]);
      DumpItemsIsPrint(items[1..], false);
      assert CanonItems(LexOrder.Less, items)[1..] == CanonItems(LexOrder.Less, items[1..]);
    }
  }

  lemma {:induction false} DumpMembersIsPrint(v: Json, rest: seq<Member>, first: bool)
    requires v.Obj? && forall m :: m in rest ==> m in v.members
    ensures DumpMembers(v, rest, first) == PrintMembers(PyEscape, CanonMembers(LexOrder.Less, rest), first)
    decreases v, 0, |rest|
  {
    hide Canon, Dump, Print, Quote;
    if rest != [] {
      assert rest[0] in v.members;
      DumpIsSortedPrint(rest[0].value);
      DumpMembersIsPrint(v, rest[1..], false);
      assert CanonMembers(LexOrder.Less, rest)[1..] == CanonMembers(LexOrder.Less, rest[1..]);
    }
  }

  /** The flight text decides the value up to member order. */
  lemma PyTextDecides(v: Json, w: Json)
    requires WellFormed(v) && WellFormed(w)
    ensures Dump(v) == Dump(w) <==> Meaning(v) == Meaning(w)
  {
    TextOrderTotal();
    PyDecodable();
    DumpIsSortedPrint(v);
    DumpIsSortedPrint(w);
    CanonTextDecides(PyEscape, LexOrder.Less, v, w);
  }
}
