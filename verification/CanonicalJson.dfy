/** The canonical form of a JSON value: object members sorted by key at every depth. The
    canonical text determines the value up to the order of object members. */
module CanonicalJson {
  import opened JsonText

  // ---- What a value means, whatever the order of its members ----

  datatype Tree =
    | TNull
    | TBool(b: bool)
    | TNum(n: SafeInteger)
    | TStr(s: string)
    | TArr(items: seq<Tree>)
    | TObj(members: map<string, Tree>)

  function Meaning(v: Json): Tree
    decreases v
  {
    match v
    case Null => TNull
    case Bool(b) => TBool(b)
    case Num(n) => TNum(n)
    case Str(s) => TStr(s)
    case Arr(items) => TArr(Meanings(items))
    case Obj(members) => TObj(MemberMeanings(members))
  }

  function Meanings(items: seq<Json>): (r: seq<Tree>)
    decreases items
  {
    if items == [] then [] else [Meaning(items[0])] + Meanings(items[1..])
  }

  function MemberMeanings(members: seq<Member>): map<string, Tree>
    decreases members
  {
    if members == [] then map[] else
      MemberMeanings(members[1..])[members[0].key := Meaning(members[0].value)]
  }

  predicate NoKey(members: seq<Member>, key: string) {
    forall m :: m in members ==> m.key != key
  }

  predicate DistinctKeys(members: seq<Member>) {
    members == [] || (NoKey(members[1..], members[0].key) && DistinctKeys(members[1..]))
  }

  /** No object has two members with one key. */
  predicate WellFormed(v: Json) {
    match v
    case Arr(items) => forall x :: x in items ==> WellFormed(x)
    case Obj(members) => DistinctKeys(members) && forall m :: m in members ==> WellFormed(m.value)
    case _ => true
  }

  // ---- Sorting members ----

  type Order = (string, string) -> bool

  ghost predicate StrictTotal(less: Order) {
    && (forall a :: !less(a, a))
    && (forall a, b, c :: less(a, b) && less(b, c) ==> less(a, c))
    && (forall a, b :: a == b || less(a, b) || less(b, a))
  }

  predicate Ahead(less: Order, key: string, members: seq<Member>) {
    forall m :: m in members ==> less(key, m.key)
  }

  predicate Ascending(less: Order, members: seq<Member>) {
    members == [] || (Ahead(less, members[0].key, members[1..]) && Ascending(less, members[1..]))
  }

  function Insert(less: Order, members: seq<Member>, m: Member): (r: seq<Member>)
    ensures forall x :: x in r <==> x == m || x in members
  {
    if members == [] then [m]
    else if less(m.key, members[0].key) then [m] + members
    else [members[0]] + Insert(less, members[1..], m)
  }

  function SortBy(less: Order, members: seq<Member>): (r: seq<Member>)
    ensures forall x :: x in r <==> x in members
  {
    if members == [] then [] else Insert(less, SortBy(less, members[1..]), members[0])
  }

  lemma {:induction false} InsertAscending(less: Order, members: seq<Member>, m: Member)
    requires StrictTotal(less) && Ascending(less, members) && NoKey(members, m.key)
    ensures Ascending(less, Insert(less, members, m))
  {
    if members != [] {
      var r := Insert(less, members, m);
      if less(m.key, members[0].key) {
        assert r[1..] == members;
      } else {
        InsertAscending(less, members[1..], m);
        assert r[1..] == Insert(less, members[1..], m);
      }
    }
  }

  lemma {:induction false} SortByAscending(less: Order, members: seq<Member>)
    requires StrictTotal(less) && DistinctKeys(members)
    ensures Ascending(less, SortBy(less, members))
  {
    if members != [] {
      SortByAscending(less, members[1..]);
      InsertAscending(less, SortBy(less, members[1..]), members[0]);
    }
  }

  lemma {:induction false} AscendingDistinct(less: Order, members: seq<Member>)
    requires StrictTotal(less) && Ascending(less, members)
    ensures DistinctKeys(members)
  {
    if members != [] {
      AscendingDistinct(less, members[1..]);
    }
  }

  /** An ascending list is determined by its members. */
  lemma {:induction false} AscendingUnique(less: Order, a: seq<Member>, b: seq<Member>)
    requires StrictTotal(less) && Ascending(less, a) && Ascending(less, b)
    requires forall x :: x in a <==> x in b
    ensures a == b
  {
    assert a != [] ==> a[0] in b;
    assert b != [] ==> b[0] in a;
    if a != [] {
      assert a == [a[0]] + a[1..] && b == [b[0]] + b[1..];
      assert a[0] == b[0];
      assert a[0] !in a[1..] && b[0] !in b[1..];
      forall x ensures x in a[1..] <==> x in b[1..] {
        assert x in a <==> x == a[0] || x in a[1..];
        assert x in b <==> x == b[0] || x in b[1..];
      }
      AscendingUnique(less, a[1..], b[1..]);
    }
  }

  // ---- The canonical form ----

  function Canon(less: Order, v: Json): (r: Json)
    decreases v
  {
    match v
    case Arr(items) => Arr(CanonItems(less, items))
    case Obj(members) => Obj(SortBy(less, CanonMembers(less, members)))
    case _ => v
  }

  function CanonItems(less: Order, items: seq<Json>): (r: seq<Json>)
    ensures |r| == |items| && forall i :: 0 <= i < |items| ==> r[i] == Canon(less, items[i])
    decreases items
  {
    if items == [] then [] else [Canon(less, items[0])] + CanonItems(less, items[1..])
  }

  function CanonMembers(less: Order, members: seq<Member>): (r: seq<Member>)
    ensures |r| == |members|
    ensures forall i :: 0 <= i < |members| ==> r[i] == Member(members[i].key, Canon(less, members[i].value))
    decreases members
  {
    if members == [] then [] else
      [Member(members[0].key, Canon(less, members[0].value))] + CanonMembers(less, members[1..])
  }

  /** Members ascend by key at every depth. */
  ghost predicate Canonical(less: Order, v: Json) {
    match v
    case Arr(items) => forall x :: x in items ==> Canonical(less, x)
    case Obj(members) => Ascending(less, members) && forall m :: m in members ==> Canonical(less, m.value)
    case _ => true
  }

  lemma CanonMembersKeys(less: Order, members: seq<Member>, key: string)
    ensures NoKey(CanonMembers(less, members), key) <==> NoKey(members, key)
  {
    var r := CanonMembers(less, members);
    if !NoKey(members, key) {
      var i :| 0 <= i < |members| && members[i].key == key;
      assert r[i] in r;
    }
  }

  lemma {:induction false} CanonMembersDistinct(less: Order, members: seq<Member>)
    requires DistinctKeys(members)
    ensures DistinctKeys(CanonMembers(less, members))
  {
    if members != [] {
      CanonMembersDistinct(less, members[1..]);
      CanonMembersKeys(less, members[1..], members[0].key);
      assert CanonMembers(less, members)[1..] == CanonMembers(less, members[1..]);
    }
  }

  lemma {:induction false} CanonIsCanonical(less: Order, v: Json)
    requires StrictTotal(less) && WellFormed(v)
    ensures Canonical(less, Canon(less, v))
    decreases v
  {
    hide StrictTotal;
    match v
    case Arr(items) =>
      forall i | 0 <= i < |items| ensures Canonical(less, Canon(less, items[i])) {
        CanonIsCanonical(less, items[i]);
      }
    case Obj(members) =>
      var each := CanonMembers(less, members);
      CanonMembersDistinct(less, members);
      SortByAscending(less, each);
      forall i | 0 <= i < |members| ensures Canonical(less, each[i].value) {
        assert members[i] in members;
        CanonIsCanonical(less, members[i].value);
      }
    case _ =>
  }

  // ---- Meaning is kept ----

  lemma {:induction false} MemberMeaningsAt(members: seq<Member>)
    requires DistinctKeys(members)
    ensures forall k :: k in MemberMeanings(members) <==> !NoKey(members, k)
    ensures forall m :: m in members ==> m.key in MemberMeanings(members) && MemberMeanings(members)[m.key] == Meaning(m.value)
  {
    if members != [] {
      MemberMeaningsAt(members[1..]);
      assert forall m :: m in members <==> m == members[0] || m in members[1..];
      assert forall k :: !NoKey(members, k) <==> members[0].key == k || !NoKey(members[1..], k);
    }
  }

  /** The meaning of an object does not depend on the order of its members. */
  lemma SameMembersSameMeaning(a: seq<Member>, b: seq<Member>)
    requires DistinctKeys(a) && DistinctKeys(b) && forall x :: x in a <==> x in b
    ensures MemberMeanings(a) == MemberMeanings(b)
  {
    MemberMeaningsAt(a);
    MemberMeaningsAt(b);
    forall k ensures k in MemberMeanings(a) <==> k in MemberMeanings(b) {
      assert NoKey(a, k) <==> NoKey(b, k);
    }
    forall k | k in MemberMeanings(a) ensures MemberMeanings(a)[k] == MemberMeanings(b)[k] {
      assert !NoKey(a, k);
      var m :| m in a && m.key == k;
    }
  }

  lemma {:induction false} CanonKeepsMeaning(less: Order, v: Json)
    requires StrictTotal(less) && WellFormed(v)
    ensures Meaning(Canon(less, v)) == Meaning(v)
    decreases v, 1
  {
    hide StrictTotal;
    match v
    case Arr(items) => CanonItemsKeepMeaning(less, items);
    case Obj(members) =>
      var each := CanonMembers(less, members);
      CanonMembersDistinct(less, members);
      SortByAscending(less, each);
      AscendingDistinct(less, SortBy(less, each));
      SameMembersSameMeaning(SortBy(less, each), each);
      CanonMembersKeepMeaning(less, members);
    case _ =>
  }

  lemma {:induction false} CanonItemsKeepMeaning(less: Order, items: seq<Json>)
    requires StrictTotal(less) && forall x :: x in items ==> WellFormed(x)
    ensures Meanings(CanonItems(less, items)) == Meanings(items)
    decreases items, 0
  {
    if items != [] {
      CanonKeepsMeaning(less, items[0]);
      CanonItemsKeepMeaning(less, items[1..]);
      assert CanonItems(less, items)[1..] == CanonItems(less, items[1..]);
    }
  }

  lemma {:induction false} CanonMembersKeepMeaning(less: Order, members: seq<Member>)
    requires StrictTotal(less) && forall m :: m in members ==> WellFormed(m.value)
    ensures MemberMeanings(CanonMembers(less, members)) == MemberMeanings(members)
    decreases members, 0
  {
    if members != [] {
      assert members[0] in members;
      CanonKeepsMeaning(less, members[0].value);
      CanonMembersKeepMeaning(less, members[1..]);
      assert CanonMembers(less, members)[1..] == CanonMembers(less, members[1..]);
    }
  }

  // ---- Meaning decides the canonical form ----

  lemma {:induction false} CanonicalUnique(less: Order, v: Json, w: Json)
    requires StrictTotal(less) && Canonical(less, v) && Canonical(less, w)
    requires Meaning(v) == Meaning(w)
    ensures v == w
    decreases v, 1
  {
    hide StrictTotal;
    match v
    case Arr(items) => CanonicalItemsUnique(less, items, w.items);
    case Obj(members) => CanonicalMembersUnique(less, members, w.members);
    case _ =>
  }

  lemma {:induction false} CanonicalItemsUnique(less: Order, a: seq<Json>, b: seq<Json>)
    requires StrictTotal(less)
    requires (forall x :: x in a ==> Canonical(less, x)) && (forall x :: x in b ==> Canonical(less, x))
    requires Meanings(a) == Meanings(b)
    ensures a == b
    decreases a, 0
  {
    assert a == [] <==> b == [];
    if a != [] {
      var p, q := Meanings(a), Meanings(b);
      assert p[0] == q[0] && p[1..] == Meanings(a[1..]) && q[1..] == Meanings(b[1..]);
      CanonicalUnique(less, a[0], b[0]);
      CanonicalItemsUnique(less, a[1..], b[1..]);
      assert a == [a[0]] + a[1..] && b == [b[0]] + b[1..];
    }
  }

  /** The first of the ascending members has the least key of the meaning. */
  lemma FirstKeyLeast(less: Order, members: seq<Member>, k: string)
    requires StrictTotal(less) && Ascending(less, members) && members != []
    requires k in MemberMeanings(members)
    ensures k == members[0].key || less(members[0].key, k)
  {
    AscendingDistinct(less, members);
    MemberMeaningsAt(members);
    assert !NoKey(members, k);
    var m :| m in members && m.key == k;
    assert m == members[0] || m in members[1..];
  }

  lemma MemberMeaningsTail(members: seq<Member>)
    requires DistinctKeys(members) && members != []
    ensures MemberMeanings(members[1..]) == MemberMeanings(members) - {members[0].key}
    ensures members[0].key in MemberMeanings(members)
    ensures MemberMeanings(members)[members[0].key] == Meaning(members[0].value)
  {
    hide Meaning;
    MemberMeaningsAt(members[1..]);
    ghost var tail, m := MemberMeanings(members[1..]), members[0];
    assert m.key !in tail;
    assert MemberMeanings(members) == tail[m.key := Meaning(m.value)];
    hide MemberMeanings;
    PutAndTake(tail, m.key, Meaning(m.value));
  }

  lemma PutAndTake(tail: map<string, Tree>, k: string, t: Tree)
    requires k !in tail
    ensures tail[k := t] - {k} == tail
  {
  }

  lemma {:induction false} CanonicalMembersUnique(less: Order, a: seq<Member>, b: seq<Member>)
    requires StrictTotal(less) && Ascending(less, a) && Ascending(less, b)
    requires (forall m :: m in a ==> Canonical(less, m.value)) && (forall m :: m in b ==> Canonical(less, m.value))
    requires MemberMeanings(a) == MemberMeanings(b)
    ensures a == b
    decreases a, 0
  {
    hide Canonical, MemberMeanings, Meaning;
    MemberMeaningsEmpty(a);
    MemberMeaningsEmpty(b);
    if a != [] {
      AscendingDistinct(less, a);
      AscendingDistinct(less, b);
      MemberMeaningsTail(a);
      MemberMeaningsTail(b);
      FirstKeyLeast(less, a, b[0].key);
      FirstKeyLeast(less, b, a[0].key);
      assert a[0].key == b[0].key;
      assert a[0] in a && b[0] in b;
      CanonicalUnique(less, a[0].value, b[0].value);
      CanonicalMembersUnique(less, a[1..], b[1..]);
      assert a == [a[0]] + a[1..] && b == [b[0]] + b[1..];
    }
  }

  lemma MemberMeaningsEmpty(members: seq<Member>)
    ensures MemberMeanings(members) == map[] <==> members == []
  {
    if members != [] {
      assert members[0].key in MemberMeanings(members);
    }
  }

  /** Two values have one canonical form exactly when they are equal up to the order of
      object members at every depth. */
  lemma CanonDecides(less: Order, v: Json, w: Json)
    requires StrictTotal(less) && WellFormed(v) && WellFormed(w)
    ensures Canon(less, v) == Canon(less, w) <==> Meaning(v) == Meaning(w)
  {
    CanonKeepsMeaning(less, v);
    CanonKeepsMeaning(less, w);
    if Meaning(v) == Meaning(w) {
      CanonIsCanonical(less, v);
      CanonIsCanonical(less, w);
      CanonicalUnique(less, Canon(less, v), Canon(less, w));
    }
  }

  /** The canonical text decides the meaning, whatever total order and readable escapes. */
  lemma CanonTextDecides(esc: Escape, less: Order, v: Json, w: Json)
    requires Decodable(esc) && StrictTotal(less) && WellFormed(v) && WellFormed(w)
    ensures Print(esc, Canon(less, v)) == Print(esc, Canon(less, w)) <==> Meaning(v) == Meaning(w)
  {
    CanonDecides(less, v, w);
    if Print(esc, Canon(less, v)) == Print(esc, Canon(less, w)) {
      TextDecidesValue(esc, Canon(less, v), Canon(less, w));
    }
  }

  lemma {:induction false} CanonicalWellFormed(less: Order, v: Json)
    requires StrictTotal(less) && Canonical(less, v)
    ensures WellFormed(v)
    decreases v
  {
    hide StrictTotal;
    match v
    case Arr(items) =>
      forall x | x in items ensures WellFormed(x) {
        CanonicalWellFormed(less, x);
      }
    case Obj(members) =>
      AscendingDistinct(less, members);
      forall m | m in members ensures WellFormed(m.value) {
        CanonicalWellFormed(less, m.value);
      }
    case _ =>
  }

  /** Sorting again changes nothing. */
  lemma CanonIdempotent(less: Order, v: Json)
    requires StrictTotal(less) && WellFormed(v)
    ensures Canon(less, Canon(less, v)) == Canon(less, v)
  {
    CanonIsCanonical(less, v);
    CanonicalWellFormed(less, Canon(less, v));
    CanonKeepsMeaning(less, v);
    CanonDecides(less, Canon(less, v), v);
  }
}
