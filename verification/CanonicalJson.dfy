/** JSON values written so that the order in which an object lists its keys does
    not show, and lists sorted by that writing where their order means nothing. */
module CanonicalJson {
  import opened Basics
  import opened JsonText

  ghost predicate DistinctKeys(entries: seq<Entry>) {
    forall i, j :: 0 <= i < j < |entries| ==> entries[i].key != entries[j].key
  }

  ghost predicate WellFormed(j: Json) {
    match j
    case Leaf(_) => true
    case Array(items) => forall i :: 0 <= i < |items| ==> WellFormed(items[i])
    case Object(entries) => DistinctKeys(entries) && forall i :: 0 <= i < |entries| ==> WellFormed(entries[i].value)
  }

  ghost function Denote(j: Json): Value
    decreases j, 0
  {
    match j
    case Leaf(leaf) => Atom(leaf)
    case Array(items) => List(seq(|items|, i requires 0 <= i < |items| => Denote(items[i])))
    case Object(entries) => Record(FieldsUpTo(j, |entries|))
  }

  ghost function FieldsUpTo(j: Json, n: nat): map<string, Value>
    requires j.Object? && n <= |j.entries|
    decreases j, 0, n
  {
    if n == 0 then map[] else FieldsUpTo(j, n - 1)[j.entries[n - 1].key := Denote(j.entries[n - 1].value)]
  }

  // --- the canonical form ---

  /** The order of the language's own string comparison, taken to tell any two strings apart. */
  ghost predicate TotalOrder(le: (string, string) -> bool) {
    TotalPreorder(le) && forall a, b :: le(a, b) && le(b, a) ==> a == b
  }

  function ByKey(le: (string, string) -> bool): (Entry, Entry) -> bool {
    (a: Entry, b: Entry) => le(a.key, b.key)
  }

  /** An object's keys sorted, at every level; lists as they are. */
  function Ordered(le: (string, string) -> bool, j: Json): Json {
    match j
    case Leaf(_) => j
    case Array(items) => Array(seq(|items|, i requires 0 <= i < |items| => Ordered(le, items[i])))
    case Object(entries) =>
      Object(Sort(ByKey(le), seq(|entries|, i requires 0 <= i < |entries| => Entry(entries[i].key, Ordered(le, entries[i].value)))))
  }

  lemma {:induction false} FieldsSay(j: Json, n: nat)
    requires j.Object? && DistinctKeys(j.entries) && n <= |j.entries|
    ensures forall i :: 0 <= i < n ==> j.entries[i].key in FieldsUpTo(j, n) && FieldsUpTo(j, n)[j.entries[i].key] == Denote(j.entries[i].value)
    ensures forall k :: k in FieldsUpTo(j, n) ==> exists i :: 0 <= i < n && j.entries[i].key == k
  {
    hide Denote;
    if n > 0 {
      FieldsSay(j, n - 1);
    }
  }

  /** What an object says is what its entries say, one by one. */
  lemma {:induction false} ObjectSays(j: Json)
    requires j.Object? && DistinctKeys(j.entries)
    ensures Denote(j).Record?
    ensures forall e :: e in j.entries ==> e.key in Denote(j).fields && Denote(j).fields[e.key] == Denote(e.value)
    ensures forall k :: k in Denote(j).fields ==> exists e :: e in j.entries && e.key == k
  {
    FieldsSay(j, |j.entries|);
    assert Denote(j) == Record(FieldsUpTo(j, |j.entries|));
    hide FieldsUpTo, Denote;
    forall k | k in Denote(j).fields ensures exists e :: e in j.entries && e.key == k {
      var i :| 0 <= i < |j.entries| && j.entries[i].key == k;
      assert j.entries[i] in j.entries;
    }
  }

  /** Each entry's key is one of the others', with a value that says the same. */
  ghost predicate CarriedBy(entries: seq<Entry>, others: seq<Entry>) {
    forall e :: e in entries ==> Carries(others, e)
  }

  ghost predicate Carries(others: seq<Entry>, e: Entry) {
    exists f :: f in others && f.key == e.key && Denote(f.value) == Denote(e.value)
  }

  lemma {:induction false} CarriedSays(a: Json, b: Json, k: string)
    requires a.Object? && b.Object? && DistinctKeys(a.entries) && DistinctKeys(b.entries) && CarriedBy(a.entries, b.entries)
    requires k in Denote(a).fields
    ensures k in Denote(b).fields && Denote(a).fields[k] == Denote(b).fields[k]
  {
    ObjectSays(a);
    ObjectSays(b);
    hide Denote, DistinctKeys;
    var e :| e in a.entries && e.key == k;
    assert Carries(b.entries, e);
  }

  lemma {:induction false} SameEntriesSay(a: Json, b: Json)
    requires a.Object? && b.Object? && DistinctKeys(a.entries) && DistinctKeys(b.entries)
    requires CarriedBy(a.entries, b.entries) && CarriedBy(b.entries, a.entries)
    ensures Denote(a) == Denote(b)
  {
    ObjectSays(a);
    ObjectSays(b);
    hide Denote, DistinctKeys, CarriedBy;
    forall k | k in Denote(a).fields ensures k in Denote(b).fields && Denote(a).fields[k] == Denote(b).fields[k] {
      CarriedSays(a, b, k);
    }
    forall k | k in Denote(b).fields ensures k in Denote(a).fields {
      CarriedSays(b, a, k);
    }
    SameRecords(Denote(a), Denote(b));
  }

  lemma {:induction false} SameRecords(v: Value, w: Value)
    requires v.Record? && w.Record? && forall k :: k in v.fields <==> k in w.fields
    requires forall k :: k in v.fields ==> v.fields[k] == w.fields[k]
    ensures v == w
  {
  }

  ghost predicate AllDistinct<T(!new)>(s: seq<T>) { forall i, j :: 0 <= i < j < |s| ==> s[i] != s[j] }

  lemma {:induction false} OnceEach<T(!new)>(s: seq<T>)
    requires AllDistinct(s)
    ensures forall x :: x in s ==> multiset(s)[x] == 1
  {
    if s != [] {
      var n := |s| - 1;
      assert s == s[..n] + [s[n]];
      OnceEach(s[..n]);
    }
  }

  lemma {:induction false} SameBag<T(!new)>(s: seq<T>, t: seq<T>)
    requires AllDistinct(s) && AllDistinct(t) && forall x :: x in s <==> x in t
    ensures multiset(s) == multiset(t)
  {
    OnceEach(s);
    OnceEach(t);
    forall x ensures multiset(s)[x] == multiset(t)[x] {
      assert x in multiset(s) <==> x in s;
      assert x in multiset(t) <==> x in t;
    }
  }

  /** Sorting by an order that tells the elements apart leaves no choice. */
  lemma {:induction false} SortedAlike<T(!new)>(le: (T, T) -> bool, s: seq<T>, t: seq<T>)
    requires SortedBy(le, s) && SortedBy(le, t) && multiset(s) == multiset(t)
    requires forall x, y :: x in s && y in s && le(x, y) && le(y, x) ==> x == y
    ensures s == t
  {
    assert |multiset(s)| == |multiset(t)|;
    if s != [] {
      HeadsAlike(le, s, t);
      TailBag(s);
      TailBag(t);
      SortedAlike(le, s[1..], t[1..]);
    }
  }

  lemma {:induction false} HeadsAlike<T(!new)>(le: (T, T) -> bool, s: seq<T>, t: seq<T>)
    requires SortedBy(le, s) && SortedBy(le, t) && multiset(s) == multiset(t) && s != [] && t != []
    requires forall x, y :: x in s && y in s && le(x, y) && le(y, x) ==> x == y
    ensures s[0] == t[0]
  {
    assert s[0] in multiset(t) && t[0] in multiset(s);
    var i :| 0 <= i < |t| && t[i] == s[0];
    var j :| 0 <= j < |s| && s[j] == t[0];
    if i > 0 && j > 0 {
      assert le(t[0], t[i]) && le(s[0], s[j]);
    }
  }

  lemma {:induction false} TailBag<T(!new)>(s: seq<T>)
    requires s != []
    ensures multiset(s[1..]) == multiset(s) - multiset{s[0]}
  {
    assert s == [s[0]] + s[1..];
  }

  lemma {:induction false} SortAlike<T(!new)>(le: (T, T) -> bool, s: seq<T>, t: seq<T>)
    requires TotalPreorder(le) && multiset(s) == multiset(t)
    requires forall x, y :: x in s && y in s && le(x, y) && le(y, x) ==> x == y
    ensures Sort(le, s) == Sort(le, t)
  {
    SortKeeps(le, s);
    SortKeeps(le, t);
    forall x | x in Sort(le, s) ensures x in s {
      assert x in multiset(s);
    }
    SortedAlike(le, Sort(le, s), Sort(le, t));
  }

  function OrderedEntries(le: (string, string) -> bool, entries: seq<Entry>): (ordered: seq<Entry>)
    ensures |ordered| == |entries|
  {
    seq(|entries|, i requires 0 <= i < |entries| => Entry(entries[i].key, Ordered(le, entries[i].value)))
  }

  lemma {:induction false} OrderedObject(le: (string, string) -> bool, entries: seq<Entry>)
    requires DistinctKeys(entries)
    ensures Ordered(le, Object(entries)) == Object(Sort(ByKey(le), OrderedEntries(le, entries)))
    ensures DistinctKeys(OrderedEntries(le, entries)) && AllDistinct(OrderedEntries(le, entries))
    ensures DistinctKeys(Sort(ByKey(le), OrderedEntries(le, entries)))
    ensures multiset(Sort(ByKey(le), OrderedEntries(le, entries))) == multiset(OrderedEntries(le, entries))
  {
    var plain := OrderedEntries(le, entries);
    SortKeeps(ByKey(le), plain);
    DistinctHowever(plain, Sort(ByKey(le), plain));
  }

  lemma {:induction false} DistinctHowever(s: seq<Entry>, t: seq<Entry>)
    requires DistinctKeys(s) && multiset(s) == multiset(t)
    ensures DistinctKeys(t)
  {
    OnceEach(s);
    forall i, j | 0 <= i < j < |t| ensures t[i].key != t[j].key {
      assert t[i] in multiset(s) && t[j] in multiset(s);
      var k :| 0 <= k < |s| && s[k] == t[i];
      var l :| 0 <= l < |s| && s[l] == t[j];
      if k == l {
        TwiceThere(t, i, j);
      }
    }
  }

  lemma {:induction false} TwiceThere<T(!new)>(t: seq<T>, i: nat, j: nat)
    requires i < j < |t| && t[i] == t[j]
    ensures multiset(t)[t[i]] >= 2
  {
    assert t == t[..j] + [t[j]] + t[j + 1..];
    assert t[i] in t[..j];
  }

  /** Whatever the comparison, ordering changes nothing that a value says. */
  lemma {:induction false} OrderedSays(le: (string, string) -> bool, j: Json)
    requires WellFormed(j)
    ensures Denote(Ordered(le, j)) == Denote(j)
    decreases j
  {
    match j
    case Leaf(_) =>
    case Array(items) =>
      forall i | 0 <= i < |items| ensures Denote(Ordered(le, items[i])) == Denote(items[i]) {
        OrderedSays(le, items[i]);
      }
    case Object(entries) =>
      OrderedObject(le, entries);
      var plain := OrderedEntries(le, entries);
      forall i | 0 <= i < |entries| ensures Denote(plain[i].value) == Denote(entries[i].value) {
        OrderedSays(le, entries[i].value);
      }
      OrderedObjectSays(le, entries);
  }

  lemma {:induction false} OrderedObjectSays(le: (string, string) -> bool, entries: seq<Entry>)
    requires DistinctKeys(entries)
    requires forall i :: 0 <= i < |entries| ==> Denote(OrderedEntries(le, entries)[i].value) == Denote(entries[i].value)
    ensures Denote(Ordered(le, Object(entries))) == Denote(Object(entries))
  {
    OrderedObject(le, entries);
    var plain := OrderedEntries(le, entries);
    var sorted := Sort(ByKey(le), plain);
    hide Denote, Ordered, Sort;
    forall e | e in entries ensures Carries(sorted, e) {
      var i :| 0 <= i < |entries| && entries[i] == e;
      assert plain[i] in multiset(sorted);
    }
    forall f | f in sorted ensures Carries(entries, f) {
      assert f in multiset(plain);
      var i :| 0 <= i < |plain| && plain[i] == f;
      assert entries[i] in entries;
    }
    SameEntriesSay(Object(entries), Object(sorted));
  }

  /** Two objects that say the same have the same entries once their values are ordered. */
  lemma {:induction false} SameOrdered(le: (string, string) -> bool, a: Json, b: Json)
    requires TotalOrder(le) && WellFormed(a) && WellFormed(b) && Denote(a) == Denote(b)
    ensures Ordered(le, a) == Ordered(le, b)
    decreases a
  {
    match a
    case Leaf(_) =>
    case Array(items) =>
      var denoted := Denote(a).items;
      forall i | 0 <= i < |items| ensures Ordered(le, items[i]) == Ordered(le, b.items[i]) {
        assert denoted[i] == Denote(items[i]) == Denote(b.items[i]);
        SameOrdered(le, items[i], b.items[i]);
      }
    case Object(entries) =>
      forall i, k | 0 <= i < |entries| && 0 <= k < |b.entries| && Denote(entries[i].value) == Denote(b.entries[k].value)
        ensures Ordered(le, entries[i].value) == Ordered(le, b.entries[k].value)
      {
        SameOrdered(le, entries[i].value, b.entries[k].value);
      }
      SameObjectsOrdered(le, entries, b.entries);
  }

  lemma {:induction false} SameObjectsOrdered(le: (string, string) -> bool, a: seq<Entry>, b: seq<Entry>)
    requires TotalOrder(le) && DistinctKeys(a) && DistinctKeys(b) && Denote(Object(a)) == Denote(Object(b))
    requires forall i, k :: 0 <= i < |a| && 0 <= k < |b| && Denote(a[i].value) == Denote(b[k].value)
               ==> Ordered(le, a[i].value) == Ordered(le, b[k].value)
    ensures Ordered(le, Object(a)) == Ordered(le, Object(b))
  {
    OrderedObject(le, a);
    OrderedObject(le, b);
    ObjectSays(Object(a));
    ObjectSays(Object(b));
    hide Denote, Ordered, Sort;
    EntriesCarryOver(le, a, b);
    EntriesCarryOver(le, b, a);
    SameBag(OrderedEntries(le, a), OrderedEntries(le, b));
    OrderByKey(le, OrderedEntries(le, a));
    SortAlike(ByKey(le), OrderedEntries(le, a), OrderedEntries(le, b));
  }

  lemma {:induction false} OrderByKey(le: (string, string) -> bool, entries: seq<Entry>)
    requires TotalOrder(le) && DistinctKeys(entries)
    ensures TotalPreorder(ByKey(le))
    ensures forall x, y :: x in entries && y in entries && ByKey(le)(x, y) && ByKey(le)(y, x) ==> x == y
  {
    forall x, y ensures ByKey(le)(x, y) || ByKey(le)(y, x) {
      assert le(x.key, y.key) || le(y.key, x.key);
    }
    forall x, y, z | ByKey(le)(x, y) && ByKey(le)(y, z) ensures ByKey(le)(x, z) {
      assert le(x.key, y.key) && le(y.key, z.key);
    }
  }

  lemma {:induction false} EntriesCarryOver(le: (string, string) -> bool, a: seq<Entry>, b: seq<Entry>)
    requires DistinctKeys(a) && DistinctKeys(b)
    requires Denote(Object(a)) == Denote(Object(b))
    requires forall i, k :: 0 <= i < |a| && 0 <= k < |b| && Denote(a[i].value) == Denote(b[k].value)
               ==> Ordered(le, a[i].value) == Ordered(le, b[k].value)
    ensures forall x :: x in OrderedEntries(le, a) ==> x in OrderedEntries(le, b)
  {
    ObjectSays(Object(a));
    ObjectSays(Object(b));
    hide Denote, Ordered;
    forall x | x in OrderedEntries(le, a) ensures x in OrderedEntries(le, b) {
      var i :| 0 <= i < |a| && x == OrderedEntries(le, a)[i];
      assert a[i] in Object(a).entries;
      var f :| f in Object(b).entries && f.key == a[i].key;
      var k :| 0 <= k < |b| && b[k] == f;
      assert OrderedEntries(le, b)[k] == x;
    }
  }

  /** Ordering keeps exactly what a value says: two values are ordered alike just if they say the same. */
  lemma {:induction false} OrderedExactly(le: (string, string) -> bool, a: Json, b: Json)
    requires TotalOrder(le) && WellFormed(a) && WellFormed(b)
    ensures Ordered(le, a) == Ordered(le, b) <==> Denote(a) == Denote(b)
  {
    OrderedSays(le, a);
    OrderedSays(le, b);
    if Denote(a) == Denote(b) {
      SameOrdered(le, a, b);
    }
  }

  /** Where a comparison ties two keys, the order they were put in shows. */
  lemma {:induction false} TiesShowTheOrder(le: (string, string) -> bool, a: string, b: string, v: Json)
    requires a != b && le(a, b) && le(b, a)
    ensures var one, other := Object([Entry(a, v), Entry(b, v)]), Object([Entry(b, v), Entry(a, v)]);
      Denote(one) == Denote(other) && Ordered(le, one) != Ordered(le, other)
  {
    var ea, eb := Entry(a, v), Entry(b, v);
    var one, other := Object([ea, eb]), Object([eb, ea]);
    forall e | e in one.entries || e in other.entries ensures Carries(one.entries, e) && Carries(other.entries, e) {
      assert e in one.entries && e in other.entries;
    }
    SameEntriesSay(one, other);
    hide Denote;
    var first, second := Entry(a, Ordered(le, v)), Entry(b, Ordered(le, v));
    TwoStay(ByKey(le), first, second);
    TwoStay(ByKey(le), second, first);
    assert OrderedEntries(le, [ea, eb]) == [first, second] && OrderedEntries(le, [eb, ea]) == [second, first];
    assert Ordered(le, one) == Object(Sort(ByKey(le), [first, second]));
    assert Ordered(le, other) == Object(Sort(ByKey(le), [second, first]));
    assert [first, second][0] != [second, first][0];
  }

  /** Values that say the same are ordered alike, in whatever order their objects list keys. */
  ghost predicate HidesKeyOrder(le: (string, string) -> bool) {
    forall a, b :: WellFormed(a) && WellFormed(b) && Denote(a) == Denote(b) ==> Ordered(le, a) == Ordered(le, b)
  }

  /** The order keys were put in is hidden exactly if the comparison ties no two strings. */
  lemma {:induction false} KeyOrderHiddenExactly(le: (string, string) -> bool)
    requires TotalPreorder(le)
    ensures HidesKeyOrder(le) <==> TotalOrder(le)
  {
    if TotalOrder(le) {
      forall a, b | WellFormed(a) && WellFormed(b) && Denote(a) == Denote(b) ensures Ordered(le, a) == Ordered(le, b) {
        SameOrdered(le, a, b);
      }
    }
    forall a, b | HidesKeyOrder(le) && le(a, b) && le(b, a) ensures a == b {
      if a != b {
        var v := Leaf(Null);
        TiesShowTheOrder(le, a, b, v);
        TwoWellFormed(a, b, v);
        TwoWellFormed(b, a, v);
      }
    }
  }

  lemma {:induction false} TwoWellFormed(a: string, b: string, v: Json)
    requires a != b && WellFormed(v)
    ensures WellFormed(Object([Entry(a, v), Entry(b, v)]))
  {
  }

  lemma {:induction false} TwoStay<T(!new)>(le: (T, T) -> bool, x: T, y: T)
    requires le(x, y)
    ensures Sort(le, [x, y]) == [x, y]
  {
    assert [x, y][..1] == [x] && [x][..0] == [];
    assert Sort(le, [x]) == Insert(le, x, []) == [x];
    assert Sort(le, [x, y]) == Insert(le, y, [x]);
  }

  // --- keys, and lists in no order ---

  /** What the model takes from the language: its string comparison, how it writes a
      number, and upper case. */
  datatype Language = Language(le: (string, string) -> bool, number: Double -> string, upper: string -> string)
  {
    /** The comparison ties no two strings, and numbers are told from their numerals. */
    ghost predicate Valid() { TotalOrder(le) && WritesNumbers(number) }
  }

  /** Strings compared by their characters' codes, and some way to write numbers. */
  function PlainLanguage(): Language { Language((a, b) => !StringBefore(b, a), Counted, s => s) }

  /** There is a language the laws of keys speak of, and a way to list every value's keys. */
  lemma {:induction false} SomeLanguage()
    ensures PlainLanguage().Valid() && exists l: Value -> Json :: IsListing(l)
  {
    var le := PlainLanguage().le;
    forall a, b ensures (le(a, b) || le(b, a)) && (le(a, b) && le(b, a) ==> a == b) {
      StringOrderIsTotal(a, b);
    }
    forall a, b, c | le(a, b) && le(b, c) ensures le(a, c) {
      StringOrderIsTotal(a, b);
      StringOrderIsTotal(b, c);
      NotAfterIsTransitive(a, b, c);
    }
    SomeWayToWriteNumbers();
    var l := (v: Value) => AnyListing(v);
    forall v ensures WellFormed(l(v)) && Denote(l(v)) == v {
      ListingExists(v);
    }
    assert IsListing(l);
  }

  lemma {:induction false} NotAfterIsTransitive(a: string, b: string, c: string)
    requires !StringBefore(b, a) && !StringBefore(c, b)
    ensures !StringBefore(c, a)
  {
    StringOrderIsTotal(a, b);
    StringOrderIsTotal(b, c);
    if StringBefore(c, a) && a != b && b != c {
      StringOrderIsTransitive(c, a, b);
    }
  }

  /** Some order in which each object lists its keys. */
  ghost predicate IsListing(l: Value -> Json) { forall v :: WellFormed(l(v)) && Denote(l(v)) == v }

  ghost function AnyListing(v: Value): Json
    decreases v, 1
  {
    match v
    case Atom(atom) => Leaf(atom)
    case List(items) => Array(seq(|items|, i requires 0 <= i < |items| => AnyListing(items[i])))
    case Record(fields) => Object(AnyEntries(v, fields.Keys))
  }

  ghost function AnyEntries(v: Value, keys: set<string>): seq<Entry>
    requires v.Record? && keys <= v.fields.Keys
    decreases v, 0, |keys|
  {
    if keys == {} then []
    else
      var k :| k in keys;
      AnyEntries(v, keys - {k}) + [Entry(k, AnyListing(v.fields[k]))]
  }

  /** Some entries list an object's fields of the given keys, each once. */
  ghost predicate AreEntries(entries: seq<Entry>, v: Value, keys: set<string>)
    requires v.Record? && keys <= v.fields.Keys
  {
    && DistinctKeys(entries)
    && (forall e :: e in entries ==> e.key in keys && e.value == AnyListing(v.fields[e.key]))
    && (forall k :: k in keys ==> HasKey(entries, k))
  }

  ghost predicate HasKey(entries: seq<Entry>, k: string) { exists i :: 0 <= i < |entries| && entries[i].key == k }

  lemma {:induction false} OneMoreEntry(rest: seq<Entry>, v: Value, keys: set<string>, k: string)
    requires v.Record? && keys <= v.fields.Keys && k in keys && AreEntries(rest, v, keys - {k})
    ensures AreEntries(rest + [Entry(k, AnyListing(v.fields[k]))], v, keys)
  {
    hide AnyListing;
    var entries := rest + [Entry(k, AnyListing(v.fields[k]))];
    forall x | x in keys ensures HasKey(entries, x) {
      if x == k {
        assert entries[|rest|].key == x;
      } else {
        assert HasKey(rest, x);
        var i :| 0 <= i < |rest| && rest[i].key == x;
        assert entries[i].key == x;
      }
    }
    forall i, j | 0 <= i < j < |entries| ensures entries[i].key != entries[j].key {
      assert rest[i] in rest;
    }
  }

  lemma {:induction false} AnyEntriesHold(v: Value, keys: set<string>)
    requires v.Record? && keys <= v.fields.Keys
    ensures AreEntries(AnyEntries(v, keys), v, keys)
    decreases |keys|
  {
    if keys != {} {
      var k :| k in keys && AnyEntries(v, keys) == AnyEntries(v, keys - {k}) + [Entry(k, AnyListing(v.fields[k]))];
      AnyEntriesHold(v, keys - {k});
      OneMoreEntry(AnyEntries(v, keys - {k}), v, keys, k);
      hide AnyListing, AreEntries;
    }
  }

  /** Every value can be listed. */
  lemma {:induction false} ListingExists(v: Value)
    ensures WellFormed(AnyListing(v)) && Denote(AnyListing(v)) == v
    decreases v
  {
    match v
    case Atom(_) =>
    case List(items) =>
      forall i | 0 <= i < |items| ensures WellFormed(AnyListing(items[i])) && Denote(AnyListing(items[i])) == items[i] {
        ListingExists(items[i]);
      }
      assert Denote(AnyListing(v)).items == items;
    case Record(fields) =>
      forall k | k in fields ensures WellFormed(AnyListing(fields[k])) && Denote(AnyListing(fields[k])) == fields[k] {
        ListingExists(fields[k]);
      }
      RecordListed(v);
  }

  lemma {:induction false} RecordListed(v: Value)
    requires v.Record? && forall k :: k in v.fields ==> WellFormed(AnyListing(v.fields[k])) && Denote(AnyListing(v.fields[k])) == v.fields[k]
    ensures WellFormed(AnyListing(v)) && Denote(AnyListing(v)) == v
  {
    AnyEntriesHold(v, v.fields.Keys);
    var j := Object(AnyEntries(v, v.fields.Keys));
    ObjectSays(j);
    assert AnyListing(v) == j;
    hide AnyListing, AnyEntries, Denote;
    forall i | 0 <= i < |j.entries| ensures WellFormed(j.entries[i].value) {
      assert j.entries[i] in j.entries;
    }
    forall k | k in v.fields ensures k in Denote(j).fields {
      assert HasKey(j.entries, k);
      var i :| 0 <= i < |j.entries| && j.entries[i].key == k;
      assert j.entries[i] in j.entries;
    }
    SameRecords(Denote(j), v);
  }

  function KeyOf(lang: Language, l: Value -> Json, v: Value): string { Stringified(lang.number, Ordered(lang.le, l(v))) }

  /** Whatever the comparison, one key is of one value. */
  lemma {:induction false} OneKeyOneValue(lang: Language, l: Value -> Json, l': Value -> Json, v: Value, w: Value)
    requires WritesNumbers(lang.number) && IsListing(l) && IsListing(l')
    ensures KeyOf(lang, l, v) == KeyOf(lang, l', w) ==> v == w
  {
    OrderedSays(lang.le, l(v));
    OrderedSays(lang.le, l'(w));
    hide Ordered, WellFormed, Denote, Stringified, WritesNumbers;
    if KeyOf(lang, l, v) == KeyOf(lang, l', w) {
      TextTellsApart(lang.number, Ordered(lang.le, l(v)), Ordered(lang.le, l'(w)));
    }
  }

  /** A key says exactly the value, however its objects list their keys. */
  lemma {:induction false} KeyExactly(lang: Language, l: Value -> Json, l': Value -> Json, v: Value, w: Value)
    requires lang.Valid() && IsListing(l) && IsListing(l')
    ensures KeyOf(lang, l, v) == KeyOf(lang, l', w) <==> v == w
  {
    OrderedExactly(lang.le, l(v), l'(w));
    OneKeyOneValue(lang, l, l', v, w);
    hide Ordered, WellFormed, Denote, Stringified, WritesNumbers;
  }

  function ByKeyText(lang: Language, l: Value -> Json): (Value, Value) -> bool {
    (a: Value, b: Value) => lang.le(KeyOf(lang, l, a), KeyOf(lang, l, b))
  }

  function Unordered(lang: Language, l: Value -> Json, values: seq<Value>): seq<Value> { Sort(ByKeyText(lang, l), values) }

  lemma {:induction false} InsertAgrees<T(!new)>(le: (T, T) -> bool, le': (T, T) -> bool, x: T, s: seq<T>)
    requires forall a, b :: le(a, b) == le'(a, b)
    ensures Insert(le, x, s) == Insert(le', x, s)
  {
    if s != [] { InsertAgrees(le, le', x, s[1..]); }
  }

  lemma {:induction false} SortAgrees<T(!new)>(le: (T, T) -> bool, le': (T, T) -> bool, s: seq<T>)
    requires forall a, b :: le(a, b) == le'(a, b)
    ensures Sort(le, s) == Sort(le', s)
  {
    if s != [] {
      SortAgrees(le, le', s[..|s| - 1]);
      InsertAgrees(le, le', s[|s| - 1], Sort(le, s[..|s| - 1]));
    }
  }

  lemma {:induction false} KeyTextPreorder(lang: Language, l: Value -> Json)
    requires TotalPreorder(lang.le)
    ensures TotalPreorder(ByKeyText(lang, l))
  {
    hide KeyOf;
    forall x, y ensures ByKeyText(lang, l)(x, y) || ByKeyText(lang, l)(y, x) {
      assert lang.le(KeyOf(lang, l, x), KeyOf(lang, l, y)) || lang.le(KeyOf(lang, l, y), KeyOf(lang, l, x));
    }
    forall x, y, z | ByKeyText(lang, l)(x, y) && ByKeyText(lang, l)(y, z) ensures ByKeyText(lang, l)(x, z) {
      assert lang.le(KeyOf(lang, l, x), KeyOf(lang, l, y)) && lang.le(KeyOf(lang, l, y), KeyOf(lang, l, z));
    }
  }

  lemma {:induction false} KeyTextOrders(lang: Language, l: Value -> Json)
    requires lang.Valid() && IsListing(l)
    ensures TotalPreorder(ByKeyText(lang, l))
    ensures TellsKeysApart(lang, l)
  {
    KeyTextPreorder(lang, l);
    forall x, y | ByKeyText(lang, l)(x, y) && ByKeyText(lang, l)(y, x) ensures x == y {
      KeyExactly(lang, l, l, x, y);
    }
  }

  /** Whether lists that hold the same are written alike. */
  ghost predicate HidesListOrder(lang: Language, l: Value -> Json) {
    forall vs, ws :: multiset(vs) == multiset(ws) ==> Unordered(lang, l, vs) == Unordered(lang, l, ws)
  }

  /** Whether the comparison ties the key texts of no two values. */
  ghost predicate TellsKeysApart(lang: Language, l: Value -> Json) {
    forall v, w :: ByKeyText(lang, l)(v, w) && ByKeyText(lang, l)(w, v) ==> v == w
  }

  lemma {:induction false} SameTwo<T(!new)>(x: T, y: T)
    ensures multiset([x, y]) == multiset([y, x])
  {
    assert multiset([x, y]) == multiset{x, y} == multiset([y, x]);
  }

  /** The order of a list is hidden exactly if the comparison ties no two values' keys. */
  lemma {:induction false} ListOrderHiddenExactly(lang: Language, l: Value -> Json)
    requires TotalPreorder(lang.le)
    ensures HidesListOrder(lang, l) <==> TellsKeysApart(lang, l)
  {
    var le := ByKeyText(lang, l);
    KeyTextPreorder(lang, l);
    hide KeyOf, ByKeyText;
    if TellsKeysApart(lang, l) {
      forall vs, ws | multiset(vs) == multiset(ws) ensures Unordered(lang, l, vs) == Unordered(lang, l, ws) {
        SortAlike(le, vs, ws);
      }
    }
    forall v, w | HidesListOrder(lang, l) && le(v, w) && le(w, v) ensures v == w {
      SameTwo(v, w);
      assert Unordered(lang, l, [v, w]) == Unordered(lang, l, [w, v]);
      TwoStay(le, v, w);
      TwoStay(le, w, v);
      assert [v, w][0] == [w, v][0];
    }
  }

  /** Whatever the comparison, lists in no order that come out alike hold the same, however often each. */
  lemma {:induction false} UnorderedKeeps(lang: Language, l: Value -> Json, l': Value -> Json, vs: seq<Value>, ws: seq<Value>)
    ensures Unordered(lang, l, vs) == Unordered(lang, l', ws) ==> multiset(vs) == multiset(ws)
  {
    SortKeeps(ByKeyText(lang, l), vs);
    SortKeeps(ByKeyText(lang, l'), ws);
  }

  /** Lists in no order come out alike exactly if they hold the same, however often each. */
  lemma {:induction false} UnorderedExactly(lang: Language, l: Value -> Json, l': Value -> Json, vs: seq<Value>, ws: seq<Value>)
    requires lang.Valid() && IsListing(l) && IsListing(l')
    ensures Unordered(lang, l, vs) == Unordered(lang, l', ws) <==> multiset(vs) == multiset(ws)
  {
    KeyTextOrders(lang, l);
    forall a, b ensures ByKeyText(lang, l)(a, b) == ByKeyText(lang, l')(a, b) {
      KeyExactly(lang, l, l', a, a);
      KeyExactly(lang, l, l', b, b);
    }
    hide KeyOf, IsListing, Language.Valid;
    SortAgrees(ByKeyText(lang, l), ByKeyText(lang, l'), ws);
    SortKeeps(ByKeyText(lang, l), vs);
    SortKeeps(ByKeyText(lang, l), ws);
    if multiset(vs) == multiset(ws) {
      SortAlike(ByKeyText(lang, l), vs, ws);
    }
  }
}
