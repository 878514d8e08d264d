/** JSON values, and the text the language writes them as (section 25.5.2 of ECMA-262):
    the text alone tells any two of them apart. How a number is written is a parameter,
    of which no more is asked than that it tells numbers apart and uses a number's characters. */
module JsonText {
  import opened Basics

  /** A whole multiple of the smallest positive double, as every finite double is. */
  predicate IsDouble(x: real) {
    var y := x * Pow(2.0, 1074);
    y == y.Floor as real
  }

  type Double = x: real | IsDouble(x) witness 0.0

  datatype Scalar = Null | Flag(b: bool) | Number(n: Double) | Text(s: string)

  /** What a JSON value says: an object is its fields, in no order. */
  datatype Value = Atom(atom: Scalar) | List(items: seq<Value>) | Record(fields: map<string, Value>)

  datatype Entry = Entry(key: string, value: Json)

  /** A JSON value as it is held: an object lists its keys in the order they were put in. */
  datatype Json = Leaf(leaf: Scalar) | Array(items: seq<Json>) | Object(entries: seq<Entry>)

  // --- strings ---

  /** The letter that stands after a backslash for a character that has one. */
  function Short(c: char): Option<char> {
    if c == '\"' || c == '\\' then Some(c)
    else if c == '\n' then Some('n') else if c == '\r' then Some('r') else if c == '\t' then Some('t')
    else if c == 8 as char then Some('b') else if c == 12 as char then Some('f')
    else None
  }

  function Hex(n: nat): char
    requires n < 16
  {
    if n < 10 then '0' + n as char else 'a' + (n - 10) as char
  }

  function Escape(c: char): string {
    if Short(c).Some? then ['\\', Short(c).value]
    else if c < ' ' then ['\\', 'u', '0', '0', Hex(c as int / 16), Hex(c as int % 16)]
    else [c]
  }

  // --- what an escape stands for (section 7 of RFC 8259) ---

  function HexValue(c: char): Option<nat> {
    if '0' <= c <= '9' then Some(c as int - '0' as int) else if 'a' <= c <= 'f' then Some(c as int - 'a' as int + 10) else None
  }

  /** The character two after a backslash, four hexadecimal digits after `u`, or one by itself, stand for. */
  function ReadEscape(e: string): Option<char> {
    if |e| == 1 then (if e[0] as int < 0x20 || e[0] == '\"' || e[0] == '\\' then None else Some(e[0]))
    else if |e| == 2 && e[0] == '\\' then
      (if e[1] == '\"' || e[1] == '\\' then Some(e[1])
       else if e[1] == 'b' then Some(0x8 as char) else if e[1] == 't' then Some(0x9 as char) else if e[1] == 'n' then Some(0xa as char)
       else if e[1] == 'f' then Some(0xc as char) else if e[1] == 'r' then Some(0xd as char) else None)
    else if |e| == 6 && e[0] == '\\' && e[1] == 'u' && e[2] == '0' && e[3] == '0' && HexValue(e[4]).Some? && HexValue(e[5]).Some? then
      var n := HexValue(e[4]).value * 16 + HexValue(e[5]).value;
      assert n < 256;
      Some(n as char)
    else None
  }

  /** What is written for a character stands for it, and is the character itself, or two characters,
      wherever that can be. */
  lemma {:induction false} EscapeReads(c: char)
    ensures ReadEscape(Escape(c)) == Some(c)
    ensures |Escape(c)| == 1 <==> ReadEscape([c]) == Some(c)
    ensures |Escape(c)| == 6 ==> forall d: char :: ReadEscape(['\\', d]) != Some(c)
  {
  }

  /** The characters of a string and the quote that ends it. */
  function Chars(s: string): string {
    if s == "" then "\"" else Escape(s[0]) + Chars(s[1..])
  }

  function Quoted(s: string): string { "\"" + Chars(s) }

  lemma {:induction false} HexApart(m: nat, n: nat)
    requires m < 16 && n < 16 && Hex(m) == Hex(n)
    ensures m == n
  {
  }

  lemma {:induction false} ShortApart(c: char, d: char)
    requires Short(c).Some? && Short(d).Some?
    ensures Short(c) == Short(d) ==> c == d
    ensures Short(c).value != 'u'
  {
  }

  lemma {:induction false} EscapeApart(c: char, d: char, r: string, q: string)
    requires Escape(c) + r == Escape(d) + q
    ensures c == d && r == q
  {
    var (s, t) := (Escape(c) + r, Escape(d) + q);
    assert s[0] == Escape(c)[0] && t[0] == Escape(d)[0];
    if Short(c).Some? || Short(d).Some? || c < ' ' || d < ' ' {
      assert s[1] == Escape(c)[1] && t[1] == Escape(d)[1];
      if Short(c).Some? && Short(d).Some? {
        ShortApart(c, d);
        SameFront(Escape(c), r, q);
      } else if Short(c).None? && Short(d).None? {
        assert s[4] == Hex(c as int / 16) && t[4] == Hex(d as int / 16);
        assert s[5] == Hex(c as int % 16) && t[5] == Hex(d as int % 16);
        HexApart(c as int / 16, d as int / 16);
        HexApart(c as int % 16, d as int % 16);
        SameFront(Escape(c), r, q);
      }
    } else {
      SameFront(Escape(c), r, q);
    }
  }

  lemma {:induction false} SameFront(front: string, r: string, q: string)
    requires front + r == front + q
    ensures r == q
  {
    assert (front + r)[|front|..] == r && (front + q)[|front|..] == q;
  }

  lemma {:induction false} CharsNext(s: string, r: string)
    requires s != ""
    ensures Chars(s) + r == Escape(s[0]) + (Chars(s[1..]) + r)
  {
    hide Escape;
  }

  lemma {:induction false} CharsApart(s: string, t: string, r: string, q: string)
    requires Chars(s) + r == Chars(t) + q
    ensures s == t && r == q
    decreases |s|
  {
    QuoteEnds(s, r);
    QuoteEnds(t, q);
    if s == "" {
      SameFront("\"", r, q);
    } else {
      hide Chars, Escape;
      CharsNext(s, r);
      CharsNext(t, q);
      EscapeApart(s[0], t[0], Chars(s[1..]) + r, Chars(t[1..]) + q);
      CharsApart(s[1..], t[1..], r, q);
      assert s == [s[0]] + s[1..] && t == [t[0]] + t[1..];
    }
  }

  lemma {:induction false} QuotedApart(s: string, t: string, r: string, q: string)
    requires Quoted(s) + r == Quoted(t) + q
    ensures s == t && r == q
  {
    hide Chars;
    assert Quoted(s) + r == "\"" + (Chars(s) + r);
    assert Quoted(t) + q == "\"" + (Chars(t) + q);
    SameFront("\"", Chars(s) + r, Chars(t) + q);
    CharsApart(s, t, r, q);
  }

  lemma {:induction false} QuoteEnds(s: string, r: string)
    ensures Chars(s) != "" && (Chars(s) + r)[0] == Chars(s)[0]
    ensures Chars(s)[0] == '\"' <==> s == ""
  {
  }

  // --- numbers ---

  predicate IsNumeric(c: char) { '0' <= c <= '9' || c == '-' || c == '+' || c == '.' || c == 'e' }

  predicate IsNumeralText(s: string) { s != "" && forall c :: c in s ==> IsNumeric(c) }

  /** A way to write numbers: as numerals, and no two alike. */
  ghost predicate WritesNumbers(numeral: Double -> string) {
    && (forall x :: IsNumeralText(numeral(x)))
    && (forall x, y :: numeral(x) == numeral(y) ==> x == y)
  }

  /** What may stand after a value. */
  predicate Ends(s: string) { s == "" || s[0] in ",]}" }

  lemma {:induction false} NumericGoesOn(s: string, r: string)
    requires s != "" && forall c :: c in s ==> IsNumeric(c)
    ensures !Ends(s + r) && (s + r)[0] == s[0] && (s + r)[1..] == s[1..] + r
  {
    assert s[0] in s;
  }

  lemma {:induction false} NumeralsApart(s: string, t: string, r: string, q: string)
    requires (forall c :: c in s ==> IsNumeric(c)) && (forall c :: c in t ==> IsNumeric(c))
    requires Ends(r) && Ends(q) && s + r == t + q
    ensures s == t && r == q
    decreases |s|
  {
    if s != "" { NumericGoesOn(s, r); } else { assert s + r == r; }
    if t != "" { NumericGoesOn(t, q); } else { assert t + q == q; }
    hide Ends, IsNumeric;
    if s != "" {
      NumeralsApart(s[1..], t[1..], r, q);
      assert s == [s[0]] + s[1..] && t == [t[0]] + t[1..];
    }
  }

  // --- values ---

  function ScalarText(numeral: Double -> string, leaf: Scalar): string {
    match leaf
    case Null => "null"
    case Flag(b) => if b then "true" else "false"
    case Number(n) => numeral(n)
    case Text(s) => Quoted(s)
  }

  function Comma(i: nat): string { if i == 0 then "" else "," }

  /** The text of a JSON value. */
  function Stringified(numeral: Double -> string, j: Json): string
    decreases j, 1, 0
  {
    match j
    case Leaf(leaf) => ScalarText(numeral, leaf)
    case Array(_) => "[" + ItemsFrom(numeral, j, 0)
    case Object(_) => "{" + MembersFrom(numeral, j, 0)
  }

  /** The items from `i` on, and the bracket that ends them. */
  function ItemsFrom(numeral: Double -> string, j: Json, i: nat): string
    requires j.Array? && i <= |j.items|
    decreases j, 0, |j.items| - i
  {
    if i == |j.items| then "]" else Comma(i) + (Stringified(numeral, j.items[i]) + ItemsFrom(numeral, j, i + 1))
  }

  function MembersFrom(numeral: Double -> string, j: Json, i: nat): string
    requires j.Object? && i <= |j.entries|
    decreases j, 0, |j.entries| - i
  {
    if i == |j.entries| then "}"
    else
      var e := j.entries[i];
      Comma(i) + (Quoted(e.key) + (":" + (Stringified(numeral, e.value) + MembersFrom(numeral, j, i + 1))))
  }

  /** The first character of a value's text tells what kind of value it is. */
  lemma {:induction false} Begins(numeral: Double -> string, j: Json)
    requires WritesNumbers(numeral)
    ensures Stringified(numeral, j) != ""
    ensures var c := Stringified(numeral, j)[0];
      match j
      case Leaf(Null) => c == 'n'
      case Leaf(Flag(b)) => c == if b then 't' else 'f'
      case Leaf(Number(_)) => IsNumeric(c)
      case Leaf(Text(_)) => c == '\"'
      case Array(_) => c == '['
      case Object(_) => c == '{'
  {
    if j.Leaf? && j.leaf.Number? {
      var s := numeral(j.leaf.n);
      assert IsNumeralText(s) && s[0] in s;
    }
  }

  lemma {:induction false} ItemsBegin(numeral: Double -> string, j: Json, i: nat)
    requires WritesNumbers(numeral) && j.Array? && i <= |j.items|
    ensures var s := ItemsFrom(numeral, j, i);
      s != "" && (s[0] == ']' <==> i == |j.items|) && (0 < i ==> Ends(s))
  {
    if i < |j.items| {
      Begins(numeral, j.items[i]);
    }
  }

  lemma {:induction false} MembersBegin(numeral: Double -> string, j: Json, i: nat)
    requires WritesNumbers(numeral) && j.Object? && i <= |j.entries|
    ensures var s := MembersFrom(numeral, j, i);
      s != "" && (s[0] == '}' <==> i == |j.entries|) && (0 < i ==> Ends(s))
  {
  }

  lemma {:induction false} ArrayText(numeral: Double -> string, j: Json, r: string)
    requires j.Array?
    ensures Stringified(numeral, j) + r == "[" + (ItemsFrom(numeral, j, 0) + r)
  {
    hide ItemsFrom;
  }

  lemma {:induction false} ObjectText(numeral: Double -> string, j: Json, r: string)
    requires j.Object?
    ensures Stringified(numeral, j) + r == "{" + (MembersFrom(numeral, j, 0) + r)
  {
    hide MembersFrom;
  }

  /** Texts that begin alike are of values of one kind. */
  lemma {:induction false} OneKind(numeral: Double -> string, a: Json, b: Json, r: string, q: string)
    requires WritesNumbers(numeral) && Stringified(numeral, a) + r == Stringified(numeral, b) + q
    ensures a.Array? == b.Array? && a.Object? == b.Object?
    ensures a.Leaf? ==> b.Leaf? && a.leaf.Null? == b.leaf.Null? && a.leaf.Number? == b.leaf.Number? && a.leaf.Text? == b.leaf.Text?
    ensures a.Leaf? && a.leaf.Flag? ==> b == a
  {
    Begins(numeral, a);
    Begins(numeral, b);
    hide Stringified;
    assert (Stringified(numeral, a) + r)[0] == Stringified(numeral, a)[0];
    assert (Stringified(numeral, b) + q)[0] == Stringified(numeral, b)[0];
  }

  /** Values can be told from how a text goes on: no text of a value is the start of another's. */
  lemma {:induction false} TextsApart(numeral: Double -> string, a: Json, b: Json, r: string, q: string)
    requires WritesNumbers(numeral) && Ends(r) && Ends(q)
    requires Stringified(numeral, a) + r == Stringified(numeral, b) + q
    ensures a == b && r == q
    decreases a, 1, 0
  {
    OneKind(numeral, a, b, r, q);
    hide WritesNumbers, Ends, ItemsFrom, MembersFrom, ScalarText;
    match a
    case Leaf(leaf) => ScalarsApart(numeral, leaf, b.leaf, r, q);
    case Array(_) =>
      hide Stringified;
      ArrayText(numeral, a, r);
      ArrayText(numeral, b, q);
      SameFront("[", ItemsFrom(numeral, a, 0) + r, ItemsFrom(numeral, b, 0) + q);
      ItemsApart(numeral, a, b, 0, r, q);
      assert a.items[0..] == a.items && b.items[0..] == b.items;
    case Object(_) =>
      hide Stringified;
      ObjectText(numeral, a, r);
      ObjectText(numeral, b, q);
      SameFront("{", MembersFrom(numeral, a, 0) + r, MembersFrom(numeral, b, 0) + q);
      MembersApart(numeral, a, b, 0, r, q);
      assert a.entries[0..] == a.entries && b.entries[0..] == b.entries;
  }

  lemma {:induction false} ScalarsApart(numeral: Double -> string, a: Scalar, b: Scalar, r: string, q: string)
    requires WritesNumbers(numeral) && Ends(r) && Ends(q)
    requires a.Null? == b.Null? && a.Number? == b.Number? && a.Text? == b.Text? && (a.Flag? ==> b == a)
    requires ScalarText(numeral, a) + r == ScalarText(numeral, b) + q
    ensures a == b && r == q
  {
    hide Quoted, Ends, IsNumeric;
    match a
    case Null => SameFront("null", r, q);
    case Flag(_) => SameFront(ScalarText(numeral, a), r, q);
    case Number(n) =>
      assert IsNumeralText(numeral(n)) && IsNumeralText(numeral(b.n));
      NumeralsApart(numeral(n), numeral(b.n), r, q);
    case Text(text) => QuotedApart(text, b.s, r, q);
  }

  lemma {:induction false} ItemText(numeral: Double -> string, j: Json, i: nat, r: string)
    requires j.Array? && i < |j.items|
    ensures ItemsFrom(numeral, j, i) + r == Comma(i) + (Stringified(numeral, j.items[i]) + (ItemsFrom(numeral, j, i + 1) + r))
  {
    hide Stringified;
  }

  lemma {:induction false} ItemsEnd(numeral: Double -> string, a: Json, b: Json, i: nat, r: string, q: string)
    requires WritesNumbers(numeral) && a.Array? && b.Array? && i <= |a.items| && i <= |b.items|
    requires ItemsFrom(numeral, a, i) + r == ItemsFrom(numeral, b, i) + q
    ensures i == |a.items| <==> i == |b.items|
    ensures i == |a.items| ==> r == q
  {
    ItemsBegin(numeral, a, i);
    ItemsBegin(numeral, b, i);
    assert (ItemsFrom(numeral, a, i) + r)[0] == ItemsFrom(numeral, a, i)[0];
    assert (ItemsFrom(numeral, b, i) + q)[0] == ItemsFrom(numeral, b, i)[0];
    if i == |a.items| {
      SameFront("]", r, q);
    }
  }

  lemma {:induction false} ItemsApart(numeral: Double -> string, a: Json, b: Json, i: nat, r: string, q: string)
    requires WritesNumbers(numeral) && a.Array? && b.Array? && i <= |a.items| && i <= |b.items|
    requires ItemsFrom(numeral, a, i) + r == ItemsFrom(numeral, b, i) + q
    ensures a.items[i..] == b.items[i..] && r == q
    decreases a, 0, |a.items| - i
  {
    ItemsEnd(numeral, a, b, i, r, q);
    if i < |a.items| {
      hide Stringified, ItemsFrom, WritesNumbers, Ends, Comma;
      var (x, y) := (a.items[i], b.items[i]);
      var (r', q') := (ItemsFrom(numeral, a, i + 1) + r, ItemsFrom(numeral, b, i + 1) + q);
      ItemText(numeral, a, i, r);
      ItemText(numeral, b, i, q);
      SameFront(Comma(i), Stringified(numeral, x) + r', Stringified(numeral, y) + q');
      ItemsBegin(numeral, a, i + 1);
      ItemsBegin(numeral, b, i + 1);
      EndsOn(ItemsFrom(numeral, a, i + 1), r);
      EndsOn(ItemsFrom(numeral, b, i + 1), q);
      TextsApart(numeral, x, y, r', q');
      ItemsApart(numeral, a, b, i + 1, r, q);
      assert a.items[i..] == [x] + a.items[i + 1..] && b.items[i..] == [y] + b.items[i + 1..];
    }
  }

  lemma {:induction false} EndsOn(s: string, r: string)
    requires s != "" && Ends(s)
    ensures Ends(s + r)
  {
  }

  lemma {:induction false} MembersEnd(numeral: Double -> string, a: Json, b: Json, i: nat, r: string, q: string)
    requires WritesNumbers(numeral) && a.Object? && b.Object? && i <= |a.entries| && i <= |b.entries|
    requires MembersFrom(numeral, a, i) + r == MembersFrom(numeral, b, i) + q
    ensures i == |a.entries| <==> i == |b.entries|
    ensures i == |a.entries| ==> r == q
  {
    MembersBegin(numeral, a, i);
    MembersBegin(numeral, b, i);
    assert (MembersFrom(numeral, a, i) + r)[0] == MembersFrom(numeral, a, i)[0];
    assert (MembersFrom(numeral, b, i) + q)[0] == MembersFrom(numeral, b, i)[0];
    if i == |a.entries| {
      SameFront("}", r, q);
    }
  }

  lemma {:induction false} MembersApart(numeral: Double -> string, a: Json, b: Json, i: nat, r: string, q: string)
    requires WritesNumbers(numeral) && a.Object? && b.Object? && i <= |a.entries| && i <= |b.entries|
    requires MembersFrom(numeral, a, i) + r == MembersFrom(numeral, b, i) + q
    ensures a.entries[i..] == b.entries[i..] && r == q
    decreases a, 0, |a.entries| - i
  {
    MembersEnd(numeral, a, b, i, r, q);
    if i < |a.entries| {
      var (x, y) := (a.entries[i], b.entries[i]);
      var (r', q') := (MembersFrom(numeral, a, i + 1) + r, MembersFrom(numeral, b, i + 1) + q);
      MembersBegin(numeral, a, i + 1);
      MembersBegin(numeral, b, i + 1);
      MemberText(numeral, a, i, r);
      MemberText(numeral, b, i, q);
      EndsOn(MembersFrom(numeral, a, i + 1), r);
      EndsOn(MembersFrom(numeral, b, i + 1), q);
      hide Stringified, MembersFrom, Quoted, Ends, WritesNumbers, Comma;
      SameFront(Comma(i), Quoted(x.key) + (":" + (Stringified(numeral, x.value) + r')), Quoted(y.key) + (":" + (Stringified(numeral, y.value) + q')));
      QuotedApart(x.key, y.key, ":" + (Stringified(numeral, x.value) + r'), ":" + (Stringified(numeral, y.value) + q'));
      SameFront(":", Stringified(numeral, x.value) + r', Stringified(numeral, y.value) + q');
      TextsApart(numeral, x.value, y.value, r', q');
      MembersApart(numeral, a, b, i + 1, r, q);
      assert a.entries[i..] == [x] + a.entries[i + 1..] && b.entries[i..] == [y] + b.entries[i + 1..];
    }
  }

  lemma {:induction false} Regrouped(a: string, b: string, c: string, d: string, e: string, r: string)
    ensures (a + (b + (c + (d + e)))) + r == a + (b + (c + (d + (e + r))))
  {
    assert (d + e) + r == d + (e + r);
    assert (c + (d + e)) + r == c + ((d + e) + r);
    assert (b + (c + (d + e))) + r == b + ((c + (d + e)) + r);
    assert (a + (b + (c + (d + e)))) + r == a + ((b + (c + (d + e))) + r);
  }

  lemma {:induction false} MemberText(numeral: Double -> string, j: Json, i: nat, r: string)
    requires j.Object? && i < |j.entries|
    ensures var e := j.entries[i];
      MembersFrom(numeral, j, i) + r
      == Comma(i) + (Quoted(e.key) + (":" + (Stringified(numeral, e.value) + (MembersFrom(numeral, j, i + 1) + r))))
  {
    hide Quoted, Stringified, Comma;
    var e := j.entries[i];
    Regrouped(Comma(i), Quoted(e.key), ":", Stringified(numeral, e.value), MembersFrom(numeral, j, i + 1), r);
  }

  /** The text of a JSON value tells which it is. */
  lemma {:induction false} TextTellsApart(numeral: Double -> string, a: Json, b: Json)
    requires WritesNumbers(numeral) && Stringified(numeral, a) == Stringified(numeral, b)
    ensures a == b
  {
    hide Stringified;
    assert Stringified(numeral, a) + "" == Stringified(numeral, b) + "";
    TextsApart(numeral, a, b, "", "");
  }

  // --- some way to write numbers ---

  lemma {:induction false} PowPositive(x: real, n: nat)
    requires 0.0 < x
    ensures 0.0 < Pow(x, n)
  {
    if n > 0 {
      PowPositive(x, n - 1);
      ScaledUp(0.0, x, Pow(x, n - 1));
    }
  }

  function Steps(x: Double): int { (x * Pow(2.0, 1074)).Floor }

  lemma {:induction false} StepsApart(x: Double, y: Double)
    requires Steps(x) == Steps(y)
    ensures x == y
  {
    var unit := Pow(2.0, 1074);
    PowPositive(2.0, 1074);
    hide Pow;
    assert IsDouble(x) && IsDouble(y);
    assert x * unit == y * unit;
    if x < y { ScaledUp(x, y, unit); }
    if y < x { ScaledUp(y, x, unit); }
  }

  function Counted(x: Double): string {
    if Steps(x) < 0 then "-" + Decimal(-Steps(x)) else Decimal(Steps(x))
  }

  /** There are such ways: a number written as its multiple of the smallest one. */
  lemma {:induction false} SomeWayToWriteNumbers()
    ensures WritesNumbers(Counted)
  {
    forall x: Double ensures IsNumeralText(Counted(x)) {
    }
    forall x: Double, y: Double | Counted(x) == Counted(y) ensures x == y {
      CountedApart(x, y);
    }
  }

  lemma {:induction false} CountedApart(x: Double, y: Double)
    requires Counted(x) == Counted(y)
    ensures x == y
  {
    var (m, n) := (Steps(x), Steps(y));
    hide Steps, Decimal;
    var (a, b) := (Decimal(if m < 0 then -m else m), Decimal(if n < 0 then -n else n));
    assert a[0] in a && b[0] in b;
    assert m < 0 <==> Counted(x)[0] == '-';
    assert n < 0 <==> Counted(y)[0] == '-';
    if m < 0 {
      SameFront("-", a, b);
    }
    DecimalIsInjective(if m < 0 then -m else m, if n < 0 then -n else n);
    StepsApart(x, y);
  }
}
