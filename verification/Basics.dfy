/** Vocabulary shared by the models: optional values, results, the order of
    strings and a stable sort. */
module Basics {

  datatype Option<+T> = None | Some(value: T) {
    function GetOr(default: T): T {
      match this
      case Some(v) => v
      case None => default
    }
  }

  datatype Result<+T, +E> = Ok(value: T) | Err(error: E) {
    predicate IsFailure() { Err? }
    function PropagateFailure<U>(): Result<U, E>
      requires Err?
    {
      Err(error)
    }
    function Extract(): T
      requires Ok?
    {
      value
    }
  }

  /** The strict order of strings by their characters' codes. */
  predicate StringBefore(a: string, b: string) {
    if b == "" then false
    else if a == "" then true
    else a[0] < b[0] || (a[0] == b[0] && StringBefore(a[1..], b[1..]))
  }

  lemma {:induction false} StringOrderIsTotal(a: string, b: string)
    ensures StringBefore(a, b) || a == b || StringBefore(b, a)
    ensures !(StringBefore(a, b) && StringBefore(b, a))
    ensures !StringBefore(a, a)
  {
    if a != "" {
      StringOrderIsTotal(a[1..], a[1..]);
      if b != "" {
        StringOrderIsTotal(a[1..], b[1..]);
        assert a == [a[0]] + a[1..] && b == [b[0]] + b[1..];
      }
    }
  }

  lemma {:induction false} StringOrderIsTransitive(a: string, b: string, c: string)
    requires StringBefore(a, b) && StringBefore(b, c)
    ensures StringBefore(a, c)
  {
    if a != "" && a[0] == b[0] == c[0] {
      StringOrderIsTransitive(a[1..], b[1..], c[1..]);
    }
  }

  // --- whitespace, as the language trims it ---

  predicate IsSpace(c: char) {
    var n := c as int;
    0x9 <= n <= 0xd || n == 0x20 || n == 0xa0 || n == 0x1680 || 0x2000 <= n <= 0x200a
    || n == 0x2028 || n == 0x2029 || n == 0x202f || n == 0x205f || n == 0x3000 || n == 0xfeff
  }

  function Trim(s: string): string {
    if s != "" && IsSpace(s[0]) then Trim(s[1..])
    else if s != "" && IsSpace(s[|s| - 1]) then Trim(s[..|s| - 1])
    else s
  }

  // --- whole numbers written in digits ---

  function Digit(n: nat): char
    requires n < 10
  {
    '0' + n as char
  }

  function Decimal(n: nat): (s: string)
    ensures s != "" && forall c :: c in s ==> '0' <= c <= '9'
  {
    if n < 10 then [Digit(n)] else Decimal(n / 10) + [Digit(n % 10)]
  }

  function TwoDigits(n: nat): (s: string)
    requires n < 100
    ensures |s| == 2
  {
    [Digit(n / 10), Digit(n % 10)]
  }

  /** Two digits, and the number they write. */
  lemma {:induction false} DigitsReturn(a: char, b: char) returns (n: nat)
    requires '0' <= a <= '9' && '0' <= b <= '9'
    ensures n < 100 && TwoDigits(n) == [a, b]
  {
    n := (a as int - '0' as int) * 10 + (b as int - '0' as int);
  }

  lemma {:induction false} DigitsAre(n: nat)
    requires n < 100
    ensures var s := TwoDigits(n);
      && '0' <= s[0] <= '9' && '0' <= s[1] <= '9'
      && (n < 60 <==> s[0] <= '5')
      && (n < 24 <==> s[0] <= '1' || (s[0] == '2' && s[1] <= '3'))
      && (n < 25 <==> s[0] <= '1' || (s[0] == '2' && s[1] <= '4'))
  {
  }

  lemma {:induction false} OneDigitExactly(n: nat)
    ensures |Decimal(n)| == 1 <==> n < 10
  {
  }

  lemma {:induction false} DecimalIsInjective(m: nat, n: nat)
    requires Decimal(m) == Decimal(n)
    ensures m == n
  {
    var s := Decimal(m);
    assert s[|s| - 1] == Digit(m % 10) == Digit(n % 10);
    OneDigitExactly(m);
    OneDigitExactly(n);
    if m >= 10 {
      assert Decimal(m / 10) == s[..|s| - 1] == Decimal(n / 10);
      DecimalIsInjective(m / 10, n / 10);
    }
  }

  lemma {:induction false} SubsetSize<T>(a: set<T>, b: set<T>)
    requires a <= b
    ensures |a| <= |b|
  {
    assert b == a + (b - a);
  }

  // --- a stable sort, standing for the language's own ---

  ghost predicate TotalPreorder<T(!new)>(le: (T, T) -> bool) {
    && (forall x, y :: le(x, y) || le(y, x))
    && (forall x, y, z :: le(x, y) && le(y, z) ==> le(x, z))
  }

  ghost predicate SortedBy<T>(le: (T, T) -> bool, s: seq<T>) {
    forall i, j :: 0 <= i < j < |s| ==> le(s[i], s[j])
  }

  /** `s` with `x` put after every leading element that may precede it. */
  function Insert<T>(le: (T, T) -> bool, x: T, s: seq<T>): seq<T> {
    if s == [] then [x]
    else if le(s[0], x) then [s[0]] + Insert(le, x, s[1..])
    else [x] + s
  }

  function Sort<T>(le: (T, T) -> bool, s: seq<T>): seq<T> {
    if s == [] then [] else Insert(le, s[|s| - 1], Sort(le, s[..|s| - 1]))
  }

  lemma {:induction false} InsertSorts<T(!new)>(le: (T, T) -> bool, x: T, s: seq<T>)
    requires s != [] && TotalPreorder(le) && SortedBy(le, s)
    requires var rest := Insert(le, x, s[1..]); SortedBy(le, rest) && multiset(rest) == multiset(s[1..]) + multiset{x}
    ensures SortedBy(le, Insert(le, x, s))
  {
    var rest := Insert(le, x, s[1..]);
    if le(s[0], x) {
      forall k | 0 <= k < |rest| ensures le(s[0], rest[k]) {
        assert rest[k] in multiset(rest);
        assert rest[k] == x || rest[k] in s[1..];
      }
    } else {
      forall k | 0 <= k < |s| ensures le(x, s[k]) {
        assert le(x, s[0]) && (k == 0 || le(s[0], s[k]));
      }
    }
  }

  lemma {:induction false} InsertKeeps<T(!new)>(le: (T, T) -> bool, x: T, s: seq<T>)
    ensures multiset(Insert(le, x, s)) == multiset(s) + multiset{x}
    ensures |Insert(le, x, s)| == |s| + 1
    ensures TotalPreorder(le) && SortedBy(le, s) ==> SortedBy(le, Insert(le, x, s))
  {
    if s == [] {
    } else {
      assert s == [s[0]] + s[1..];
      InsertKeeps(le, x, s[1..]);
      if TotalPreorder(le) && SortedBy(le, s) {
        InsertSorts(le, x, s);
      }
    }
  }

  lemma {:induction false} SortKeeps<T(!new)>(le: (T, T) -> bool, s: seq<T>)
    ensures multiset(Sort(le, s)) == multiset(s)
    ensures |Sort(le, s)| == |s|
    ensures TotalPreorder(le) ==> SortedBy(le, Sort(le, s))
  {
    if s != [] {
      var n := |s| - 1;
      assert s == s[..n] + [s[n]];
      SortKeeps(le, s[..n]);
      InsertKeeps(le, s[n], Sort(le, s[..n]));
    }
  }

  /** Reals raised to whole powers; `x ** 0` is 1. */
  function Pow(x: real, n: nat): real {
    if n == 0 then 1.0 else x * Pow(x, n - 1)
  }

  lemma {:induction false} Scaled(x: real, p: real, q: real)
    requires 0.0 <= x <= 1.0 && 0.0 <= p && q == x * p
    ensures 0.0 <= q <= p
    ensures 0.0 < x && 0.0 < p ==> 0.0 < q
    ensures x < 1.0 && 0.0 < p ==> q < p
  {
    var d := 1.0 - x;
    assert p - q == d * p;
    if 0.0 < d && 0.0 < p {
      assert 0.0 < d * p;
    }
  }

  lemma {:induction false} PowInUnit(x: real, n: nat)
    requires 0.0 <= x <= 1.0
    ensures 0.0 <= Pow(x, n) <= 1.0
    ensures 0.0 < x ==> 0.0 < Pow(x, n)
  {
    if n > 0 {
      PowInUnit(x, n - 1);
      var p, q := Pow(x, n - 1), Pow(x, n);
      Scaled(x, p, q);
    }
  }

  lemma {:induction false} PowStep(x: real, n: nat)
    requires 0.0 < x < 1.0
    ensures Pow(x, n + 1) < Pow(x, n)
  {
    var p, q := Pow(x, n), Pow(x, n + 1);
    assert 0.0 < p by { PowInUnit(x, n); }
    Scaled(x, p, q);
  }

  lemma {:induction false} PowDecreases(x: real, m: nat, n: nat)
    requires 0.0 < x < 1.0 && m < n
    ensures Pow(x, n) < Pow(x, m)
    decreases n - m
  {
    PowStep(x, m);
    if m + 1 < n {
      PowDecreases(x, m + 1, n);
    }
  }

  /** What powers of `x` leave shrinks at least as one over the steps taken: Bernoulli's inequality. */
  lemma {:induction false} PowLeaves(x: real, d: real, n: nat, m: real)
    requires 0.0 < x < 1.0 && d == 1.0 - x && m == n as real
    ensures Pow(x, n) * Grown(m, d) <= 1.0
  {
    if n > 0 {
      PowLeaves(x, d, n - 1, m - 1.0);
      PowInUnit(x, n - 1);
      NextFactor(x, d, m);
      ScaledUpTo(x * Grown(m, d), Grown(m - 1.0, d), Pow(x, n - 1));
      Swapped(x, Pow(x, n - 1), Grown(m, d));
    }
  }

  function Grown(m: real, d: real): real { 1.0 + m * d }

  lemma {:induction false} NextFactor(x: real, d: real, m: real)
    requires x == 1.0 - d && 0.0 < d < 1.0 && 1.0 <= m
    ensures x * Grown(m, d) <= Grown(m - 1.0, d)
  {
    var a := Grown(m, d);
    assert a - d == Grown(m - 1.0, d);
    ScaledUpTo(0.0, m, d);
    ScaledUpTo(1.0, a, d);
    assert x * a == a - d * a;
  }

  lemma {:induction false} Swapped(x: real, p: real, b: real)
    ensures (x * p) * b == (x * b) * p
  {
  }

  lemma {:induction false} ScaledUp(a: real, b: real, x: real)
    requires a < b && 0.0 < x
    ensures a * x < b * x
  {
  }

  lemma {:induction false} ScaledUpTo(a: real, b: real, x: real)
    requires a <= b && 0.0 <= x
    ensures a * x <= b * x
  {
  }

  lemma {:induction false} Inverse(w: real) returns (v: real)
    requires 0.0 < w
    ensures 0.0 < v && v * w == 1.0
  {
    v := 1.0 / w;
  }

  lemma {:induction false} NextWhole(v: real) returns (n: nat, m: real)
    requires 0.0 < v
    ensures m == n as real && v < m
  {
    n := v.Floor + 1;
    m := n as real;
  }

  lemma {:induction false} StepsPast(w: real) returns (n: nat, m: real, y: real)
    requires 0.0 < w
    ensures m == n as real && 0.0 < m && y == m * w && 1.0 < y
  {
    var v := Inverse(w);
    n, m := NextWhole(v);
    y := m * w;
    ScaledUp(v, m, w);
    var one := v * w;
    assert one == 1.0 && one < y;
  }

  lemma {:induction false} GrownPast(bound: real, m: real, d: real, y: real) returns (g: real)
    requires 0.0 <= bound && 0.0 < m && 0.0 < d && y == m * (bound * d) && 1.0 < y
    ensures g == bound * Grown(m, d) && 1.0 < g && 0.0 < Grown(m, d)
  {
    ScaledUp(0.0, m, d);
    g := bound * Grown(m, d);
    assert g == bound + m * (bound * d);
  }

  lemma {:induction false} LargerFactor(p: real, bound: real, a: real, left: real, right: real)
    requires left == p * a && right == bound * a && 0.0 < a
    ensures bound <= p ==> right <= left
  {
    if bound <= p {
      ScaledUpTo(bound, p, a);
      assert right <= left;
    }
  }

  /** Powers of a fraction fall below every bound. */
  lemma {:induction false} PowVanishes(x: real, bound: real) returns (n: nat)
    requires 0.0 < x < 1.0 && 0.0 < bound
    ensures Pow(x, n) < bound
  {
    var d, m, y := 1.0 - x, 0.0, 0.0;
    ScaledUp(0.0, bound, d);
    n, m, y := StepsPast(bound * d);
    PowLeaves(x, d, n, m);
    var right := GrownPast(bound, m, d, y);
    hide Grown, Pow;
    LargerFactor(Pow(x, n), bound, Grown(m, d), Pow(x, n) * Grown(m, d), right);
  }

  lemma {:induction false} SomeKey<K, V>(m: map<K, V>) returns (k: K)
    requires m != map[]
    ensures k in m
  {
    k :| k in m;
  }
}
