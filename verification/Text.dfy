/** Byte strings as Go sees them: ordering, sorting, decimal rendering, and the
    hash hypotheses the other modules are stated against.

    A Go string is a byte string; here it is a `string` with one character per byte.
    SHA-256 is a function parameter. A hash with fixed-length digests cannot be
    injective on all inputs, so every theorem that leans on the hash asks only that it
    be collision free on the finite set of messages the theorem talks about. */
module Text {

  datatype Option<+T> = None | Some(value: T)

  datatype Result<+T, +E> = Ok(value: T) | Err(error: E)

  type Hash = string -> string

  ghost predicate CollisionFree(h: Hash, messages: set<string>) {
    forall a, b :: a in messages && b in messages && h(a) == h(b) ==> a == b
  }

  function Repeat(c: char, n: nat): string { seq(n, _ => c) }

  function Itself(s: string): string { s }

  /** What a write that fails after `n` bytes leaves. */
  function Prefix(s: string, n: nat): string { if n < |s| then s[..n] else s }

  /* Ordering: Go's `<` on strings. */

  predicate Less(a: string, b: string) {
    b != "" && (a == "" || a[0] < b[0] || (a[0] == b[0] && Less(a[1..], b[1..])))
  }

  /** One string comes before another if it ends first, or has the smaller byte where they
      first differ. */
  lemma {:induction false} LessIff(a: string, b: string)
    ensures Less(a, b) <==>
            exists n :: 0 <= n <= |a| && n < |b| && a[..n] == b[..n] && (n == |a| || a[n] < b[n])
  {
    if a == "" || b == "" || a[0] != b[0] {
      assert a[..0] == b[..0];
      assert forall n :: 0 < n <= |a| && n <= |b| ==> a[..n][0] == a[0] && b[..n][0] == b[0];
    } else {
      LessIff(a[1..], b[1..]);
      if n :| 0 <= n <= |a| && n < |b| && a[..n] == b[..n] && (n == |a| || a[n] < b[n]) {
        assert n > 0 && a[1..][..n - 1] == a[..n][1..] && b[1..][..n - 1] == b[..n][1..];
      }
      if n :| 0 <= n <= |a[1..]| && n < |b[1..]| && a[1..][..n] == b[1..][..n]
              && (n == |a[1..]| || a[1..][n] < b[1..][n]) {
        assert a[..n + 1] == [a[0]] + a[1..][..n] && b[..n + 1] == [b[0]] + b[1..][..n];
      }
    }
  }

  lemma LessIrreflexive(a: string)
    ensures !Less(a, a)
  {
  }

  lemma LessTransitive(a: string, b: string, c: string)
    requires Less(a, b) && Less(b, c)
    ensures Less(a, c)
  {
  }

  lemma LessTotal(a: string, b: string)
    ensures a == b || Less(a, b) || Less(b, a)
  {
    if a != "" && b != "" && a[0] == b[0] {
      LessTotal(a[1..], b[1..]);
      assert a == [a[0]] + a[1..] && b == [b[0]] + b[1..];
    }
  }

  lemma NotLessTransitive(a: string, b: string, c: string)
    requires !Less(b, a) && !Less(c, b)
    ensures !Less(c, a)
  {
    LessTotal(a, b);
    LessTotal(b, c);
    if Less(c, a) {
      if a == b || b == c {
      } else {
        LessTransitive(a, b, c);
        LessTransitive(c, a, c);
        LessIrreflexive(c);
      }
    }
  }

  /* Sorting: `sort.Slice` with a string key. */

  ghost predicate Sorted<T>(s: seq<T>, key: T -> string) {
    forall i, j :: 0 <= i < j < |s| ==> !Less(key(s[j]), key(s[i]))
  }

  ghost predicate StrictlySorted<T>(s: seq<T>, key: T -> string) {
    forall i, j :: 0 <= i < j < |s| ==> Less(key(s[i]), key(s[j]))
  }

  /** What a sort of `s` may deliver: `sort.Slice` promises no more than this. */
  ghost predicate IsSortOf<T>(t: seq<T>, s: seq<T>, key: T -> string) {
    multiset(t) == multiset(s) && Sorted(t, key)
  }

  /** Elements with the same key are the same element. */
  ghost predicate KeyDetermines<T>(s: seq<T>, key: T -> string) {
    forall x, y :: x in s && y in s && key(x) == key(y) ==> x == y
  }

  ghost predicate DistinctKeys<T>(s: seq<T>, key: T -> string) {
    forall i, j :: 0 <= i < j < |s| ==> key(s[i]) != key(s[j])
  }

  function Insert<T>(x: T, s: seq<T>, key: T -> string): (r: seq<T>)
    ensures multiset(r) == multiset{x} + multiset(s)
  {
    if s == [] then [x]
    else if Less(key(s[0]), key(x)) then
      assert s == [s[0]] + s[1..];
      [s[0]] + Insert(x, s[1..], key)
    else [x] + s
  }

  function SortBy<T>(s: seq<T>, key: T -> string): (r: seq<T>)
    ensures multiset(r) == multiset(s)
  {
    if s == [] then []
    else
      assert s == [s[0]] + s[1..];
      Insert(s[0], SortBy(s[1..], key), key)
  }

  lemma {:induction false} InsertSorted<T>(x: T, s: seq<T>, key: T -> string)
    requires Sorted(s, key)
    ensures Sorted(Insert(x, s, key), key)
  {
    if s == [] {
    } else if Less(key(s[0]), key(x)) {
      var rest := Insert(x, s[1..], key);
      InsertSorted(x, s[1..], key);
      forall j | 0 <= j < |rest| ensures !Less(key(rest[j]), key(s[0])) {
        assert rest[j] in multiset(rest);
        if rest[j] == x {
          NotLessBoth(key(s[0]), key(x));
        } else {
          assert rest[j] in s[1..];
        }
      }
    } else {
      forall j | 0 <= j < |s| ensures !Less(key(s[j]), key(x)) {
        if j > 0 {
          NotLessTransitive(key(x), key(s[0]), key(s[j]));
        }
      }
    }
  }

  lemma NotLessBoth(a: string, b: string)
    requires Less(a, b)
    ensures !Less(b, a)
  {
    if Less(b, a) {
      LessTransitive(a, b, a);
      LessIrreflexive(a);
    }
  }

  /** The sort delivers a sorted permutation, whatever the keys. */
  lemma {:induction false} SortBySorted<T>(s: seq<T>, key: T -> string)
    ensures IsSortOf(SortBy(s, key), s, key)
  {
    if s != [] {
      SortBySorted(s[1..], key);
      InsertSorted(s[0], SortBy(s[1..], key), key);
    }
  }

  lemma {:induction false} SortOfSorted<T>(s: seq<T>, key: T -> string)
    requires Sorted(s, key)
    ensures SortBy(s, key) == s
  {
    if s != [] {
      SortOfSorted(s[1..], key);
      assert s == [s[0]] + s[1..];
    }
  }

  lemma SortedHead<T>(s: seq<T>, t: seq<T>, key: T -> string)
    requires Sorted(s, key) && IsSortOf(t, s, key) && KeyDetermines(s, key) && s != []
    ensures t != [] && s[0] == t[0]
  {
    assert s[0] in multiset(t);
    assert t != [];
    assert t[0] in multiset(s);
    LessTotal(key(s[0]), key(t[0]));
    var i :| 0 <= i < |t| && t[i] == s[0];
    var j :| 0 <= j < |s| && s[j] == t[0];
    assert !Less(key(s[0]), key(t[0])) && !Less(key(t[0]), key(s[0])) by {
      LessIrreflexive(key(s[0]));
    }
  }

  lemma SortedTail<T>(s: seq<T>, key: T -> string)
    requires Sorted(s, key) && s != []
    ensures Sorted(s[1..], key)
  {
  }

  lemma SamePermutedTail<T>(s: seq<T>, t: seq<T>)
    requires multiset(s) == multiset(t) && s != [] && t != [] && s[0] == t[0]
    ensures multiset(s[1..]) == multiset(t[1..])
  {
    HeadAndTail(s);
    HeadAndTail(t);
    assert multiset(s[1..]) == multiset(s) - multiset{s[0]};
  }

  lemma HeadAndTail<T>(s: seq<T>)
    requires s != []
    ensures multiset(s) == multiset{s[0]} + multiset(s[1..])
  {
    assert s == [s[0]] + s[1..];
  }

  lemma KeyDeterminesTail<T>(s: seq<T>, key: T -> string)
    requires KeyDetermines(s, key) && s != []
    ensures KeyDetermines(s[1..], key)
  {
    assert forall x :: x in s[1..] ==> x in s;
  }

  lemma {:induction false} SortedIsUnique<T>(s: seq<T>, t: seq<T>, key: T -> string)
    requires Sorted(s, key) && IsSortOf(t, s, key) && KeyDetermines(s, key)
    ensures s == t
  {
    if s == [] {
      assert |t| == |multiset(t)| == 0;
    } else {
      SortedHead(s, t, key);
      SortedTail(s, key);
      SortedTail(t, key);
      SamePermutedTail(s, t);
      KeyDeterminesTail(s, key);
      SortedIsUnique(s[1..], t[1..], key);
      assert s == [s[0]] + s[1..] && t == [t[0]] + t[1..];
    }
  }

  /** Two equal keys on different elements leave the sort a choice. */
  lemma TieGivesTwoSorts<T>(s: seq<T>, key: T -> string, x: T, y: T) returns (t: seq<T>, u: seq<T>)
    requires x in s && y in s && key(x) == key(y) && x != y
    ensures IsSortOf(t, s, key) && IsSortOf(u, s, key) && t != u
  {
    t := SortBy(s, key);
    SortBySorted(s, key);
    assert x in multiset(t) && y in multiset(t);
    var i :| 0 <= i < |t| && t[i] == x;
    var j :| 0 <= j < |t| && t[j] == y;
    u := SwapTie(t, key, i, j);
  }

  lemma SwapTie<T>(t: seq<T>, key: T -> string, i: nat, j: nat) returns (u: seq<T>)
    requires Sorted(t, key) && i < |t| && j < |t| && key(t[i]) == key(t[j]) && t[i] != t[j]
    ensures multiset(u) == multiset(t) && Sorted(u, key) && u != t
  {
    u := t[i := t[j]][j := t[i]];
    assert forall k :: 0 <= k < |t| ==> key(u[k]) == key(t[k]);
    assert u[i] == t[j];
  }

  /** `sort.Slice` is not stable: its contract is a sorted permutation. The outcome is
      the same for every such sort exactly when equal keys mean equal elements. */
  lemma AnySortAgreesIff<T(!new)>(s: seq<T>, key: T -> string)
    ensures KeyDetermines(s, key) <==>
            (forall t, u :: IsSortOf(t, s, key) && IsSortOf(u, s, key) ==> t == u)
  {
    if KeyDetermines(s, key) {
      forall t, u | IsSortOf(t, s, key) && IsSortOf(u, s, key) ensures t == u
      {
        KeyDeterminesPermute(s, t, key);
        SortedIsUnique(t, u, key);
      }
    } else {
      var x, y :| x in s && y in s && key(x) == key(y) && x != y;
      var t, u := TieGivesTwoSorts(s, key, x, y);
    }
  }

  lemma KeyDeterminesPermute<T>(s: seq<T>, t: seq<T>, key: T -> string)
    requires multiset(s) == multiset(t) && KeyDetermines(s, key)
    ensures KeyDetermines(t, key)
  {
    forall x, y | x in t && y in t && key(x) == key(y) ensures x == y {
      assert x in multiset(s) && y in multiset(s);
    }
  }

  lemma SortedDistinctIsStrict<T>(s: seq<T>, key: T -> string)
    requires Sorted(s, key) && DistinctKeys(s, key)
    ensures StrictlySorted(s, key)
  {
    forall i, j | 0 <= i < j < |s| ensures Less(key(s[i]), key(s[j])) {
      LessTotal(key(s[i]), key(s[j]));
    }
  }

  lemma RepeatCounts<T>(t: seq<T>, i: nat, j: nat)
    requires i < j < |t| && t[i] == t[j]
    ensures multiset(t)[t[i]] >= 2
  {
    assert t == t[..j] + t[j..];
    assert t[..j][i] == t[i] && t[j..][0] == t[i];
    assert t[i] in multiset(t[..j]) && t[i] in multiset(t[j..]);
  }

  lemma DistinctCounts<T>(s: seq<T>, key: T -> string, k: nat)
    requires DistinctKeys(s, key) && k < |s|
    ensures multiset(s)[s[k]] == 1
  {
    assert s == s[..k] + [s[k]] + s[k + 1..];
    assert forall i :: 0 <= i < k ==> s[..k][i] != s[k];
    var after := s[k + 1..];
    forall i | 0 <= i < |after| ensures after[i] != s[k] {
      assert after[i] == s[k + 1 + i];
    }
    assert s[k] !in multiset(s[..k]) && s[k] !in multiset(after);
  }

  /** Distinctness of keys only depends on which elements occur, and how often. */
  lemma DistinctKeysPermute<T>(s: seq<T>, t: seq<T>, key: T -> string)
    requires multiset(s) == multiset(t) && DistinctKeys(s, key)
    ensures DistinctKeys(t, key) && KeyDetermines(t, key)
  {
    forall x, y | x in t && y in t && key(x) == key(y) ensures x == y {
      assert x in multiset(s) && y in multiset(s);
    }
    forall i, j | 0 <= i < j < |t| ensures key(t[i]) != key(t[j]) {
      assert t[i] in multiset(s);
      var k :| 0 <= k < |s| && s[k] == t[i];
      DistinctCounts(s, key, k);
      if t[i] == t[j] {
        RepeatCounts(t, i, j);
      }
    }
  }

  lemma RemoveAt<T>(t: seq<T>, k: nat)
    requires k < |t|
    ensures multiset(t) == multiset{t[k]} + multiset(t[..k] + t[k + 1..])
  {
    assert t == t[..k] + [t[k]] + t[k + 1..];
  }

  lemma PositionOf<T>(t: seq<T>, x: T, s: seq<T>) returns (k: nat)
    requires x in s && multiset(s) == multiset(t)
    ensures k < |t| && t[k] == x
  {
    assert x in multiset(t);
    k :| 0 <= k < |t| && t[k] == x;
  }

  lemma SamePermutedRest<T>(s: seq<T>, t: seq<T>, k: nat)
    requires multiset(s) == multiset(t) && k < |t| && s != [] && t[k] == s[0]
    ensures multiset(s[1..]) == multiset(t[..k] + t[k + 1..])
  {
    assert s == [s[0]] + s[1..];
    RemoveAt(t, k);
    assert multiset(s[1..]) == multiset(s) - multiset{s[0]};
    assert multiset(t[..k] + t[k + 1..]) == multiset(t) - multiset{s[0]};
  }

  lemma DistinctGrows(s: seq<string>, x: string)
    ensures DistinctKeys(s + [x], Itself) <==> DistinctKeys(s, Itself) && x !in s
  {
    var longer := s + [x];
    assert forall i :: 0 <= i < |s| ==> longer[i] == s[i];
    assert longer[|s|] == x;
    if DistinctKeys(longer, Itself) {
      forall i | 0 <= i < |s| ensures s[i] != x {
        assert Itself(longer[i]) != Itself(longer[|s|]);
      }
      forall i, j | 0 <= i < j < |s| ensures Itself(s[i]) != Itself(s[j]) {
        assert Itself(longer[i]) != Itself(longer[j]);
      }
    }
  }

  lemma StrictIsDistinct<T>(s: seq<T>, key: T -> string)
    requires StrictlySorted(s, key)
    ensures Sorted(s, key) && DistinctKeys(s, key)
  {
    forall i, j | 0 <= i < j < |s| ensures key(s[i]) != key(s[j]) && !Less(key(s[j]), key(s[i])) {
      NotLessBoth(key(s[i]), key(s[j]));
      LessIrreflexive(key(s[i]));
    }
  }

  /** With distinct keys, holding the same elements means being permutations. */
  lemma SameElementsPermute<T(!new)>(s: seq<T>, t: seq<T>, key: T -> string)
    requires DistinctKeys(s, key) && DistinctKeys(t, key)
    requires forall x :: x in s <==> x in t
    ensures multiset(s) == multiset(t)
  {
    forall x ensures multiset(s)[x] == multiset(t)[x] {
      if x in s {
        var i :| 0 <= i < |s| && s[i] == x;
        var j :| 0 <= j < |t| && t[j] == x;
        DistinctCounts(s, key, i);
        DistinctCounts(t, key, j);
      } else {
        assert x !in multiset(s) && x !in multiset(t);
      }
    }
  }

  /* Decimal rendering: `%d`, strconv.FormatUint and strconv.ParseUint. */

  function Digit(n: nat): (c: char)
    requires n < 10
    ensures '0' <= c <= '9'
  {
    ('0' as int + n) as char
  }

  function Digits(n: nat): (s: string)
    ensures s != "" && forall i :: 0 <= i < |s| ==> '0' <= s[i] <= '9'
  {
    if n < 10 then [Digit(n)] else Digits(n / 10) + [Digit(n % 10)]
  }

  function Decimal(n: int): string {
    if n < 0 then "-" + Digits(-n) else Digits(n)
  }

  predicate AllDigits(s: string) {
    forall i :: 0 <= i < |s| ==> '0' <= s[i] <= '9'
  }

  function DigitsValue(s: string): nat
    requires AllDigits(s)
  {
    if s == "" then 0 else DigitsValue(s[..|s| - 1]) * 10 + (s[|s| - 1] as int - '0' as int)
  }

  lemma {:induction false} DigitsRoundTrip(n: nat)
    ensures DigitsValue(Digits(n)) == n
  {
    if n >= 10 {
      DigitsRoundTrip(n / 10);
      assert Digits(n)[..|Digits(n)| - 1] == Digits(n / 10);
    } else {
      assert Digits(n)[..0] == "";
    }
  }

  lemma DecimalInjective(m: int, n: int)
    requires Decimal(m) == Decimal(n)
    ensures m == n
  {
    assert m < 0 ==> Decimal(m)[0] == '-' && Decimal(m)[1..] == Digits(-m);
    assert n < 0 ==> Decimal(n)[0] == '-' && Decimal(n)[1..] == Digits(-n);
    DigitsRoundTrip(if m < 0 then -m else m);
    DigitsRoundTrip(if n < 0 then -n else n);
  }

  lemma DecimalHasNo(n: int, c: char)
    requires c != '-' && !('0' <= c <= '9')
    ensures c !in Decimal(n)
  {
  }

  /** A field that does not contain its own terminator is recovered by cutting at it. */
  lemma CutAtTerminator(c: char, a: string, b: string, x: string, y: string)
    requires c !in a && c !in b
    requires a + [c] + x == b + [c] + y
    ensures a == b && x == y
  {
    assert (a + [c] + x)[|a|] == c && (b + [c] + y)[|b|] == c;
    assert forall i :: 0 <= i < |a| ==> (a + [c] + x)[i] == a[i] && a[i] != c;
    assert forall i :: 0 <= i < |b| ==> (b + [c] + y)[i] == b[i] && b[i] != c;
    assert |a| == |b|;
    assert a == (a + [c] + x)[..|a|] && b == (b + [c] + y)[..|b|];
    assert x == (a + [c] + x)[|a| + 1..] && y == (b + [c] + y)[|b| + 1..];
  }

  /** strconv.ParseUint(s, 10, 64) */
  function ParseUint64(s: string): Option<nat> {
    if s != "" && AllDigits(s) && DigitsValue(s) < UINT64 then Some(DigitsValue(s)) else None
  }

  const UINT64: nat := 0x1_0000_0000_0000_0000

  lemma ParseDigits(n: nat)
    ensures ParseUint64(Digits(n)) == if n < 18446744073709551616 then Some(n) else None
  {
    DigitsRoundTrip(n);
  }

  /* White space. */

  /** unicode.IsSpace, which strings.TrimSpace cuts at both ends. */
  predicate IsSpace(c: char) {
    c in {'\t', '\n', '\U{000B}', '\U{000C}', '\r', ' ', '\U{0085}', '\U{00A0}', '\U{1680}',
          '\U{2028}', '\U{2029}', '\U{202F}', '\U{205F}', '\U{3000}'} || '\U{2000}' <= c <= '\U{200A}'
  }

  predicate Blank(s: string) { forall i :: 0 <= i < |s| ==> IsSpace(s[i]) }

  /** bytes.TrimRight and strings.TrimSpace, for the character class `cut`. */
  function TrimRight(s: string, cut: char -> bool): string {
    if s != "" && cut(s[|s| - 1]) then TrimRight(s[..|s| - 1], cut) else s
  }

  function TrimLeft(s: string, cut: char -> bool): string {
    if s != "" && cut(s[0]) then TrimLeft(s[1..], cut) else s
  }

  function TrimSpace(s: string): string { TrimLeft(TrimRight(s, IsSpace), IsSpace) }

  lemma {:induction false} TrimRightShape(s: string, cut: char -> bool)
    ensures var t := TrimRight(s, cut);
            && t <= s && (forall i :: |t| <= i < |s| ==> cut(s[i])) && (t != "" ==> !cut(t[|t| - 1]))
  {
    if s != "" && cut(s[|s| - 1]) {
      TrimRightShape(s[..|s| - 1], cut);
    }
  }

  lemma {:induction false} TrimLeftShape(s: string, cut: char -> bool) returns (n: nat)
    ensures n <= |s| && TrimLeft(s, cut) == s[n..] && (forall i :: 0 <= i < n ==> cut(s[i]))
    ensures n < |s| ==> !cut(s[n])
  {
    if s != "" && cut(s[0]) {
      n := TrimLeftShape(s[1..], cut);
      n := n + 1;
    } else {
      n := 0;
    }
  }

  /** What TrimSpace takes off is white space, and all there is of it at both ends. */
  lemma TrimSpaceShape(s: string)
    ensures var t := TrimSpace(s);
            && (exists a, b :: s == a + t + b && Blank(a) && Blank(b))
            && (t != "" ==> !IsSpace(t[0]) && !IsSpace(t[|t| - 1]))
  {
    var r := TrimRight(s, IsSpace);
    TrimRightShape(s, IsSpace);
    var n := TrimLeftShape(r, IsSpace);
    assert TrimSpace(s) == r[n..] && s == r[..n] + TrimSpace(s) + s[|r|..];
    assert Blank(r[..n]) && Blank(s[|r|..]);
  }

  /** Where the first line ends: at its newline, or at the end of the text. */
  function LineEnd(text: string): (n: nat)
    ensures n <= |text| && (n < |text| ==> text[n] == '\n') && forall i :: 0 <= i < n ==> text[i] != '\n'
  {
    if text == "" || text[0] == '\n' then 0 else 1 + LineEnd(text[1..])
  }

  predicate OccursAt(s: string, sub: string, i: nat) {
    i + |sub| <= |s| && s[i..i + |sub|] == sub
  }

  /** strings.Contains */
  predicate Contains(s: string, sub: string) {
    exists i :: 0 <= i <= |s| && OccursAt(s, sub, i)
  }

  lemma ContainsIff(s: string, sub: string)
    ensures Contains(s, sub) <==> exists a, b :: s == a + sub + b
  {
    if i :| 0 <= i <= |s| && OccursAt(s, sub, i) {
      assert s == s[..i] + sub + s[i + |sub|..];
    }
    if a, b :| s == a + sub + b {
      assert OccursAt(s, sub, |a|);
    }
  }
}
