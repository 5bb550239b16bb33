/** Strings as the Go code uses them: byte-wise order, decimal rendering, ordered
    sequences and the sorting that makes an unordered collection canonical. */
module Text {

  datatype Option<+T> = None | Some(value: T)

  predicate Lower(c: char) { 'a' <= c <= 'z' }

  predicate Upper(c: char) { 'A' <= c <= 'Z' }

  predicate Digit(c: char) { '0' <= c <= '9' }

  predicate Alnum(c: char) { Lower(c) || Upper(c) || Digit(c) }

  ghost predicate Distinct<T>(xs: seq<T>) {
    forall i, j :: 0 <= i < j < |xs| ==> xs[i] != xs[j]
  }

  ghost function Elements<T>(xs: seq<T>): set<T> {
    set x | x in xs
  }

  lemma DistinctAppend<T>(xs: seq<T>, x: T)
    ensures Distinct(xs + [x]) <==> Distinct(xs) && x !in xs
    ensures Elements(xs + [x]) == Elements(xs) + {x}
  {
    var ys := xs + [x];
    if Distinct(ys) {
      forall i, j | 0 <= i < j < |xs| ensures xs[i] != xs[j] {
        assert ys[i] == xs[i] && ys[j] == xs[j];
      }
      forall k | 0 <= k < |xs| ensures xs[k] != x {
        assert ys[k] != ys[|xs|];
      }
    }
  }

  lemma DistinctPrefix<T>(xs: seq<T>, ys: seq<T>)
    requires Distinct(xs + ys)
    ensures Distinct(xs) && Distinct(ys)
    ensures forall x :: x in xs ==> x !in ys
  {
    var zs := xs + ys;
    assert forall i :: 0 <= i < |xs| ==> zs[i] == xs[i];
    assert forall i :: 0 <= i < |ys| ==> zs[|xs| + i] == ys[i];
    forall x | x in xs ensures x !in ys {
      var i :| 0 <= i < |xs| && xs[i] == x;
      forall j | 0 <= j < |ys| ensures ys[j] != x {
        assert zs[i] != zs[|xs| + j];
      }
    }
  }

  // ----- Places in nested lists, in the order they are walked -----

  /** The part of the whole, the entry of the part, and where in the entry. */
  datatype Spot = Spot(part: nat, entry: nat, item: nat, inner: nat)

  predicate Sooner(a: Spot, b: Spot) {
    || a.part < b.part
    || (a.part == b.part && a.entry < b.entry)
    || (a.part == b.part && a.entry == b.entry && a.item < b.item)
    || (a.part == b.part && a.entry == b.entry && a.item == b.item && a.inner < b.inner)
  }

  ghost predicate Ascends(at: seq<Spot>) {
    forall i, j :: 0 <= i < j < |at| ==> Sooner(at[i], at[j])
  }

  lemma AscendsConcat(a: seq<Spot>, b: seq<Spot>)
    requires Ascends(a) && Ascends(b) && forall i, j :: 0 <= i < |a| && 0 <= j < |b| ==> Sooner(a[i], b[j])
    ensures Ascends(a + b)
  {
    hide Sooner;
    var c := a + b;
    forall i, j | 0 <= i < j < |c| ensures Sooner(c[i], c[j]) {
      if i >= |a| { assert c[i] == b[i - |a|] && c[j] == b[j - |a|]; }
    }
  }

  /** Go's `<` on strings: lexicographic over code points. */
  predicate Less(a: string, b: string) {
    b != "" && (a == "" || a[0] < b[0] || (a[0] == b[0] && Less(a[1..], b[1..])))
  }

  lemma {:induction false} LessIrreflexive(a: string)
    ensures !Less(a, a)
  {
    if a != "" { LessIrreflexive(a[1..]); }
  }

  lemma {:induction false} LessTransitive(a: string, b: string, c: string)
    requires Less(a, b) && Less(b, c)
    ensures Less(a, c)
  {
    if a != "" && a[0] == b[0] && b[0] == c[0] {
      LessTransitive(a[1..], b[1..], c[1..]);
    }
  }

  lemma {:induction false} LessTotal(a: string, b: string)
    ensures Less(a, b) || a == b || Less(b, a)
  {
    if a != "" && b != "" && a[0] == b[0] {
      LessTotal(a[1..], b[1..]);
      assert a == [a[0]] + a[1..] && b == [b[0]] + b[1..];
    }
  }

  ghost predicate SortedBy<T>(key: T -> string, xs: seq<T>) {
    forall i, j :: 0 <= i < j < |xs| ==> !Less(key(xs[j]), key(xs[i]))
  }

  ghost predicate StrictlySortedBy<T>(key: T -> string, xs: seq<T>) {
    forall i, j :: 0 <= i < j < |xs| ==> Less(key(xs[i]), key(xs[j]))
  }

  function Insert<T>(key: T -> string, x: T, xs: seq<T>): (r: seq<T>)
    ensures multiset(r) == multiset(xs) + multiset{x}
  {
    if xs == [] then [x]
    else if Less(key(xs[0]), key(x)) then
      assert xs == [xs[0]] + xs[1..];
      [xs[0]] + Insert(key, x, xs[1..])
    else [x] + xs
  }

  function SortBy<T>(key: T -> string, xs: seq<T>): (r: seq<T>)
    ensures multiset(r) == multiset(xs)
  {
    if xs == [] then []
    else
      assert xs == [xs[0]] + xs[1..];
      Insert(key, xs[0], SortBy(key, xs[1..]))
  }

  lemma {:induction false} InsertSorted<T>(key: T -> string, x: T, xs: seq<T>)
    requires SortedBy(key, xs)
    ensures SortedBy(key, Insert(key, x, xs))
  {
    var r := Insert(key, x, xs);
    if xs == [] {
    } else if Less(key(xs[0]), key(x)) {
      InsertSorted(key, x, xs[1..]);
      var tail := Insert(key, x, xs[1..]);
      forall j | 0 <= j < |tail| ensures !Less(key(tail[j]), key(xs[0])) {
        assert tail[j] in multiset(tail);
        assert tail[j] == x || tail[j] in xs[1..];
        if tail[j] == x {
          if Less(key(x), key(xs[0])) { LessTransitive(key(xs[0]), key(x), key(xs[0])); LessIrreflexive(key(xs[0])); }
        }
      }
    } else {
      forall j | 0 <= j < |xs| ensures !Less(key(xs[j]), key(x)) {
        if Less(key(xs[j]), key(x)) {
          LessTotal(key(xs[0]), key(xs[j]));
          if Less(key(xs[0]), key(xs[j])) { LessTransitive(key(xs[0]), key(xs[j]), key(x)); }
        }
      }
    }
  }

  lemma {:induction false} SortBySorted<T>(key: T -> string, xs: seq<T>)
    ensures SortedBy(key, SortBy(key, xs))
  {
    if xs != [] {
      SortBySorted(key, xs[1..]);
      InsertSorted(key, xs[0], SortBy(key, xs[1..]));
    }
  }

  /** Two strictly sorted sequences with the same elements are the same sequence. */
  lemma {:induction false} StrictlySortedUnique<T>(key: T -> string, xs: seq<T>, ys: seq<T>)
    requires StrictlySortedBy(key, xs) && StrictlySortedBy(key, ys)
    requires forall x :: x in xs <==> x in ys
    ensures xs == ys
  {
    if xs == [] {
      assert forall k :: 0 <= k < |ys| ==> ys[k] in xs;
    } else {
      assert xs[0] in xs;
      var j :| 0 <= j < |ys| && ys[j] == xs[0];
      assert ys[0] in ys;
      var i :| 0 <= i < |xs| && xs[i] == ys[0];
      if i != 0 {
        assert Less(key(xs[0]), key(ys[0]));
        if j == 0 { LessIrreflexive(key(xs[0])); }
        else { LessTransitive(key(xs[0]), key(ys[0]), key(xs[0])); LessIrreflexive(key(xs[0])); }
      }
      forall x ensures x in xs[1..] <==> x in ys[1..] {
        LessIrreflexive(key(xs[0]));
        if x in xs[1..] { assert x != xs[0]; assert x in ys; }
        if x in ys[1..] { assert x != ys[0]; assert x in xs; }
      }
      StrictlySortedUnique(key, xs[1..], ys[1..]);
      assert xs == [xs[0]] + xs[1..] && ys == [ys[0]] + ys[1..];
    }
  }

  ghost predicate DistinctKeys<T>(key: T -> string, xs: seq<T>) {
    forall i, j :: 0 <= i < j < |xs| ==> key(xs[i]) != key(xs[j])
  }

  lemma SortByStrict<T>(key: T -> string, xs: seq<T>)
    requires DistinctKeys(key, xs)
    ensures StrictlySortedBy(key, SortBy(key, xs))
    ensures forall x :: x in SortBy(key, xs) <==> x in xs
  {
    var r := SortBy(key, xs);
    SortBySorted(key, xs);
    forall x ensures x in r <==> x in xs {
      assert x in multiset(r) <==> x in multiset(xs);
    }
    DistinctKeysPermutation(key, xs, r);
    forall i, j | 0 <= i < j < |r| ensures Less(key(r[i]), key(r[j])) {
      LessTotal(key(r[i]), key(r[j]));
    }
  }

  lemma DistinctKeysPermutation<T>(key: T -> string, xs: seq<T>, ys: seq<T>)
    requires DistinctKeys(key, xs) && multiset(xs) == multiset(ys)
    ensures DistinctKeys(key, ys)
  {
    forall i, j | 0 <= i < j < |ys| ensures key(ys[i]) != key(ys[j]) {
      assert ys[i] in multiset(xs) && ys[j] in multiset(xs);
      var p :| 0 <= p < |xs| && xs[p] == ys[i];
      var q :| 0 <= q < |xs| && xs[q] == ys[j];
      if ys[i] == ys[j] {
        MultiplicityTwo(ys, i, j);
        MultiplicityOne(key, xs, p);
      } else {
        assert p != q;
      }
    }
  }

  lemma MultiplicityTwo<T>(ys: seq<T>, i: nat, j: nat)
    requires i < j < |ys| && ys[i] == ys[j]
    ensures multiset(ys)[ys[i]] >= 2
  {
    assert ys == ys[..j] + ys[j..];
    assert ys[..j][i] == ys[i] && ys[j..][0] == ys[j];
    assert ys[i] in ys[..j] && ys[j] in ys[j..];
    assert multiset(ys) == multiset(ys[..j]) + multiset(ys[j..]);
  }

  lemma MultiplicityOne<T>(key: T -> string, xs: seq<T>, p: nat)
    requires DistinctKeys(key, xs) && p < |xs|
    ensures multiset(xs)[xs[p]] == 1
  {
    assert xs == xs[..p] + [xs[p]] + xs[p + 1..];
    assert xs[p] !in xs[..p] && xs[p] !in xs[p + 1..];
    assert multiset(xs) == multiset(xs[..p]) + multiset{xs[p]} + multiset(xs[p + 1..]);
  }

  /** strconv.Itoa on a natural number. */
  function Itoa(n: nat): (s: string)
    ensures s != "" && forall i :: 0 <= i < |s| ==> Digit(s[i])
  {
    if n < 10 then [('0' as int + n) as char]
    else Itoa(n / 10) + [('0' as int + n % 10) as char]
  }

  /** The number a run of decimal digits denotes. */
  function DigitsValue(s: string): nat
    requires forall i :: 0 <= i < |s| ==> Digit(s[i])
  {
    if s == "" then 0
    else
      assert Digit(s[|s| - 1]);
      DigitsValue(s[..|s| - 1]) * 10 + (s[|s| - 1] as int - '0' as int)
  }

  lemma {:induction false} ItoaDenotes(n: nat)
    ensures DigitsValue(Itoa(n)) == n
  {
    var s := Itoa(n);
    if n >= 10 {
      ItoaDenotes(n / 10);
      assert s[..|s| - 1] == Itoa(n / 10);
    } else {
      assert s[..|s| - 1] == "";
    }
  }

  lemma ItoaInjective(m: nat, n: nat)
    requires Itoa(m) == Itoa(n)
    ensures m == n
  {
    ItoaDenotes(m);
    ItoaDenotes(n);
  }
}
