/** Minting stable IDs (internal/spec/id.go): a 48-bit millisecond clock, 80 random bits, and
    a base-32 encoder with a rolling bit buffer. Shifts and masks on the buffer are written as
    arithmetic; the buffer is proved to stay below 2^12, so its 64 bits never overflow and
    the source's bitwise or is an addition. */
module Ulid {
  import opened Text
  import opened Names

  type Byte = b: nat | b < 256

  function Pow2(n: nat): (p: nat)
    ensures p >= 1
  {
    if n == 0 then 1 else 2 * Pow2(n - 1)
  }

  lemma {:induction false} Pow2Sum(m: nat, n: nat)
    ensures Pow2(m + n) == Pow2(m) * Pow2(n)
  {
    if m > 0 { Pow2Sum(m - 1, n); }
  }

  /** The big-endian value of a byte string. */
  function Value(raw: seq<Byte>): nat {
    if raw == [] then 0 else raw[0] * Pow2(8 * (|raw| - 1)) + Value(raw[1..])
  }

  predicate InAlphabet(s: string) {
    forall i :: 0 <= i < |s| ==> IsCrockford(s[i])
  }

  function IndexFrom(c: char, i: nat): (d: nat)
    requires i <= |CROCKFORD| && c in CROCKFORD[i..]
    ensures d < |CROCKFORD| && CROCKFORD[d] == c
    decreases |CROCKFORD| - i
  {
    if CROCKFORD[i] == c then i
    else
      assert CROCKFORD[i..] == [CROCKFORD[i]] + CROCKFORD[i + 1..];
      IndexFrom(c, i + 1)
  }

  function CharOf(d: nat): char
    requires d < 32
  {
    CROCKFORD[d]
  }

  function DigitOf(c: char): (d: nat)
    requires IsCrockford(c)
    ensures d < 32 && CharOf(d) == c
  {
    assert CROCKFORD[0..] == CROCKFORD;
    IndexFrom(c, 0)
  }

  /** Reading a Crockford string in base 32. */
  function Base32(s: string): nat
    requires InAlphabet(s)
  {
    hide IsCrockford;
    if s == "" then 0 else DigitOf(s[0]) * Pow2(5 * (|s| - 1)) + Base32(s[1..])
  }

  predicate Ascending(s: string) {
    forall i :: 0 <= i < |s| - 1 ==> s[i] < s[i + 1]
  }

  lemma AlphabetAscends()
    ensures Ascending(CROCKFORD)
  {
  }

  lemma {:induction false} AscendingFar(s: string, i: nat, j: nat)
    requires Ascending(s) && i < j < |s|
    ensures s[i] < s[j]
    decreases j
  {
    if i < j - 1 { AscendingFar(s, i, j - 1); }
  }

  lemma DigitsFollowCharacters(c: char, d: char)
    requires IsCrockford(c) && IsCrockford(d)
    ensures c < d <==> DigitOf(c) < DigitOf(d)
    ensures c == d <==> DigitOf(c) == DigitOf(d)
  {
    AlphabetAscends();
    if DigitOf(c) < DigitOf(d) { AscendingFar(CROCKFORD, DigitOf(c), DigitOf(d)); }
    if DigitOf(d) < DigitOf(c) { AscendingFar(CROCKFORD, DigitOf(d), DigitOf(c)); }
  }

  lemma DigitOfIndex(d: nat)
    requires d < 32
    ensures IsCrockford(CharOf(d)) && DigitOf(CharOf(d)) == d
  {
    AlphabetAscends();
    assert CharOf(d) in CROCKFORD;
    var e := DigitOf(CharOf(d));
    if e < d { AscendingFar(CROCKFORD, e, d); }
    if d < e { AscendingFar(CROCKFORD, d, e); }
  }

  /** The number the characters after `pos` and the bit buffer hold between them. */
  ghost function Held(tail: string, value: nat): nat
    requires InAlphabet(tail)
  {
    Product(value, Pow2(5 * |tail|));
    Base32(tail) + value * Pow2(5 * |tail|)
  }

  lemma Product(m: nat, n: nat)
    ensures 0 <= m * n
  {
  }

  lemma Regroup(b: nat, value: nat, p: nat, q: nat)
    ensures b * (p * q) + value * p == (value + b * q) * p
  {
  }

  /** One byte more: shifting it in above the bits already held. */
  lemma ShiftIn(b: nat, tail: string, value: nat, k: nat, bits: nat)
    requires InAlphabet(tail) && k == 5 * |tail| + bits
    ensures b * Pow2(k) + Held(tail, value) == Held(tail, value + b * Pow2(bits))
  {
    hide Base32, InAlphabet, Pow2;
    Pow2Sum(5 * |tail|, bits);
    Regroup(b, value, Pow2(5 * |tail|), Pow2(bits));
  }

  /** One character out: the low five bits move from the buffer to the string. */
  lemma Emit(value: nat, tail: string)
    requires InAlphabet(tail)
    ensures var s := [CharOf(value % 32)] + tail;
            InAlphabet(s) && Held(s, value / 32) == Held(tail, value)
  {
    hide CharOf, DigitOf, IsCrockford;
    var s := [CharOf(value % 32)] + tail;
    DigitOfIndex(value % 32);
    assert s[1..] == tail;
    Pow2Sum(5, 5 * |tail|);
    assert Pow2(5) == 32;
    var p := Pow2(5 * |tail|);
    assert (value / 32) * (32 * p) == (32 * (value / 32)) * p;
    assert (value % 32) * p + (32 * (value / 32)) * p == value * p;
  }

  /** A bits-bit buffer takes a byte and holds bits + 8 of them. */
  lemma BufferBound(value: nat, b: Byte, bits: nat)
    requires bits <= 4 && value < Pow2(bits)
    ensures value + b * Pow2(bits) < Pow2(bits + 8) <= 0x1000
  {
    Pow2Sum(bits, 8);
    assert Pow2(8) == 256;
    assert b * Pow2(bits) <= 255 * Pow2(bits);
    assert Pow2(0) == 1 && Pow2(1) == 2 && Pow2(2) == 4 && Pow2(3) == 8 && Pow2(4) == 16;
  }

  lemma HalfBound(value: nat, bits: nat)
    requires bits >= 5 && value < Pow2(bits)
    ensures value / 32 < Pow2(bits - 5)
  {
    Pow2Sum(5, bits - 5);
    assert Pow2(5) == 32;
  }

  lemma EmptyText()
    ensures InAlphabet("") && Held("", 0) == 0 && Value([]) == 0
    ensures forall s: string :: InAlphabet(s) ==> Held(s, 0) == Base32(s)
  {
  }

  lemma ThreeBitsLeft()
    ensures Pow2(3) == 8
  {
  }

  lemma ValuePrepend(raw: seq<Byte>, i: nat)
    requires i < |raw|
    ensures Value(raw[i..]) == raw[i] * Pow2(8 * (|raw| - 1 - i)) + Value(raw[i + 1..])
  {
    assert raw[i..][1..] == raw[i + 1..];
  }

  method EmitOne(out: array<char>, pos: nat, value: nat, bits: nat) returns (pos': int, value': nat, bits': nat)
    requires out.Length == ULID_LEN && pos < ULID_LEN && 5 <= bits && value < Pow2(bits)
    requires InAlphabet(out[pos + 1..])
    modifies out
    ensures pos' == pos - 1 && bits' == bits - 5 && value' == value / 32 && value' < Pow2(bits')
    ensures InAlphabet(out[pos..]) && Held(out[pos..], value') == old(Held(out[pos + 1..], value))
  {
    hide CharOf, IsCrockford, Base32, Pow2, InAlphabet, Held;
    ghost var tail := out[pos + 1..];
    Emit(value, tail);
    HalfBound(value, bits);
    out[pos] := CharOf(value % 32);
    assert out[pos + 1..] == tail;
    assert out[pos..] == [CharOf(value % 32)] + tail;
    return pos - 1, value / 32, bits - 5;
  }

  /** Emits one character per five bits held. */
  method Drain(out: array<char>, pos: int, value: nat, bits: nat) returns (pos': int, value': nat, bits': nat)
    requires out.Length == ULID_LEN && -1 <= pos < ULID_LEN && bits <= 5 * (pos + 1) + 4
    requires value < Pow2(bits) && InAlphabet(out[pos + 1..])
    modifies out
    ensures -1 <= pos' <= pos && bits' <= 4 && value' < Pow2(bits')
    ensures 5 * pos' == 5 * pos - bits + bits'
    ensures InAlphabet(out[pos' + 1..])
    ensures Held(out[pos' + 1..], value') == old(Held(out[pos + 1..], value))
  {
    hide CharOf, IsCrockford, Base32, Pow2, InAlphabet, Held;
    pos', value', bits' := pos, value, bits;
    ghost var held := Held(out[pos + 1..], value);
    while bits' >= 5
      invariant -1 <= pos' <= pos && value' < Pow2(bits')
      invariant 5 * pos' == 5 * pos - bits + bits'
      invariant InAlphabet(out[pos' + 1..])
      invariant Held(out[pos' + 1..], value') == held
    {
      pos', value', bits' := EmitOne(out, pos', value', bits');
    }
  }

  /** encodeCrockford: read in base 32, the 26 characters are the 128-bit big-endian value. */
  method EncodeCrockford(raw: seq<Byte>) returns (text: string)
    requires |raw| == 16
    ensures |text| == ULID_LEN && InAlphabet(text)
    ensures Base32(text) == Value(raw)
  {
    hide CharOf, IsCrockford, Base32, Pow2, Value, InAlphabet, Held;
    var out := new char[ULID_LEN](_ => '0');
    var value: nat, bits: nat, pos: int := 0, 0, ULID_LEN - 1;
    var i: int := 15;
    EmptyText();
    ThreeBitsLeft();
    assert out[26..] == "" && raw[16..] == [];
    while i >= 0
      invariant -1 <= i <= 15 && -1 <= pos < ULID_LEN && bits <= 4 && value < Pow2(bits)
      invariant 8 * (15 - i) == 5 * (25 - pos) + bits
      invariant InAlphabet(out[pos + 1..])
      invariant Value(raw[i + 1..]) == Held(out[pos + 1..], value)
    {
      BufferBound(value, raw[i], bits);
      ShiftIn(raw[i], out[pos + 1..], value, 8 * (15 - i), bits);
      ValuePrepend(raw, i);
      value := value + raw[i] * Pow2(bits);
      bits := bits + 8;
      assert value < 0x1000;
      pos, value, bits := Drain(out, pos, value, bits);
      i := i - 1;
    }
    assert pos == 0 && bits == 3 && raw[0..] == raw;
    while pos >= 0
      invariant -1 <= pos <= 0
      invariant InAlphabet(out[pos + 1..])
      invariant pos == 0 ==> value < 8
      invariant pos == -1 ==> value == 0
      invariant Value(raw) == Held(out[pos + 1..], value)
    {
      ghost var tail := out[pos + 1..];
      Emit(value, tail);
      out[pos] := CharOf(value % 32);
      assert out[pos..] == [CharOf(value % 32)] + tail;
      pos := pos - 1;
      value := value / 32;
    }
    assert out[0..] == out[..];
    return out[..];
  }

  lemma ShiftFive(n: nat)
    requires n > 0
    ensures Pow2(5 * n) == 32 * Pow2(5 * (n - 1))
  {
    Pow2Sum(5, 5 * (n - 1));
    assert Pow2(5) == 32;
  }

  lemma MulMonotone(a: nat, b: nat, p: nat)
    requires a <= b
    ensures a * p <= b * p
  {
  }

  /** A leading digit weighs more than everything after it. */
  lemma LeadingDigit(x: nat, y: nat, p: nat, low: nat, low': nat)
    requires low < p && low' < p
    ensures x < y ==> x * p + low < y * p + low'
    ensures x <= 31 ==> x * p + low < 32 * p
    ensures x >= 8 ==> x * p + low >= 8 * p
  {
    if x < y { MulMonotone(x + 1, y, p); }
    if x <= 31 { MulMonotone(x, 31, p); }
    if x >= 8 { MulMonotone(8, x, p); }
  }

  lemma {:induction false} Base32Bound(s: string)
    requires InAlphabet(s)
    ensures Base32(s) < Pow2(5 * |s|)
  {
    hide DigitOf, IsCrockford, Pow2;
    if s == "" {
      assert Pow2(0) >= 1;
    } else {
      Base32Bound(s[1..]);
      ShiftFive(|s|);
      var p := Pow2(5 * (|s| - 1));
      LeadingDigit(DigitOf(s[0]), 0, p, Base32(s[1..]), Base32(s[1..]));
    }
  }

  /** Strings of one length sort as the numbers they denote. */
  lemma {:induction false} Base32Orders(a: string, b: string)
    requires InAlphabet(a) && InAlphabet(b) && |a| == |b|
    ensures Less(a, b) <==> Base32(a) < Base32(b)
    ensures a == b <==> Base32(a) == Base32(b)
  {
    hide DigitOf, IsCrockford, Pow2;
    if a != "" {
      var p := Pow2(5 * (|a| - 1));
      var x, y := DigitOf(a[0]), DigitOf(b[0]);
      DigitsFollowCharacters(a[0], b[0]);
      Base32Orders(a[1..], b[1..]);
      Base32Bound(a[1..]);
      Base32Bound(b[1..]);
      LeadingDigit(x, y, p, Base32(a[1..]), Base32(b[1..]));
      LeadingDigit(y, x, p, Base32(b[1..]), Base32(a[1..]));
      assert a == [a[0]] + a[1..] && b == [b[0]] + b[1..];
    }
  }

  /** The first of 26 characters carries the top three bits of a 128-bit value. */
  lemma FirstCharacterThreeBits(s: string)
    requires |s| == ULID_LEN && InAlphabet(s) && Base32(s) < Pow2(128)
    ensures DigitOf(s[0]) < 8
  {
    hide DigitOf, IsCrockford, Pow2;
    EightTimes();
    Base32Bound(s[1..]);
    LeadingDigit(DigitOf(s[0]), 0, Pow2(125), Base32(s[1..]), 0);
  }

  lemma EightTimes()
    ensures Pow2(128) == 8 * Pow2(125)
  {
    Pow2Sum(3, 125);
    assert Pow2(3) == 8;
  }

  // ----- newIDAt -----

  lemma {:induction false} ValueConcat(a: seq<Byte>, b: seq<Byte>)
    ensures Value(a + b) == Value(a) * Pow2(8 * |b|) + Value(b)
  {
    hide Pow2;
    if a == [] {
      assert a + b == b;
      assert Value(a) * Pow2(8 * |b|) == 0;
    } else {
      ValueConcat(a[1..], b);
      assert (a + b)[1..] == a[1..] + b;
      var p, q := Pow2(8 * (|a| - 1)), Pow2(8 * |b|);
      assert 8 * (|a + b| - 1) == 8 * (|a| - 1) + 8 * |b|;
      Pow2Sum(8 * (|a| - 1), 8 * |b|);
      Regroup(a[0], Value(a[1..]), q, p);
    }
  }

  lemma {:induction false} ValueBound(raw: seq<Byte>)
    ensures Value(raw) < Pow2(8 * |raw|)
  {
    if raw != [] {
      ValueBound(raw[1..]);
      Pow2Sum(8, 8 * (|raw| - 1));
      assert Pow2(8) == 256;
      MulMonotone(raw[0], 255, Pow2(8 * (|raw| - 1)));
    }
  }

  /** 2^48: the range of the clock in an ID. */
  const CLOCK: nat := 0x1_0000_0000_0000

  const UINT64: nat := 0x1_0000_0000_0000_0000

  /** m >> 8n */
  function ShiftBytes(m: nat, n: nat): nat {
    if n == 0 then m else ShiftBytes(m / 256, n - 1)
  }

  /** The low n bytes of m, most significant first. */
  function LowBytes(m: nat, n: nat): (bytes: seq<Byte>)
    ensures |bytes| == n
  {
    if n == 0 then [] else LowBytes(m / 256, n - 1) + [m % 256]
  }

  lemma {:induction false} LowBytesPrepend(m: nat, n: nat)
    ensures LowBytes(m, n + 1) == [ShiftBytes(m, n) % 256] + LowBytes(m, n)
  {
    if n > 0 {
      LowBytesPrepend(m / 256, n - 1);
    }
  }

  lemma {:induction false} LowBytesValue(m: nat, n: nat)
    ensures Value(LowBytes(m, n)) == m % Pow2(8 * n)
  {
    if n > 0 {
      var p := Pow2(8 * (n - 1));
      Pow2Sum(8, 8 * (n - 1));
      assert Pow2(8) == 256;
      LowBytesValue(m / 256, n - 1);
      ValueConcat(LowBytes(m / 256, n - 1), [m % 256]);
      assert Value([m % 256]) == m % 256;
      ModuloSteps(m, p);
    }
  }

  lemma ModuloSteps(m: nat, p: nat)
    requires p > 0
    ensures m % (256 * p) == ((m / 256) % p) * 256 + m % 256
  {
    var q, r := (m / 256) / p, (m / 256) % p;
    assert m / 256 == q * p + r;
    assert m == q * (256 * p) + (r * 256 + m % 256);
    RemainderUnique(m, 256 * p, q, r * 256 + m % 256);
  }

  lemma RemainderUnique(m: nat, d: nat, q: nat, r: nat)
    requires d > 0 && m == q * d + r && r < d
    ensures m % d == r
  {
    var q' := m / d;
    assert m == q' * d + m % d;
    if q < q' { MulMonotone(q + 1, q', d); }
    if q' < q { MulMonotone(q' + 1, q, d); }
  }

  ghost predicate MintedAt(id: ID, kind: Kind, millis: nat, entropy: seq<Byte>) {
    exists body: string :: BodyOf(id, kind, body) && Base32(body) == millis * Pow2(80) + Value(entropy)
  }

  ghost predicate BodyOf(id: ID, kind: Kind, body: string) {
    id == kind.Prefix() + "_" + body && |body| == ULID_LEN && InAlphabet(body)
  }

  /** newIDAt: a well-formed ID whose body is the clock modulo 2^48 followed by the entropy;
      it fails exactly when the entropy source does. */
  method NewIDAt(kind: Kind, unixMilli: int, entropy: Option<seq<Byte>>) returns (id: Option<ID>)
    requires entropy.Some? ==> |entropy.value| == 10
    ensures id.None? <==> entropy.None?
    ensures id.Some? ==>
      && ValidID(id.value, kind)
      && MintedAt(id.value, kind, unixMilli % CLOCK, entropy.value)
  {
    hide Base32, InAlphabet, IsCrockford, Pow2;
    if entropy.None? {
      return None;
    }
    var raw := new Byte[16](_ => 0);
    var millis: nat := unixMilli % UINT64;
    for i := 0 to 6
      invariant raw[6 - i..6] == LowBytes(millis, i)
    {
      LowBytesPrepend(millis, i);
      raw[5 - i] := ShiftBytes(millis, i) % 256;
      assert raw[6 - (i + 1)..6] == [raw[5 - i]] + raw[6 - i..6];
    }
    for i := 0 to 10
      invariant raw[..6] == LowBytes(millis, 6)
      invariant raw[6..6 + i] == entropy.value[..i]
    {
      raw[6 + i] := entropy.value[i];
    }
    assert raw[..] == LowBytes(millis, 6) + entropy.value;
    ValueConcat(LowBytes(millis, 6), entropy.value);
    LowBytesValue(millis, 6);
    Pow48();
    ClockOfUint64(unixMilli);
    var body := EncodeCrockford(raw[..]);
    var minted := kind.Prefix() + "_" + body;
    AlphabetIsCrockford(body);
    ValidIDShape(minted, kind);
    assert BodyOf(minted, kind, body);
    return Some(minted);
  }

  lemma AlphabetIsCrockford(body: string)
    requires InAlphabet(body)
    ensures forall i :: 0 <= i < |body| ==> IsCrockford(body[i])
  {
  }

  lemma Pow48()
    ensures Pow2(48) == CLOCK
  {
    Pow2Sum(16, 32);
    Pow2Sum(16, 16);
    Pow2Sum(8, 8);
    assert Pow2(8) == 256;
  }

  lemma ClockOfUint64(t: int)
    ensures (t % UINT64) % CLOCK == t % CLOCK
  {
    var q := t / UINT64;
    assert t == q * UINT64 + t % UINT64;
    assert UINT64 == 65536 * CLOCK;
  }

  lemma {:induction false} ValueInjective(a: seq<Byte>, b: seq<Byte>)
    requires |a| == |b| && Value(a) == Value(b)
    ensures a == b
  {
    hide Pow2;
    if a != [] {
      var p := Pow2(8 * (|a| - 1));
      ValueBound(a[1..]);
      ValueBound(b[1..]);
      LeadingDigit(a[0], b[0], p, Value(a[1..]), Value(b[1..]));
      LeadingDigit(b[0], a[0], p, Value(b[1..]), Value(a[1..]));
      ValueInjective(a[1..], b[1..]);
      assert a == [a[0]] + a[1..] && b == [b[0]] + b[1..];
    }
  }

  lemma {:induction false} LessAfterPrefix(p: string, a: string, b: string)
    ensures Less(p + a, p + b) <==> Less(a, b)
  {
    if p == "" {
      assert p + a == a && p + b == b;
    } else {
      LessAfterPrefix(p[1..], a, b);
      assert (p + a)[1..] == p[1..] + a && (p + b)[1..] == p[1..] + b;
    }
  }

  /** IDs of one kind sort by the millisecond they were minted at, while the clock is below
      2^48, and two of them are equal only for the same millisecond and the same entropy. */
  lemma IDsSortByTime(kind: Kind, a: ID, b: ID, s: nat, t: nat, ea: seq<Byte>, eb: seq<Byte>)
    requires s < CLOCK && t < CLOCK && |ea| == |eb| == 10
    requires MintedAt(a, kind, s, ea) && MintedAt(b, kind, t, eb)
    ensures s < t ==> Less(a, b)
    ensures a == b <==> s == t && ea == eb
  {
    hide Base32, InAlphabet, Pow2, Value, Less;
    var x: string :| BodyOf(a, kind, x) && Base32(x) == s * Pow2(80) + Value(ea);
    var y: string :| BodyOf(b, kind, y) && Base32(y) == t * Pow2(80) + Value(eb);
    ValueBound(ea);
    ValueBound(eb);
    LeadingDigit(s, t, Pow2(80), Value(ea), Value(eb));
    LeadingDigit(t, s, Pow2(80), Value(eb), Value(ea));
    Base32Orders(x, y);
    LessAfterPrefix(kind.Prefix() + "_", x, y);
    if Value(ea) == Value(eb) { ValueInjective(ea, eb); }
    assert a == b <==> x == y by {
      if a == b { assert a[|kind.Prefix()| + 1..] == x && b[|kind.Prefix()| + 1..] == y; }
    }
  }
}
