/** Run identifiers: 128 random bits in Crockford's base 32, computed in a 32-bit accumulator. */
module RunId {
  import opened Common

  const CROCKFORD := "0123456789ABCDEFGHJKMNPQRSTVWXYZ"
  const WORD := 0x1_0000_0000

  type Byte = n: int | 0 <= n < 256
  type Five = n: int | 0 <= n < 32

  // ---------- what the text denotes ----------

  /** The big-endian number the bytes spell. */
  function BytesValue(bytes: seq<Byte>): nat {
    if bytes == [] then 0 else 256 * BytesValue(bytes[..|bytes| - 1]) + bytes[|bytes| - 1]
  }

  /** The big-endian number the base-32 digits spell. */
  function DigitsValue(digits: seq<Five>): nat {
    if digits == [] then 0 else 32 * DigitsValue(digits[..|digits| - 1]) + digits[|digits| - 1]
  }

  lemma {:induction false} BytesInjective(a: seq<Byte>, b: seq<Byte>)
    requires |a| == |b| && BytesValue(a) == BytesValue(b)
    ensures a == b
    decreases |a|
  {
    if a != [] {
      var x, y := a[..|a| - 1], b[..|b| - 1];
      assert BytesValue(x) == BytesValue(y) && a[|a| - 1] == b[|b| - 1];
      BytesInjective(x, y);
      assert a == x + [a[|a| - 1]] && b == y + [b[|b| - 1]];
    }
  }

  lemma {:induction false} DigitsInjective(a: seq<Five>, b: seq<Five>)
    requires |a| == |b| && DigitsValue(a) == DigitsValue(b)
    ensures a == b
    decreases |a|
  {
    if a != [] {
      var x, y := a[..|a| - 1], b[..|b| - 1];
      assert DigitsValue(x) == DigitsValue(y) && a[|a| - 1] == b[|b| - 1];
      DigitsInjective(x, y);
      assert a == x + [a[|a| - 1]] && b == y + [b[|b| - 1]];
    }
  }

  function Symbol(d: Five): char { CROCKFORD[d] }

  function Text(digits: seq<Five>): (t: string)
    ensures |t| == |digits|
  {
    if digits == [] then "" else Text(digits[..|digits| - 1]) + [Symbol(digits[|digits| - 1])]
  }

  /** `[0-9A-HJKMNP-TV-Z]`. */
  predicate IdSymbol(c: char) {
    '0' <= c <= '9' || 'A' <= c <= 'H' || c == 'J' || c == 'K' || c == 'M' || c == 'N' || 'P' <= c <= 'T' || 'V' <= c <= 'Z'
  }

  /** Symbols rise with the digits they stand for, so no two digits share one. */
  lemma {:induction false} SymbolsRise(d: Five)
    ensures IdSymbol(Symbol(d)) && forall e: Five :: e < d ==> Symbol(e) < Symbol(d)
  {
    if d > 0 {
      SymbolsRise(d - 1);
      SymbolRises(d);
    }
  }

  lemma {:induction false} SymbolRises(d: Five)
    requires d > 0
    ensures Symbol(d - 1) < Symbol(d) && IdSymbol(Symbol(d))
  {
    if d < 16 {
      assert d == 1 || d == 2 || d == 3 || d == 4 || d == 5 || d == 6 || d == 7 || d == 8 || d == 9 || d == 10 || d == 11 || d == 12 || d == 13 || d == 14 || d == 15;
    } else {
      assert d == 16 || d == 17 || d == 18 || d == 19 || d == 20 || d == 21 || d == 22 || d == 23 || d == 24 || d == 25 || d == 26 || d == 27 || d == 28
          || d == 29 || d == 30 || d == 31;
    }
  }

  lemma {:induction false} TextInjective(a: seq<Five>, b: seq<Five>)
    requires Text(a) == Text(b)
    ensures a == b
    decreases |a|
  {
    if a != [] {
      var s, t := a[|a| - 1], b[|b| - 1];
      assert Text(a)[|a| - 1] == Symbol(s) && Text(b)[|b| - 1] == Symbol(t);
      SymbolsRise(s);
      SymbolsRise(t);
      assert s == t;
      assert Text(a)[..|a| - 1] == Text(a[..|a| - 1]) && Text(b)[..|b| - 1] == Text(b[..|b| - 1]);
      TextInjective(a[..|a| - 1], b[..|b| - 1]);
    }
  }

  lemma {:induction false} TextAt(digits: seq<Five>, i: nat)
    requires i < |digits|
    ensures Text(digits)[i] == Symbol(digits[i])
    decreases |digits|
  {
    if i < |digits| - 1 { TextAt(digits[..|digits| - 1], i); }
  }

  lemma {:induction false} TextPrefix(digits: seq<Five>, n: nat)
    requires n <= |digits|
    ensures Text(digits[..n]) == Text(digits)[..n]
    decreases |digits|
  {
    if n < |digits| {
      TextPrefix(digits[..|digits| - 1], n);
      assert digits[..|digits| - 1][..n] == digits[..n];
    } else {
      assert digits[..n] == digits;
    }
  }

  // ---------- the encoder ----------

  function Power(bits: nat): nat
    ensures Power(bits) > 0
  {
    if bits == 0 then 1 else 2 * Power(bits - 1)
  }

  /** `accumulator << 8 | value` in 32 bits. */
  function Shifted(accumulator: int, value: Byte): int
    requires 0 <= accumulator < WORD
  {
    (accumulator * 256 + value) % WORD
  }

  /** `accumulator >> bits & 31`. */
  function FiveBits(accumulator: int, bits: nat): Five
    requires accumulator >= 0
  {
    accumulator / Power(bits) % 32
  }

  lemma {:induction false} Powers()
    ensures Power(0) == 1 && Power(1) == 2 && Power(2) == 4 && Power(3) == 8 && Power(4) == 16 && Power(5) == 32
    ensures Power(6) == 64
    ensures Power(7) == 128 && Power(8) == 256 && Power(9) == 512 && Power(10) == 1024 && Power(11) == 2048
    ensures Power(12) == 4096
  {
    assert Power(4) == 16;
    assert Power(8) == 256;
  }

  /** The overflowed accumulator still holds the number modulo 2^32. */
  lemma {:induction false} ShiftedModulo(n: nat, accumulator: int, value: Byte)
    requires accumulator == n % WORD
    ensures Shifted(accumulator, value) == (256 * n + value) % WORD
  {
    var q := n / WORD;
    assert 256 * n + value == 256 * q * WORD + (256 * accumulator + value);
    ModuloPlusMultiple(256 * accumulator + value, 256 * q);
  }

  lemma {:induction false} ModuloPlusMultiple(x: nat, k: nat)
    ensures (k * WORD + x) % WORD == x % WORD
  {
    var r := x % WORD;
    assert k * WORD + x == (k + x / WORD) * WORD + r;
  }

  /** A new byte leaves the digits read so far the top of the number. */
  lemma {:induction false} ByteKeepsTop(n: nat, value: Byte, bits: nat)
    requires bits < 5
    ensures (256 * n + value) / Power(bits + 8) == n / Power(bits)
  {
    Powers();
    if bits == 0 {} else if bits == 1 {} else if bits == 2 {} else if bits == 3 {} else {}
  }

  lemma {:induction false} QuotientPlus(k: nat, x: nat, p: nat)
    requires p > 0
    ensures (k * p + x) / p == k + x / p
  {
    var r := x % p;
    assert k * p + x == (k + x / p) * p + r;
    QuotientUnique(k * p + x, p, k + x / p, r);
  }

  lemma {:induction false} QuotientUnique(n: nat, p: nat, q: nat, r: nat)
    requires p > 0 && n == q * p + r && r < p
    ensures n / p == q
  {
    var d: int := n / p - q;
    assert d * p == r - n % p;
    MultipleSign(d, p);
  }

  lemma {:induction false} MultipleSign(d: int, p: int)
    requires p > 0
    ensures (d >= 1 ==> d * p >= p) && (d <= -1 ==> d * p + p <= 0)
  {
    assert d * p - p == (d - 1) * p && d * p + p == (d + 1) * p;
  }

  lemma {:induction false} QuotientTwice(n: nat, p: nat)
    requires p > 0
    ensures n / (p * 32) == n / p / 32
  {
    var q, r := n / p, n % p;
    Split32(q, p, r);
    QuotientUnique(n, p * 32, q / 32, (q % 32) * p + r);
  }

  lemma {:induction false} Split32(q: nat, p: nat, r: nat)
    requires p > 0 && r < p
    ensures q * p + r == (q / 32) * (p * 32) + ((q % 32) * p + r) && 0 <= (q % 32) * p + r < p * 32
  {
    var a, b := q / 32, q % 32;
    assert q == 32 * a + b;
    assert q * p == (32 * a + b) * p == 32 * (a * p) + b * p;
    assert a * (p * 32) == 32 * (a * p);
    AtMost31(b, p);
  }

  lemma {:induction false} AtMost31(b: nat, p: nat)
    requires b <= 31
    ensures 0 <= b * p <= 31 * p
  {
  }

  lemma {:induction false} WordOf(bits: nat) returns (c: nat)
    requires bits < 8
    ensures WORD == 32 * c * Power(bits) && Power(bits + 5) == Power(bits) * 32
  {
    Powers();
    c := if bits == 0 then 134217728 else if bits == 1 then 67108864 else if bits == 2 then 33554432 else if bits == 3 then 16777216
         else if bits == 4 then 8388608 else if bits == 5 then 4194304 else if bits == 6 then 2097152 else 1048576;
  }

  /** One digit more: the five bits taken from the accumulator are those of the number itself. */
  lemma {:induction false} DigitExtends(n: nat, accumulator: int, bits: nat)
    requires bits < 8 && accumulator == n % WORD
    ensures n / Power(bits) == 32 * (n / Power(bits + 5)) + FiveBits(accumulator, bits)
  {
    var p, q := Power(bits), n / WORD;
    var c := WordOf(bits);
    SplitWord(n, q, accumulator, c, p);
    QuotientPlus(32 * (q * c), accumulator, p);
    QuotientTwice(n, p);
    TopDigits(n / p, n / (p * 32), q * c, accumulator / p);
  }

  lemma {:induction false} SplitWord(n: nat, q: nat, r: nat, c: nat, p: nat)
    requires n == q * WORD + r && WORD == 32 * c * p
    ensures n == 32 * (q * c) * p + r
  {
    assert q * (32 * c * p) == 32 * (q * c) * p;
  }

  lemma {:induction false} TopDigits(x: int, y: int, t: int, z: int)
    requires x == 32 * t + z && y == x / 32
    ensures x == 32 * y + z % 32
  {
  }

  const PREFIX := "crt_"

  /** The digits an identifier was written from. */
  ghost predicate Encodes(id: string, raw: seq<Byte>, digits: seq<Five>) {
    |raw| == 16 && |digits| == 26 && id == PREFIX + Text(digits) && DigitsValue(digits) == BytesValue(raw)
  }

  /** The digits so far are the number above its last `bits` bits, and the text spells them. */
  ghost predicate Emitted(n: nat, bits: nat, digits: seq<Five>, encoded: string) {
    DigitsValue(digits) == n / Power(bits) && encoded == Text(digits) && (digits != [] ==> digits[0] <= 7)
  }

  lemma {:induction false} EmittedStep(n: nat, accumulator: int, bits: nat, digits: seq<Five>, encoded: string)
    requires bits < 8 && accumulator == n % WORD && Emitted(n, bits + 5, digits, encoded)
    requires digits == [] ==> FiveBits(accumulator, bits) <= 7
    ensures Emitted(n, bits, digits + [FiveBits(accumulator, bits)], encoded + [Symbol(FiveBits(accumulator, bits))])
  {
    DigitExtends(n, accumulator, bits);
    var d := FiveBits(accumulator, bits);
    assert (digits + [d])[..|digits|] == digits;
  }

  /** The inner loop: emits a symbol for every five bits that are ready. */
  method EmitSymbols(ghost n: nat, accumulator: int, ready: nat, before: string, ghost digitsBefore: seq<Five>)
    returns (bits: nat, encoded: string, ghost digits: seq<Five>)
    requires ready <= 12 && accumulator == n % WORD && Emitted(n, ready, digitsBefore, before)
    requires digitsBefore == [] ==> ready == 10 && accumulator < 256
    ensures bits < 5 && bits + 5 * |digits| == ready + 5 * |digitsBefore| && Emitted(n, bits, digits, encoded)
  {
    bits, encoded, digits := ready, before, digitsBefore;
    while bits >= 5
      invariant bits <= 12 && bits + 5 * |digits| == ready + 5 * |digitsBefore| && Emitted(n, bits, digits, encoded)
      invariant digits == [] ==> bits == 10
    {
      bits := bits - 5;
      if digits == [] { FirstDigit(accumulator); }
      EmittedStep(n, accumulator, bits, digits, encoded);
      digits := digits + [FiveBits(accumulator, bits)];
      encoded := encoded + [Symbol(FiveBits(accumulator, bits))];
    }
  }

  /** The first digit holds only the top three bits of the first byte. */
  lemma {:induction false} FirstDigit(accumulator: int)
    requires 0 <= accumulator < 256
    ensures FiveBits(accumulator, 5) <= 7
  {
    Powers();
  }

  /** None when the source of randomness fails. */
  method NewRunID(random: Option<seq<Byte>>) returns (id: Option<string>, ghost digits: seq<Five>)
    requires random.Some? ==> |random.value| == 16
    ensures id.Some? <==> random.Some?
    ensures id.Some? ==> Encodes(id.value, random.value, digits) && digits[0] <= 7
  {
    if random.None? { return None, []; }
    var raw := random.value;
    var encoded, accumulator, bits := "", 0, 2;
    digits := [];
    var k := 0;
    while k < |raw|
      invariant 0 <= k <= 16 && 0 <= bits < 5 && bits + 5 * |digits| == 8 * k + 2
      invariant accumulator == BytesValue(raw[..k]) % WORD && Emitted(BytesValue(raw[..k]), bits, digits, encoded)
    {
      ghost var n := BytesValue(raw[..k]);
      ByteStep(raw, k);
      ShiftedModulo(n, accumulator, raw[k]);
      ByteKeepsTop(n, raw[k], bits);
      accumulator := Shifted(accumulator, raw[k]);
      k := k + 1;
      bits, encoded, digits := EmitSymbols(BytesValue(raw[..k]), accumulator, bits + 8, encoded, digits);
    }
    assert raw[..16] == raw && Power(0) == 1;
    id := Some(PREFIX + encoded);
  }

  lemma {:induction false} ByteStep(raw: seq<Byte>, k: nat)
    requires k < |raw|
    ensures BytesValue(raw[..k + 1]) == 256 * BytesValue(raw[..k]) + raw[k]
    ensures (k == 0 ==> BytesValue(raw[..k + 1]) < 256)
  {
    assert raw[..k + 1][..k] == raw[..k];
  }

  // ---------- what an identifier guarantees ----------

  /** `^crt_[0-9A-HJKMNP-TV-Z]{26}$`. */
  predicate StoreRunId(id: string) {
    |id| == 30 && id[..4] == PREFIX && forall i :: 4 <= i < 30 ==> IdSymbol(id[i])
  }

  function Short(id: string): string {
    if |id| < 12 then "" else id[4..12]
  }

  /** Every identifier matches the artifact store's pattern. */
  lemma {:induction false} MatchesStore(id: string, raw: seq<Byte>, digits: seq<Five>)
    requires Encodes(id, raw, digits)
    ensures StoreRunId(id)
  {
    forall i | 4 <= i < 30 ensures IdSymbol(id[i]) {
      TextAt(digits, i - 4);
      SymbolsRise(digits[i - 4]);
    }
  }

  /** Different bytes give different identifiers, and the digits of an identifier give its bytes back. */
  lemma {:induction false} Decodable(id: string, raw: seq<Byte>, digits: seq<Five>, other: string, raw': seq<Byte>,
                                     digits': seq<Five>)
    requires Encodes(id, raw, digits) && Encodes(other, raw', digits')
    ensures id == other <==> raw == raw'
    ensures id == other <==> digits == digits'
  {
    if id == other {
      assert id[4..] == Text(digits) && other[4..] == Text(digits');
      TextInjective(digits, digits');
      BytesInjective(raw, raw');
    }
    if raw == raw' { DigitsInjective(digits, digits'); }
  }

  function Power32(n: nat): nat
    ensures Power32(n) > 0
  {
    if n == 0 then 1 else 32 * Power32(n - 1)
  }

  /** The leading digits are the top of the number. */
  lemma {:induction false} LeadingDigits(digits: seq<Five>, n: nat)
    requires n <= |digits|
    ensures DigitsValue(digits) / Power32(|digits| - n) == DigitsValue(digits[..n])
    decreases |digits|
  {
    if n < |digits| {
      var init := digits[..|digits| - 1];
      LeadingDigits(init, n);
      assert init[..n] == digits[..n];
      var p := Power32(|init| - n);
      QuotientTwiceFlipped(DigitsValue(digits), p);
      assert DigitsValue(digits) / 32 == DigitsValue(init);
    } else {
      assert digits[..n] == digits;
    }
  }

  lemma {:induction false} QuotientTwiceFlipped(n: nat, p: nat)
    requires p > 0
    ensures n / (32 * p) == n / 32 / p
  {
    var q, s := n / 32, n / 32 / p;
    assert n == 32 * q + n % 32 && q == s * p + q % p;
    assert 32 * (s * p) == s * (32 * p);
    QuotientUnique(n, 32 * p, s, 32 * (q % p) + n % 32);
  }

  /** The short token is the eight symbols of the top 38 bits: the rest of the number is eighteen digits of five bits.
      */
  lemma {:induction false} ShortIsTop38Bits(id: string, raw: seq<Byte>, digits: seq<Five>)
    requires Encodes(id, raw, digits)
    ensures Short(id) == Text(digits[..8]) && DigitsValue(digits[..8]) == BytesValue(raw) / Power32(18)
  {
    TextPrefix(digits, 8);
    LeadingDigits(digits, 8);
    assert id[4..12] == Text(digits)[..8];
  }
}
