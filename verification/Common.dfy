/** Datatypes, text helpers and counting lemmas shared by the other modules. */
module Common {

  datatype Option<+T> = None | Some(value: T)

  /** The characters `unicode.IsSpace` accepts, which `strings.TrimSpace` strips. */
  predicate IsSpace(c: char) {
    || '\t' <= c <= '\r'
    || c == ' ' || c == '\U{0085}' || c == '\U{00A0}' || c == '\U{1680}'
    || '\U{2000}' <= c <= '\U{200a}'
    || c == '\U{2028}' || c == '\U{2029}' || c == '\U{202f}' || c == '\U{205f}' || c == '\U{3000}'
  }

  /** `strings.TrimSpace(s) == ""`. */
  predicate Blank(s: string) {
    forall i :: 0 <= i < |s| ==> IsSpace(s[i])
  }

  // ---------- decimal numerals ----------

  function Digit(n: nat): char
    requires n < 10
  {
    "0123456789"[n]
  }

  function Decimal(n: nat): string {
    if n < 10 then [Digit(n)] else Decimal(n / 10) + [Digit(n % 10)]
  }

  /** The number a numeral denotes; leading zeros do not matter. */
  ghost function Numeral(s: string): int {
    if s == "" then 0 else 10 * Numeral(s[..|s| - 1]) + (s[|s| - 1] as int - '0' as int)
  }

  lemma DigitValue(n: nat)
    requires n < 10
    ensures Digit(n) as int - '0' as int == n
  {
    assert n == 0 || n == 1 || n == 2 || n == 3 || n == 4 || n == 5 || n == 6 || n == 7 || n == 8 || n == 9;
  }

  lemma {:induction false} NumeralDecimal(n: nat)
    ensures Numeral(Decimal(n)) == n
  {
    if n < 10 {
      DigitValue(n);
      assert Decimal(n)[..0] == "";
    } else {
      NumeralDecimal(n / 10);
      DigitValue(n % 10);
      assert Decimal(n)[..|Decimal(n)| - 1] == Decimal(n / 10);
    }
  }

  /** `fmt.Sprintf("%0*d", width, n)`. */
  function Padded(n: nat, width: nat): string
    decreases width
  {
    if |Decimal(n)| >= width then Decimal(n)
    else PadTo(Decimal(n), width)
  }

  function PadTo(s: string, width: nat): (r: string)
    ensures |s| <= width ==> |r| == width
    decreases width - |s|
  {
    if |s| >= width then s else PadTo(['0'] + s, width)
  }

  lemma {:induction false} NumeralLeadingZero(s: string)
    ensures Numeral(['0'] + s) == Numeral(s)
    decreases |s|
  {
    var t := ['0'] + s;
    if s == "" {
      assert t[..0] == "";
    } else {
      assert t[..|t| - 1] == ['0'] + s[..|s| - 1];
      NumeralLeadingZero(s[..|s| - 1]);
    }
  }

  lemma {:induction false} NumeralPadTo(s: string, width: nat)
    ensures Numeral(PadTo(s, width)) == Numeral(s)
    decreases width - |s|
  {
    if |s| < width {
      NumeralLeadingZero(s);
      NumeralPadTo(['0'] + s, width);
    }
  }

  /** Zero-padded numerals are injective: the numeral can be read back. */
  lemma PaddedNumeral(n: nat, width: nat)
    ensures Numeral(Padded(n, width)) == n
  {
    NumeralDecimal(n);
    NumeralPadTo(Decimal(n), width);
  }

  // ---------- counting ----------

  ghost predicate Distinct<T>(s: seq<T>) {
    forall i, j :: 0 <= i < j < |s| ==> s[i] != s[j]
  }

  ghost function Elements<T>(s: seq<T>): set<T> {
    set x | x in s
  }

  lemma SubsetCardinality<T>(a: set<T>, b: set<T>)
    requires a <= b
    ensures |a| <= |b|
    ensures |a| == |b| ==> a == b
  {
    assert b == a + (b - a);
  }

  /** A sequence has as many elements as positions exactly when nothing repeats. */
  lemma {:induction false} DistinctCardinality<T>(s: seq<T>)
    ensures |Elements(s)| <= |s|
    ensures Distinct(s) <==> |Elements(s)| == |s|
    decreases |s|
  {
    if s != [] {
      var init, last := s[..|s| - 1], s[|s| - 1];
      DistinctCardinality(init);
      assert s == init + [last];
      if last in init {
        assert Elements(s) == Elements(init);
        var i :| 0 <= i < |init| && init[i] == last;
        assert s[i] == s[|s| - 1];
      } else {
        assert Elements(s) == Elements(init) + {last};
        if Distinct(init) {
          forall i, j | 0 <= i < j < |s| ensures s[i] != s[j] {
            if j == |s| - 1 { assert init[i] in init; } else { assert init[i] != init[j]; }
          }
        }
        if Distinct(s) {
          forall i, j | 0 <= i < j < |init| ensures init[i] != init[j] {
            assert s[i] != s[j];
          }
        }
      }
    }
  }

  ghost predicate Injective<A, B>(m: map<A, B>) {
    forall x, y :: x in m && y in m && m[x] == m[y] ==> x == y
  }

  /** A map has as many values as keys exactly when it is injective. */
  lemma {:induction false} MapValuesCount<A, B>(m: map<A, B>)
    ensures |m.Values| <= |m.Keys|
    ensures Injective(m) <==> |m.Values| == |m.Keys|
    decreases |m.Keys|
  {
    if m.Keys != {} {
      var x :| x in m;
      var rest := m - {x};
      MapValuesCount(rest);
      assert m.Keys == rest.Keys + {x};
      assert m.Values == rest.Values + {m[x]};
      if m[x] in rest.Values {
        var y :| y in rest && rest[y] == m[x];
        assert m[y] == m[x] && y != x;
      }
    }
  }

  /** Between multisets of the same size, inclusion is equality. */
  lemma MultisetSubsetCardinality<T>(a: multiset<T>, b: multiset<T>)
    requires a <= b
    ensures |a| <= |b|
    ensures |a| == |b| ==> a == b
  {
    assert b == a + (b - a);
  }

  /** A value sits at two positions of a sequence exactly when its multiplicity exceeds one. */
  lemma RepeatedMultiplicity<T>(s: seq<T>, x: T)
    ensures multiset(s)[x] > 1 <==> exists i, j :: 0 <= i < j < |s| && s[i] == x && s[j] == x
    decreases |s|
  {
    if s != [] {
      var init, last := s[..|s| - 1], s[|s| - 1];
      assert s == init + [last];
      RepeatedMultiplicity(init, x);
      if last == x && x in init {
        var i :| 0 <= i < |init| && init[i] == x;
        assert s[i] == x && s[|s| - 1] == x;
      }
      if exists i, j :: 0 <= i < j < |s| && s[i] == x && s[j] == x {
        var i, j :| 0 <= i < j < |s| && s[i] == x && s[j] == x;
        assert init[i] == x;
        if j < |init| { assert init[j] == x; }
      }
    }
  }

  /** `x` and `y` occur in `m` as two different occurrences. */
  ghost predicate TwoIn<T>(m: multiset<T>, x: T, y: T) {
    x in m && y in m && (x == y ==> m[x] > 1)
  }

  lemma TwoPositions<T>(s: seq<T>, x: T, y: T)
    ensures TwoIn(multiset(s), x, y) <==>
      exists i, j :: 0 <= i < |s| && 0 <= j < |s| && i != j && s[i] == x && s[j] == y
  {
    RepeatedMultiplicity(s, x);
    if TwoIn(multiset(s), x, y) && x != y {
      var i :| 0 <= i < |s| && s[i] == x;
      var j :| 0 <= j < |s| && s[j] == y;
      assert i != j;
    }
    if i, j :| 0 <= i < |s| && 0 <= j < |s| && i != j && s[i] == x && s[j] == y {
      if x == y {
        var lo, hi := if i < j then i else j, if i < j then j else i;
        assert s[lo] == x && s[hi] == x;
      }
    }
  }

  lemma TwoInMonotone<T>(a: multiset<T>, b: multiset<T>, x: T, y: T)
    requires a <= b && TwoIn(a, x, y)
    ensures TwoIn(b, x, y)
  {
    assert a[x] <= b[x] && a[y] <= b[y];
  }
}
