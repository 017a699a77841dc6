/** String order and number rendering, as record headers and cells need them. */
module Text {

  /** Lexicographic order by code point. */
  predicate Leq(a: string, b: string) {
    a == [] || (b != [] && (a[0] < b[0] || (a[0] == b[0] && Leq(a[1..], b[1..]))))
  }

  lemma {:induction false} LeqTotal(a: string, b: string)
    ensures Leq(a, b) || Leq(b, a)
    ensures Leq(a, b) && Leq(b, a) ==> a == b
  {
    if a != [] && b != [] && a[0] == b[0] {
      LeqTotal(a[1..], b[1..]);
      assert a == [a[0]] + a[1..] && b == [b[0]] + b[1..];
    }
  }

  lemma {:induction false} LeqTrans(a: string, b: string, c: string)
    requires Leq(a, b) && Leq(b, c)
    ensures Leq(a, c)
  {
    if a != [] && a[0] == b[0] == c[0] {
      LeqTrans(a[1..], b[1..], c[1..]);
    }
  }

  predicate IsLeast(keys: set<string>, m: string) {
    m in keys && forall k :: k in keys ==> Leq(m, k)
  }

  lemma {:induction false} LeastExists(keys: set<string>)
    requires keys != {}
    ensures exists m :: IsLeast(keys, m)
    ensures forall m, n :: IsLeast(keys, m) && IsLeast(keys, n) ==> m == n
  {
    forall m, n | IsLeast(keys, m) && IsLeast(keys, n) ensures m == n { LeqTotal(m, n); }
    var x :| x in keys;
    LeqTotal(x, x);
    if keys == {x} {
      assert IsLeast(keys, x);
    } else {
      LeastExists(keys - {x});
      var y :| IsLeast(keys - {x}, y);
      LeqTotal(x, y);
      if Leq(x, y) {
        forall k | k in keys ensures Leq(x, k) { if k != x { LeqTrans(x, y, k); } }
        assert IsLeast(keys, x);
      } else {
        assert IsLeast(keys, y);
      }
    }
  }

  ghost predicate Ascending(keys: seq<string>) {
    forall i, j :: 0 <= i < j < |keys| ==> keys[i] != keys[j] && Leq(keys[i], keys[j])
  }

  /** The keys once each, in order. */
  function Sorted(keys: set<string>): (r: seq<string>)
    ensures Ascending(r)
    ensures forall k :: k in r <==> k in keys
    ensures |r| == |keys|
  {
    if keys == {} then []
    else
      LeastExists(keys);
      var m :| m in keys && IsLeast(keys, m);
      [m] + Sorted(keys - {m})
  }

  /** The strings agree before this place, and here the first one is smaller. */
  predicate SmallerAt(a: string, b: string, i: nat) {
    i < |a| && i < |b| && a[..i] == b[..i] && a[i] < b[i]
  }

  lemma SmallerLater(a: string, b: string, i: nat)
    requires a != [] && b != [] && a[0] == b[0]
    ensures SmallerAt(a, b, i + 1) <==> SmallerAt(a[1..], b[1..], i)
  {
    if i + 1 <= |a| && i + 1 <= |b| {
      assert a[..i + 1] == [a[0]] + a[1..][..i] && b[..i + 1] == [b[0]] + b[1..][..i];
      assert a[1..][..i] == a[..i + 1][1..] && b[1..][..i] == b[..i + 1][1..];
    }
  }

  /** How the order goes: one string is a prefix of the other, or is smaller where they first differ. */
  lemma {:induction false} LeqIff(a: string, b: string)
    ensures Leq(a, b) <==> a <= b || exists i :: SmallerAt(a, b, i)
  {
    if a != [] && b != [] && a[0] == b[0] {
      LeqIff(a[1..], b[1..]);
      assert a <= b <==> a[1..] <= b[1..];
      forall i: nat ensures SmallerAt(a, b, i + 1) <==> SmallerAt(a[1..], b[1..], i) { SmallerLater(a, b, i); }
      assert !SmallerAt(a, b, 0);
      hide SmallerAt;
      if i: nat :| SmallerAt(a, b, i) { assert SmallerAt(a[1..], b[1..], i - 1) by { assert i - 1 + 1 == i; } }
    } else if a != [] && b != [] && a[0] < b[0] {
      assert SmallerAt(a, b, 0);
    }
  }

  // ------------------------------------------------------------------
  // Numbers
  // ------------------------------------------------------------------

  function Decimal(n: nat): string {
    var digit := ["0123456789"[n % 10]];
    if n < 10 then digit else Decimal(n / 10) + digit
  }

  predicate Digits(text: string) { forall i :: 0 <= i < |text| ==> '0' <= text[i] <= '9' }

  /** What a string of digits stands for, read from left to right. */
  function Reading(text: string): nat
    requires Digits(text)
  {
    if text == [] then 0
    else 10 * Reading(text[..|text| - 1]) + (text[|text| - 1] as nat - '0' as nat)
  }

  /** The text is how one writes the number: digits only, none too many, standing for it. */
  ghost predicate Numeral(text: string, n: nat) {
    && text != [] && Digits(text) && Reading(text) == n
    && (text[0] == '0' ==> text == "0")
  }

  lemma {:induction false} DecimalIsNumeral(n: nat)
    ensures Numeral(Decimal(n), n)
  {
    var digit := "0123456789"[n % 10];
    DigitValue(n % 10);
    if n < 10 {
      assert [digit][..0] == [] && Decimal(n) == [digit];
    } else {
      var front := Decimal(n / 10);
      DecimalIsNumeral(n / 10);
      assert Decimal(n) == front + [digit];
      assert (front + [digit])[..|front|] == front;
      ZeroReads();
    }
  }

  lemma ZeroReads()
    ensures Digits("0") && Reading("0") == 0
  {
    assert "0"[..0] == [];
  }

  lemma DigitValue(d: nat)
    requires d < 10
    ensures var c := "0123456789"[d]; '0' <= c <= '9' && c as nat - '0' as nat == d
  {
  }

  /** Different numbers are written differently. */
  lemma DecimalInjective(a: nat, b: nat)
    requires Decimal(a) == Decimal(b)
    ensures a == b
  {
    DecimalIsNumeral(a);
    DecimalIsNumeral(b);
  }
}
