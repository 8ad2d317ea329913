/**
 Instants and their stored text (`_iso` in repository.py).

 An instant counts microseconds. `isoformat` writes the whole seconds in fixed-width fields, then a point and six
 digits only when the microseconds are not zero, and the text ends in `Z`. The calendar fields are kept as the
 number of whole seconds they spell, whose order their fixed width preserves.
 */
module Instants {
  import opened Money

  type Instant = nat

  const MICROS := 1_000_000

  datatype IsoText = IsoText(seconds: nat, suffix: string)

  function Iso(t: Instant): IsoText {
    IsoText(t / MICROS, FractionText(t % MICROS))
  }

  function FractionText(micros: nat): string
    requires micros < MICROS
  {
    assert Pow10(6) == MICROS by { assert Pow10(4) == 10_000 by { assert Pow10(2) == 100; } }
    if micros == 0 then "Z" else "." + (Padded(micros, 6) + "Z")
  }

  /** String comparison, by code point. */
  predicate StringLe(a: string, b: string) {
    a == [] || (b != [] && (a[0] < b[0] || (a[0] == b[0] && StringLe(a[1..], b[1..]))))
  }

  /** What SQLite's `<=` on two stored texts decides. */
  predicate IsoLe(a: IsoText, b: IsoText) {
    a.seconds < b.seconds || (a.seconds == b.seconds && StringLe(a.suffix, b.suffix))
  }

  lemma {:induction false} PaddedOrder(a: nat, b: nat, width: nat, tail: string)
    requires a < Pow10(width) && b < Pow10(width)
    ensures StringLe(Padded(a, width) + tail, Padded(b, width) + tail) <==> a <= b
  {
    if a == b {
      StringLeReflexive(Padded(a, width) + tail);
    } else {
      PaddedDiffer(a, b, width, tail, tail);
    }
  }

  lemma AfterPrefix(p: string, c: char, d: char, x: string, y: string)
    requires c != d
    ensures StringLe(p + ([c] + x), p + ([d] + y)) <==> c < d
  {
    StringLePrefix(p, [c] + x, [d] + y);
  }

  /** Two numbers are ordered by their leading digits, or by the last one. */
  lemma DigitsOrder(a: nat, b: nat)
    requires a != b
    ensures a / 10 != b / 10 ==> (a / 10 < b / 10 <==> a < b)
    ensures a / 10 == b / 10 ==> DigitChar(a % 10) != DigitChar(b % 10)
    ensures a / 10 == b / 10 ==> (DigitChar(a % 10) < DigitChar(b % 10) <==> a < b)
  {
  }

  lemma {:induction false} PaddedDiffer(a: nat, b: nat, width: nat, x: string, y: string)
    requires a < Pow10(width) && b < Pow10(width) && a != b
    ensures StringLe(Padded(a, width) + x, Padded(b, width) + y) <==> a < b
    decreases width
  {
    if width > 0 {
      var cs, ds := [DigitChar(a % 10)] + x, [DigitChar(b % 10)] + y;
      PaddedSplit(a, width, x);
      PaddedSplit(b, width, y);
      DigitsOrder(a, b);
      if a / 10 == b / 10 {
        AfterPrefix(Padded(a / 10, width - 1), DigitChar(a % 10), DigitChar(b % 10), x, y);
      } else {
        PaddedDiffer(a / 10, b / 10, width - 1, cs, ds);
      }
    }
  }

  lemma PaddedSplit(n: nat, width: nat, tail: string)
    requires width > 0 && n < Pow10(width)
    ensures n / 10 < Pow10(width - 1)
    ensures Padded(n, width) + tail == Padded(n / 10, width - 1) + ([DigitChar(n % 10)] + tail)
  {
    assert Pow10(width) == 10 * Pow10(width - 1);
  }

  lemma {:induction false} StringLePrefix(p: string, a: string, b: string)
    ensures StringLe(p + a, p + b) <==> StringLe(a, b)
  {
    if p == [] {
      assert p + a == a && p + b == b;
    } else {
      StringLePrefix(p[1..], a, b);
      assert (p + a)[1..] == p[1..] + a && (p + b)[1..] == p[1..] + b;
    }
  }

  lemma {:induction false} StringLeReflexive(s: string)
    ensures StringLe(s, s)
  {
    if s != [] {
      StringLeReflexive(s[1..]);
    }
  }

  /** The two instants fall in one second, and exactly one of them is a whole second. */
  predicate MixedPrecision(a: Instant, b: Instant) {
    a / MICROS == b / MICROS && ((a % MICROS == 0) != (b % MICROS == 0))
  }

  /**
   Text order is time order exactly when the two texts carry the same number of fractional digits, or different
   seconds: `Z` sorts after the point, so a whole second sorts after every later instant of that second.
   */
  lemma TextOrderIsTimeOrder(a: Instant, b: Instant)
    ensures (IsoLe(Iso(a), Iso(b)) <==> a <= b) <==> !MixedPrecision(a, b)
  {
    var x, y := a % MICROS, b % MICROS;
    assert a == MICROS * (a / MICROS) + x && b == MICROS * (b / MICROS) + y;
    if a / MICROS == b / MICROS {
      SuffixOrder(x, y);
    }
  }

  lemma SuffixOrder(x: nat, y: nat)
    requires x < MICROS && y < MICROS
    ensures StringLe(FractionText(x), FractionText(y)) <==> if (x == 0) == (y == 0) then x <= y else y == 0
  {
    var s, t := FractionText(x), FractionText(y);
    assert Pow10(6) == MICROS by { assert Pow10(4) == 10_000 by { assert Pow10(2) == 100; } }
    if x == 0 && y == 0 {
      StringLeReflexive(s);
    } else if x != 0 && y != 0 {
      PaddedOrder(x, y, 6, "Z");
      StringLePrefix(".", Padded(x, 6) + "Z", Padded(y, 6) + "Z");
    }
  }

  /** An instant half a second before its text says so: the expiry 1.5 s sorts before the whole second 1. */
  lemma TextOrderFails()
    ensures IsoLe(Iso(1_500_000), Iso(1_000_000)) && !(1_500_000 <= 1_000_000)
    ensures !IsoLe(Iso(1_000_000), Iso(1_500_000))
  {
    TextOrderIsTimeOrder(1_500_000, 1_000_000);
    TextOrderIsTimeOrder(1_000_000, 1_500_000);
  }

  /** The spelling of an instant within its second: a point and six digits, or nothing, and the zone. */
  lemma IsoIsSpelled(t: Instant) returns (digits: string)
    ensures Iso(t).seconds == t / 1_000_000
    ensures t % 1_000_000 == 0 ==> Iso(t).suffix == "Z"
    ensures t % 1_000_000 != 0 ==> Iso(t).suffix == "." + digits + "Z"
    ensures |digits| == 6 && AllDigits(digits) && NumberOf(digits) == t % 1_000_000
  {
    assert Pow10(6) == MICROS by { assert Pow10(4) == 10_000 by { assert Pow10(2) == 100; } }
    digits := Padded(t % MICROS, 6);
    assert "." + digits + "Z" == "." + (digits + "Z");
  }
}
