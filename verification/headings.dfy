/** The numbered-heading test both document scanners apply: does a text start with `1.`, `2.`, …, `99.`? */
module Headings {
  import opened PyStr

  /** The prefixes `1.` through `99.`, in order, built as `f"{i}."` for `i` in `range(1, 100)`. */
  function NumberedPrefixes(): (ps: seq<string>)
    ensures |ps| == 99
  {
    seq(99, i requires 0 <= i < 99 => NatToString(i + 1) + ".")
  }

  /** `text.startswith(tuple(f"{i}." for i in range(1, 100)))`. */
  predicate StartsWithNumbered(text: string) {
    StartsWithAny(text, NumberedPrefixes())
  }

  /** The same test read character by character: a non-zero digit, optionally one more digit, then a dot. */
  predicate NumberedShape(text: string) {
    && |text| >= 2
    && '1' <= text[0] <= '9'
    && (text[1] == '.' || (IsDigit(text[1]) && |text| >= 3 && text[2] == '.'))
  }

  lemma OneDigit(n: nat)
    requires 1 <= n < 10
    ensures NatToString(n) == [DigitChar(n)] && '1' <= DigitChar(n) <= '9'
  {
  }

  lemma TwoDigits(n: nat)
    requires 10 <= n < 100
    ensures NatToString(n) == [DigitChar(n / 10), DigitChar(n % 10)]
    ensures '1' <= DigitChar(n / 10) <= '9'
  {
    assert NatToString(n / 10) == [DigitChar(n / 10)];
  }

  lemma NumberedHasShape(text: string)
    requires StartsWithNumbered(text)
    ensures NumberedShape(text)
  {
    var ps := NumberedPrefixes();
    var k :| 0 <= k < |ps| && StartsWith(text, ps[k]);
    var n := k + 1;
    if n < 10 {
      OneDigit(n);
      assert text[..2] == ps[k];
    } else {
      TwoDigits(n);
      assert text[..3] == ps[k];
    }
  }

  lemma ShapeIsNumbered(text: string)
    requires NumberedShape(text)
    ensures StartsWithNumbered(text)
  {
    var ps := NumberedPrefixes();
    var d0 := DigitValue(text[0]);
    if text[1] == '.' {
      var n := d0;
      OneDigit(n);
      assert ps[n - 1] == [text[0]] + ".";
      assert text[..2] == ps[n - 1];
    } else {
      var n := d0 * 10 + DigitValue(text[1]);
      TwoDigits(n);
      assert n / 10 == d0 && n % 10 == DigitValue(text[1]);
      assert ps[n - 1] == [text[0], text[1]] + ".";
      assert text[..3] == ps[n - 1];
    }
  }

  /** The tuple test and the character shape agree on every text. */
  lemma StartsWithNumberedShape(text: string)
    ensures StartsWithNumbered(text) <==> NumberedShape(text)
  {
    if StartsWithNumbered(text) {
      NumberedHasShape(text);
    }
    if NumberedShape(text) {
      ShapeIsNumbered(text);
    }
  }
}
