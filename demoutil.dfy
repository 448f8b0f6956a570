/**
 * `parse_size` from demo/demoutil.c: reads a "WxH" size argument of the
 * demo programs into a width and a height.
 */
module DemoUtil {

  /** The separator between width and height. */
  predicate IsSeparator(c: char) {
    c == 'x' || c == 'X'
  }

  /** What `isdigit` accepts in the C locale. */
  predicate IsDigit(c: char) {
    '0' <= c <= '9'
  }

  predicate AllDigits(s: string) {
    forall k :: 0 <= k < |s| ==> IsDigit(s[k])
  }

  /** The value of a string of decimal digits, most significant first. */
  function Decimal(s: string): nat
    requires AllDigits(s)
  {
    if s == [] then 0 else Decimal(s[..|s| - 1]) * 10 + (s[|s| - 1] - '0') as nat
  }

  /** A dimension the demos accept: strictly between 0 and 10000. */
  predicate InRange(n: int) {
    0 < n < 10000
  }

  /** `text` is digits, a separator at position `s`, then digits. */
  predicate SplitAt(text: string, s: int) {
    0 <= s < |text| && IsSeparator(text[s]) && AllDigits(text[..s]) && AllDigits(text[s + 1..])
  }

  /**
   * The sizes a text denotes, declaratively: digits, one separator, digits,
   * with both numbers in range. Nothing else is a size.
   */
  ghost predicate Denotes(text: string, w: int, h: int) {
    exists s :: SplitAt(text, s)
      && w == Decimal(text[..s]) && h == Decimal(text[s + 1..])
      && InRange(w) && InRange(h)
  }

  /** A text splits at most at one position, so it denotes at most one size. */
  lemma SplitUnique(text: string, s1: int, s2: int)
    requires SplitAt(text, s1) && SplitAt(text, s2)
    ensures s1 == s2
  {
    if s1 < s2 {
      assert false;
    } else if s2 < s1 {
      assert false;
    }
  }

  lemma DenotesUnique(text: string, w1: int, h1: int, w2: int, h2: int)
    requires Denotes(text, w1, h1) && Denotes(text, w2, h2)
    ensures w1 == w2 && h1 == h2
  {
    var s1 :| SplitAt(text, s1) && w1 == Decimal(text[..s1]) && h1 == Decimal(text[s1 + 1..]);
    var s2 :| SplitAt(text, s2) && w2 == Decimal(text[..s2]) && h2 == Decimal(text[s2 + 1..]);
    SplitUnique(text, s1, s2);
  }

  /** A text that splits nowhere denotes no size. */
  lemma NoSplitNoSize(text: string)
    requires forall s :: !SplitAt(text, s)
    ensures forall w, h :: !Denotes(text, w, h)
  {
  }

  lemma DecimalSnoc(s: string, c: char)
    requires AllDigits(s) && IsDigit(c)
    ensures AllDigits(s + [c])
    ensures Decimal(s + [c]) == Decimal(s) * 10 + (c - '0') as nat
  {
    assert (s + [c])[..|s|] == s;
  }

  /** One more digit of a number that starts at `from`: its value is shifted in. */
  lemma DigitStep(text: string, from: nat, i: nat)
    requires from <= i < |text| && IsDigit(text[i]) && AllDigits(text[from..i])
    ensures AllDigits(text[from..i + 1])
    ensures Decimal(text[from..i + 1]) == Decimal(text[from..i]) * 10 + (text[i] - '0') as nat
  {
    DecimalSnoc(text[from..i], text[i]);
    assert text[from..i + 1] == text[from..i] + [text[i]];
  }

  /** A text that splits at `sep` denotes exactly the two numbers around it, when both are in range. */
  lemma SplitDenotes(text: string, sep: int)
    requires SplitAt(text, sep)
    ensures forall w, h :: Denotes(text, w, h) <==>
      w == Decimal(text[..sep]) && h == Decimal(text[sep + 1..]) && InRange(w) && InRange(h)
  {
    forall s | SplitAt(text, s) ensures s == sep {
      SplitUnique(text, s, sep);
    }
  }

  /**
   * `parse_size(text, &width, &height)`. The C string is `text` (a C string
   * holds no NUL); `width0` and `height0` are what the output variables held
   * before the call and `width`, `height` what they hold after it.
   */
  method ParseSize(text: string, width0: int, height0: int) returns (status: int, width: int, height: int)
    requires forall k :: 0 <= k < |text| ==> text[k] != '\0'
    ensures status == 0 || status == -1
    ensures status == 0 <==> Denotes(text, width, height)
    ensures status == -1 ==> width == width0 && height == height0
    ensures status == -1 ==> forall w, h :: !Denotes(text, w, h)
  {
    var state := 0;
    var w, h := 0, 0;
    ghost var sep := 0;
    var i := 0;
    while i < |text|
      invariant 0 <= i <= |text|
      invariant state == 0 || state == 1
      invariant state == 0 ==> AllDigits(text[..i]) && w == Decimal(text[..i]) && h == 0
      invariant state == 1 ==>
        0 <= sep < i && IsSeparator(text[sep]) &&
        AllDigits(text[..sep]) && AllDigits(text[sep + 1..i]) &&
        w == Decimal(text[..sep]) && h == Decimal(text[sep + 1..i])
    {
      var c := text[i];
      if IsSeparator(c) {
        if state == 0 {
          state := 1;
          sep := i;
          assert text[sep + 1..i + 1] == [];
        } else {
          // a second separator
          NoSizeWithTwoSeparators(text, sep, i);
          return -1, width0, height0;
        }
      } else if IsDigit(c) {
        if state == 0 {
          DigitStep(text, 0, i);
          w := w * 10 + (c - '0') as int;
        } else {
          DigitStep(text, sep + 1, i);
          h := h * 10 + (c - '0') as int;
        }
      } else {
        // neither a digit nor a separator
        NoSizeWithStrayCharacter(text, i);
        return -1, width0, height0;
      }
      i := i + 1;
    }
    assert text[..i] == text;
    if state == 0 {
      NoSizeWithoutSeparator(text);
    } else {
      assert text[sep + 1..i] == text[sep + 1..];
      SplitDenotes(text, sep);
    }
    if w <= 0 || w >= 10000 || h <= 0 || h >= 10000 {
      return -1, width0, height0;
    }
    return 0, w, h;
  }

  /** A text with two separators denotes no size. */
  lemma NoSizeWithTwoSeparators(text: string, i: int, j: int)
    requires 0 <= i < j < |text| && IsSeparator(text[i]) && IsSeparator(text[j])
    ensures forall s :: !SplitAt(text, s)
    ensures forall w, h :: !Denotes(text, w, h)
  {
    forall s | 0 <= s < |text| && IsSeparator(text[s])
      ensures !(AllDigits(text[..s]) && AllDigits(text[s + 1..]))
    {
      var other := if s == i then j else i;
      assert !IsDigit(text[other]);
      if other < s {
        assert text[..s][other] == text[other];
      } else {
        assert text[s + 1..][other - s - 1] == text[other];
      }
    }
  }

  /** A text with a character that is neither a digit nor a separator denotes no size. */
  lemma NoSizeWithStrayCharacter(text: string, i: int)
    requires 0 <= i < |text| && !IsSeparator(text[i]) && !IsDigit(text[i])
    ensures forall s :: !SplitAt(text, s)
    ensures forall w, h :: !Denotes(text, w, h)
  {
    forall s | 0 <= s < |text| && IsSeparator(text[s])
      ensures !(AllDigits(text[..s]) && AllDigits(text[s + 1..]))
    {
      if i < s {
        assert text[..s][i] == text[i];
      } else {
        assert text[s + 1..][i - s - 1] == text[i];
      }
    }
  }

  /** A text made of digits only (no separator) denotes no size. */
  lemma NoSizeWithoutSeparator(text: string)
    requires AllDigits(text)
    ensures forall s :: !SplitAt(text, s)
    ensures forall w, h :: !Denotes(text, w, h)
  {
    forall s | 0 <= s < |text| ensures !IsSeparator(text[s]) {
      assert IsDigit(text[s]);
    }
  }

  /** "640x480" is the size 640 by 480. */
  lemma SizeExampleVga()
    ensures Denotes("640x480", 640, 480)
  {
    assert "640x480"[..3] == "640" && "640x480"[4..] == "480";
    assert "640"[..2] == "64" && "64"[..1] == "6";
    assert "480"[..2] == "48" && "48"[..1] == "4";
    assert Decimal("640") == 640 && Decimal("480") == 480;
    assert SplitAt("640x480", 3);
  }

  /** "1920X1080", with a capital separator, is the size 1920 by 1080. */
  lemma SizeExampleHd()
    ensures Denotes("1920X1080", 1920, 1080)
  {
    assert "1920X1080"[..4] == "1920" && "1920X1080"[5..] == "1080";
    assert "1920"[..3] == "192" && "192"[..2] == "19" && "19"[..1] == "1";
    assert "1080"[..3] == "108" && "108"[..2] == "10" && "10"[..1] == "1";
    assert Decimal("1920") == 1920 && Decimal("1080") == 1080;
    assert SplitAt("1920X1080", 4);
  }

  /** "", "640", "640x", "0x480" and "640x480x" are not sizes. */
  lemma NoSizeExamples()
    ensures forall w, h :: !Denotes("", w, h)
    ensures forall w, h :: !Denotes("640", w, h)
    ensures forall w, h :: !Denotes("640x", w, h)
    ensures forall w, h :: !Denotes("0x480", w, h)
    ensures forall w, h :: !Denotes("640x480x", w, h)
  {
    NoSizeWithoutSeparator("");
    NoSizeWithoutSeparator("640");
    NoSizeWithTwoSeparators("640x480x", 3, 7);
    forall s | SplitAt("640x", s) ensures Decimal("640x"[s + 1..]) == 0 {
      NoSizeWithoutSeparator("640");
      assert "640x"[..3] == "640";
      assert "640x"[4..] == [];
    }
    forall s | SplitAt("0x480", s) ensures Decimal("0x480"[..s]) == 0 {
      assert "0x480"[2..] == "480";
      NoSizeWithoutSeparator("480");
      assert "0x480"[..1] == "0" && "0"[..0] == "";
    }
  }
}
