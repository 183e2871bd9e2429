/** The pure part of span extraction: PyMuPDF's font flags and packed sRGB colour
    integers decoded into style bits and colour components. */
module Formatting {
  import opened Common

  /** `bool(flags & 2**4)`. Python's `&` on an int reads its two's complement
      bits, which for a positive divisor is floor division then remainder:
      exactly Dafny's `/` and `%` on `int`, negative flags included. */
  predicate IsBold(flags: int) {
    (flags / 16) % 2 == 1
  }

  /** `bool(flags & 2**1)`. */
  predicate IsItalic(flags: int) {
    (flags / 2) % 2 == 1
  }

  /** Bold is exactly bit 4: setting it (adding 16 to flags where it is clear)
      makes a span bold and leaves italic alone. */
  lemma SettingBoldBit(flags: int)
    requires !IsBold(flags)
    ensures IsBold(flags + 16) && IsItalic(flags + 16) == IsItalic(flags)
  {
    assert (flags + 16) / 16 == flags / 16 + 1;
    assert (flags + 16) / 2 == flags / 2 + 8;
  }

  /** Italic is exactly bit 1: setting it makes a span italic and leaves bold alone. */
  lemma SettingItalicBit(flags: int)
    requires !IsItalic(flags)
    ensures IsItalic(flags + 2) && IsBold(flags + 2) == IsBold(flags)
  {
    var a, r := flags / 4, flags % 4;
    var h, l := r / 2, r % 2;
    DivTwo(flags, 2 * a + h, l);
    DivTwo(flags / 2, a, h);
    assert h == 0;
    DivTwo(flags + 2, 2 * a + 1, l);
    DivTwo((flags + 2) / 2, a, 1);
    var q, m := flags / 16, flags % 16;
    RemFour(flags, 4 * q + m / 4, m % 4);
    assert m % 4 < 2;
    DivSixteen(flags + 2, q, m + 2);
  }

  lemma DivTwo(v: int, q: int, m: int)
    requires 0 <= m < 2 && v == 2 * q + m
    ensures v / 2 == q && v % 2 == m
  {
  }

  lemma RemFour(v: int, q: int, m: int)
    requires 0 <= m < 4 && v == 4 * q + m
    ensures v % 4 == m
  {
  }

  lemma DivSixteen(v: int, q: int, m: int)
    requires 0 <= m < 16 && v == 16 * q + m
    ensures v / 16 == q
  {
  }

  datatype Rgb = Rgb(r: byte, g: byte, b: byte)

  /** The colour value PyMuPDF hands over: normally an int, and the source's
      `isinstance(color, int)` test falls back to black otherwise. */
  datatype RawColor = Packed(value: int) | NotAnInt

  /** `((c >> 16) & 0xFF, (c >> 8) & 0xFF, c & 0xFF)`, or black for a non-int colour. */
  function DecodeColor(c: RawColor): (rgb: Rgb)
    ensures c.Packed? ==> PackColor(rgb) == c.value % 0x100_0000
    ensures c.NotAnInt? ==> rgb == Rgb(0, 0, 0)
  {
    match c
    case Packed(v) =>
      var rgb := Rgb(((v / 0x1_0000) % 0x100) as byte, ((v / 0x100) % 0x100) as byte, (v % 0x100) as byte);
      DecodeRepacks(v);
      rgb
    case NotAnInt => Rgb(0, 0, 0)
  }

  /** The packed integer for a colour: red in bits 16-23, green in 8-15, blue in 0-7. */
  function PackColor(c: Rgb): int {
    c.r as int * 0x1_0000 + c.g as int * 0x100 + c.b as int
  }

  lemma DecodeRepacks(v: int)
    ensures ((v / 0x1_0000) % 0x100) * 0x1_0000 + ((v / 0x100) % 0x100) * 0x100 + v % 0x100
            == v % 0x100_0000
  {
    var q := v / 0x100;
    assert v == q * 0x100 + v % 0x100;
    assert q / 0x100 == v / 0x1_0000;
    assert q == (q / 0x100) * 0x100 + q % 0x100;
    var h := v / 0x1_0000;
    assert v == h * 0x1_0000 + (q % 0x100) * 0x100 + v % 0x100;
    assert h == (h / 0x100) * 0x100 + h % 0x100;
    var rest := (h % 0x100) * 0x1_0000 + (q % 0x100) * 0x100 + v % 0x100;
    assert v == (h / 0x100) * 0x100_0000 + rest;
    LowBits(v, h / 0x100, rest);
  }

  /** The remainder modulo 2^24 is the part below the multiple of 2^24. */
  lemma LowBits(v: int, k: int, r: int)
    requires 0 <= r < 0x100_0000 && v == k * 0x100_0000 + r
    ensures v % 0x100_0000 == r
  {
  }

  /** Decoding a packed colour gives back its components. */
  lemma DecodePackRoundTrip(c: Rgb)
    ensures DecodeColor(Packed(PackColor(c))) == c
  {
    var v := PackColor(c);
    assert v / 0x1_0000 == c.r as int;
    assert (v / 0x100) == c.r as int * 0x100 + c.g as int;
    assert (v / 0x100) % 0x100 == c.g as int;
  }
}
