// Arithmetic on single samples, over exact reals.
module Pixels {
  import opened Common

  function RealMax(a: real, b: real): real {
    if a < b then b else a
  }

  function RealMin(a: real, b: real): real {
    if b < a then b else a
  }

  // static_cast<uint8_t>(std::max(0.0f, std::min(255.0f, v)))
  function ClampByte(v: real): byte {
    RealMax(0.0, RealMin(255.0, v)).Floor
  }

  // The Go form of the same conversion.
  function GoClampToByte(v: real): byte {
    if v < 0.0 then 0 else if v > 255.0 then 255 else v.Floor
  }

  // Outside 0..255 the nearest bound, inside the truncated value, in both forms.
  lemma ClampSaturates(v: real)
    ensures v <= 0.0 ==> ClampByte(v) == 0
    ensures v >= 255.0 ==> ClampByte(v) == 255
    ensures 0.0 <= v <= 255.0 ==> ClampByte(v) as real <= v < ClampByte(v) as real + 1.0
    ensures GoClampToByte(v) == ClampByte(v)
  {
  }

  // o is 299 parts of red, 587 of green and 114 of blue in a thousand, truncated.
  predicate Luminance(o: byte, r: byte, g: byte, b: byte) {
    1000 * o <= 299 * r + 587 * g + 114 * b < 1000 * (o + 1)
  }

  lemma PureColours(o: byte)
    ensures Luminance(o, 255, 0, 0) <==> o == 76
    ensures Luminance(o, 0, 255, 0) <==> o == 149
    ensures Luminance(o, 0, 0, 255) <==> o == 29
  {
  }

  // 0.299 r + 0.587 g + 0.114 b, truncated
  function Gray(r: byte, g: byte, b: byte): (o: byte)
    ensures 1000 * o <= 299 * r + 587 * g + 114 * b < 1000 * (o + 1)
  {
    GrayBounds(r, g, b);
    (0.299 * r as real + 0.587 * g as real + 0.114 * b as real).Floor
  }

  lemma GrayBounds(r: byte, g: byte, b: byte)
    ensures var lo, hi := Min(r, Min(g, b)), Max(r, Max(g, b));
            lo <= (0.299 * r as real + 0.587 * g as real + 0.114 * b as real).Floor <= hi
  {
    var lo, hi := Min(r, Min(g, b)), Max(r, Max(g, b));
    var v := 0.299 * r as real + 0.587 * g as real + 0.114 * b as real;
    assert lo as real <= v <= hi as real;
  }

  // Clamping is only needed outside 0..255; inside, the cast alone decides.
  lemma ClampIdleInRange(v: real)
    requires 0.0 <= v <= 255.0
    ensures ClampByte(v) == v.Floor && GoClampToByte(v) == v.Floor
  {
  }
}
