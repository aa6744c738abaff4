// Row-major RGB buffers: where a sample lives, and when a buffer holds an image.
module Raster {

  // (y * width + x) * channels + c, for three channels
  function Offset(w: int, y: int, x: int, c: int): int {
    (y * w + x) * 3 + c
  }

  predicate Inside(w: int, h: int, y: int, x: int, c: int) {
    0 <= y < h && 0 <= x < w && 0 <= c < 3
  }

  lemma RowStep(w: int, y: int)
    ensures (y + 1) * w == y * w + w
  {
  }

  lemma {:induction false} RowsApart(w: int, y: int, y': int)
    requires w >= 0 && y < y'
    ensures y * w + w <= y' * w
    decreases y' - y
  {
    RowStep(w, y' - 1);
    if y < y' - 1 {
      RowsApart(w, y, y' - 1);
    }
  }

  lemma OffsetInside(w: int, h: int, y: int, x: int)
    requires 0 <= y < h && 0 <= x < w
    ensures 0 <= Offset(w, y, x, 0) && Offset(w, y, x, 0) + 3 <= 3 * (w * h)
  {
    RowsApart(w, y, h);
    if y > 0 {
      RowsApart(w, 0, y);
    }
  }

  lemma OffsetInjective(w: int, y: int, x: int, c: int, y': int, x': int, c': int)
    requires 0 <= x < w && 0 <= x' < w && 0 <= c < 3 && 0 <= c' < 3
    requires Offset(w, y, x, c) == Offset(w, y', x', c')
    ensures y == y' && x == x' && c == c'
  {
    if y < y' {
      RowsApart(w, y, y');
    } else if y' < y {
      RowsApart(w, y', y);
    }
  }

  // s is exactly the image f.
  ghost predicate Renders<T>(s: seq<T>, w: nat, h: nat, f: (int, int, int) -> T) {
    && |s| == 3 * (w * h)
    && forall y, x, c :: Inside(w, h, y, x, c) && 0 <= Offset(w, y, x, c) < |s| ==>
         s[Offset(w, y, x, c)] == f(y, x, c)
  }

  lemma RenderedAt<T>(s: seq<T>, w: nat, h: nat, f: (int, int, int) -> T, y: int, x: int, c: int)
    requires Renders(s, w, h, f) && Inside(w, h, y, x, c)
    ensures 0 <= Offset(w, y, x, c) < |s| && s[Offset(w, y, x, c)] == f(y, x, c)
  {
    OffsetInside(w, h, y, x);
  }

  // Every position of a buffer is the place of some sample.
  lemma Locate(w: nat, h: nat, i: nat) returns (y: int, x: int, c: int)
    requires i < 3 * (w * h)
    ensures Inside(w, h, y, x, c) && Offset(w, y, x, c) == i
  {
    var p := i / 3;
    assert w > 0;
    y, x, c := p / w, p % w, i % 3;
    assert p == y * w + x;
    if y >= h {
      if h < y {
        RowsApart(w, h, y);
      }
    }
  }

  lemma RendersUnique<T>(s: seq<T>, t: seq<T>, w: nat, h: nat, f: (int, int, int) -> T, g: (int, int, int) -> T)
    requires Renders(s, w, h, f) && Renders(t, w, h, g)
    requires forall y, x, c :: Inside(w, h, y, x, c) ==> f(y, x, c) == g(y, x, c)
    ensures s == t
  {
    forall i | 0 <= i < |s|
      ensures s[i] == t[i]
    {
      var y, x, c := Locate(w, h, i);
      RenderedAt(s, w, h, f, y, x, c);
      RenderedAt(t, w, h, g, y, x, c);
    }
  }

  // The first n positions of s hold f.
  ghost predicate Filled<T>(s: seq<T>, w: int, n: int, f: (int, int, int) -> T) {
    && 0 <= n <= |s|
    && forall y, x, c :: 0 <= y && 0 <= x < w && 0 <= c < 3 && 0 <= Offset(w, y, x, c) < n ==>
         s[Offset(w, y, x, c)] == f(y, x, c)
  }

  lemma FilledStep<T>(s: seq<T>, t: seq<T>, w: int, y: int, x: int, c: int, f: (int, int, int) -> T)
    requires 0 <= y && 0 <= x < w && 0 <= c < 3
    requires Filled(s, w, Offset(w, y, x, c), f) && Offset(w, y, x, c) < |s|
    requires t == s[Offset(w, y, x, c) := f(y, x, c)]
    ensures Filled(t, w, Offset(w, y, x, c) + 1, f)
  {
    forall y', x', c' | 0 <= y' && 0 <= x' < w && 0 <= c' < 3 && 0 <= Offset(w, y', x', c') <= Offset(w, y, x, c)
      ensures t[Offset(w, y', x', c')] == f(y', x', c')
    {
      if Offset(w, y', x', c') == Offset(w, y, x, c) {
        OffsetInjective(w, y', x', c', y, x, c);
      }
    }
  }

  // Writing one whole pixel.
  lemma FilledPixel<T>(s: seq<T>, t: seq<T>, w: int, h: int, y: int, x: int, f: (int, int, int) -> T)
    requires 0 <= y < h && 0 <= x < w && |s| == 3 * (w * h)
    requires Filled(s, w, Offset(w, y, x, 0), f)
    requires Offset(w, y, x, 0) + 3 <= |s|
    requires t == s[Offset(w, y, x, 0) := f(y, x, 0)]
                   [Offset(w, y, x, 1) := f(y, x, 1)]
                   [Offset(w, y, x, 2) := f(y, x, 2)]
    ensures Filled(t, w, Offset(w, y, x + 1, 0), f)
  {
    var s1 := s[Offset(w, y, x, 0) := f(y, x, 0)];
    var s2 := s1[Offset(w, y, x, 1) := f(y, x, 1)];
    FilledStep(s, s1, w, y, x, 0, f);
    FilledStep(s1, s2, w, y, x, 1, f);
    FilledStep(s2, t, w, y, x, 2, f);
  }

  lemma FilledStart<T>(s: seq<T>, w: int, f: (int, int, int) -> T)
    ensures Filled(s, w, Offset(w, 0, 0, 0), f)
  {
  }

  lemma FilledRow<T>(s: seq<T>, w: int, y: int, f: (int, int, int) -> T)
    requires Filled(s, w, Offset(w, y, w, 0), f)
    ensures Filled(s, w, Offset(w, y + 1, 0, 0), f)
  {
    RowStep(w, y);
  }

  lemma FilledAll<T>(s: seq<T>, w: nat, h: nat, f: (int, int, int) -> T)
    requires |s| == 3 * (w * h) && Filled(s, w, Offset(w, h, 0, 0), f)
    ensures Renders(s, w, h, f)
  {
    assert Offset(w, h, 0, 0) == |s| by {
      assert h * w == w * h;
    }
  }
}
