/**
 The text rendering of a QR code: two module rows per character row, with a
 quiet border of four modules on every side.
 */
module QrRender {
  import opened Text

  const BORDER: int := 4

  /** An encoded QR code: its side length and its dark modules. */
  datatype QrCode = QrCode(size: nat, dark: set<(int, int)>) {
    /** Outside the grid every module is light. */
    predicate GetModule(x: int, y: int) {
      0 <= x < size && 0 <= y < size && (x, y) in dark
    }

    function Width(): nat {
      size + 8
    }

    /** Character rows needed for `Width()` module rows. */
    function Rows(): nat {
      (Width() + 1) / 2
    }
  }

  function Glyph(upper: bool, lower: bool): char {
    match (upper, lower)
    case (true, true) => '\U{2588}'
    case (true, false) => '\U{2580}'
    case (false, true) => '\U{2584}'
    case (false, false) => '\U{0020}'
  }

  /** Character row `r` with its line break. */
  function Row(qr: QrCode, r: nat): (s: string)
    ensures |s| == qr.Width() + 1
  {
    seq(qr.Width(), c requires 0 <= c < qr.Width() => CharAt(qr, r, c)) + "\n"
  }

  function CharAt(qr: QrCode, r: nat, c: nat): char {
    Glyph(qr.GetModule(c - BORDER, 2 * r - BORDER), qr.GetModule(c - BORDER, 2 * r - BORDER + 1))
  }

  /** The first `k` character rows. */
  function Image(qr: QrCode, k: nat): string {
    if k == 0 then "" else Image(qr, k - 1) + Row(qr, k - 1)
  }

  /** Offset of column `c` of row `r` in a text whose rows hold `w` characters and a line break. */
  function Offset(w: nat, r: nat, c: nat): nat {
    r * (w + 1) + c
  }

  /** Renders an encoded code; an encoding error is passed on. */
  method GenerateUnicodeQr(encoded: Result<QrCode, string>) returns (r: Result<string, string>)
    ensures r.Err? <==> encoded.Err?
    ensures encoded.Err? ==> r.error == encoded.error
    ensures encoded.Ok? ==> r.value == Image(encoded.value, encoded.value.Rows())
  {
    match encoded
    case Err(e) => r := Err(e);
    case Ok(qr) =>
      var buf := "";
      var y := -BORDER;
      ghost var row := 0;
      while y < qr.size + BORDER
        invariant y == 2 * row - BORDER && row <= qr.Rows()
        invariant buf == Image(qr, row)
      {
        ghost var above := buf;
        var x := -BORDER;
        while x < qr.size + BORDER
          invariant -BORDER <= x <= qr.size + BORDER
          invariant buf == above + Row(qr, row)[..x + BORDER]
        {
          var upper := qr.GetModule(x, y);
          var lower := qr.GetModule(x, y + 1);
          buf := buf + [Glyph(upper, lower)];
          x := x + 1;
        }
        buf := buf + "\n";
        y, row := y + 2, row + 1;
      }
      r := Ok(buf);
  }

  // -- What the picture shows -----------------------------------------------

  predicate ShowsUpper(c: char) {
    c == '\U{2588}' || c == '\U{2580}'
  }

  predicate ShowsLower(c: char) {
    c == '\U{2588}' || c == '\U{2584}'
  }

  /** A reader of the picture: the module at (x, y), border included, of a code of side `n`. */
  predicate ReadModule(text: string, n: nat, x: int, y: int)
    requires -BORDER <= x < n + BORDER && -BORDER <= y
    requires |text| > Offset(n + 8, (y + BORDER) / 2, x + BORDER)
  {
    var c := text[Offset(n + 8, (y + BORDER) / 2, x + BORDER)];
    if (y + BORDER) % 2 == 0 then ShowsUpper(c) else ShowsLower(c)
  }

  lemma {:induction false} ImageLength(qr: QrCode, k: nat)
    ensures |Image(qr, k)| == Offset(qr.Width(), k, 0)
  {
    if k > 0 {
      ImageLength(qr, k - 1);
      assert k * (qr.Width() + 1) == (k - 1) * (qr.Width() + 1) + (qr.Width() + 1);
    }
  }

  lemma OffsetInside(w: nat, r: nat, c: nat, k: nat)
    requires r < k && c <= w
    ensures Offset(w, r, c) < Offset(w, k, 0)
  {
    assert (r + 1) * (w + 1) <= k * (w + 1);
  }

  /** Every character of the picture, addressed by row and column. */
  lemma {:induction false} ImageAt(qr: QrCode, k: nat, r: nat, c: nat)
    requires r < k && c <= qr.Width()
    ensures Offset(qr.Width(), r, c) < |Image(qr, k)|
    ensures Image(qr, k)[Offset(qr.Width(), r, c)] == (if c < qr.Width() then CharAt(qr, r, c) else '\n')
  {
    ImageLength(qr, k - 1);
    ImageLength(qr, k);
    OffsetInside(qr.Width(), r, c, k);
    if r < k - 1 {
      ImageAt(qr, k - 1, r, c);
    }
  }

  /**
   The picture is lossless: it has ceil((n+8)/2) rows of n+8 characters, and every module of grid
   and border can be read back from it.
   */
  lemma RenderIsLossless(qr: QrCode, x: int, y: int)
    requires -BORDER <= x < qr.size + BORDER && -BORDER <= y < 2 * qr.Rows() - BORDER
    ensures var text := Image(qr, qr.Rows());
            && |text| == qr.Rows() * (qr.size + 9)
            && qr.size + 8 <= 2 * qr.Rows() <= qr.size + 9
            && |text| > Offset(qr.size + 8, (y + BORDER) / 2, x + BORDER)
            && ReadModule(text, qr.size, x, y) == qr.GetModule(x, y)
  {
    var r := (y + BORDER) / 2;
    ImageLength(qr, qr.Rows());
    ImageAt(qr, qr.Rows(), r, x + BORDER);
    assert 2 * r - BORDER == y || 2 * r - BORDER + 1 == y;
  }

  /** Two codes with the same picture are the same code: size and all modules. */
  lemma RenderIsInjective(a: QrCode, b: QrCode)
    requires Image(a, a.Rows()) == Image(b, b.Rows())
    ensures a.size == b.size
    ensures forall x, y :: a.GetModule(x, y) == b.GetModule(x, y)
  {
    FirstBreak(a, b);
    FirstBreak(b, a);
    forall x, y ensures a.GetModule(x, y) == b.GetModule(x, y) {
      if 0 <= x < a.size && 0 <= y < a.size {
        RenderIsLossless(a, x, y);
        RenderIsLossless(b, x, y);
      }
    }
  }

  /** The first line break of a picture gives away its width. */
  lemma FirstBreak(a: QrCode, b: QrCode)
    requires Image(a, a.Rows()) == Image(b, b.Rows())
    ensures a.size >= b.size
  {
    ImageAt(a, a.Rows(), 0, a.Width());
    if a.size < b.size {
      ImageAt(b, b.Rows(), 0, a.Width());
    }
  }
}
