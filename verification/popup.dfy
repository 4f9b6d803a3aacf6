/**
 * Popup text layout: vertical centering of a popup's lines by padding them
 * with empty lines on top.
 */
module Popup {
  import opened Types

  /** The rows inside an area of `height` rows, less the top and bottom border when bordered. */
  function AvailableHeight(height: U16, bordered: bool): (h: U16)
    ensures bordered ==> h == (if height >= 2 then height - 2 else 0)
    ensures !bordered ==> h == height
  {
    if bordered then SaturatingSub(height, 2) else height
  }

  /**
   * `pad_top_lines_center`: the result is some number of empty lines followed
   * by the input lines unchanged. The line count is taken as a `u16`
   * (`lines.len() as u16`, i.e. modulo 65536); when it is below the
   * available height the padding centers the lines (the space left below
   * is the space above or one more), otherwise there is no padding.
   */
  function PadTopLinesCenter(lines: seq<string>, height: U16, bordered: bool): (r: seq<string>)
    ensures |r| >= |lines|
    ensures r[|r| - |lines|..] == lines
    ensures forall i :: 0 <= i < |r| - |lines| ==> r[i] == ""
    ensures var available := AvailableHeight(height, bordered);
            var n := |lines| % 0x1_0000;
            var pad := |r| - |lines|;
            && (n >= available ==> pad == 0)
            && (n < available ==> 2 * pad <= available - n <= 2 * pad + 1)
  {
    var totalLines: U16 := |lines| % 0x1_0000;
    var topPadding := SaturatingSub(AvailableHeight(height, bordered), totalLines) / 2;
    seq(topPadding, _ => "") + lines
  }

  /** With fewer than 65536 lines, lines that fill the available height get no padding. */
  lemma NoPaddingWhenFull(lines: seq<string>, height: U16, bordered: bool)
    requires |lines| < 0x1_0000
    requires |lines| >= AvailableHeight(height, bordered)
    ensures PadTopLinesCenter(lines, height, bordered) == lines
  {
    var r := PadTopLinesCenter(lines, height, bordered);
    assert |r| - |lines| == 0;
    assert r == r[0..];
  }
}
