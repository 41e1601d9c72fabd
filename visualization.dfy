/** Route colours for the map: a fixed palette repeated as often as needed. */
module Visualization {

  /** Twelve RGB colours; every route of a map gets one in turn. */
  const Palette: seq<seq<int>> := [
    [255, 193, 7],    // amber
    [255, 152, 0],    // orange
    [33, 150, 243],   // light blue
    [76, 175, 80],    // green
    [156, 39, 176],   // purple
    [244, 67, 54],    // red
    [0, 188, 212],    // cyan
    [255, 235, 59],   // bright yellow
    [255, 87, 34],    // deep orange
    [63, 81, 181],    // indigo
    [0, 150, 136],    // teal
    [233, 30, 99]     // pink
  ]

  /** An RGB triple with every component a byte value. */
  predicate IsRgb(c: seq<int>) {
    |c| == 3 && forall k :: 0 <= k < 3 ==> 0 <= c[k] <= 255
  }

  lemma PaletteIsRgb()
    ensures |Palette| == 12
    ensures forall i :: 0 <= i < |Palette| ==> IsRgb(Palette[i])
  {
  }

  /** The palette entry route `i` gets: the palette repeats every twelve routes. */
  function ColorOf(i: nat): seq<int> {
    Palette[i % 12]
  }

  lemma FirstColors()
    ensures forall i :: 0 <= i < 12 ==> ColorOf(i) == Palette[i]
  {
  }

  lemma ColorOfIsRgb(i: nat)
    ensures IsRgb(ColorOf(i))
  {
    PaletteIsRgb();
  }

  /** The `while len(colors) < n_routes` loop: the palette doubled until it has at least `n` entries. */
  method Repeated(n: int) returns (colors: seq<seq<int>>)
    ensures |colors| >= n && |colors| >= 12
    ensures n <= 12 ==> |colors| == 12
    ensures forall i :: 0 <= i < |colors| ==> colors[i] == ColorOf(i)
  {
    colors := Palette;
    FirstColors();
    while |colors| < n
      invariant |colors| >= 12 && |colors| % 12 == 0
      invariant n <= 12 ==> |colors| == 12
      invariant forall i :: 0 <= i < |colors| ==> colors[i] == ColorOf(i)
      decreases n - |colors|
    {
      ghost var half := |colors|;
      assert |colors + colors| == 2 * half;
      forall i | half <= i < 2 * half
        ensures (colors + colors)[i] == ColorOf(i)
      {
        assert (colors + colors)[i] == colors[i - half];
        ShiftedColor(i, half);
      }
      colors := colors + colors;
    }
  }

  /**
   * get_route_colors: the palette is doubled until it has at least `n`
   * entries and then cut to its first `n`. A negative `n` slices as Python
   * does, dropping that many entries from the end of the palette.
   */
  method GetRouteColors(n: int) returns (colors: seq<seq<int>>)
    ensures n >= 0 ==> |colors| == n
    ensures n >= 0 ==> forall i :: 0 <= i < n ==> colors[i] == ColorOf(i)
    ensures n < 0 ==> colors == Palette[..if 12 + n > 0 then 12 + n else 0]
    ensures forall i :: 0 <= i < |colors| ==> IsRgb(colors[i])
  {
    colors := Repeated(n);
    if n >= 0 {
      colors := colors[..n];
    } else {
      colors := colors[..if |colors| + n > 0 then |colors| + n else 0];
      FirstColors();
    }
    forall i | 0 <= i < |colors|
      ensures IsRgb(colors[i])
    {
      ColorOfIsRgb(i);
    }
  }

  lemma ShiftedColor(i: nat, m: nat)
    requires m % 12 == 0 && m <= i
    ensures ColorOf(i) == ColorOf(i - m)
  {
    assert i % 12 == (i - m) % 12 by {
      var q := m / 12;
      assert m == 12 * q;
    }
  }

  /** A colour's hexadecimal code, 0xRRGGBB. */
  function Hex(c: seq<int>): int
    requires |c| == 3
  {
    c[0] * 0x10000 + c[1] * 0x100 + c[2]
  }

  /** The twelve palette entries are twelve different colours. */
  lemma PaletteDistinct()
    ensures forall i, j :: 0 <= i < j < |Palette| ==> Palette[i] != Palette[j]
  {
    var codes := [0xFFC107, 0xFF9800, 0x2196F3, 0x4CAF50, 0x9C27B0, 0xF44336,
                  0x00BCD4, 0xFFEB3B, 0xFF5722, 0x3F51B5, 0x009688, 0xE91E63];
    forall i | 0 <= i < |Palette|
      ensures |Palette[i]| == 3 && Hex(Palette[i]) == codes[i]
    {
    }
    forall i, j | 0 <= i < j < |Palette|
      ensures Palette[i] != Palette[j]
    {
      assert codes[i] != codes[j];
    }
  }

  /** Up to twelve routes get distinct colours, the palette's first ones in order. */
  lemma FewRoutesDistinct(n: nat)
    requires n <= 12
    ensures forall i :: 0 <= i < n ==> ColorOf(i) == Palette[i]
    ensures forall i, j :: 0 <= i < j < n ==> ColorOf(i) != ColorOf(j)
  {
    FirstColors();
    PaletteDistinct();
  }
}
