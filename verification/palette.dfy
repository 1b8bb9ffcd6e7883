/**
 * The ten-colour palette shared by the stacked-bar routes and the bar and
 * doughnut components, cycled by index.
 */
module Palette {
  import opened Text

  /** The colour part of each palette entry: blue, red, teal, yellow, purple, orange, grey, indigo, pink, green. */
  const Hues: seq<string> := [
    "rgba(54, 162, 235, ",
    "rgba(255, 99, 132, ",
    "rgba(75, 192, 192, ",
    "rgba(255, 206, 86, ",
    "rgba(153, 102, 255, ",
    "rgba(255, 159, 64, ",
    "rgba(199, 199, 199, ",
    "rgba(83, 102, 255, ",
    "rgba(255, 99, 255, ",
    "rgba(99, 255, 132, "
  ]

  /** The palette: each hue at alpha 0.8, e.g. "rgba(54, 162, 235, 0.8)". */
  const Colors: seq<string> := [
    Hues[0] + "0.8)", Hues[1] + "0.8)", Hues[2] + "0.8)", Hues[3] + "0.8)", Hues[4] + "0.8)",
    Hues[5] + "0.8)", Hues[6] + "0.8)", Hues[7] + "0.8)", Hues[8] + "0.8)", Hues[9] + "0.8)"
  ]

  /** `colors[index % colors.length]`. */
  function ColorAt(index: nat): (c: string)
    ensures c in Colors
  {
    Colors[index % |Colors|]
  }

  /** `color.replace('0.8', '1')`: the opaque border colour of a fill colour. */
  function BorderOf(color: string): (border: string)
    ensures border == color || |border| == |color| - 2
    ensures border != color ==> exists k :: OccursAt(color, "0.8", k)
  {
    ReplaceFirst(color, "0.8", "1")
  }

  /** Replacing the first "0.8" of "rgba(..., 0.8)" only touches the alpha, when no '.' comes before it. */
  lemma BorderOfRgba(prefix: string)
    requires '.' !in prefix
    ensures BorderOf(prefix + "0.8)") == prefix + "1)"
  {
    var s := prefix + "0.8)";
    var k := |prefix|;
    assert s[k..k + 3] == "0.8";
    forall j | 0 <= j < k ensures !OccursAt(s, "0.8", j) {
      var c := s[j + 1];
      assert s[j..j + 3][1] == c;
      if j + 1 < k {
        assert c == prefix[j + 1] && c in prefix;
      } else {
        assert c == '0';
      }
    }
    ReplaceFirstAt(s, "0.8", "1", k);
    assert s[..k] == prefix && s[k + 3..] == ")";
  }

  /** No hue holds a '.', so the first "0.8" of a palette colour is its alpha. */
  lemma HueHasNoDot(k: nat)
    requires k < |Hues|
    ensures '.' !in Hues[k]
  {
  }

  /** Every border colour is its fill colour with alpha 1 instead of 0.8. */
  lemma BorderOfPalette(index: nat)
    ensures var c := ColorAt(index);
            |c| >= 4 && c[|c| - 4..] == "0.8)" && BorderOf(c) == c[..|c| - 4] + "1)"
  {
    var k := index % |Hues|;
    var hue := Hues[k];
    var c := hue + "0.8)";
    assert ColorAt(index) == c;
    assert c[..|c| - 4] == hue && c[|c| - 4..] == "0.8)";
    HueHasNoDot(k);
    BorderOfRgba(hue);
  }

  /** The colours `generateColors(count)` returns: the palette, cycled, `count` times (none for count <= 0). */
  function Cycle(count: int): (r: seq<string>)
    ensures |r| == if count < 0 then 0 else count
    decreases count
  {
    if count <= 0 then [] else Cycle(count - 1) + [ColorAt(count - 1)]
  }

  lemma {:induction false} CycleAt(count: int)
    ensures forall i :: 0 <= i < |Cycle(count)| ==> Cycle(count)[i] == Colors[i % 10]
    decreases count
  {
    if count > 0 {
      var before := Cycle(count - 1);
      CycleAt(count - 1);
      assert Cycle(count) == before + [ColorAt(count - 1)];
      forall i | 0 <= i < count ensures Cycle(count)[i] == Colors[i % 10] {
        if i < count - 1 {
          assert Cycle(count)[i] == before[i];
        }
      }
    }
  }

  /** Colours repeat with period ten. */
  lemma CyclePeriodic(count: int, i: nat)
    requires i + 10 < count
    ensures Cycle(count)[i] == Cycle(count)[i + 10]
  {
    CycleAt(count);
    assert (i + 10) % 10 == i % 10;
  }

  /** Every generated colour is one of the palette's. */
  lemma CycleInPalette(count: int)
    ensures forall c :: c in Cycle(count) ==> c in Colors
  {
    CycleAt(count);
  }

  /** `generateColors(count)`: a loop pushing `colors[i % colors.length]` for i from 0 below count. */
  method GenerateColors(count: int) returns (result: seq<string>)
    ensures result == Cycle(count)
    ensures |result| == if count < 0 then 0 else count
    ensures forall i :: 0 <= i < |result| ==> result[i] == Colors[i % |Colors|]
  {
    result := [];
    var i := 0;
    while i < count
      invariant 0 <= i <= if count < 0 then 0 else count
      invariant result == Cycle(i)
    {
      result := result + [ColorAt(i)];
      i := i + 1;
    }
    CycleAt(count);
  }
}
