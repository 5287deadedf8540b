/** `mapColors` (index.js:100-110): a noise value to one of four CSS colours,
    by three thresholds. */
module ColorMap {

  const Blue: string := "#0000ff"
  const Green: string := "#00ff00"
  const Brown: string := "#8b4513"
  const White: string := "#ffffff"

  /** The colours from the lowest band to the highest. */
  const Palette: seq<string> := [Blue, Green, Brown, White]

  /** The lower ends of the upper three bands, in increasing order. */
  const Thresholds: seq<real> := [0.25, 0.5, 0.75]

  /** `mapColors(value)`: each colour is chosen exactly on its band, so a
      colour names the band of its value. */
  function MapColors(value: real): (color: string)
    ensures color == Blue <==> value < 0.25
    ensures color == Green <==> 0.25 <= value < 0.5
    ensures color == Brown <==> 0.5 <= value < 0.75
    ensures color == White <==> 0.75 <= value
  {
    assert Blue[3] != Green[3] && Blue[1] != Brown[1] && Blue[1] != White[1];
    assert Green[1] != Brown[1] && Green[1] != White[1] && Brown[1] != White[1];
    if value < 0.25 then Blue
    else if value < 0.5 then Green
    else if value < 0.75 then Brown
    else White
  }

  /** How many of `ts` are at most `v`. */
  function CountAtMost(ts: seq<real>, v: real): (n: nat)
    ensures n <= |ts|
  {
    if ts == [] then 0 else (if ts[0] <= v then 1 else 0) + CountAtMost(ts[1..], v)
  }

  /** The band of a value: the number of thresholds it has reached. */
  function Band(value: real): (b: nat)
    ensures b < |Palette|
  {
    CountAtMost(Thresholds, value)
  }

  /** The colour is the palette entry of the value's band. */
  lemma MapColorsIsPaletteBand(value: real)
    ensures MapColors(value) == Palette[Band(value)]
  {
    var t1 := Thresholds[1..];
    var t2 := t1[1..];
    var t3 := t2[1..];
    assert t1 == [0.5, 0.75] && t2 == [0.75] && t3 == [];
    assert CountAtMost(t3, value) == 0;
    assert CountAtMost(t2, value) == if 0.75 <= value then 1 else 0;
    assert CountAtMost(t1, value) == (if 0.5 <= value then 1 else 0) + CountAtMost(t2, value);
    assert Band(value) == (if 0.25 <= value then 1 else 0) + CountAtMost(t1, value);
  }

  /** Counting thresholds reached is monotone in the value. */
  lemma {:induction false} CountAtMostMonotone(ts: seq<real>, v: real, w: real)
    requires v <= w
    ensures CountAtMost(ts, v) <= CountAtMost(ts, w)
  {
    if ts != [] {
      CountAtMostMonotone(ts[1..], v, w);
    }
  }

  /** A larger value never gets a lower band: the colours are ordered from
      blue through green and brown to white. */
  lemma BandMonotone(v: real, w: real)
    requires v <= w
    ensures Band(v) <= Band(w)
    ensures MapColors(v) == White ==> MapColors(w) == White
    ensures MapColors(w) == Blue ==> MapColors(v) == Blue
  {
    CountAtMostMonotone(Thresholds, v, w);
  }

  /** The four colours are distinct, so every band is told apart. */
  lemma PaletteDistinct()
    ensures forall i, j :: 0 <= i < j < |Palette| ==> Palette[i] != Palette[j]
  {
    assert Blue[3] != Green[3] && Blue[1] != Brown[1] && Blue[1] != White[1];
    assert Green[1] != Brown[1] && Green[1] != White[1] && Brown[1] != White[1];
  }
}
