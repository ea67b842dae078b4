/**
 * The palette types the nearest-colour engine borrows from the rest of the
 * quantizer (`crate::pal`): a premultiplied ARGB colour with real channels,
 * a palette entry with its popularity weight, and the 8-bit palette index.
 */
module Pal {

  /** `f_pixel`: alpha and the three premultiplied colour channels. */
  datatype Color = Color(a: real, r: real, g: real, b: real)

  /** `f_pixel::default()`, the all-zero colour. */
  const Transparent := Color(0.0, 0.0, 0.0, 0.0)

  /** One entry of `PalF`: its colour and the weight `popularity()` reports. */
  datatype PalEntry = PalEntry(color: Color, popularity: real)

  type Palette = seq<PalEntry>

  /** `PalIndex` is `u8`. */
  const PAL_INDEX_MAX: nat := 255
  const MAX_COLORS: nat := 256

  type PalIndex = i: int | 0 <= i <= PAL_INDEX_MAX

  /** `palette.get(i).copied().unwrap_or_default()` */
  function ColorAt(palette: Palette, i: PalIndex): Color
  {
    if i < |palette| then palette[i].color else Transparent
  }

  /** `pop_as_slice().get(i).map(|p| p.popularity()).unwrap_or_default()` */
  function PopularityAt(palette: Palette, i: PalIndex): real
  {
    if i < |palette| then palette[i].popularity else 0.0
  }

  /** Every index of the slice names an entry of the palette. */
  predicate InPalette(palette: Palette, s: seq<PalIndex>)
  {
    forall k :: 0 <= k < |s| ==> s[k] < |palette|
  }

  /** `crate::Error`; the core only ever raises `Unsupported`. */
  datatype Error = Unsupported
}
