/**
  The pitch palettes the parser can draw notes from.
 */
module Scales {

  /** The names under which the scales are registered; `Dorian` is the one
      the parser uses when no scale is named. */
  datatype ScaleKey = Dorian | Pentatonic

  /** A D-minor Dorian palette over two octaves. */
  const DorianNotes: seq<string> :=
    ["D3", "E3", "F3", "G3", "A3", "B3", "C4", "D4", "E4", "F4", "A4", "C5"]

  /** A C-minor pentatonic palette. */
  const PentatonicNotes: seq<string> :=
    ["C3", "Eb3", "F3", "G3", "Bb3", "C4", "Eb4", "F4", "G4"]

  /** The palette registered under `key`; every palette has a lowest note, so
      an index clamped below its size is always valid. */
  function Notes(key: ScaleKey): (scale: seq<string>)
    ensures |scale| > 0
    ensures key == Dorian ==> scale[0] == "D3" && |scale| == 12
    ensures key == Pentatonic ==> scale[0] == "C3" && |scale| == 9
  {
    match key
    case Dorian => DorianNotes
    case Pentatonic => PentatonicNotes
  }
}
