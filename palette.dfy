/**
 The fixed palette of display colours handed to contacts.
 */
module Palette {

  /** `colorPool`, in its declared order. */
  const ColorPool: seq<string> := [
    "#FF7A00", "#FF5EB3", "#6E52FF", "#9327FF", "#00BEE8",
    "#1FD7C1", "#FF745E", "#FFA35E", "#FC71FF", "#FFC701",
    "#0038FF", "#C3FF2B", "#FFE62B", "#FF4646", "#FFBB2B"
  ]

  predicate IsHexDigit(c: char) {
    '0' <= c <= '9' || 'A' <= c <= 'F'
  }

  /** A CSS colour written `#RRGGBB` with upper-case hex digits. */
  predicate IsHexColor(c: string) {
    |c| == 7 && c[0] == '#' && forall k :: 1 <= k < 7 ==> IsHexDigit(c[k])
  }

  /** Fifteen entries, all `#RRGGBB` colours, no two alike. */
  lemma ColorPoolShape()
    ensures |ColorPool| == 15
    ensures forall k :: 0 <= k < |ColorPool| ==> IsHexColor(ColorPool[k])
    ensures forall k, m :: 0 <= k < m < |ColorPool| ==> ColorPool[k] != ColorPool[m]
  {
  }
}
