/** Padding a field to a width: `scoped_padder` writes some spaces before a text and some after it, going
    by the size it was told the text would have. */
module Padding {

  const MAX_WIDTH := 64

  datatype Side = Left | Right | Center

  /** A width of 0 means no padding. */
  datatype Pad = Pad(width: nat, side: Side)

  const NO_PAD := Pad(0, Left)

  function Spaces(n: nat): (s: string)
    ensures |s| == n
  {
    seq(n, _ => ' ')
  }

  function Total(pad: Pad, size: nat): nat {
    if pad.width <= size then 0 else pad.width - size
  }

  /** What the padder's constructor writes. */
  function Before(pad: Pad, size: nat): nat {
    match pad.side
    case Left => Total(pad, size)
    case Center => Total(pad, size) / 2
    case Right => 0
  }

  /** What its destructor writes. */
  function After(pad: Pad, size: nat): nat {
    match pad.side
    case Left => 0
    case Center => Total(pad, size) / 2 + Total(pad, size) % 2
    case Right => Total(pad, size)
  }

  function Padded(pad: Pad, size: nat, text: string): string {
    Spaces(Before(pad, size)) + text + Spaces(After(pad, size))
  }

  /** A padded text has length max(width, length) exactly when the padder was told the true size, or when
      both the size it was told and the true one leave nothing to pad. */
  lemma PaddedLength(pad: Pad, size: nat, text: string)
    ensures var n := |Padded(pad, size, text)|;
            (n == if pad.width < |text| then |text| else pad.width)
            <==> size == |text| || (pad.width <= size && pad.width <= |text|)
  {}

  /** The text is where the side says: at the end, at the start, or in the middle with an odd space on the
      right; everything else is blank. */
  lemma PaddedPlace(pad: Pad, text: string)
    ensures var p := Padded(pad, |text|, text);
            var spare := |p| - |text|;
            var at := if pad.side == Left then spare else if pad.side == Right then 0 else spare / 2;
            && 0 <= at <= spare && p[at..at + |text|] == text
            && forall i :: 0 <= i < |p| && !(at <= i < at + |text|) ==> p[i] == ' '
  {}

  /** No request for spaces exceeds the buffer of 64 spaces when the width is within it. */
  lemma PaddingFits(pad: Pad, size: nat)
    requires pad.width <= 64
    ensures Before(pad, size) <= 64 && After(pad, size) <= 64
  {}
}
