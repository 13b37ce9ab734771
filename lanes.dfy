/** The lane normaliser: the pitch range of all note events must be odd and
    at most 9 wide, and is then re-centred to exactly 9 lanes. */
module Lanes {
  import opened Results
  import opened Track
  import opened Buckets

  /** The 9-wide pitch window whose lowest pitch becomes lane 1. */
  datatype Window = Window(top: int, bottom: int)

  /** C's `/` on int32: truncation toward zero. */
  function CDiv(a: int, b: int): int
    requires b > 0
  {
    if a >= 0 then a / b else -((-a) / b)
  }

  /** C's `%` on int32: the remainder takes the sign of the dividend. */
  function CRem(a: int, b: int): int
    requires b > 0
  {
    if a >= 0 then a % b else -((-a) % b)
  }

  /** C's division identity: the quotient truncates toward zero and the
      remainder has the dividend's sign and is smaller than the divisor. */
  lemma TruncatedDivision(a: int, b: int)
    requires b > 0
    ensures a == CDiv(a, b) * b + CRem(a, b)
    ensures a >= 0 ==> 0 <= CRem(a, b) < b
    ensures a < 0 ==> -b < CRem(a, b) <= 0
  {
  }

  predicate IsNote(e: Event) { e.kind.Note? }

  /** `top_index` after the scan: the largest note pitch, starting from 0. */
  function ScanTop(es: seq<Event>): int
  {
    if |es| == 0 then 0
    else
      var t := ScanTop(es[..|es| - 1]);
      var e := es[|es| - 1];
      if IsNote(e) && e.kind.pitch > t then e.kind.pitch else t
  }

  /** `bottom_index` after the scan: the smallest note pitch, starting from 127. */
  function ScanBottom(es: seq<Event>): int
  {
    if |es| == 0 then 127
    else
      var b := ScanBottom(es[..|es| - 1]);
      var e := es[|es| - 1];
      if IsNote(e) && e.kind.pitch < b then e.kind.pitch else b
  }

  /** The scan loop over the merged events, updating `top_index` and
      `bottom_index` at every note event. */
  method ScanLanes(es: seq<Event>) returns (top: int, bottom: int)
    ensures top == ScanTop(es) && bottom == ScanBottom(es)
  {
    top, bottom := 0, 127;
    var i := 0;
    while i < |es|
      invariant 0 <= i <= |es|
      invariant top == ScanTop(es[..i]) && bottom == ScanBottom(es[..i])
    {
      assert es[..i + 1][..i] == es[..i];
      if es[i].kind.Note? {
        top := if es[i].kind.pitch > top then es[i].kind.pitch else top;
        bottom := if es[i].kind.pitch < bottom then es[i].kind.pitch else bottom;
      }
      i := i + 1;
    }
    assert es[..i] == es;
  }

  /** The scan's `top` is 0 or the pitch of a note, and no note is above it;
      its `bottom` is 127 or the pitch of a note, and no note is below it. */
  lemma {:induction false} ScanBounds(es: seq<Event>)
    ensures forall i :: 0 <= i < |es| && IsNote(es[i]) ==> ScanBottom(es) <= es[i].kind.pitch <= ScanTop(es)
    ensures ScanTop(es) == 0 || exists i :: 0 <= i < |es| && IsNote(es[i]) && es[i].kind.pitch == ScanTop(es)
    ensures ScanBottom(es) == 127 || exists i :: 0 <= i < |es| && IsNote(es[i]) && es[i].kind.pitch == ScanBottom(es)
  {
    if |es| > 0 {
      var init := es[..|es| - 1];
      ScanBounds(init);
      forall i | 0 <= i < |init| ensures es[i] == init[i] { }
      if ScanTop(es) != 0 && ScanTop(es) == ScanTop(init) {
        var i :| 0 <= i < |init| && IsNote(init[i]) && init[i].kind.pitch == ScanTop(init);
        assert es[i] == init[i];
      }
      if ScanBottom(es) != 127 && ScanBottom(es) == ScanBottom(init) {
        var i :| 0 <= i < |init| && IsNote(init[i]) && init[i].kind.pitch == ScanBottom(init);
        assert es[i] == init[i];
      }
    }
  }

  /** Without note events the scan keeps its initial values 0 and 127. */
  lemma {:induction false} ScanNoNotes(es: seq<Event>)
    requires forall i :: 0 <= i < |es| ==> !IsNote(es[i])
    ensures ScanTop(es) == 0 && ScanBottom(es) == 127
  {
    if |es| > 0 { ScanNoNotes(es[..|es| - 1]); }
  }

  /** The width check and the re-centring. The layout is rejected when
      `top - bottom + 1` exceeds 9 or is even; a 9-wide range is kept; any
      other accepted range is replaced by the 9 pitches centred on
      `(top + bottom) / 2`. */
  function Normalize(top: int, bottom: int): (r: Result<Window>)
    ensures r.Fail? <==> top - bottom + 1 > 9 || CRem(top - bottom + 1, 2) == 0
    ensures r.Fail? ==> r.error == InvalidLaneLayout
    ensures r.Ok? && top - bottom + 1 == 9 ==> r.value == Window(top, bottom)
    ensures r.Ok? && CRem(top - bottom + 1, 2) == 1 ==>
      r.value.top - r.value.bottom + 1 == 9 && r.value.bottom == CDiv(top + bottom, 2) - 4
    ensures r.Ok? && CRem(top - bottom + 1, 2) != 1 ==> r.value == Window(top, bottom)
  {
    var width := top - bottom + 1;
    if width > 9 || CRem(width, 2) == 0 then Fail(InvalidLaneLayout)
    else if width != 9 && CRem(width, 2) == 1 then
      var mid := CDiv(top + bottom, 2);
      Ok(Window(mid + 4, mid - 4))
    else Ok(Window(top, bottom))
  }

  /** With no note event the width is 0 - 127 + 1 = -126, which is even,
      so the layout is always rejected. */
  lemma NoNotesRejected(es: seq<Event>)
    requires forall i :: 0 <= i < |es| ==> !IsNote(es[i])
    ensures Normalize(ScanTop(es), ScanBottom(es)) == Fail(InvalidLaneLayout)
  {
    ScanNoNotes(es);
  }

  /** When the layout is accepted, the window is exactly 9 wide and every
      note lands on a lane `pitch - bottom + 1` between 1 and 9. */
  lemma LanesInRange(es: seq<Event>)
    requires Normalize(ScanTop(es), ScanBottom(es)).Ok?
    ensures var w := Normalize(ScanTop(es), ScanBottom(es)).value;
      w.top - w.bottom + 1 == 9 &&
      forall i :: 0 <= i < |es| && IsNote(es[i]) ==> 1 <= es[i].kind.pitch - w.bottom + 1 <= 9
  {
    ScanBounds(es);
    var top, bottom := ScanTop(es), ScanBottom(es);
    if forall i :: 0 <= i < |es| ==> !IsNote(es[i]) {
      NoNotesRejected(es);
    } else {
      var i :| 0 <= i < |es| && IsNote(es[i]);
      assert bottom <= top;
    }
  }
}
