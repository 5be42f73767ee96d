/** `preforo_check` (functions.py:715-724): compares the groundwater-table
    depth with the depth of the pre-drilled hole ("preforo"), both read
    from the first row, and `FS_liq`'s note on the same comparison
    (functions.py:383-384). */
module Preforo {
  import opened Cells

  datatype PreforoStatus =
    | GwtDeeper    // "GWT is deeper than preforo"
    | PreforoMissing  // "Nan preforo"
    | GwtAbove     // "GWT is above preforo"

  /** The three outcomes, tested in the source's order: a comparison with
      NaN is false, so a missing GWT with a known preforo reads as "above". */
  function CheckPreforo(gwt: Cell, preforo: Cell): (s: PreforoStatus)
    ensures s == GwtDeeper <==> gwt.Val? && preforo.Val? && gwt.v >= preforo.v
    ensures s == PreforoMissing <==> !preforo.Val?
    ensures s == GwtAbove <==> preforo.Val? && !(gwt.Val? && gwt.v >= preforo.v)
  {
    if gwt.Val? && preforo.Val? && gwt.v >= preforo.v then GwtDeeper
    else if !preforo.Val? then PreforoMissing
    else GwtAbove
  }

  /** `FS_liq` writes "preforo is below GWT" into row 1 when GWT < preforo
      (lines 383-384). */
  predicate NotesPreforo(gwt: Cell, preforo: Cell)
  {
    gwt.Val? && preforo.Val? && gwt.v < preforo.v
  }

  /** `FS_liq` notes a preforo exactly when the check says "above" with a
      known GWT; its note says "below GWT" where the check says the GWT is
      above the preforo. */
  lemma NoteAgreesWithCheck(gwt: Cell, preforo: Cell)
    ensures NotesPreforo(gwt, preforo) <==> CheckPreforo(gwt, preforo) == GwtAbove && gwt.Val?
  {
  }
}
