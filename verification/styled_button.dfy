/** The shared button: when a click reaches `onClick`, when the element is
    disabled, and what it shows (spinner, icons and their margins). */
module StyledButton {
  import opened Wrappers
  import opened Types

  /** The props the behaviour depends on; an omitted `disabled` is falsy and
      an omitted `isLoading` defaults to false. Icons and children are
      reduced to whether they are truthy. */
  datatype ButtonProps = ButtonProps(
    hasOnClick: bool,
    isLoading: Option<bool>,
    disabled: Option<bool>,
    hasChildren: bool,
    hasIconLeft: bool,
    hasIconRight: bool)

  predicate Loading(p: ButtonProps) {
    p.isLoading.GetOr(false)
  }

  predicate DisabledProp(p: ButtonProps) {
    p.disabled == Some(true)
  }

  /** `disabled={disabled || isLoading}`. */
  function Disabled(p: ButtonProps): (r: bool)
    ensures r <==> DisabledProp(p) || Loading(p)
  {
    DisabledProp(p) || Loading(p)
  }

  /** `handleClick`: how many times one click calls `onClick`. */
  function OnClickCalls(p: ButtonProps): (r: nat)
    ensures r <= 1
    ensures r == 1 <==> p.hasOnClick && !Loading(p) && !DisabledProp(p)
  {
    if Loading(p) || DisabledProp(p) then 0
    else if p.hasOnClick then 1 else 0
  }

  /** A click never reaches `onClick` on a button that is disabled, and
      always reaches it (once) on an enabled button that has one. */
  lemma ClickGuardMatchesDisabled(p: ButtonProps)
    ensures Disabled(p) ==> OnClickCalls(p) == 0
    ensures !Disabled(p) && p.hasOnClick ==> OnClickCalls(p) == 1
  {
  }

  /** `n` clicks in a row call `onClick` `n` times on an enabled button and
      never on a disabled one. */
  function CallsAfter(p: ButtonProps, n: nat): (r: nat)
    ensures Disabled(p) ==> r == 0
    ensures !Disabled(p) && p.hasOnClick ==> r == n
    decreases n
  {
    if n == 0 then 0 else OnClickCalls(p) + CallsAfter(p, n - 1)
  }

  /** The rendered case: a button with a label and a click handler and
      nothing else calls the handler exactly once per click. */
  lemma LabelledButtonClickedOnce()
    ensures var p := ButtonProps(true, None, None, true, false, false);
            !Disabled(p) && OnClickCalls(p) == 1 && CallsAfter(p, 1) == 1
  {
  }

  /** The Tailwind margins of the two icons. */
  function LeftMargin(hasChildren: bool, language: Language): string {
    if !hasChildren then "" else if language == Arabic then "ml-1" else "mr-1"
  }

  function RightMargin(hasChildren: bool, language: Language): string {
    if !hasChildren then "" else if language == Arabic then "mr-1" else "ml-1"
  }

  /** No margins without children; with children, the margins sit between
      icon and label and swap sides for Arabic. */
  lemma MarginsSwapForArabic(hasChildren: bool)
    ensures !hasChildren ==> LeftMargin(false, English) == "" && RightMargin(false, Arabic) == ""
    ensures LeftMargin(hasChildren, Arabic) == RightMargin(hasChildren, English)
    ensures RightMargin(hasChildren, Arabic) == LeftMargin(hasChildren, English)
    ensures hasChildren ==> LeftMargin(true, English) != RightMargin(true, English)
  {
  }

  /** What the button shows, in order. */
  datatype Part = Spinner | IconLeft(margin: string) | Label | IconRight(margin: string)

  function Contents(p: ButtonProps, language: Language): (r: seq<Part>)
    ensures Loading(p) ==> |r| >= 1 && r[0] == Spinner
    ensures Spinner in r <==> Loading(p)
    ensures (exists m :: IconLeft(m) in r) <==> p.hasIconLeft && !Loading(p)
    ensures (exists m :: IconRight(m) in r) <==> p.hasIconRight
    ensures Label in r <==> p.hasChildren
  {
    var first := if Loading(p) then [Spinner]
                 else if p.hasIconLeft then [IconLeft(LeftMargin(p.hasChildren, language))] else [];
    var middle := if p.hasChildren then [Label] else [];
    var last := if p.hasIconRight then [IconRight(RightMargin(p.hasChildren, language))] else [];
    var r := first + middle + last;
    assert p.hasIconLeft && !Loading(p) ==> r[0] == IconLeft(LeftMargin(p.hasChildren, language));
    assert p.hasIconRight ==> r[|r| - 1] == IconRight(RightMargin(p.hasChildren, language));
    r
  }

  /** While loading, the spinner takes the left icon's place and the right
      icon is still shown. */
  lemma SpinnerReplacesLeftIcon(p: ButtonProps, language: Language)
    requires Loading(p) && p.hasIconLeft && p.hasIconRight
    ensures var r := Contents(p, language);
            r[0] == Spinner && IconRight(RightMargin(p.hasChildren, language)) in r
            && forall m :: IconLeft(m) !in r
  {
    var r := Contents(p, language);
    assert r[|r| - 1] == IconRight(RightMargin(p.hasChildren, language));
  }
}
