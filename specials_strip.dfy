/**
 * The decisions of `components/specials/SpecialsStrip.tsx`: whether the strip is shown,
 * which layout it uses, how a card shortens its description and which colour its badge
 * takes. The markup itself is not modelled.
 */
module SpecialsStrip {
  import opened Wrappers
  import opened Text
  import opened SpecialsCsv

  /** The two layouts: a horizontal scroller, or cards stacked vertically. */
  datatype Layout = HorizontalScroll | Stacked

  /** The default length of `truncateDescription` and the one the card passes. */
  const DefaultMaxLength := 140
  const CardMaxLength := 160

  const Ellipsis := "..."

  /** The strip: nothing for no specials, the horizontal layout from three specials on. */
  function StripLayout(data: SpecialsData): (layout: Option<Layout>)
    ensures layout.None? <==> data.specials == []
    ensures layout == Some(HorizontalScroll) <==> |data.specials| >= 3
  {
    if |data.specials| == 0 then None
    else if |data.specials| >= 3 then Some(HorizontalScroll)
    else Some(Stacked)
  }

  /** `truncateDescription(text, maxLength)`. */
  function TruncateDescription(text: Option<string>, maxLength: nat): (r: string)
    ensures text.None? || text == Some("") ==> r == ""
    ensures text.Some? && |text.value| <= maxLength ==> r == text.value
    ensures |r| <= maxLength + |Ellipsis|
  {
    if text.None? || text.value == "" then ""
    else if |text.value| <= maxLength then text.value
    else Trim(text.value[..maxLength]) + Ellipsis
  }

  /** A shortened description is the first `maxLength` characters without the white space
      at their ends, followed by `...`: it keeps an infix of the text's opening and marks the
      cut. */
  lemma {:induction false} TruncatedShape(text: string, maxLength: nat)
    requires |text| > maxLength
    ensures var r := TruncateDescription(Some(text), maxLength);
      && |r| >= |Ellipsis| && r[|r| - |Ellipsis|..] == Ellipsis
      && var kept := r[..|r| - |Ellipsis|];
         exists i :: 0 <= i <= maxLength - |kept| && OccursAt(text, kept, i)
  {
    var head := text[..maxLength];
    var kept := Trim(head);
    var r := TruncateDescription(Some(text), maxLength);
    assert r == kept + Ellipsis;
    assert r[..|r| - |Ellipsis|] == kept;
    TrimStartShape(head);
    TrimEndShape(TrimStart(head));
    var i := |head| - |TrimStart(head)|;
    assert kept == TrimStart(head)[..|kept|];
    assert text[i..i + |kept|] == kept;
    assert OccursAt(text, kept, i);
  }

  /** A description with no white space at either end of its first `maxLength` characters
      is cut at exactly `maxLength` characters. */
  lemma {:induction false} TruncatedLength(text: string, maxLength: nat)
    requires |text| > maxLength > 0
    requires !IsWhitespace(text[0]) && !IsWhitespace(text[maxLength - 1])
    ensures TruncateDescription(Some(text), maxLength) == text[..maxLength] + Ellipsis
  {
    TrimUnchanged(text[..maxLength]);
  }

  /** The badge colour of a type: the listed types have their own, and any other type takes
      the colour of `other`. */
  function TypeColor(kind: string): (color: string)
    ensures kind !in ["food", "drinks", "event", "happyhour"] ==> color == OtherColor
  {
    if kind == "food" then "bg-oak-brown text-cream"
    else if kind == "drinks" then "bg-deep-green text-cream"
    else if kind == "event" then "bg-gold text-oak-brown"
    else if kind == "happyhour" then "bg-warm-charcoal text-gold"
    else OtherColor
  }

  const OtherColor := "bg-gray-600 text-white"

  /** Each type `parseType` produces has a colour of its own. */
  lemma {:induction false} TypeColorsDistinct(k1: string, k2: string)
    requires k1 in SpecialTypes && k2 in SpecialTypes && k1 != k2
    ensures TypeColor(k1) != TypeColor(k2)
  {
  }

  /** What a card shows of a special: the description only when it is truthy, shortened to
      160 characters. */
  function CardDescription(s: Special): (shown: Option<string>)
    ensures shown.Some? <==> s.description.Some? && s.description.value != ""
  {
    if s.description.Some? && s.description.value != "" then Some(TruncateDescription(s.description, CardMaxLength))
    else None
  }
}
