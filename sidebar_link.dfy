/** The validations of a sidebar link row (app/models/doc_categories/sidebar_link.rb). */
module SidebarLinkModel {
  import opened Wrappers
  import opened Text
  import opened Store

  const MaxTitleLength: nat := 255
  const MaxHrefLength: nat := 2000

  datatype LinkError =
    | SectionIdBlank  // doc_categories_sidebar_section_id can't be blank
    | PositionBlank   // position can't be blank
    | PositionTaken   // position has already been taken, within the same section
    | TitleTooLong    // title is too long (maximum is 255 characters)
    | HrefTooLong     // href is too long (maximum is 2000 characters)

  /**
   * The errors of a link with these attributes; `siblingPositions` are the positions of
   * the other links of the same section. The topic is optional and not validated.
   */
  function LinkErrors(sectionId: Option<int>, position: Option<int>, title: Option<string>, href: Option<string>, siblingPositions: seq<int>): set<LinkError> {
    (if sectionId.None? then {SectionIdBlank} else {})
    + (if position.None? then {PositionBlank} else {})
    + (if position.Some? && position.value in siblingPositions then {PositionTaken} else {})
    + (if !WithinLength(title, MaxTitleLength) then {TitleTooLong} else {})
    + (if !WithinLength(href, MaxHrefLength) then {HrefTooLong} else {})
  }

  /** A link saves exactly when it has a section and a free position, a title of at most 255 and an href of at most 2000 characters (or blank ones). */
  lemma LinkErrorsEmptyIff(sectionId: Option<int>, position: Option<int>, title: Option<string>, href: Option<string>, siblingPositions: seq<int>)
    ensures LinkErrors(sectionId, position, title, href, siblingPositions) == {} <==>
      && sectionId.Some? && position.Some?
      && (forall i :: 0 <= i < |siblingPositions| ==> siblingPositions[i] != position.value)
      && (title.None? || IsBlank(title.value) || |title.value| <= 255)
      && (href.None? || IsBlank(href.value) || |href.value| <= 2000)
  {
    if position.Some? && position.value in siblingPositions {
      assert PositionTaken in LinkErrors(sectionId, position, title, href, siblingPositions);
    }
    if !WithinLength(title, MaxTitleLength) {
      assert TitleTooLong in LinkErrors(sectionId, position, title, href, siblingPositions);
    }
    if !WithinLength(href, MaxHrefLength) {
      assert HrefTooLong in LinkErrors(sectionId, position, title, href, siblingPositions);
    }
  }

  /** "https://" followed by 1992 'a's (2000 characters) is accepted; one more 'a' is refused. */
  lemma HrefLengthBoundary(sectionId: int, position: int)
    ensures LinkErrors(Some(sectionId), Some(position), None, Some("https://" + seq(1992, _ => 'a')), []) == {}
    ensures LinkErrors(Some(sectionId), Some(position), None, Some("https://" + seq(1993, _ => 'a')), []) == {HrefTooLong}
  {
    var long := "https://" + seq(1993, _ => 'a');
    assert !IsUnicodeSpace(long[0]);
  }

  /** A link with only a title and a position, neither topic nor href, is accepted. */
  lemma TitleOnlyLinkAccepted(sectionId: int, position: int, title: string)
    requires |title| <= 255
    ensures LinkErrors(Some(sectionId), Some(position), Some(title), None, []) == {}
  {
  }
}
