/** The validations of a sidebar section row (app/models/doc_categories/sidebar_section.rb). */
module SidebarSectionModel {
  import opened Wrappers
  import opened Text
  import opened Store

  const MaxTitleLength: nat := 255

  datatype SectionError =
    | IndexIdBlank    // doc_categories_index_id can't be blank
    | PositionBlank   // position can't be blank
    | PositionTaken   // position has already been taken, within the same index
    | TitleTooLong    // title is too long (maximum is 255 characters)

  /**
   * The errors of a section with these attributes; `siblingPositions` are the positions
   * of the other sections of the same index.
   */
  function SectionErrors(indexId: Option<int>, position: Option<int>, title: Option<string>, siblingPositions: seq<int>): set<SectionError> {
    (if indexId.None? then {IndexIdBlank} else {})
    + (if position.None? then {PositionBlank} else {})
    + (if position.Some? && position.value in siblingPositions then {PositionTaken} else {})
    + (if !WithinLength(title, MaxTitleLength) then {TitleTooLong} else {})
  }

  /** A section saves exactly when it has an index and a position no sibling holds, and its title is blank or at most 255 characters. */
  lemma SectionErrorsEmptyIff(indexId: Option<int>, position: Option<int>, title: Option<string>, siblingPositions: seq<int>)
    ensures SectionErrors(indexId, position, title, siblingPositions) == {} <==>
      && indexId.Some? && position.Some?
      && (forall i :: 0 <= i < |siblingPositions| ==> siblingPositions[i] != position.value)
      && (title.None? || IsBlank(title.value) || |title.value| <= 255)
  {
    if position.Some? && position.value in siblingPositions {
      assert PositionTaken in SectionErrors(indexId, position, title, siblingPositions);
    }
    if !WithinLength(title, MaxTitleLength) {
      assert TitleTooLong in SectionErrors(indexId, position, title, siblingPositions);
    }
  }

  /** A title of 'a's is accepted at 255 characters and refused at 256. */
  lemma TitleLengthBoundary(indexId: int, position: int)
    ensures SectionErrors(Some(indexId), Some(position), Some(seq(255, _ => 'a')), []) == {}
    ensures SectionErrors(Some(indexId), Some(position), Some(seq(256, _ => 'a')), []) == {TitleTooLong}
  {
    var long := seq(256, _ => 'a');
    assert !IsUnicodeSpace(long[0]);
  }

  /** A blank title passes whatever its length. */
  lemma BlankTitleAnyLength(indexId: int, position: int, n: nat)
    ensures SectionErrors(Some(indexId), Some(position), Some(seq(n, _ => ' ')), []) == {}
  {
  }
}
