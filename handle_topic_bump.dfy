/** The `should_bump_topic` modifier (lib/doc_categories/initializers/handle_topic_bump.rb). */
module HandleTopicBump {
  import opened Wrappers
  import opened Host

  /**
   * The modifier's value: true for an edit that changes the first post of a topic in a doc
   * category, and nil otherwise. The value the host passes in is not consulted.
   */
  function ShouldBumpTopic(shouldBump: bool, category: Option<Category>, isFirstPost: bool, postChanges: set<string>): Option<bool> {
    if category.Some? && category.value.IsDocCategory() && isFirstPost && postChanges != {} then Some(true)
    else None
  }

  /** The modifier answers true exactly for a first-post change in a doc category, whatever the host proposed. */
  lemma ShouldBumpTopicSpec(shouldBump: bool, category: Option<Category>, isFirstPost: bool, postChanges: set<string>)
    ensures ShouldBumpTopic(shouldBump, category, isFirstPost, postChanges) == Some(true) <==>
      category.Some? && category.value.docIndexTopicId.Some? && isFirstPost && |postChanges| > 0
    ensures ShouldBumpTopic(shouldBump, category, isFirstPost, postChanges) != Some(false)
    ensures ShouldBumpTopic(shouldBump, category, isFirstPost, postChanges) == ShouldBumpTopic(!shouldBump, category, isFirstPost, postChanges)
  {
    if |postChanges| > 0 {
      var x :| x in postChanges;
    }
  }

  /** A reply edited in a doc category, or a first post in a regular category, is not bumped. */
  lemma RepliesAndRegularCategoriesNotBumped(shouldBump: bool, category: Category, postChanges: set<string>)
    ensures ShouldBumpTopic(shouldBump, Some(category), false, postChanges).None?
    ensures category.docIndexTopicId.None? ==> ShouldBumpTopic(shouldBump, Some(category), true, postChanges).None?
  {
  }

  /** A title-only edit changes no post field and is not bumped; changing the raw text with it is. */
  lemma TitleOnlyEditNotBumped(shouldBump: bool, category: Category)
    requires category.IsDocCategory()
    ensures ShouldBumpTopic(shouldBump, Some(category), true, {}).None?
    ensures ShouldBumpTopic(shouldBump, Some(category), true, {"raw"}) == Some(true)
  {
  }
}
