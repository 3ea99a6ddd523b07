# A verified model of discourse-doc-categories

discourse-doc-categories is a Discourse plugin that turns a category into a
documentation category. The category names an *index topic*. The first post of
that topic lists the category's documents as headed lists of links. The plugin
does the following with it:

- parses that post into sections of links;
- stores the result as index, section and link rows;
- serializes the structure into the category, which the client shows as a docs sidebar;
- keeps all of this current as posts and topics change;
- offers two admin reports:
  - topics of the category that the index misses;
  - items of the index that do not belong to it.

This project models that core in Dafny, one module per source file. It proves what each part promises:

- **Parsers.** The server parser (`DocIndexTopicParser`) and the client parser (`SidebarStructureParser`) keep every extracted link once, in document order. They drop empty sections. Only the first section may be untitled. Every index the server parser returns has a canonical shape, and the parser reads any such index back exactly from its rendering, so parsing the rendering of a parsed index gives that index again. `ParserDifferences` pins down where the two parsers disagree.
- **URL topic ids.** `Url` resolves a link's URL to the topic it routes to.
- **Refresher and job.** `Refresher` and `RefreshJob` rebuild one category's rows. They touch nothing else and are idempotent. They keep one index per category and per index topic.
- **Index assignment.** `CategoryIndexManager` returns true exactly when it enqueues a refresh. It treats unresolvable ids as a request to clear. Assigning the same topic twice changes nothing.
- **Row validations.** `IndexModel`, `SidebarSectionModel` and `SidebarLinkModel` state when a row saves, both ways. `IndexModel` also covers the read-time projection, which serves only live, visible topics of the same category.
- **Change reactors.** These are the `Handle*` modules. They show which edits and moves clear the site cache, publish a category or enqueue a refresh. Each handler's effects are a function of the event; the handler method appends exactly those effects to an event log.
- **Serializers.** `SerializeIndexStructure` and `LegacySerializeIndexStructure` state when the category field is served and what it then holds.
- **Reports.** `MissingTopicsReport` and `ExtraneousItemsReport` cover which filters are offered, which categories are selected and which rows are reported, with their reasons.
- **Client side.**
  - The sidebar service (`DocCategorySidebar`) finds the nearest category with an index. It keeps its remembered category and index consistent with the panel it shows.
  - The panel (`DocCategorySidebarPanel`) builds section and link names and the category search filter.
  - `IsDocTopic` decides which topics the client treats as documentation.

How the host is represented:

- **Host environment (`Host`).** A `Site` value stands for the host: its topics, its categories and their first posts. It also holds the router and the HTML parser as function parameters.
- **The plugin's own tables (`Store`).** They are the `indexes` field of the `Db` class; each index row holds its sections and links.
- **Effects on the outside world.** Cache clears, category publishes, index touches and enqueued jobs are appended to `Db.log`.
- **Stateful code.** Each Ruby or JavaScript object that updates itself becomes a class. Its methods are proved equal to pure functions of the old state, and the lemmas are about those functions.

## Model

| member | source | states |
|---|---|---|
| Url.TopicIdParam | lib/doc_categories/url.rb:8 | the `topic_id` parameter when the route has one, else `id`, and nothing exactly when it has neither |
| Url.ExtractTopicIdFromUrl | lib/doc_categories/url.rb:4-9 | an id is extracted exactly when the URL routes to `topics#show` |
| Url.TopicRouteNamesItsTopic | lib/doc_categories/url.rb:8-9 | a topic route whose `topic_id` is the decimal form of n yields n, whatever `id` says |
| Url.IdParamNamesItsTopic | lib/doc_categories/url.rb:8-9 | without `topic_id`, a decimal `id` of n yields n |
| Url.TopicRouteWithoutIds | lib/doc_categories/url.rb:8-9 | a topic route with neither parameter yields `nil.to_i`, 0 |
| DocIndexTopicParser.LastAnchorIndex | lib/doc_categories/doc_index_topic_parser.rb:55 | the chosen anchor is the last direct child named `a`; none when no child is one |
| DocIndexTopicParser.ItemLink | lib/doc_categories/doc_index_topic_parser.rb:53-65 | an item without a direct-child anchor yields no link, and a yielded label is never blank |
| DocIndexTopicParser.AppendLink | lib/doc_categories/doc_index_topic_parser.rb:67-69 | a link lands in the last section; the root section is created only when there is none |
| Collections.Filter | lib/doc_categories/doc_index_topic_parser.rb:14 | keeps exactly the elements that pass; empty exactly when none passes (the server parser's `select` and the client parser's `filter` at doc-category-sidebar-structure-parser.js:21-24 keep the sections with links through it) |
| DocIndexTopicParser.Sections | lib/doc_categories/doc_index_topic_parser.rb:12-17 | nil exactly when no section has a link, otherwise a non-empty list of non-empty sections |
| DocIndexTopicParser.Parser.constructor | lib/doc_categories/doc_index_topic_parser.rb:7-10 | constructing parses at once: the sections are the walk of the body |
| DocIndexTopicParser.Parser.Parse | lib/doc_categories/doc_index_topic_parser.rb:21-30 | the loop over the top-level elements leaves the sections equal to the walk of the body |
| DocIndexTopicParser.Parser.AddSection | lib/doc_categories/doc_index_topic_parser.rb:44-47 | appends one empty section with the given title |
| DocIndexTopicParser.Parser.AddList | lib/doc_categories/doc_index_topic_parser.rb:49-51 | the loop over a list's children adds each list item's link in order |
| DocIndexTopicParser.Parser.AddLink | lib/doc_categories/doc_index_topic_parser.rb:53-70 | one item is added exactly as the pure step adds it |
| DocIndexTopicParser.Parser.LinkTitle | lib/doc_categories/doc_index_topic_parser.rb:58-63 | the label is the text before the anchor without its final ":" when it ends in one, else the anchor's text |
| DocIndexTopicParser.Parser.AppendToLastSection | lib/doc_categories/doc_index_topic_parser.rb:67-69 | the in-place append equals the pure append, root section included |
| DocIndexTopicParser.AppendLinkEffect | lib/doc_categories/doc_index_topic_parser.rb:67-69 | appending adds exactly that link at the end and keeps every title |
| DocIndexTopicParser.AddItemsEffect | lib/doc_categories/doc_index_topic_parser.rb:49-51 | a list adds exactly its items' links, in order, and no title |
| DocIndexTopicParser.StepLinks | lib/doc_categories/doc_index_topic_parser.rb:23-29 | a top-level element adds the links of a list and nothing else |
| DocIndexTopicParser.StepTitles | lib/doc_categories/doc_index_topic_parser.rb:23-29 | a top-level element adds the title of a heading and no other |
| DocIndexTopicParser.StepRoot | lib/doc_categories/doc_index_topic_parser.rb:44-47 | a step never creates an untitled section after the first |
| DocIndexTopicParser.WalkLinks | lib/doc_categories/doc_index_topic_parser.rb:21-30 | the walk adds exactly the links of the body's lists, in document order |
| DocIndexTopicParser.WalkTitles | lib/doc_categories/doc_index_topic_parser.rb:21-30 | the walk adds one title per heading, in document order |
| DocIndexTopicParser.WalkRoot | lib/doc_categories/doc_index_topic_parser.rb:21-30 | the walk only ever creates the untitled root section in front |
| DocIndexTopicParser.KeepLinkedEffect | lib/doc_categories/doc_index_topic_parser.rb:14 | dropping empty sections loses no link and keeps the root section in front |
| DocIndexTopicParser.NoLinksIffEmpty | lib/doc_categories/doc_index_topic_parser.rb:13-14 | all sections are empty exactly when there are no links |
| DocIndexTopicParser.ParseIndexSpec | lib/doc_categories/doc_index_topic_parser.rb:12-70 | nil exactly when no list yields a link; otherwise every link once in document order and at most the first section untitled |
| DocIndexTopicParser.WalkRender | lib/doc_categories/doc_index_topic_parser.rb:21-70 | walking the rendering of an index of the canonical shape, which every parsed index has (labels may end in white space, as "Test : " gives "Test "), rebuilds its sections exactly |
| DocIndexTopicParser.KeepLinkedOfLinked | lib/doc_categories/doc_index_topic_parser.rb:14 | dropping empty sections leaves sections that all have links unchanged |
| DocIndexTopicParser.ParseRender | lib/doc_categories/doc_index_topic_parser.rb:21-70 | any index of the canonical shape is read back unchanged from its rendering, each label written as "label:" before its anchor |
| DocIndexTopicParser.ItemLinkCanonical | lib/doc_categories/doc_index_topic_parser.rb:57-65 | every label the parser reads is non-blank and does not start with a stripped character, whatever its end |
| DocIndexTopicParser.WalkClean | lib/doc_categories/doc_index_topic_parser.rb:21-29 | walking keeps every section title stripped and every label canonical |
| DocIndexTopicParser.ParsedIsCanonical | lib/doc_categories/doc_index_topic_parser.rb:12-70 | every index the parser returns has the canonical shape: stripped titles, canonical labels, no empty section, the root only in front |
| DocIndexTopicParser.ParseRenderParse | lib/doc_categories/doc_index_topic_parser.rb:12-70 | whatever the parser reads from a post, it reads again from that index's rendering |
| Text.StripIdempotent | lib/doc_categories/doc_index_topic_parser.rb:46 | `strip` of a stripped string changes nothing, so heading titles are stable |
| DocIndexTopicParser.StripTestLabel | lib/doc_categories/doc_index_topic_parser.rb:58 | `strip` of "Test: " is "Test:" |
| DocIndexTopicParser.LeadingLabelExample | lib/doc_categories/doc_index_topic_parser.rb:58-61 | a leading "Test: " before the anchor names the link "Test" in the root section |
| DocIndexTopicParser.TwoRootListsExample | lib/doc_categories/doc_index_topic_parser.rb:67 | two lists before any heading fill the same root section, in order |
| SidebarStructureParser.SectionName | assets/javascripts/discourse/lib/doc-category-sidebar-structure-parser.js:46-52 | a heading's section name starts with the panel key and never equals the root name |
| SidebarStructureParser.JsItemLink | assets/javascripts/discourse/lib/doc-category-sidebar-structure-parser.js:66-87 | no link without an anchor below the item, and a link's label is never empty |
| SidebarStructureParser.JsAppendLink | assets/javascripts/discourse/lib/doc-category-sidebar-structure-parser.js:89-96 | a link lands in the current section; the root section is added only when there is none |
| SidebarStructureParser.DocCategorySidebarStructureParser.constructor | assets/javascripts/discourse/lib/doc-category-sidebar-structure-parser.js:12-19 | constructing builds at once: the sections are the walk of the body |
| SidebarStructureParser.DocCategorySidebarStructureParser.Config | assets/javascripts/discourse/lib/doc-category-sidebar-structure-parser.js:21-24 | the getter answers only sections with links |
| SidebarStructureParser.DocCategorySidebarStructureParser.Build | assets/javascripts/discourse/lib/doc-category-sidebar-structure-parser.js:99-107 | the loop over the body's children leaves the sections equal to the walk |
| SidebarStructureParser.DocCategorySidebarStructureParser.AddSection | assets/javascripts/discourse/lib/doc-category-sidebar-structure-parser.js:46-52 | appends the heading's named, empty section |
| SidebarStructureParser.DocCategorySidebarStructureParser.AddRootSection | assets/javascripts/discourse/lib/doc-category-sidebar-structure-parser.js:54-56 | appends the untitled root section |
| SidebarStructureParser.DocCategorySidebarStructureParser.AddList | assets/javascripts/discourse/lib/doc-category-sidebar-structure-parser.js:58-64 | the loop adds each list item's link in order |
| SidebarStructureParser.DocCategorySidebarStructureParser.AddLink | assets/javascripts/discourse/lib/doc-category-sidebar-structure-parser.js:66-97 | one item is added exactly as the pure step adds it |
| SidebarStructureParser.DocCategorySidebarStructureParser.LinkText | assets/javascripts/discourse/lib/doc-category-sidebar-structure-parser.js:73-83 | a leading text node must end in ":" to give the label, else the anchor's trimmed text |
| SidebarStructureParser.DocCategorySidebarStructureParser.AppendToCurrentSection | assets/javascripts/discourse/lib/doc-category-sidebar-structure-parser.js:89-96 | the in-place append equals the pure append |
| SidebarStructureParser.JsAppendLinkEffect | assets/javascripts/discourse/lib/doc-category-sidebar-structure-parser.js:89-96 | appending adds exactly that link and keeps names matched to texts |
| SidebarStructureParser.JsAddItemsEffect | assets/javascripts/discourse/lib/doc-category-sidebar-structure-parser.js:58-64 | a list adds exactly its items' links, in order |
| SidebarStructureParser.JsStepEffect | assets/javascripts/discourse/lib/doc-category-sidebar-structure-parser.js:101-105 | a child adds its list's links, and a heading adds a section named after its text |
| SidebarStructureParser.JsWalkEffect | assets/javascripts/discourse/lib/doc-category-sidebar-structure-parser.js:99-107 | the walk adds exactly the body lists' links, in document order, and keeps names matched |
| SidebarStructureParser.SectionsConfigLinks | assets/javascripts/discourse/lib/doc-category-sidebar-structure-parser.js:21-24 | dropping empty sections loses no link |
| SidebarStructureParser.SectionsConfigNames | assets/javascripts/discourse/lib/doc-category-sidebar-structure-parser.js:23 | dropping empty sections keeps the root only in front and every other section named from its heading |
| SidebarStructureParser.NoJsLinksIffEmpty | assets/javascripts/discourse/lib/doc-category-sidebar-structure-parser.js:23 | all sections are empty exactly when there are no links |
| SidebarStructureParser.ParseSidebarStructureSpec | assets/javascripts/discourse/lib/doc-category-sidebar-structure-parser.js:4-6 | empty exactly when no list yields a link; otherwise every link once, in order, names matched |
| ParserDifferences.ServerReadsLastAnchor | lib/doc_categories/doc_index_topic_parser.rb:55 | with two anchors in an item the server keeps the last |
| ParserDifferences.ClientReadsFirstAnchor | assets/javascripts/discourse/lib/doc-category-sidebar-structure-parser.js:67 | with two anchors in an item the client keeps the first |
| ParserDifferences.TwoAnchorsDiffer | assets/javascripts/discourse/lib/doc-category-sidebar-structure-parser.js:67 | the two parsers give such an item different links |
| ParserDifferences.LeadingTextWithoutColonDiffers | assets/javascripts/discourse/lib/doc-category-sidebar-structure-parser.js:75-80 | leading text without ":" drops the item on the client but not on the server |
| Collections.Dedup | app/models/doc_categories/index.rb:50 | `uniq`: no repeats, the same members, no longer than the input |
| Collections.DedupOfDistinct | app/models/doc_categories/index.rb:50 | `uniq` leaves a sequence without repeats unchanged |
| Collections.Compact | lib/doc_categories/initializers/handle_post_changes.rb:46 | `compact` is no longer than its input |
| Collections.CompactMembers | lib/doc_categories/initializers/handle_post_changes.rb:46 | `compact` holds exactly the present values |
| Collections.Without | lib/doc_categories/reports/missing_topics_report.rb:106 | Ruby `a - b` is no longer than `a` |
| Collections.WithoutMembers | lib/doc_categories/reports/missing_topics_report.rb:106 | `a - b` holds exactly the members of `a` not in `b` |
| Collections.SortBySorted | app/models/doc_categories/index.rb:11 | `order(:position)` yields rows ordered by position, as many as given |
| Collections.SortByPermutes | app/models/doc_categories/index.rb:11 | `order(:position)` is a permutation of the rows |
| Collections.SortByOfSorted | app/models/doc_categories/index.rb:11 | rows already in position order are left as they are |
| Store.FindByCategory | app/services/doc_categories/index_structure_refresher.rb:10 | `find_by(category_id:)` finds the first index of the category, none when there is none |
| Store.FindByIndexTopic | lib/doc_categories/initializers/handle_topic_events.rb:18 | `find_by(index_topic_id:)` finds the first index of the topic, none when there is none |
| Store.DestroyAt | app/models/doc_categories/index.rb:15 | destroying an index removes it with its rows and keeps the others in order |
| Store.DestroyAtEffect | app/models/doc_categories/index.rb:17-18 | destroying keeps one index per category and per topic, and leaves its category unindexed |
| Store.FindByCategoryUnique | app/models/doc_categories/index.rb:17 | with unique keys an index is found by its category where it sits |
| IndexModel.IndexErrorsEmptyIff | app/models/doc_categories/index.rb:17-20 | an index saves exactly when both ids are present and unique and its topic exists in its category |
| IndexModel.SubcategoryTopicDoesNotMatch | app/models/doc_categories/index.rb:55-60 | a topic of a subcategory does not match the parent's index |
| IndexModel.LinkTopic | app/models/doc_categories/index.rb:28 | a link's topic is the stored topic under its id, none without one |
| IndexModel.ProjectLinksSpec | app/models/doc_categories/index.rb:27-33 | a section serves exactly its valid links, in order, each by its topic's URL and labelled with the link's title when present, otherwise the topic's title |
| IndexModel.ProjectLinksServed | app/models/doc_categories/index.rb:27-33 | every served link points at a valid target by its URL, and the served ids are the valid ids in order |
| IndexModel.ProjectLinksLabels | app/models/doc_categories/index.rb:27-33 | the j-th served link is served for the j-th valid link record, labelled with the record's title when present, otherwise the topic's title (index.rb:30) |
| IndexModel.ProjectSectionsSpec | app/models/doc_categories/index.rb:22-40 | no served section is empty, and the served topic ids are the valid ones in order |
| IndexModel.SidebarStructureSpec | app/models/doc_categories/index.rb:22-51 | every served link is a valid same-category target, and `valid_sidebar_topic_ids` is the served ids without repeats |
| IndexModel.InvalidTargetsAreDropped | app/models/doc_categories/index.rb:62-70 | a link without a topic, or to an invisible topic or one of another category, is never served |
| SidebarSectionModel.SectionErrorsEmptyIff | app/models/doc_categories/sidebar_section.rb:19-21 | a section saves exactly when it has an index, a free position and a blank or short enough title |
| SidebarSectionModel.TitleLengthBoundary | app/models/doc_categories/sidebar_section.rb:21 | a title of 255 characters passes; one of 256 fails |
| SidebarSectionModel.BlankTitleAnyLength | app/models/doc_categories/sidebar_section.rb:21 | a blank title passes whatever its length |
| SidebarLinkModel.LinkErrorsEmptyIff | app/models/doc_categories/sidebar_link.rb:14-17 | a link saves exactly when it has a section, a free position, and a title of at most 255 and an href of at most 2000 characters, or blank ones |
| SidebarLinkModel.HrefLengthBoundary | app/models/doc_categories/sidebar_link.rb:17 | an href of 2000 characters passes; one of 2001 fails |
| SidebarLinkModel.TitleOnlyLinkAccepted | app/models/doc_categories/sidebar_link.rb:12-17 | a link with neither topic nor href saves |
| Refresher.CookedBody | app/services/doc_categories/index_structure_refresher.rb:21-22 | the cooked text is used only when the first post exists and its cooked text is not blank |
| Refresher.IndexStructureRefresher.constructor | app/services/doc_categories/index_structure_refresher.rb:5-7 | the refresher remembers its category id |
| Refresher.IndexStructureRefresher.Refresh | app/services/doc_categories/index_structure_refresher.rb:9-47 | the refresh in place leaves the store and the log as the pure refresh describes |
| Refresher.IndexStructureRefresher.RebuildIndex | app/services/doc_categories/index_structure_refresher.rb:27-46 | the transaction, touch and publish leave the store and the log as the pure rebuild describes |
| Refresher.IndexStructureRefresher.ParseAndBuild | app/services/doc_categories/index_structure_refresher.rb:24-25 | the parsed and built sections are those the pure refresh uses for the cooked text |
| Refresher.IndexStructureRefresher.PublishChangesTo | app/services/doc_categories/index_structure_refresher.rb:92-98 | a cache clear and a publish, only when the category exists |
| Refresher.IndexStructureRefresher.CreateSections | app/services/doc_categories/index_structure_refresher.rb:27-43 | the transaction stores every section and link in order, or fails exactly when some row would not save |
| Refresher.IndexStructureRefresher.CreateLinks | app/services/doc_categories/index_structure_refresher.rb:34-41 | one section's links are stored in order, or fail exactly when one would not save |
| Refresher.RefreshKeepsUniqueKeys | app/services/doc_categories/index_structure_refresher.rb:9-47 | a refresh keeps one index per category and per index topic |
| Refresher.RefreshTouchesOnlyItsIndex | app/services/doc_categories/index_structure_refresher.rb:9-47 | every other category's index stays as it was |
| Refresher.RefreshDestroyedSpec | app/services/doc_categories/index_structure_refresher.rb:13-19 | an index whose topic no longer qualifies is destroyed and its category left unindexed |
| Refresher.RefreshIdempotent | app/services/doc_categories/index_structure_refresher.rb:9-47 | refreshing twice leaves the rows as refreshing once |
| Refresher.RebuiltEvents | app/services/doc_categories/index_structure_refresher.rb:45-46 | a rebuild touches the index, then publishes when the category exists |
| Refresher.SectionSavesIff | app/services/doc_categories/index_structure_refresher.rb:30-32 | a built section saves exactly when its title fits |
| Refresher.LinkSavesIff | app/services/doc_categories/index_structure_refresher.rb:34-41 | a built link saves exactly when its label fits 255 and its href 2000 characters |
| Refresher.StoredInOrder | app/services/doc_categories/index_structure_refresher.rb:30-41 | positions number the rows in order, so reading them back by position returns them as built |
| Refresher.BuildLinksSpec | app/services/doc_categories/index_structure_refresher.rb:64-75 | the built links are exactly the links with a non-blank href, in order, each with its routed topic id and labelled with the parsed label, else the routed topic's title, else the href |
| Refresher.BuildLinksRouted | app/services/doc_categories/index_structure_refresher.rb:64-75 | the built hrefs are the usable ones in order, each with its routed topic id |
| Refresher.BuildLinksLabels | app/services/doc_categories/index_structure_refresher.rb:64-75 | the j-th built link comes from the j-th parsed link with a non-blank href, labelled with the parsed label unless blank, else the prefetched routed topic's title, else the href (index_structure_refresher.rb:71) |
| Refresher.BuildSectionListHrefs | app/services/doc_categories/index_structure_refresher.rb:64-80 | over all sections, the built hrefs are the usable hrefs in order |
| Refresher.BuildSectionListRouted | app/services/doc_categories/index_structure_refresher.rb:64-80 | no built section is empty and every built link carries its routed topic id |
| Refresher.BuildLinksSameTopics | app/services/doc_categories/index_structure_refresher.rb:62-75 | two topic maps that agree on the routed ids build the same links |
| Refresher.BuildSectionListSameTopics | app/services/doc_categories/index_structure_refresher.rb:62-80 | the same for all sections |
| Refresher.PrefetchIsTransparent | app/services/doc_categories/index_structure_refresher.rb:56-62 | the batch topic lookup builds what direct lookups would |
| RefreshJob.Execute | app/jobs/regular/doc_categories_refresh_index.rb:5-10 | a missing category id raises and changes nothing; otherwise the refresher runs for that id |
| CategoryIndexManager.NormalizeTopicId | app/services/doc_categories/category_index_manager.rb:40-45 | nil exactly for a blank value or a non-positive `to_i`, otherwise that positive number |
| Text.ToIOfDecimal | app/services/doc_categories/category_index_manager.rb:43 | Ruby `to_i` reads the decimal form of any integer back as that integer |
| Text.ToINoDigits | app/services/doc_categories/category_index_manager.rb:43 | Ruby `to_i` of text not starting, after white space, with a sign or a digit is 0 |
| CategoryIndexManager.CategoryIndexManager.constructor | app/services/doc_categories/category_index_manager.rb:5-7 | the manager remembers its category |
| CategoryIndexManager.CategoryIndexManager.AssignTopic | app/services/doc_categories/category_index_manager.rb:9-34 | the assignment in place leaves the store, the log and the answer as the pure assignment describes |
| CategoryIndexManager.TrueIffEnqueued | app/services/doc_categories/category_index_manager.rb:9-34 | `assign!` answers true exactly when it enqueues, and then it enqueues one refresh of its category |
| CategoryIndexManager.UnresolvableIdsClear | app/services/doc_categories/category_index_manager.rb:40-45 | "abc", 0 and negative values act as clearing the index |
| CategoryIndexManager.DecimalStringIsItsNumber | app/services/doc_categories/category_index_manager.rb:40-45 | a decimal string assigns the same topic as the number |
| CategoryIndexManager.WithTopicKeepsUniqueKeys | app/services/doc_categories/category_index_manager.rb:26-30 | giving the category's index a topic no other index has keeps the keys unique |
| CategoryIndexManager.AssignKeepsUniqueKeys | app/services/doc_categories/category_index_manager.rb:9-34 | assignment keeps one index per category and per index topic |
| CategoryIndexManager.AssignedTopicIsIndexed | app/services/doc_categories/category_index_manager.rb:23-31 | after a true assignment the category's index names the topic and passes the index validations |
| CategoryIndexManager.ClearedCategoryIsUnindexed | app/services/doc_categories/category_index_manager.rb:12-18 | clearing leaves the category without an index |
| CategoryIndexManager.AssignTwiceIsNoop | app/services/doc_categories/category_index_manager.rb:26-27 | assigning the same value again changes nothing and answers false |
| HandlePostEvents.OnPostEdited | lib/doc_categories/initializers/handle_post_events.rb:7-34 | the handler in place leaves the indexes and the log as the pure handler describes |
| HandlePostEvents.EnqueueAll | lib/doc_categories/initializers/handle_post_events.rb:31-33 | the loop enqueues one job per id, in order, and changes no index |
| HandlePostEvents.EnqueuesSpec | lib/doc_categories/initializers/handle_post_events.rb:31-33 | a category's job is enqueued exactly when its id is listed, and distinct ids give distinct jobs |
| HandlePostEvents.DestroyBindingSpec | lib/doc_categories/initializers/handle_post_events.rb:23-26 | `destroy_all` removes exactly the indexes binding that category to that topic |
| HandlePostEvents.DestroyBindingKeepsUniqueKeys | lib/doc_categories/initializers/handle_post_events.rb:23-26 | removing indexes keeps the keys unique |
| HandlePostEvents.EnqueuedCategories | lib/doc_categories/initializers/handle_post_events.rb:14-33 | a category is queued exactly when the topic indexes it or left it, and none twice |
| HandlePostEvents.IgnoredEdits | lib/doc_categories/initializers/handle_post_events.rb:8-12 | nothing happens when the plugin is off, the post is a reply, or the topic is gone |
| HandlePostEvents.IndexTopicMovedAway | lib/doc_categories/initializers/handle_post_events.rb:16-33 | an index topic moved out of its category loses its index and its category is queued once |
| HandleTopicEvents.OnTopicEvent | lib/doc_categories/initializers/handle_topic_events.rb:7-9 | the handler appends exactly the pure handler's jobs |
| HandleTopicEvents.RefreshForTopicSpec | lib/doc_categories/initializers/handle_topic_events.rb:14-21 | at most one job; one exactly when enabled and some index has the topic, and it names that index's category |
| HandleTopicEvents.TrashAndRecoverAgree | lib/doc_categories/initializers/handle_topic_events.rb:7-9 | trashing and recovering follow the same rule |
| HandleTopicChanges.OnTopicEvent | lib/doc_categories/initializers/handle_topic_changes.rb:12-20 | the handler appends exactly the pure handler's effects |
| HandleTopicChanges.TopicEventEffectsSpec | lib/doc_categories/initializers/handle_topic_changes.rb:13-14 | the cache is cleared exactly for the category's index topic, and the category is published whenever there is one |
| HandleTopicChanges.TrashAndRecoverAgree | lib/doc_categories/initializers/handle_topic_changes.rb:17-20 | trashing and recovering follow the same rule |
| HandlePostChanges.CategoryForId | lib/doc_categories/initializers/handle_post_changes.rb:49-54 | nothing for a blank id, the current category for its own id, else the stored category with that id |
| HandlePostChanges.OnPostEdited | lib/doc_categories/initializers/handle_post_changes.rb:10-21 | the handler appends exactly the pure handler's effects, and reports the NoMethodError of a revisor without `topic_diff`, after which nothing has changed |
| HandlePostChanges.ResetDocsCategories | lib/doc_categories/initializers/handle_post_changes.rb:60-64 | the loop logs one clear, then one publish per category in order |
| HandlePostChanges.PublishesLog | lib/doc_categories/initializers/handle_post_changes.rb:63 | publishes clear nothing and publish exactly those ids |
| HandlePostChanges.ResetSpec | lib/doc_categories/initializers/handle_post_changes.rb:60-64 | a reset clears the cache exactly once and publishes each category in order |
| HandlePostChanges.CookedIndexTopicEdit | lib/doc_categories/initializers/handle_post_changes.rb:14-16 | a cooked change to the index topic's first post clears and publishes its category |
| HandlePostChanges.CategoriesInvolvedSpec | lib/doc_categories/initializers/handle_post_changes.rb:31-47 | a category is involved exactly when it is the old or the new category and names the topic as its index topic |
| HandlePostChanges.MoveEffects | lib/doc_categories/initializers/handle_post_changes.rb:19-20 | outside a cooked index edit the handler raises, without effect, exactly when the revisor has no `topic_diff`; otherwise a move resets exactly the involved categories, and does nothing when none is involved |
| HandlePostChanges.CookedEditNeverRaises | lib/doc_categories/initializers/handle_post_changes.rb:14-17 | a cooked edit of the index topic resets before `topic_diff` is read, so it never raises and clears the cache once |
| HandlePostChanges.AtMostOneClear | lib/doc_categories/initializers/handle_post_changes.rb:10-21 | every edit clears the site cache at most once |
| HandlePostChanges.MissingTopicStillClears | lib/doc_categories/initializers/handle_post_changes.rb:56-58 | a post without a topic, in a first-post cooked edit, matches a category-less "index topic" and clears the cache |
| HandleCacheOnTopicChanges.TopicCallbacks.constructor | lib/doc_categories/initializers/handle_cache_on_topic_changes.rb:14-19 | a fresh topic record has nothing stashed |
| HandleCacheOnTopicChanges.TopicCallbacks.Save | lib/doc_categories/initializers/handle_cache_on_topic_changes.rb:14-19 | a save stashes the category change only when there is one |
| HandleCacheOnTopicChanges.TopicCallbacks.AfterCommit | lib/doc_categories/initializers/handle_cache_on_topic_changes.rb:21-41 | the commit consumes the stash and logs the pure commit effects |
| HandleCacheOnTopicChanges.OnTopicEvent | lib/doc_categories/initializers/handle_cache_on_topic_changes.rb:43-51 | trash and recover act as the standalone topic handler does |
| HandleCacheOnTopicChanges.CommitEffectsSpec | lib/doc_categories/initializers/handle_cache_on_topic_changes.rb:25-40 | at most one clear, which happens exactly when the topic indexes its current or its old category; each such category is published |
| HandleCacheOnTopicChanges.CommitWithoutStash | lib/doc_categories/initializers/handle_cache_on_topic_changes.rb:22 | a commit without a stash does nothing |
| HandleCacheOnTopicChanges.IndexTopicMovedOut | lib/doc_categories/initializers/handle_cache_on_topic_changes.rb:27-40 | an index topic moved out of its category clears the cache and republishes the old category only |
| HandleCacheOnPostChanges.AfterCommit | lib/doc_categories/initializers/handle_cache_on_post_changes.rb:11-20 | the callback appends exactly the pure callback's effects |
| HandleCacheOnPostChanges.PostCommitEffectsSpec | lib/doc_categories/initializers/handle_cache_on_post_changes.rb:11-20 | a clear and a publish of the category exactly for a cooked change to the first post of its index topic; nothing otherwise |
| HandleCacheOnPostChanges.AgreesWithPostEdited | lib/doc_categories/initializers/handle_cache_on_post_changes.rb:11-20 | such an edit gets the same effects from the post-edited handler, so it is cleared and published twice |
| HandleTopicBump.ShouldBumpTopicSpec | lib/doc_categories/initializers/handle_topic_bump.rb:10-12 | true exactly for a first-post change in a doc category, nil otherwise, never false, whatever the host proposed |
| HandleTopicBump.RepliesAndRegularCategoriesNotBumped | lib/doc_categories/initializers/handle_topic_bump.rb:10 | replies and posts of regular categories get no true |
| HandleTopicBump.TitleOnlyEditNotBumped | lib/doc_categories/initializers/handle_topic_bump.rb:10 | an edit changing no post field gets no true; one changing the raw text does |
| SerializeIndexStructure.IndexField | lib/doc_categories/initializers/serialize_index_structure.rb:11-32 | a served value is never empty and only served for the category's index whose topic lives in that very category |
| SerializeIndexStructure.IndexFieldIff | lib/doc_categories/initializers/serialize_index_structure.rb:11-32 | served exactly when the category's index passes every check, and then its value is the sidebar structure |
| SerializeIndexStructure.ServedFieldIsSafe | lib/doc_categories/initializers/serialize_index_structure.rb:24 | a served field holds only links to valid topics of the category itself |
| SerializeIndexStructure.SubcategoryIndexTopicNotServed | lib/doc_categories/initializers/serialize_index_structure.rb:23-24 | an index topic in a subcategory is not served |
| LegacySerializeIndexStructure.IndexFieldAsWritten | lib/doc_categories/plugin_initializers/serialize_index_structure.rb:73-93 | as written, the object's id changes only to the index topic's category id (nil included), and a served value is non-empty and comes with the object's id overwritten |
| LegacySerializeIndexStructure.CategorylessIndexTopicNilsId | lib/doc_categories/plugin_initializers/serialize_index_structure.rb:86 | an index topic without a category is refused, after the assignment has set the category's id to nil |
| LegacySerializeIndexStructure.ForeignIndexTopicServed | lib/doc_categories/plugin_initializers/serialize_index_structure.rb:86 | as written, an index topic from another category is served and the category's id is overwritten; the corrected field refuses it |
| LegacySerializeIndexStructure.IndexFieldSpec | lib/doc_categories/plugin_initializers/serialize_index_structure.rb:73-93 | the corrected field is served only for a topic of this category with parseable links, and agrees with the written field there |
| LegacySerializeIndexStructure.LegacyTopic.constructor | lib/doc_categories/plugin_initializers/serialize_index_structure.rb:14-22 | a fresh topic record has nothing stashed |
| LegacySerializeIndexStructure.LegacyTopic.Save | lib/doc_categories/plugin_initializers/serialize_index_structure.rb:15-22 | the stash is taken only when the category or the deletion time will change |
| LegacySerializeIndexStructure.LegacyTopic.AfterCommit | lib/doc_categories/plugin_initializers/serialize_index_structure.rb:24-42 | the commit consumes the stash and logs the pure commit effects |
| LegacySerializeIndexStructure.TopicCommitMatchesCurrentHook | lib/doc_categories/plugin_initializers/serialize_index_structure.rb:29-41 | the legacy hook clears the cache exactly when the current hook clears it, and publishes nothing |
| LegacySerializeIndexStructure.TrashedIndexTopicClears | lib/doc_categories/plugin_initializers/serialize_index_structure.rb:16-41 | trashing an index topic without a move clears the cache |
| LegacySerializeIndexStructure.PostAfterCommit | lib/doc_categories/plugin_initializers/serialize_index_structure.rb:52-60 | the hook appends exactly the pure hook's effects |
| LegacySerializeIndexStructure.PostCommitMatchesCurrentHook | lib/doc_categories/plugin_initializers/serialize_index_structure.rb:52-60 | the legacy post hook clears exactly when the current one acts, and never publishes |
| MissingTopicsReport.CategoriesWhere | lib/doc_categories/reports/missing_topics_report.rb:24 | exactly the existing categories among the ids, at most one per id |
| MissingTopicsReport.CategoriesWhereDistinct | lib/doc_categories/reports/missing_topics_report.rb:24 | with every category stored under its own id, no category comes back twice |
| MissingTopicsReport.WithId | lib/doc_categories/reports/missing_topics_report.rb:43-44 | exactly the categories with the chosen id; empty exactly when none has it |
| MissingTopicsReport.Report.constructor | lib/doc_categories/reports/missing_topics_report.rb:5-11 | a new report has no filters, labels or data |
| MissingTopicsReport.Report.Run | lib/doc_categories/reports/missing_topics_report.rb:13-17 | filters are added; labels and data are set only when `set_filters` goes on |
| MissingTopicsReport.Report.SetData | lib/doc_categories/reports/missing_topics_report.rb:84-124 | the data becomes every selected category's rows, category by category; filters and labels stay |
| MissingTopicsReport.GatherRows | lib/doc_categories/reports/missing_topics_report.rb:87-120 | the loop over the selected categories gathers exactly their rows, category by category, in order |
| MissingTopicsReport.VisibleRowsSpec | lib/doc_categories/reports/missing_topics_report.rb:108-120 | one row per visible topic among the ids, with its title and the category's columns, none twice |
| MissingTopicsReport.CategoryRowsSpec | lib/doc_categories/reports/missing_topics_report.rb:89-120 | a topic is reported exactly when listed, visible, not indexed and not the index topic; rows carry the category's id, name and URL |
| MissingTopicsReport.NoDocCategoriesNoData | lib/doc_categories/reports/missing_topics_report.rb:22 | without doc categories the report stops with no filter |
| MissingTopicsReport.AllChoiceOnlyForSeveral | lib/doc_categories/reports/missing_topics_report.rb:25-29 | the "all" choice (id -1) leads exactly when there are several doc categories |
| MissingTopicsReport.SelectionSpec | lib/doc_categories/reports/missing_topics_report.rb:31-45 | the selection is every doc category for -1, otherwise exactly those with the chosen id |
| MissingTopicsReport.SubcategoryToggleSpec | lib/doc_categories/reports/missing_topics_report.rb:47-58 | the toggle is offered exactly when a selected category has subcategories, and only then counts |
| MissingTopicsReport.UnknownCategoryStops | lib/doc_categories/reports/missing_topics_report.rb:43-45 | a chosen id no doc category has stops the report |
| MissingTopicsReport.BoolCastExamples | lib/doc_categories/reports/missing_topics_report.rb:51-52 | nil, "" and "false", "0", "off" cast to false; "true" and "1" to true |
| ExtraneousItemsReport.InvisibleTopicIds | lib/doc_categories/reports/extraneous_items_report.rb:44 | exactly the invisible existing topics among the ids |
| ExtraneousItemsReport.Report.constructor | lib/doc_categories/reports/missing_topics_report.rb:5-11 | a new report has no filters, labels or data |
| ExtraneousItemsReport.Report.Run | lib/doc_categories/reports/missing_topics_report.rb:13-17 | filters are added; labels and data are set only when nothing raised |
| ExtraneousItemsReport.Report.SetData | lib/doc_categories/reports/extraneous_items_report.rb:30-93 | the gathered rows are stored once all are in; a raise leaves the data as it was |
| ExtraneousItemsReport.GatherItems | lib/doc_categories/reports/extraneous_items_report.rb:33-89 | the loop gathers every category's rows in order, and raises exactly when some category raises |
| ExtraneousItemsReport.ItemsDataRaisesOnward | lib/doc_categories/reports/extraneous_items_report.rb:35-90 | once a category raises, the whole run does |
| ExtraneousItemsReport.ReasonOrder | lib/doc_categories/reports/extraneous_items_report.rb:63-74 | each reason exactly under its condition: not visible, other category, not a topic, external |
| ExtraneousItemsReport.LinkRowSpec | lib/doc_categories/reports/extraneous_items_report.rb:56-83 | a link is reported exactly unless it names a visible listed topic; its row carries its reason and the category's columns |
| ExtraneousItemsReport.LinkRowsSpec | lib/doc_categories/reports/extraneous_items_report.rb:56-84 | every row comes from a link, and every link not left out has its row |
| ExtraneousItemsReport.CategoryItemsSpec | lib/doc_categories/reports/extraneous_items_report.rb:48-87 | nothing without an index topic, a raise when it has no first post, and no repeated row |
| ExtraneousItemsReport.CategoryItemsFromIndexLinks | lib/doc_categories/reports/extraneous_items_report.rb:49-87 | the rows are the distinct rows of the index's parsed links |
| DocCategorySidebar.FirstWithId | assets/javascripts/discourse/services/doc-category-sidebar.js:89-91 | `find` answers a category of the message with that id, and none exactly when no category has it |
| DocCategorySidebar.DocCategorySidebarService.constructor | assets/javascripts/discourse/services/doc-category-sidebar.js:16-17 | no category and no index are remembered |
| DocCategorySidebar.DocCategorySidebarService.HideDocsSidebar | assets/javascripts/discourse/services/doc-category-sidebar.js:60-66 | the main panel replaces the docs panel only when it is shown |
| DocCategorySidebar.DocCategorySidebarService.ShowDocsSidebar | assets/javascripts/discourse/services/doc-category-sidebar.js:68-72 | the docs panel is shown |
| DocCategorySidebar.DocCategorySidebarService.DisableDocsSidebar | assets/javascripts/discourse/services/doc-category-sidebar.js:74-78 | hides, then forgets the category and the index |
| DocCategorySidebar.DocCategorySidebarService.MaybeUpdateIndexContent | assets/javascripts/discourse/services/doc-category-sidebar.js:80-104 | the message handler leaves the state the pure update describes |
| DocCategorySidebar.DocCategorySidebarService.CurrentRouteChanged | assets/javascripts/discourse/services/doc-category-sidebar.js:106-113 | an aborted transition changes nothing; otherwise the sidebar is forced |
| DocCategorySidebar.DocCategorySidebarService.FindIndexForActiveCategory | assets/javascripts/discourse/services/doc-category-sidebar.js:115-130 | the loop up the parents finds what the pure search finds |
| DocCategorySidebar.DocCategorySidebarService.MaybeForceDocsSidebar | assets/javascripts/discourse/services/doc-category-sidebar.js:132-147 | the state becomes the pure forced state |
| DocCategorySidebar.DocCategorySidebarService.SetContent | assets/javascripts/discourse/services/doc-category-sidebar.js:149-158 | the state becomes the pure set-content state |
| DocCategorySidebar.FindIndexSpec | assets/javascripts/discourse/services/doc-category-sidebar.js:115-130 | the found index is the nearest category's with one; none exactly when no category has one |
| DocCategorySidebar.DisableSpec | assets/javascripts/discourse/services/doc-category-sidebar.js:74-78 | disabling forgets both fields and never leaves the docs panel shown |
| DocCategorySidebar.SetSidebarContentSpec | assets/javascripts/discourse/services/doc-category-sidebar.js:149-158 | an absent index disables; a present one is remembered with its category and shown |
| DocCategorySidebar.MaybeForceSpec | assets/javascripts/discourse/services/doc-category-sidebar.js:132-147 | no index disables; a found one ends up remembered, and an already shown one leaves the state alone |
| DocCategorySidebar.MaybeForceIdempotent | assets/javascripts/discourse/services/doc-category-sidebar.js:132-147 | forcing twice is forcing once |
| DocCategorySidebar.AdminPanelDisables | assets/javascripts/discourse/services/doc-category-sidebar.js:33-36 | under the admin panel no category is active and the sidebar is disabled |
| DocCategorySidebar.HandlersKeepCoherence | assets/javascripts/discourse/services/doc-category-sidebar.js:80-113 | every handler keeps the category and index set together, and the docs panel shown only with an index |
| DocCategorySidebar.ShownSidebarFollowsMessages | assets/javascripts/discourse/services/doc-category-sidebar.js:89-103 | while shown, a message replaces the shown category's index, a deletion disables, and otherwise nothing changes |
| DocCategorySidebar.HiddenSidebarReevaluates | assets/javascripts/discourse/services/doc-category-sidebar.js:83-86 | while hidden, a message only forces the sidebar again |
| DocCategorySidebarPanel.CategoryFilterSpec | assets/javascripts/discourse/lib/doc-category-sidebar-panel.js:63-81 | "#slug" for a top-level category, "#parent:child" for a subcategory, none deeper |
| DocCategorySidebarPanel.ContentSearchQuerySpec | assets/javascripts/discourse/lib/doc-category-sidebar-panel.js:39-53 | the query is the filter, plus the category filter or "category:id" when a category is active |
| DocCategorySidebarPanel.SectionNameSpec | assets/javascripts/discourse/lib/doc-category-sidebar-panel.js:182-186 | the root name exactly when the header is hidden; a titled section is named as the parser names it |
| DocCategorySidebarPanel.SectionsSpec | assets/javascripts/discourse/lib/doc-category-sidebar-panel.js:27-33 | one section per config section with its text and links in order; link names start with their section's name |
| DocCategorySidebarPanel.KeywordsSpec | assets/javascripts/discourse/lib/doc-category-sidebar-panel.js:174-179 | at least one keyword, none with white space, together the lower-cased text's non-space characters |
| IsDocTopic.FlaggedTopicIsDocTopic | assets/javascripts/discourse/lib/is-doc-topic.js:6-8 | the server's `doc_topic` flag makes a doc topic whatever the category holds |
| IsDocTopic.FlagDecidesWithoutIndex | assets/javascripts/discourse/lib/is-doc-topic.js:1-25 | without a category, or with one that has no serialized index and an unset or 0 index-topic field, only the flag decides |
| IsDocTopic.ServedIndexMakesDocTopics | assets/javascripts/discourse/lib/is-doc-topic.js:15-17 | a category carrying the index the server's serializer serves makes every topic in it a doc topic |
| IsDocTopic.EmptyIndexOutweighsField | assets/javascripts/discourse/lib/is-doc-topic.js:15-17 | an empty serialized index decides false before the custom field is read |
| IsDocTopic.IndexedCategoryTopics | assets/javascripts/discourse/lib/is-doc-topic.js:15-17 | every topic of a category with a non-empty index is documentation |

## Left out

- HTML parsing (Nokogiri on the server, the browser's DOM on the client) is a parameter, `parseHtml` from cooked text to a node tree; `Html` models only the queries the parsers make on that tree (direct children, first descendant, text content).
- Text functions of the host are parameters: `slugify`, lower-casing and I18n strings. Character classes for Ruby `strip`, `blank?` and JavaScript `trim` are modelled, Unicode case folding is not.
- Routing is a parameter: `Discourse.route_for` becomes a function from an href to an optional route, and an href it cannot route, nil included, routes nowhere.
- JavaScript `deepEqual` on index configs is modelled as value equality of the configs.
- The sidebar service's `isEnabled` getter reads a field that is never assigned, so it is always false, and the `loading` getter reads another, so the panel is always filterable; neither is modelled as a member.
- `isSectionLinkActive` in the panel and the rest of the Ember UI (components, templates, route and transition objects beyond the category chain) are not part of this model.
- The client's category chain (`category`, `parentCategory`, ...) is a sequence from the active category up to the root.
- `encodeURIComponent`, `getURL` and `escapeExpression` in the panel's search query and links are not modelled; the query and hrefs are the unescaped strings.
- RefreshJob.Execute: the job's argument is an optional integer, as all three enqueue sites pass integers (handle_post_events.rb:32, handle_topic_events.rb:19, category_index_manager.rb:57). A string id such as "5" is not modelled: `find_by` would cast it, but `valid_topic?` compares `topic.category_id == category_id`, 5 == "5" is false, and the category's index would be destroyed.
- SQL ordering other than `order(:position)` is not modelled: `Category.where(id:)` and the other unordered queries are taken to return their rows in the order of the ids given (CategoriesWhere), where SQL promises no order.
- Record ids, `belongs_to` associations and the `dependent: :destroy` cascade are not separate rows: an index owns its sections and links as values, so destroying it removes them.
- Database transactions are modelled as all-or-nothing updates of the store; concurrency between jobs, requests and callbacks is not modelled.
- The Topic default scope (hiding deleted topics from `find_by`) is folded into the site's topic map, which holds only what the lookup can see.
- A first post whose cooked text is nil is read as the empty string, as `to_s` would.
- Link validations the plugin's tests expect but the model classes do not declare (a link needing a topic or an href) are not modelled; the model follows the declared validations.
- HandleTopicBump.ShouldBumpTopicSpec: the host's `apply_modifier` chain is left out; the model answers only the plugin's own value, true or nil.
- HandleCacheOnPostChanges.AfterCommit: a post whose topic is nil would raise inside the callback; the model takes the topic as given.
- The bump modifier applies to a first-post edit of any topic in a doc category, not only to the index topic as the plugin's description says; the model follows the code.
- The plugin's settings, site settings other than the enabled flag, admin routes, controllers (including the legacy docs controller) and the Ember components that render the sidebar are outside the modelled core.

## Findings

| source | as written | input that shows it | evidently intended | confidence | as-written member | corrected member |
|---|---|---|---|---|---|---|
| lib/doc_categories/plugin_initializers/serialize_index_structure.rb:86 | `object.id = index_topic.category_id` assigns the index topic's category id to the category instead of comparing them, so the guard only rejects an index topic without a category, and then only after setting the category's id to nil | a category whose index-topic field names a topic of another category whose first post has a parseable index | compare with `==` and serve the field only for an index topic of this category | not executed | LegacySerializeIndexStructure.IndexFieldAsWritten, shown by LegacySerializeIndexStructure.ForeignIndexTopicServed and LegacySerializeIndexStructure.CategorylessIndexTopicNilsId | LegacySerializeIndexStructure.IndexField, proved by LegacySerializeIndexStructure.IndexFieldSpec |
