# WatchnLearn admin dashboard: a Dafny model of its editing core

WatchnLearn Admin is the back office of a learning platform. Staff use it
to maintain the course tree, which runs subject → term → week → chapter →
topic, and the catalogues around it: content items, subjects, media,
textbooks, syllabi, past papers and users. This project models, in Dafny,
the logic those screens run in memory: the state the dialogs and pages
keep, the handlers that replace it, and the predicates that filter and
summarise it. It then proves what the handlers promise.

The model is organised by source file:

- `hierarchy_tree.dfy`: the five record types of the course tree. It also
  has the `string | number` keys the tree's handlers take, the
  `findIndex` lookups, the edit token `"<kind>-<id>"`, and the invariant
  `TreeOrdered`. That invariant says every child's `order` is its 1-based
  position in its list, which is the layout the seed data has and the
  rendering sorts to.
- `hierarchy_toggle.dfy`, `hierarchy_add.dfy`, `hierarchy_move.dfy`,
  `hierarchy_rename.dfy` and `hierarchy_delete.dfy`: the tree-rewriting
  expressions of the hierarchy component, one file per handler family.
  - Each level has a relation. For example, `SubjectAdded(r, s, …)` says
    exactly which node changes and how.
  - The rewriting function is proved to meet that relation.
  - Lemmas then derive the promised facts from it: frame conditions,
    no-ops at the boundaries, round trips, and preservation of
    `TreeOrdered`.
- `hierarchy_editor.dfy`: the component itself, as a class. Its fields are
  `subjects`, the edit fields and the add-dialog fields. Each handler is a
  method whose `ensures` ties the new state to the functions above.
- `content_page.dfy`, `subjects_page.dfy`, `media_page.dfy`,
  `textbooks_page.dfy`, `syllabus_page.dfy`, `past_papers_page.dfy` and
  `users_page.dfy`: each page's seed list, its filter, its derived lists
  and sums, and a class whose methods are the page's add and delete
  handlers.
- `add_subject_dialog.dfy`, `add_content_dialog.dfy`,
  `add_syllabus_dialog.dfy`, `add_textbook_dialog.dfy` and
  `upload_media_dialog.dfy`: the dialogs' form state as classes. The
  records they emit and their submit guards are functions.
- `sidebar.dfy`: the navigation menu's expand/collapse list, path
  matching and child visibility.
- `auth.dfy`: the two role predicates.
- `strings.dfy`, `seqs.dfy` and `option.dfy`: the JavaScript string and
  array operations the code relies on, specified once:
  - `toLowerCase`/`toUpperCase` as ASCII case mapping, `includes`,
    `startsWith`, `trim`, decimal printing and `parseInt`;
  - `filter` (by value and by index), `findIndex`, `new Set`, `sort`
    and `reduce`, and the order that repeated prepends leave.

Conventions:

- Clock readings (`Date.now()`) and other fresh ids are parameters.
- `URL.createObjectURL` is a parameter.
- A text or select input whose handler only stores the typed value
  (a title, a description, the new chapter's title) is a direct
  assignment to the public field of the dialog class, not a method.
- Integers are unbounded. No count or sum in the source is large enough
  for JavaScript's number precision to matter.

Behaviour the source has, and the model keeps as written:

- Term ids 1–3 repeat across subjects. `RenameTermHitsEverySubject` shows
  that a rename of term `n` renames term `n` of every subject.
- A delete never compares `parentIds[0]` (`DeleteIgnoresSubjectId`) and
  never renumbers the siblings it keeps. `DeleteThenAddRepeatsOrder` shows
  the duplicate `order` that a later add then produces.
- `continueChapterToNextWeek` with a missing week id, and `moveTopicDown`
  with a missing topic id, throw in the source when the list is
  non-empty. They are preconditions here (`ContinueAllowed`,
  `DownDefined`).

## Model

| member | source | states |
|---|---|---|
| HierarchyTree.WeekIndex | components/content/ContentHierarchy.tsx:263-264 | the index of the first week with that id, or -1 exactly when none has it |
| HierarchyTree.ChapterIndex | components/content/ContentHierarchy.tsx:267 | the index of the first chapter with that id, or -1 exactly when none has it |
| HierarchyTree.TopicIndex | components/content/ContentHierarchy.tsx:318 | the index of the first topic with that id, or -1 exactly when none has it |
| HierarchyTree.EmptyWeeks | components/content/AddSubjectDialog.tsx:99-104 | thirteen empty weeks with consecutive ids from the first id and orders 1..13 |
| HierarchyTree.Token | components/content/ContentHierarchy.tsx:395-429 | the token is the kind name, a dash, then the id text |
| HierarchyTree.TokenInjective | components/content/ContentHierarchy.tsx:395-429 | two tokens are equal iff they name the same kind and the same id text |
| HierarchyTree.NodeTokenInjective | components/content/ContentHierarchy.tsx:395-422 | tokens of numeric ids are equal iff same kind and same number |
| HierarchyEditor.Expand | components/content/ContentHierarchy.tsx:110-112 | every subject is marked expanded and nothing else changes |
| HierarchyEditor.ExpandKeepsOrders | components/content/ContentHierarchy.tsx:110-112 | the initial expansion keeps every order equal to its position |
| HierarchyEditor.Editor.constructor | components/content/ContentHierarchy.tsx:110-127 | the tree is the caller's subjects, all expanded; nothing is being edited; the add dialog is closed |
| HierarchyEditor.Editor.ToggleExpanded | components/content/ContentHierarchy.tsx:129-172 | the tree becomes `Toggle` of the old tree, keeps `TreeOrdered`; edit and dialog state unchanged |
| HierarchyEditor.Editor.OpenAddDialog | components/content/ContentHierarchy.tsx:174-178 | the dialog opens with the given kind and context; tree and edit state unchanged |
| HierarchyEditor.Editor.SetAddDialogOpen | components/content/ContentHierarchy.tsx:174-178 | only the open flag changes |
| HierarchyEditor.Editor.HandleAddItem | components/content/ContentHierarchy.tsx:180-254 | the tree becomes `AddItem` of the old tree; it changes iff the dialog's path reaches a target; `TreeOrdered` kept |
| HierarchyEditor.Editor.ContinueChapterToNextWeek | components/content/ContentHierarchy.tsx:256-300 | the tree becomes `Continue` of the old tree; `TreeOrdered` kept when week ids are unique within each term |
| HierarchyEditor.Editor.MoveTopicUp | components/content/ContentHierarchy.tsx:302-340 | the tree becomes `MoveTopic(…, Up)` of the old tree; `TreeOrdered` kept; other state unchanged |
| HierarchyEditor.Editor.MoveTopicDown | components/content/ContentHierarchy.tsx:342-380 | the tree becomes `MoveTopic(…, Down)` of the old tree, given the topic exists when the list is non-empty; `TreeOrdered` kept |
| HierarchyEditor.Editor.StartEditing | components/content/ContentHierarchy.tsx:382-388 | the token and the four edit values are set; the tree is unchanged |
| HierarchyEditor.Editor.CancelEdit | components/content/ContentHierarchy.tsx:450-456 | the edit state is cleared and the tree is unchanged |
| HierarchyEditor.Editor.SaveEdit | components/content/ContentHierarchy.tsx:390-448 | without a token nothing changes; otherwise the tree becomes the rename of the old tree and the edit state is cleared; `TreeOrdered` kept |
| HierarchyEditor.Editor.DeleteItem | components/content/ContentHierarchy.tsx:458-531 | the tree becomes `Delete` of the old tree; edit and dialog state unchanged |
| HierarchyToggle.Flip | components/content/ContentHierarchy.tsx:132 | the flag becomes present and reads the opposite of what it read (absent reads collapsed) |
| HierarchyToggle.ToggleChapter | components/content/ContentHierarchy.tsx:154-159 | only a chapter of that id flips (an absent flag becomes `true`); every other chapter keeps its flag exactly; topics untouched |
| HierarchyToggle.ToggleWeek | components/content/ContentHierarchy.tsx:146-163 | a week of that id flips; chapters are searched only under the week `parentIds[2]` names; every node not flipped keeps its flag exactly |
| HierarchyToggle.ToggleTerm | components/content/ContentHierarchy.tsx:138-167 | a term of that id flips; weeks are searched only under the term `parentIds[1]` names; every node not flipped keeps its flag exactly |
| HierarchyToggle.ToggleSubject | components/content/ContentHierarchy.tsx:130-171 | a subject of that id flips; deeper levels are searched only under subject `parentIds[0]` and only when `parentIds` is given; every node not flipped keeps its flag exactly |
| HierarchyToggle.Toggle | components/content/ContentHierarchy.tsx:129-172 | every subject is related to its old self by the toggle relation: only nodes of that kind and id under the ancestor chain flip, every other flag (absent ones included) and field stays as it was |
| HierarchyToggle.ChaptersUntouched | components/content/ContentHierarchy.tsx:151-161 | chapters outside the named week are left as they are |
| HierarchyToggle.WeekUntouched | components/content/ContentHierarchy.tsx:146-163 | a week that is neither the target nor on the path is unchanged |
| HierarchyToggle.WeeksUntouched | components/content/ContentHierarchy.tsx:143-165 | weeks outside the named term are left as they are |
| HierarchyToggle.TermUntouched | components/content/ContentHierarchy.tsx:138-167 | a term that is neither the target nor on the path is unchanged |
| HierarchyToggle.TermsUntouched | components/content/ContentHierarchy.tsx:135-169 | terms outside the named subject are left as they are |
| HierarchyToggle.ChapterTwice | components/content/ContentHierarchy.tsx:154-159 | two toggles flip the addressed chapter twice, which restores its reading (absent becomes a stored `false`); other chapters are unchanged |
| HierarchyToggle.WeekTwice | components/content/ContentHierarchy.tsx:146-163 | two toggles flip the addressed node in a week twice; every other node in it is unchanged |
| HierarchyToggle.TermTwice | components/content/ContentHierarchy.tsx:138-167 | two toggles flip the addressed node in a term twice; every other node in it is unchanged |
| HierarchyToggle.SubjectTwice | components/content/ContentHierarchy.tsx:130-171 | two toggles flip the addressed node in a subject twice; every other node in it is unchanged |
| HierarchyToggle.ToggleTwice | components/content/ContentHierarchy.tsx:129-172 | toggling the same node twice flips it twice, restoring its expanded reading, and leaves every other node and field exactly as it was |
| HierarchyToggle.ToggleKeepsOrders | components/content/ContentHierarchy.tsx:129-172 | toggling keeps every order equal to its position |
| HierarchyToggle.ToggleTopicChangesNothing | components/content/ContentHierarchy.tsx:129-172 | a topic-kind toggle leaves the tree unchanged (topics have no flag) |
| HierarchyAdd.AddInChapter | components/content/ContentHierarchy.tsx:224-241 | only the targeted chapter gains the new topic at the end |
| HierarchyAdd.AddInWeek | components/content/ContentHierarchy.tsx:205-245 | only the targeted week gains the new chapter, or the path descends into its chapters |
| HierarchyAdd.AddInTerm | components/content/ContentHierarchy.tsx:187-249 | only the targeted term gains the new week, or the path descends into its weeks |
| HierarchyAdd.AddInSubject | components/content/ContentHierarchy.tsx:183-253 | only the subject the context names is rewritten |
| HierarchyAdd.AddItem | components/content/ContentHierarchy.tsx:180-254 | every subject is related to its old self by the add relation: exactly one child appended to each targeted list, everything else unchanged |
| HierarchyAdd.WeeksUnreached | components/content/ContentHierarchy.tsx:205-245 | weeks off the path satisfy the add relation unchanged |
| HierarchyAdd.TermsUnreached | components/content/ContentHierarchy.tsx:187-249 | terms off the path satisfy the add relation unchanged |
| HierarchyAdd.WeekAddedChanges | components/content/ContentHierarchy.tsx:205-245 | a week changes iff it is reached and targeted |
| HierarchyAdd.TermAddedChanges | components/content/ContentHierarchy.tsx:187-249 | a term changes iff it is reached and targeted |
| HierarchyAdd.SubjectAddedChanges | components/content/ContentHierarchy.tsx:183-253 | a subject changes iff it is targeted |
| HierarchyAdd.AddChangesIffReached | components/content/ContentHierarchy.tsx:180-254 | the tree changes iff the dialog's path reaches a target list (an unmatched path is a no-op) |
| HierarchyAdd.WeekAddedOrdered | components/content/ContentHierarchy.tsx:205-245 | an add keeps a week's orders equal to positions |
| HierarchyAdd.TermAddedOrdered | components/content/ContentHierarchy.tsx:187-249 | an add keeps a term's orders equal to positions |
| HierarchyAdd.AddKeepsOrders | components/content/ContentHierarchy.tsx:180-254 | adding keeps every order equal to its position |
| HierarchyAdd.NewItems | components/content/ContentHierarchy.tsx:189-234 | a new week, chapter or topic has order = old count + 1, empty children and the form's title; a topic is published |
| HierarchyAdd.Continue | components/content/ContentHierarchy.tsx:256-300 | only the term of the named subject and term id changes, to `ContinueInTerm` |
| HierarchyAdd.ContinueCopiesIntoNextWeek | components/content/ContentHierarchy.tsx:263-291 | one chapter is appended to the next week by position; the source week and every other week are unchanged |
| HierarchyAdd.ContinuationShape | components/content/ContentHierarchy.tsx:270-277 | the copy has the fresh id, `isContinuation`, the source id, no topics, order = next week's count + 1, the source title and description |
| HierarchyAdd.ContinueNoOp | components/content/ContentHierarchy.tsx:263-291 | from the last week, or with a chapter not found, the term is unchanged |
| HierarchyAdd.ContinueInTermOrdered | components/content/ContentHierarchy.tsx:263-291 | continuing keeps a term's orders equal to positions when its week ids are unique |
| HierarchyAdd.ContinueKeepsOrders | components/content/ContentHierarchy.tsx:256-300 | continuing keeps every order equal to its position when week ids are unique within terms |
| HierarchyMove.WithoutOrders | components/content/ContentHierarchy.tsx:317-324 | clearing the orders keeps the length |
| HierarchyMove.MoveUpAtTopIsNoOp | components/content/ContentHierarchy.tsx:318-319 | moving up the first topic, or one not found, changes nothing |
| HierarchyMove.MoveUpSwaps | components/content/ContentHierarchy.tsx:317-324 | positions i-1 and i swap and take orders i and i+1; no other topic changes |
| HierarchyMove.MoveDownAtBottomIsNoOp | components/content/ContentHierarchy.tsx:358-359 | moving down the last topic changes nothing |
| HierarchyMove.MoveDownSwaps | components/content/ContentHierarchy.tsx:357-364 | positions i and i+1 swap and take orders i+1 and i+2; no other topic changes |
| HierarchyMove.WithoutOrdersSwap | components/content/ContentHierarchy.tsx:320-322 | apart from orders, a move is a swap |
| HierarchyMove.MovePermutes | components/content/ContentHierarchy.tsx:317-324 | apart from orders, a move is a permutation of the topics |
| HierarchyMove.MoveKeepsPositions | components/content/ContentHierarchy.tsx:317-324 | a move keeps orders equal to positions |
| HierarchyMove.UpThenDown | components/content/ContentHierarchy.tsx:302-380 | moving a topic up then down restores the list |
| HierarchyMove.DownThenUp | components/content/ContentHierarchy.tsx:302-380 | moving a topic down then up restores the list when topic ids are unique |
| HierarchyMove.MoveUpInPlace | components/content/ContentHierarchy.tsx:317-324 | the copy-swap-assign steps compute `MovedUp` |
| HierarchyMove.MoveDownInPlace | components/content/ContentHierarchy.tsx:357-364 | the copy-swap-assign steps compute `MovedDown` |
| HierarchyMove.MoveInWeek | components/content/ContentHierarchy.tsx:311-331 | only the chapter the path names is reordered |
| HierarchyMove.MoveInTerm | components/content/ContentHierarchy.tsx:307-335 | only the week the path names is rewritten |
| HierarchyMove.MoveInSubject | components/content/ContentHierarchy.tsx:303-339 | only the term the path names is rewritten |
| HierarchyMove.MoveTopic | components/content/ContentHierarchy.tsx:302-380 | every subject is related to its old self by the move relation: only the named chapter's topics move |
| HierarchyMove.WeekMovedOrdered | components/content/ContentHierarchy.tsx:311-331 | a move keeps a week's orders equal to positions |
| HierarchyMove.MoveKeepsOrders | components/content/ContentHierarchy.tsx:302-380 | moving keeps every order equal to its position |
| HierarchyRename.Rename | components/content/ContentHierarchy.tsx:393-445 | the rename keeps the number of subjects |
| HierarchyRename.TopicRenameMeetsSpec | components/content/ContentHierarchy.tsx:428-437 | a topic whose token matches takes the new title and type; others unchanged |
| HierarchyRename.ChapterRenameMeetsSpec | components/content/ContentHierarchy.tsx:421-438 | a chapter whose token matches takes the new title; otherwise its topics are searched |
| HierarchyRename.WeekRenameMeetsSpec | components/content/ContentHierarchy.tsx:414-440 | a week whose token matches takes the new title; otherwise its chapters are searched |
| HierarchyRename.TermRenameMeetsSpec | components/content/ContentHierarchy.tsx:407-442 | a term whose token matches takes the new title; otherwise its weeks are searched |
| HierarchyRename.SubjectRenameMeetsSpec | components/content/ContentHierarchy.tsx:395-444 | a subject whose token matches takes name, level and board; otherwise its terms are searched |
| HierarchyRename.ChaptersUnrenamed | components/content/ContentHierarchy.tsx:414-440 | a token of a higher kind leaves chapters unchanged |
| HierarchyRename.WeeksUnrenamed | components/content/ContentHierarchy.tsx:407-442 | a token of a higher kind leaves weeks unchanged |
| HierarchyRename.RenameSpec | components/content/ContentHierarchy.tsx:390-448 | every node of the token's kind whose id prints as the token's id takes that kind's fields, and nothing else changes |
| HierarchyRename.RenameTermHitsEverySubject | components/content/ContentHierarchy.tsx:407-410 | renaming term n retitles the term n of every subject |
| HierarchyRename.RenameKeepsOrders | components/content/ContentHierarchy.tsx:390-448 | a rename keeps every order equal to its position |
| HierarchyRename.SaveWithoutTokenIsNoOp | components/content/ContentHierarchy.tsx:391 | without a token (null or empty) the tree is unchanged |
| HierarchyDelete.WeeksWithout | components/content/ContentHierarchy.tsx:467 | the weeks kept are exactly those whose id differs |
| HierarchyDelete.ChaptersWithout | components/content/ContentHierarchy.tsx:486 | the chapters kept are exactly those whose id differs |
| HierarchyDelete.TopicsWithout | components/content/ContentHierarchy.tsx:513 | the topics kept are exactly those whose id differs |
| HierarchyDelete.Delete | components/content/ContentHierarchy.tsx:458-531 | the delete keeps the number of subjects |
| HierarchyDelete.DeleteNoOp | components/content/ContentHierarchy.tsx:458-531 | deleting a subject or term, or deleting without `parentIds`, changes nothing |
| HierarchyDelete.DeleteIgnoresSubjectId | components/content/ContentHierarchy.tsx:460-527 | the result does not depend on `parentIds[0]` |
| HierarchyDelete.DeleteWeekSpec | components/content/ContentHierarchy.tsx:460-473 | in every subject the term `parentIds[1]` loses the weeks with that id; nothing else changes |
| HierarchyDelete.DeleteChapterSpec | components/content/ContentHierarchy.tsx:475-496 | in every subject the week `parentIds[1..2]` leads to loses the chapters with that id; nothing else changes |
| HierarchyDelete.DeleteTopicSpec | components/content/ContentHierarchy.tsx:498-527 | in every subject the chapter `parentIds[1..3]` leads to loses the topics with that id; others keep place and order |
| HierarchyDelete.WeeksWithoutAppend | components/content/ContentHierarchy.tsx:467 | deleting weeks works piecewise, so kept weeks keep their relative order |
| HierarchyDelete.ChaptersWithoutAppend | components/content/ContentHierarchy.tsx:486 | deleting chapters works piecewise, so kept chapters keep their relative order |
| HierarchyDelete.TopicsWithoutAppend | components/content/ContentHierarchy.tsx:513 | filtering topics works piecewise, so kept topics keep their relative order |
| HierarchyDelete.TopicsWithoutAbsent | components/content/ContentHierarchy.tsx:513 | deleting an id no topic has changes nothing |
| HierarchyDelete.DeleteThenAddRepeatsOrder | components/content/ContentHierarchy.tsx:498-527 | delete does not renumber: deleting the first topic then adding one yields two topics with the same order |
| ContentPage.SeedChemistry | app/content/page.tsx:36-93 | Chemistry has 3 terms of 13 weeks with ids 13j+k+1 and orders 1..13; week 1 holds one chapter of 4 topics ordered 1..4 |
| ContentPage.SeedMathematics | app/content/page.tsx:102-135 | Mathematics reuses term ids 1..3 with week ids 40..78 |
| ContentPage.SeedOrdered | app/content/page.tsx:28-138 | the seed tree is ordered and week ids are unique within every term |
| ContentPage.EmptyWeeksOrdered | app/content/page.tsx:77-93 | thirteen empty weeks are ordered and have unique ids |
| ContentPage.ChemistryFirstTermOrdered | app/content/page.tsx:35-72 | Chemistry's first term is ordered and has unique week ids |
| ContentPage.FilteredContent | app/content/page.tsx:221-228 | defined when no listed item without a subject misses the search by title (the source throws there); then an item is kept iff title or subject contains the search case-insensitively, its type equals the type filter or that is 'all', and likewise its status |
| ContentPage.FilteredContentUnfiltered | app/content/page.tsx:221-228 | an empty search is always defined, and with 'all' filters every item is kept, in order |
| ContentPage.ItemOf | components/content/AddContentDialog.tsx:126-138 | the stored row keeps the record's id, title, subject, level, exam board, status and views; its type is the type chosen in the dialog, which the record carries through the spread `formData` |
| ContentPage.InitialContentSearchDefined | app/content/page.tsx:221-223 | every seed row has a subject, so any search over the seed list is defined |
| ContentPage.AddedItemFilter | app/content/page.tsx:221-228 | a record submitted without a subject makes every search its title misses throw; where the filter is defined, a dialog row that meets the search and status filter shows iff the type filter is 'all' or the type chosen in the dialog |
| ContentPage.Page.constructor | app/content/page.tsx:218-219 | the page starts with the seed content and seed subjects |
| ContentPage.Page.HandleContentAdded | app/content/page.tsx:230-232 | the row `ItemOf` makes of the dialog's record is prepended; subjects unchanged |
| ContentPage.Page.HandleSubjectAdded | app/content/page.tsx:234-236 | the new subject is appended; content unchanged |
| AddSubjectDialog.ChangeBoard | components/content/AddSubjectDialog.tsx:46-53 | checking appends the board; unchecking is the filter that drops every copy of the board and keeps the other boards in their order |
| AddSubjectDialog.ChangeBoardFromCheckBox | components/content/AddSubjectDialog.tsx:46-53 | the check box keeps the list duplicate-free, and check then uncheck restores it |
| AddSubjectDialog.TeacherAdded | components/content/AddSubjectDialog.tsx:55-68 | the list keeps every old teacher in place and grows by one iff trimmed name and e-mail are non-empty; the new last entry is the typed teacher and the input is cleared exactly then; otherwise the input is kept |
| AddSubjectDialog.AddTeacherKeepsComplete | components/content/AddSubjectDialog.tsx:55-68 | every listed teacher keeps a non-empty name and email |
| AddSubjectDialog.RemoveTeacherSpec | components/content/AddSubjectDialog.tsx:70-75 | removing index i drops exactly that teacher and keeps the others in order |
| AddSubjectDialog.SkeletonShape | components/content/AddSubjectDialog.tsx:94-128 | 3 terms with ids and orders 1..3, each with 13 empty weeks, ids 13j+k+1, orders 1..13 |
| AddSubjectDialog.SkeletonOrdered | components/content/AddSubjectDialog.tsx:94-128 | the skeleton is ordered and has unique week ids in each term |
| AddSubjectDialog.EmitSubjects | components/content/AddSubjectDialog.tsx:81-132 | one subject per board in selection order, carrying that board and id, with the form's fields, zero counters, status 'active' and the skeleton |
| AddSubjectDialog.SubmitGuard | components/content/AddSubjectDialog.tsx:320 | submit needs a board: never with none, always after checking one (given name and level), never after unchecking the only one |
| AddSubjectDialog.Dialog.constructor | components/content/AddSubjectDialog.tsx:27-41 | the form starts empty and the dialog closed |
| AddSubjectDialog.Dialog.HandleExamBoardChange | components/content/AddSubjectDialog.tsx:46-53 | boards become `ChangeBoard` of the old boards; name, description, level, icon, teachers, input and open unchanged |
| AddSubjectDialog.Dialog.AddTeacher | components/content/AddSubjectDialog.tsx:55-68 | teachers and input become `TeacherAdded` of the old ones; boards, name, description, level, icon and open unchanged |
| AddSubjectDialog.Dialog.RemoveTeacher | components/content/AddSubjectDialog.tsx:70-75 | teachers lose exactly index i; input, boards, name, description, level, icon and open unchanged |
| AddSubjectDialog.Dialog.ResetForm | components/content/AddSubjectDialog.tsx:138-153 | the form returns to its initial state |
| AddSubjectDialog.Dialog.HandleSubmit | components/content/AddSubjectDialog.tsx:77-136 | emits `NewSubject` for each selected board in order, then resets and closes |
| AddContentDialog.WeekOptionsSpec | components/content/AddContentDialog.tsx:79 | exactly "Week 1" .. "Week 13", no duplicates |
| AddContentDialog.WeekOptionsNameEmptyWeeks | components/content/AddContentDialog.tsx:79 | the options are the titles of the skeleton's weeks |
| AddContentDialog.ParsePosition | components/content/AddContentDialog.tsx:328 | the position is never 0; input that is not a number, or is 0, becomes 1 |
| AddContentDialog.ParsePositionOfNumber | components/content/AddContentDialog.tsx:328 | a positive decimal number is read back as itself |
| AddContentDialog.ParsePositionWithoutDigits | components/content/AddContentDialog.tsx:328 | input with no digits becomes 1 |
| AddContentDialog.ParsePositionOfZero | components/content/AddContentDialog.tsx:328 | "0" becomes 1 |
| AddContentDialog.FindSubject | components/content/AddContentDialog.tsx:84 | the first listed subject whose printed id is the value, or none exactly when no subject has it |
| AddContentDialog.FindTerm | components/content/AddContentDialog.tsx:95 | the first listed term whose printed id is the value, or none exactly when no term has it |
| AddContentDialog.FindWeek | components/content/AddContentDialog.tsx:105 | the first listed week whose title is the value, or none exactly when no week has it |
| AddContentDialog.FindChapter | components/content/AddContentDialog.tsx:114 | the first listed chapter whose printed id is the value, or none exactly when no chapter has it |
| AddContentDialog.DefaultPosition | components/content/AddContentDialog.tsx:112-121 | at least 1; when the chapter's orders are its positions, beyond every order in it and one past the last topic's order |
| AddContentDialog.DefaultPositionIsNextOrder | components/content/AddContentDialog.tsx:112-121 | the default position is the order the hierarchy gives a new topic there, and appending keeps orders = positions |
| AddContentDialog.Submitted | components/content/AddContentDialog.tsx:123-143 | status 'draft', views 0, the fresh id, the form; subject, level and exam board from the selected subject and term title from the selected term, each undefined without a selection; chapter is the new title when new, else the selected chapter's title |
| AddContentDialog.Dialog.constructor | components/content/AddContentDialog.tsx:55-74 | the form starts reset and the dialog closed |
| AddContentDialog.Dialog.SelectSubject | components/content/AddContentDialog.tsx:82-91 | a new subject clears term, week and chapter and resets position to 1; otherwise only the field is written |
| AddContentDialog.Dialog.SelectTerm | components/content/AddContentDialog.tsx:93-101 | a new term clears week and chapter and resets position to 1; subject, tag input, new-chapter flag and open unchanged |
| AddContentDialog.Dialog.SelectWeek | components/content/AddContentDialog.tsx:103-110 | a new week clears the chapter and resets position to 1; subject, term, tag input, new-chapter flag and open unchanged |
| AddContentDialog.Dialog.SelectChapter | components/content/AddContentDialog.tsx:112-121 | a found chapter sets the position to `DefaultPosition`; subject, term, week, tag input, new-chapter flag and open unchanged |
| AddContentDialog.Dialog.SetPosition | components/content/AddContentDialog.tsx:328 | the position becomes `ParsePosition` of the input; every other form field, the selections, tag input, new-chapter flag and open unchanged |
| AddContentDialog.Dialog.SetNewChapter | components/content/AddContentDialog.tsx:262-278 | the new-chapter flag becomes the chosen radio button's value; the form, tag input, selections and open unchanged |
| AddContentDialog.Dialog.AddTag | components/content/AddContentDialog.tsx:167-175 | tags and input become `AddTrimmedUnique` of the old ones; tags stay duplicate-free and trimmed; the rest of the form, the selections, new-chapter flag and open unchanged |
| AddContentDialog.Dialog.RemoveTag | components/content/AddContentDialog.tsx:177-182 | every equal tag is removed, the others kept in order; the rest of the form, tag input, selections, new-chapter flag and open unchanged |
| AddContentDialog.Dialog.ResetForm | components/content/AddContentDialog.tsx:145-165 | the form returns to its initial state |
| AddContentDialog.Dialog.HandleSubmit | components/content/AddContentDialog.tsx:123-143 | returns `Submitted` of the old form and selections, then resets and closes |
| AddSyllabusDialog.PaperAdded | components/syllabus/AddSyllabusDialog.tsx:69-79 | the list keeps every old paper in place and grows by one iff the name is non-blank and there is a topic; the new paper has the fresh id, the trimmed name and the topics, and the composer is reset exactly then; otherwise it is kept |
| AddSyllabusDialog.PapersWithout | components/syllabus/AddSyllabusDialog.tsx:81-83 | the papers kept are exactly those whose id differs |
| AddSyllabusDialog.PapersWithoutAppend | components/syllabus/AddSyllabusDialog.tsx:81-83 | removal works piecewise, so the remaining papers keep their order |
| AddSyllabusDialog.PaperListKeepsWellFormed | components/syllabus/AddSyllabusDialog.tsx:69-83 | adding and removing papers keeps every paper named and non-empty |
| AddSyllabusDialog.TotalTopicsAdd | components/syllabus/AddSyllabusDialog.tsx:88 | the total grows by the new paper's topic count and is never negative |
| AddSyllabusDialog.TotalTopicsAtLeastPapers | components/syllabus/AddSyllabusDialog.tsx:88 | with well-formed papers the total is at least the number of papers |
| AddSyllabusDialog.SubmitGuard | components/syllabus/AddSyllabusDialog.tsx:378 | a fresh form cannot submit; a submittable one with well-formed papers reports a topic |
| AddSyllabusDialog.YearsSpec | components/syllabus/AddSyllabusDialog.tsx:50 | ten years, strictly descending from the current one, which is the form's default |
| AddSyllabusDialog.Submitted | components/syllabus/AddSyllabusDialog.tsx:85-108 | the record's total is the sum of topic counts; papers, id and file name are copied |
| AddSyllabusDialog.Dialog.constructor | components/syllabus/AddSyllabusDialog.tsx:26-43 | the form starts empty with the current year and the dialog closed |
| AddSyllabusDialog.Dialog.AddTopicToPaper | components/syllabus/AddSyllabusDialog.tsx:52-60 | topics and input become `AddTrimmedUnique` of the old ones; paper name, papers, form and open unchanged |
| AddSyllabusDialog.Dialog.RemoveTopicFromPaper | components/syllabus/AddSyllabusDialog.tsx:62-67 | every equal topic is removed, the others kept in order; input, papers, form and open unchanged |
| AddSyllabusDialog.Dialog.AddPaper | components/syllabus/AddSyllabusDialog.tsx:69-79 | papers and current paper become `PaperAdded` of the old ones; well-formedness kept; topic input, form and open unchanged |
| AddSyllabusDialog.Dialog.RemovePaper | components/syllabus/AddSyllabusDialog.tsx:81-83 | papers with that id are removed; current paper, topic input, form and open unchanged |
| AddSyllabusDialog.Dialog.ResetForm | components/syllabus/AddSyllabusDialog.tsx:110-125 | the form returns to its initial state |
| AddSyllabusDialog.Dialog.HandleSubmit | components/syllabus/AddSyllabusDialog.tsx:85-108 | returns `Submitted` of the old form and papers, then resets and closes |
| AddTextbookDialog.Submitted | components/textbooks/AddTextbookDialog.tsx:59-81 | id, title and authors copied; cover is the object URL when an image was chosen, else the default |
| AddTextbookDialog.YearsSpec | components/textbooks/AddTextbookDialog.tsx:39-40 | fifty years, strictly descending from the current one |
| AddTextbookDialog.SubmitGuard | components/textbooks/AddTextbookDialog.tsx:294 | a fresh form cannot submit; a submitted book always names an author |
| AddTextbookDialog.Dialog.constructor | components/textbooks/AddTextbookDialog.tsx:19-33 | the form starts empty with the current year and the dialog closed |
| AddTextbookDialog.Dialog.AddAuthor | components/textbooks/AddTextbookDialog.tsx:42-50 | authors and input become `AddTrimmedUnique` of the old ones; authors stay duplicate-free and trimmed; the rest of the form and open unchanged |
| AddTextbookDialog.Dialog.RemoveAuthor | components/textbooks/AddTextbookDialog.tsx:52-57 | every equal author is removed, the others kept in order; the rest of the form, input and open unchanged |
| AddTextbookDialog.Dialog.HandleSubmit | components/textbooks/AddTextbookDialog.tsx:59-81 | returns `Submitted` of the old form, then resets and closes |
| AddTextbookDialog.Dialog.ResetForm | components/textbooks/AddTextbookDialog.tsx:83-98 | the form returns to its initial state and the author input is cleared |
| UploadMediaDialog.GetFileType | components/content/UploadMediaDialog.tsx:40-44 | 'video' iff the MIME type starts with "video/", else 'image' iff "image/", else 'pdf' |
| UploadMediaDialog.LastDot | components/content/UploadMediaDialog.tsx:71 | the index of the last '.', or -1 when there is none |
| UploadMediaDialog.Extension | components/content/UploadMediaDialog.tsx:71 | the dot-free suffix after the last '.', or the whole name when there is none |
| UploadMediaDialog.Format | components/content/UploadMediaDialog.tsx:71 | the upper-cased extension, or 'UNKNOWN' when it is empty |
| UploadMediaDialog.FormatCases | components/content/UploadMediaDialog.tsx:71 | a name without a dot gives the whole name upper-cased; a trailing dot gives 'UNKNOWN' |
| UploadMediaDialog.MediaRecordFor | components/content/UploadMediaDialog.tsx:66-83 | the record carries the file's name, type and format, the form's fields, 'published' and 0 views |
| UploadMediaDialog.MediaItems | components/content/UploadMediaDialog.tsx:66-83 | one record per file |
| UploadMediaDialog.MediaItemsSpec | components/content/UploadMediaDialog.tsx:66-83 | record i has id now+i, file i's name, type and format, the form's subject, level and exam board, 'published', 0 views; ids pairwise distinct |
| UploadMediaDialog.Dialog.constructor | components/content/UploadMediaDialog.tsx:19-28 | no files, an empty form, the dialog closed and not uploading |
| UploadMediaDialog.Dialog.HandleFileSelect | components/content/UploadMediaDialog.tsx:46-49 | the new files are appended after the old ones; form, open, uploading and progress unchanged |
| UploadMediaDialog.Dialog.RemoveFile | components/content/UploadMediaDialog.tsx:51-53 | exactly index i is removed; form, open, uploading and progress unchanged |
| UploadMediaDialog.Dialog.HandleSubmit | components/content/UploadMediaDialog.tsx:55-99 | with no files nothing changes; otherwise returns `MediaItems` and resets and closes |
| UsersPage.FilteredUsers | app/users/page.tsx:103-111 | a user is kept iff name, email or school contains the search and level and board match or are 'all' |
| UsersPage.FilteredUsersUnfiltered | app/users/page.tsx:103-111 | with no search and 'all' filters every user is kept |
| UsersPage.ApplyUserAction | app/users/page.tsx:113-130 | an action never lengthens the list |
| UsersPage.StatusActionSpec | app/users/page.tsx:113-120 | 'suspend'/'activate' set the target's status; every other user is unchanged |
| UsersPage.DeleteActionSpec | app/users/page.tsx:121-129 | 'delete' keeps exactly the other users, in order |
| UsersPage.ActionNoOp | app/users/page.tsx:113-130 | an unknown action, or an absent id, changes nothing |
| UsersPage.MenuSpec | app/users/page.tsx:312-328 | Suspend only for active users, Activate only for suspended ones, neither for inactive; each undoes the other |
| UsersPage.SuspendThenActivate | app/users/page.tsx:113-120 | suspending then activating an active user restores the list |
| UsersPage.Page.constructor | app/users/page.tsx:34-83 | the page starts with the seed users |
| UsersPage.Page.HandleUserAction | app/users/page.tsx:113-130 | users become `ApplyUserAction` of the old users |
| TextbooksPage.FilteredTextbooks | app/textbooks/page.tsx:95-103 | a book is kept iff title, some author or publisher contains the search and subject and level match or are 'all' |
| TextbooksPage.FilteredTextbooksUnfiltered | app/textbooks/page.tsx:95-103 | with no search and 'all' filters every book is kept |
| TextbooksPage.DerivedListsSpec | app/textbooks/page.tsx:92 | subjects are duplicate-free and are exactly the books' subjects; the publisher count is the number of distinct publishers |
| TextbooksPage.TextbooksWithout | app/textbooks/page.tsx:117-119 | the books kept are exactly those whose id differs |
| TextbooksPage.TextbooksWithoutAppend | app/textbooks/page.tsx:117-119 | deletion works piecewise, so the remaining books keep their order |
| TextbooksPage.DeleteAfterAdd | app/textbooks/page.tsx:105-119 | deleting a just-added book with a fresh id restores the list |
| TextbooksPage.Page.constructor | app/textbooks/page.tsx:32-78 | the page starts with the seed books |
| TextbooksPage.Page.HandleTextbookAdded | app/textbooks/page.tsx:105-107 | the new book is prepended |
| TextbooksPage.Page.HandleDeleteTextbook | app/textbooks/page.tsx:117-119 | books with that id are removed |
| PastPapersPage.FilteredPapers | app/past-papers/page.tsx:101-109 | a paper is kept iff subject or type contains the search and subject, level and printed year match or are 'all' |
| PastPapersPage.FilterByYear | app/past-papers/page.tsx:101-109 | selecting a printed year keeps exactly the papers of that year |
| PastPapersPage.FilteredPapersUnfiltered | app/past-papers/page.tsx:101-109 | with no search and 'all' filters every paper is kept |
| PastPapersPage.SubjectsSpec | app/past-papers/page.tsx:111 | subjects are duplicate-free and are exactly the papers' subjects |
| PastPapersPage.YearsSpec | app/past-papers/page.tsx:112 | years are strictly descending, duplicate-free and exactly the papers' years |
| PastPapersPage.TotalsAfterAdd | app/past-papers/page.tsx:153-162 | a new paper adds its downloads to the total and one to the scheme count iff it has a scheme; the count never exceeds the list |
| PastPapersPage.Page.constructor | app/past-papers/page.tsx:26-79 | the page starts with the seed papers |
| PastPapersPage.Page.HandlePaperAdded | app/past-papers/page.tsx:114-116 | the new paper is prepended |
| SyllabusPage.FilteredSyllabi | app/syllabus/page.tsx:100-107 | a syllabus is kept iff subject or overview contains the search and subject and level match or are 'all' |
| SyllabusPage.FilteredSyllabiUnfiltered | app/syllabus/page.tsx:100-107 | with no search and 'all' filters every syllabus is kept |
| SyllabusPage.SubjectsSpec | app/syllabus/page.tsx:97 | subjects are duplicate-free and are exactly the syllabi's subjects |
| SyllabusPage.SyllabiWithout | app/syllabus/page.tsx:121-123 | the syllabi kept are exactly those whose id differs |
| SyllabusPage.SyllabiWithoutAppend | app/syllabus/page.tsx:121-123 | deletion works piecewise, so the remaining syllabi keep their order |
| SyllabusPage.DeleteAfterAdd | app/syllabus/page.tsx:109-123 | deleting a just-added syllabus with a fresh id restores the list |
| SyllabusPage.Page.constructor | app/syllabus/page.tsx:32-83 | the page starts with the seed syllabi |
| SyllabusPage.Page.HandleSyllabusAdded | app/syllabus/page.tsx:109-111 | the new syllabus is prepended |
| SyllabusPage.Page.HandleDeleteSyllabus | app/syllabus/page.tsx:121-123 | syllabi with that id are removed |
| SubjectsPage.FilteredSubjects | app/content/subjects/page.tsx:102-108 | a subject is kept iff its name contains the search and level and board match or are 'all' |
| SubjectsPage.FilteredSubjectsUnfiltered | app/content/subjects/page.tsx:102-108 | with no search and 'all' filters every subject is kept |
| SubjectsPage.TotalsAfterAdd | app/content/subjects/page.tsx:152-168 | a new subject adds its enrolments and content items to the totals |
| SubjectsPage.RowsOf | app/content/subjects/page.tsx:110-112 | each emitted subject becomes its row, in order |
| SubjectsPage.NewSubjectsKeepTotals | app/content/subjects/page.tsx:152-168 | subjects emitted with zero counters leave both totals unchanged |
| SubjectsPage.Page.constructor | app/content/subjects/page.tsx:26-82 | the page starts with the seed subjects |
| SubjectsPage.Page.HandleSubjectAdded | app/content/subjects/page.tsx:110-112 | the new subject's row is prepended |
| SubjectsPage.Page.HandleSubjectsAdded | components/content/AddSubjectDialog.tsx:80-93 | one prepend per emitted subject, so the rows end up in reverse order ahead of the old ones |
| MediaPage.FilteredMedia | app/content/media/page.tsx:150-157 | an item is kept iff name or subject contains the search and type and status match or are 'all' |
| MediaPage.FilteredMediaUnfiltered | app/content/media/page.tsx:150-157 | with no search and 'all' filters every item is kept |
| MediaPage.TotalsAfterAdd | app/content/media/page.tsx:210-217 | a new item adds one to the video count iff it is a video and its views to the total; the count never exceeds the list |
| MediaPage.UploadKeepsViews | app/content/media/page.tsx:217 | uploaded items (0 views) leave the view total unchanged |
| MediaPage.Page.constructor | app/content/media/page.tsx:31-122 | the page starts with the seed items |
| MediaPage.Page.HandleMediaUploaded | app/content/media/page.tsx:164-166 | the new item is prepended |
| MediaPage.Page.HandleMediaUploads | components/content/UploadMediaDialog.tsx:85 | one prepend per uploaded item, so they end up in reverse order ahead of the old ones |
| Sidebar.ToggledSpec | components/layout/Sidebar.tsx:69-75 | the title is listed afterwards iff it was not before; other titles keep their membership |
| Sidebar.ToggleTwice | components/layout/Sidebar.tsx:69-75 | toggling twice restores membership, and the list itself when the title was absent |
| Sidebar.ToggleKeepsNoDuplicates | components/layout/Sidebar.tsx:69-75 | toggling keeps the list duplicate-free |
| Sidebar.IsActiveSpec | components/layout/Sidebar.tsx:78-83 | '/' is active only on '/'; any other href is active on every path it prefixes |
| Sidebar.InitialChildren | components/layout/Sidebar.tsx:152 | initially only Content shows its children; a collapsed sidebar shows none |
| Sidebar.Navigation.constructor | components/layout/Sidebar.tsx:66 | only 'Content' is expanded at first |
| Sidebar.Navigation.ToggleExpanded | components/layout/Sidebar.tsx:69-75 | the list becomes `Toggled` of the old one and stays duplicate-free |
| Auth.RoleOf | lib/auth.ts:100-106 | a role exists iff there is a user with a profile |
| Auth.RoleTestsSpec | lib/auth.ts:100-106 | isAdmin iff the role is admin or super admin; isSuperAdmin iff super admin; the latter implies the former; no user or profile means neither |
| Strings.TrimIdempotent | components/content/AddContentDialog.tsx:168 | trimming twice is trimming once |
| Strings.IntToStringInjective | app/past-papers/page.tsx:108 | different numbers print differently |
| Strings.ParseIntOfNatToString | components/content/AddContentDialog.tsx:328 | `parseInt` reads back a printed natural number |
| Strings.EmptySearchMatches | app/content/page.tsx:222-223 | the empty search matches every field |
| Seqs.AddTrimmedUnique | components/content/AddContentDialog.tsx:167-175 | the old list stays a prefix and grows by one iff the trimmed input is non-empty and not yet listed; the new entry is the trimmed input and the input is cleared exactly then, otherwise kept; a non-blank trimmed input is listed afterwards |
| Seqs.AddTrimmedUniqueKeepsInvariant | components/content/AddContentDialog.tsx:167-175 | the list stays duplicate-free and made of trimmed non-empty entries |
| Seqs.AddTrimmedUniqueTwice | components/textbooks/AddTextbookDialog.tsx:42-50 | adding the same input twice adds it once |
| Seqs.AddThenRemove | components/syllabus/AddSyllabusDialog.tsx:52-67 | removing what was just added restores the list |
| Seqs.RemoveAll | components/content/AddContentDialog.tsx:177-182 | the result is the filter `y => y !== x` of the list: the value is gone and every other element stays, in its order |
| Seqs.RemoveAt | components/content/UploadMediaDialog.tsx:51-53 | exactly index i is dropped and the rest keep their order; an index out of range changes nothing |
| Seqs.DistinctFirstAppearance | app/textbooks/page.tsx:92 | `[...new Set(s)]` is duplicate-free, has exactly the elements of s, and lists them in order of first appearance: the result for any prefix of s is a prefix of the result for s |
| Seqs.DistinctMapSpec | app/textbooks/page.tsx:157 | the distinct projections are exactly the values taken, and their number is the size of that set |
| Seqs.SortDescending | app/past-papers/page.tsx:112 | a descending permutation of the input |
| Seqs.SortDescendingStrict | app/past-papers/page.tsx:112 | sorting a duplicate-free list gives a strictly descending one |
| Seqs.SumOfAppend | app/content/subjects/page.tsx:152 | a sum over a concatenation is the sum of the sums |
| Seqs.Reversed | components/content/UploadMediaDialog.tsx:85 | element i of the result is element n-1-i of the input |

## Left out

- Database and network access (the `lib/api` layer, the database client), session handling and every `render*` function are outside the model. The model also omits the in-place sort of child lists by `order` during rendering; `TreeOrdered`, proved to hold for the seed data and kept by every handler except delete, stands in for it. After a delete the two can differ in what is shown: with topics ordered 1, 2, 3, deleting the first two and adding one leaves orders [3, 2] (`DeleteThenAddRepeatsOrder`). The source's render then sorts the state list to [2, 3]; the model keeps [3, 2].
- Clock readings and random ids: `Date.now()` is a parameter. The fresh-id values `Date.now() + Math.random()` are ints the caller supplies. The random pdf page count becomes an absent value.
- `addedDate`, `uploadedAt` and `lastUpdated` are ISO date strings from the clock. They are left out of the records.
- Floating point and locale formatting: the media page's `totalSize`, the average completion rate and the marking-scheme coverage percentage are left out, and so are MB size strings and `toLocaleString`/`toLocaleDateString`. The records' `size` fields are left out too.
- The simulated upload progress loop and its timers are left out; `UploadMediaDialog.Dialog.HandleSubmit` goes straight to the finished state.
- React effect ordering: the AddContentDialog effects are modelled as the step that runs right after a select changes its value.
- `URL.createObjectURL` is a parameter of `AddTextbookDialog.Dialog.HandleSubmit`. The `console.log` view and edit handlers are left out.
- Unicode case folding and Unicode whitespace: `toLowerCase`/`toUpperCase` and `trim` are modelled on ASCII letters and ASCII whitespace.
- Strings.ParseInt: reads optional leading whitespace, a sign and decimal digits. It does not model the hexadecimal `0x` prefix or digit strings that exceed the safe integer range.
- The add-item dialog's own form (AddHierarchyItemDialog.tsx) is not part of this model. `HierarchyAdd.ItemForm` is the data that dialog hands to `handleAddItem`.
- The `any`-typed records passed between components are modelled as typed records; where a record can lack a field the receiving page reads, that field is optional: the content dialog's record leaves `subject`, `level`, `examBoard` and `term` undefined when nothing is selected (`ContentPage.ItemOf`). `SubjectsPage.RowOf` projects an emitted subject onto the columns the subjects page shows.
- The media page's seed items have no exam board; `examBoard` is optional in `MediaRecord`.
- UploadMediaDialog.MediaItemsSpec: states each record's id, name, type, format, status, views, subject, level and exam board. The uploader name, thumbnail and type-specific extras are stated per record only, by `UploadMediaDialog.MediaRecordFor`, which `MediaItems` applies to every file.
- HierarchyMove.MoveUpInPlace and HierarchyMove.MoveDownInPlace: the handlers' copy-swap-assign steps are proved to compute `MovedUp`/`MovedDown`, but the editor's `MoveTopicUp`/`MoveTopicDown` do not run them. The editor applies the functional `MoveTopic`, which uses `MovedUp`/`MovedDown` for every matching chapter, so the two are linked only through that equality. The model does not capture the aliasing of the source's shallow copy: `[...chapter.topics]` shares the topic objects, so the two `order` assignments also write into topics the previous state still holds.
- HierarchyEditor.Editor.ContinueChapterToNextWeek: keeping `TreeOrdered` is proved only for trees whose week ids are unique within each term, as the seed data and the skeleton are. With a repeated week id, `findIndex` and `map` can pick different weeks.
- HierarchyEditor.Editor.SaveEdit: keeping `TreeOrdered` is stated for tokens of the form `"<kind>-<id>"`, which are the only ones `startEditing` sets.
- The other exports of lib/auth.ts (sign-in, sign-out, profile fetches) are asynchronous I/O and are left out.
