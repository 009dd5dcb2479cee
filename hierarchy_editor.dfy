/**
  * The `ContentHierarchy` component: the tree it edits and the edit state it
  * keeps, with one method per handler. Each handler replaces `subjects` with
  * the tree the matching function of the other hierarchy modules computes.
  */
module HierarchyEditor {
  import opened Optional
  import opened HierarchyTree
  import HierarchyToggle
  import HierarchyAdd
  import HierarchyMove
  import HierarchyRename
  import HierarchyDelete

  /** The initial state: the caller's subjects, each marked expanded. */
  function Expand(initial: seq<Subject>): (r: seq<Subject>)
    ensures |r| == |initial|
    ensures forall i :: 0 <= i < |r| ==>
      Expanded(r[i].isExpanded) && r[i].(isExpanded := initial[i].isExpanded) == initial[i]
  {
    seq(|initial|, i requires 0 <= i < |initial| => initial[i].(isExpanded := Some(true)))
  }

  /** Expanding the subjects keeps every `order` equal to its position. */
  lemma ExpandKeepsOrders(initial: seq<Subject>)
    requires TreeOrdered(initial)
    ensures TreeOrdered(Expand(initial))
  {
    var r := Expand(initial);
    forall i | 0 <= i < |r| ensures SubjectOrdered(r[i]) {
      assert r[i].terms == initial[i].terms;
      assert SubjectOrdered(initial[i]);
    }
  }

  /** `value || ''` for an optional string argument. */
  function OrEmpty(value: Option<string>): (r: string)
    ensures value.Some? ==> r == value.value
    ensures value.None? ==> r == ""
  {
    if value.Some? then value.value else ""
  }

  class Editor {
    var subjects: seq<Subject>
    var editingItem: Option<string>
    var editValue: string
    var editLevel: string
    var editExamBoard: string
    var editTopicType: string
    var addDialogOpen: bool
    var addDialogType: HierarchyAdd.AddKind
    var addDialogContext: HierarchyAdd.AddContext

    /** The edit fields a save writes into the tree. */
    function Values(): HierarchyRename.EditValues
      reads this
    {
      HierarchyRename.EditValues(editValue, editLevel, editExamBoard, editTopicType)
    }

    /** No edit is in progress and every edit field is empty. */
    predicate NotEditing()
      reads this
    {
      editingItem == None && editValue == "" && editLevel == "" && editExamBoard == "" && editTopicType == ""
    }

    constructor(initialSubjects: seq<Subject>)
      ensures subjects == Expand(initialSubjects)
      ensures NotEditing()
      ensures !addDialogOpen && addDialogType == HierarchyAdd.AddWeek
      ensures addDialogContext == HierarchyAdd.AddContext(0, None, None, None)
    {
      subjects := Expand(initialSubjects);
      editingItem := None;
      editValue := "";
      editLevel := "";
      editExamBoard := "";
      editTopicType := "";
      addDialogOpen := false;
      addDialogType := HierarchyAdd.AddWeek;
      addDialogContext := HierarchyAdd.AddContext(0, None, None, None);
    }

    /** `toggleExpanded(type, id, parentIds)` */
    method ToggleExpanded(kind: Kind, id: Key, parentIds: Option<seq<Key>>)
      modifies this
      ensures subjects == HierarchyToggle.Toggle(old(subjects), kind, id, parentIds)
      ensures TreeOrdered(old(subjects)) ==> TreeOrdered(subjects)
      ensures editingItem == old(editingItem) && Values() == old(Values())
      ensures addDialogOpen == old(addDialogOpen) && addDialogType == old(addDialogType) && addDialogContext == old(addDialogContext)
    {
      if TreeOrdered(subjects) {
        HierarchyToggle.ToggleKeepsOrders(subjects, kind, id, parentIds);
      }
      subjects := HierarchyToggle.Toggle(subjects, kind, id, parentIds);
    }

    /** `openAddDialog(type, context)` */
    method OpenAddDialog(kind: HierarchyAdd.AddKind, ctx: HierarchyAdd.AddContext)
      modifies this
      ensures addDialogOpen && addDialogType == kind && addDialogContext == ctx
      ensures subjects == old(subjects) && editingItem == old(editingItem) && Values() == old(Values())
    {
      addDialogType := kind;
      addDialogContext := ctx;
      addDialogOpen := true;
    }

    /** `setAddDialogOpen`, which the dialog calls to close itself. */
    method SetAddDialogOpen(open: bool)
      modifies this
      ensures addDialogOpen == open
      ensures addDialogType == old(addDialogType) && addDialogContext == old(addDialogContext)
      ensures subjects == old(subjects) && editingItem == old(editingItem) && Values() == old(Values())
    {
      addDialogOpen := open;
    }

    /** `handleAddItem(data)`, for the kind and place the dialog was opened with; `now` stands for `Date.now()`. */
    method HandleAddItem(form: HierarchyAdd.ItemForm, now: nat)
      modifies this
      ensures subjects == HierarchyAdd.AddItem(old(subjects), addDialogType, addDialogContext, form, now)
      ensures subjects == old(subjects) <==> !HierarchyAdd.Reaches(old(subjects), addDialogType, addDialogContext)
      ensures TreeOrdered(old(subjects)) ==> TreeOrdered(subjects)
      ensures addDialogOpen == old(addDialogOpen) && addDialogType == old(addDialogType) && addDialogContext == old(addDialogContext)
      ensures editingItem == old(editingItem) && Values() == old(Values())
    {
      HierarchyAdd.AddChangesIffReached(subjects, addDialogType, addDialogContext, form, now);
      if TreeOrdered(subjects) {
        HierarchyAdd.AddKeepsOrders(subjects, addDialogType, addDialogContext, form, now);
      }
      subjects := HierarchyAdd.AddItem(subjects, addDialogType, addDialogContext, form, now);
    }

    /** `continueChapterToNextWeek(subjectId, termId, weekId, chapterId)`; `now` stands for `Date.now()`. */
    method ContinueChapterToNextWeek(subjectId: int, termId: int, weekId: int, chapterId: int, now: int)
      requires HierarchyAdd.ContinueAllowed(subjects, subjectId, termId, weekId)
      modifies this
      ensures subjects == HierarchyAdd.Continue(old(subjects), subjectId, termId, weekId, chapterId, now)
      ensures (TreeOrdered(old(subjects)) &&
               forall i, j :: 0 <= i < |old(subjects)| && 0 <= j < |old(subjects)[i].terms| ==>
                 UniqueWeekIds(old(subjects)[i].terms[j].weeks)) ==>
        TreeOrdered(subjects)
      ensures editingItem == old(editingItem) && Values() == old(Values())
      ensures addDialogOpen == old(addDialogOpen) && addDialogType == old(addDialogType) && addDialogContext == old(addDialogContext)
    {
      if TreeOrdered(subjects) &&
         forall i, j :: 0 <= i < |subjects| && 0 <= j < |subjects[i].terms| ==> UniqueWeekIds(subjects[i].terms[j].weeks)
      {
        HierarchyAdd.ContinueKeepsOrders(subjects, subjectId, termId, weekId, chapterId, now);
      }
      subjects := HierarchyAdd.Continue(subjects, subjectId, termId, weekId, chapterId, now);
    }

    /** `moveTopicUp(subjectId, termId, weekId, chapterId, topicId)` */
    method MoveTopicUp(path: HierarchyMove.TopicPath, topicId: string)
      modifies this
      ensures subjects == HierarchyMove.MoveTopic(old(subjects), path, topicId, HierarchyMove.Up)
      ensures TreeOrdered(old(subjects)) ==> TreeOrdered(subjects)
      ensures editingItem == old(editingItem) && Values() == old(Values())
      ensures addDialogOpen == old(addDialogOpen) && addDialogType == old(addDialogType) && addDialogContext == old(addDialogContext)
    {
      if TreeOrdered(subjects) {
        HierarchyMove.MoveKeepsOrders(subjects, path, topicId, HierarchyMove.Up);
      }
      subjects := HierarchyMove.MoveTopic(subjects, path, topicId, HierarchyMove.Up);
    }

    /** `moveTopicDown(subjectId, termId, weekId, chapterId, topicId)`; it throws when a chapter on the path lacks the topic. */
    method MoveTopicDown(path: HierarchyMove.TopicPath, topicId: string)
      requires HierarchyMove.MoveDefined(subjects, path, topicId, HierarchyMove.Down)
      modifies this
      ensures subjects == HierarchyMove.MoveTopic(old(subjects), path, topicId, HierarchyMove.Down)
      ensures TreeOrdered(old(subjects)) ==> TreeOrdered(subjects)
      ensures editingItem == old(editingItem) && Values() == old(Values())
      ensures addDialogOpen == old(addDialogOpen) && addDialogType == old(addDialogType) && addDialogContext == old(addDialogContext)
    {
      if TreeOrdered(subjects) {
        HierarchyMove.MoveKeepsOrders(subjects, path, topicId, HierarchyMove.Down);
      }
      subjects := HierarchyMove.MoveTopic(subjects, path, topicId, HierarchyMove.Down);
    }

    /** `startEditing(id, currentValue, level?, examBoard?, topicType?)` */
    method StartEditing(token: string, currentValue: string, level: Option<string>, examBoard: Option<string>, topicType: Option<string>)
      modifies this
      ensures editingItem == Some(token) && editValue == currentValue
      ensures editLevel == OrEmpty(level) && editExamBoard == OrEmpty(examBoard) && editTopicType == OrEmpty(topicType)
      ensures subjects == old(subjects)
      ensures addDialogOpen == old(addDialogOpen) && addDialogType == old(addDialogType) && addDialogContext == old(addDialogContext)
    {
      editingItem := Some(token);
      editValue := currentValue;
      editLevel := OrEmpty(level);
      editExamBoard := OrEmpty(examBoard);
      editTopicType := OrEmpty(topicType);
    }

    /** `cancelEdit()` */
    method CancelEdit()
      modifies this
      ensures NotEditing()
      ensures subjects == old(subjects)
      ensures addDialogOpen == old(addDialogOpen) && addDialogType == old(addDialogType) && addDialogContext == old(addDialogContext)
    {
      editingItem := None;
      editValue := "";
      editLevel := "";
      editExamBoard := "";
      editTopicType := "";
    }

    /**
      * `saveEdit()`: without a token it returns at once, keeping the edit
      * state; otherwise it renames every node the token names and clears
      * the edit state.
      */
    method SaveEdit()
      modifies this
      ensures subjects == HierarchyRename.SaveEdit(old(subjects), old(editingItem), old(Values()))
      ensures old(editingItem) == None || old(editingItem) == Some("") ==>
        subjects == old(subjects) && editingItem == old(editingItem) && Values() == old(Values())
      ensures old(editingItem) != None && old(editingItem) != Some("") ==> NotEditing()
      ensures TreeOrdered(old(subjects)) && (exists k, x :: old(editingItem) == Some(Token(k, x))) ==> TreeOrdered(subjects)
      ensures addDialogOpen == old(addDialogOpen) && addDialogType == old(addDialogType) && addDialogContext == old(addDialogContext)
    {
      if editingItem == None || editingItem == Some("") {
        return;
      }
      if TreeOrdered(subjects) && exists k, x :: editingItem == Some(Token(k, x)) {
        var k, x :| editingItem == Some(Token(k, x));
        HierarchyRename.RenameKeepsOrders(subjects, k, x, Values());
      }
      subjects := HierarchyRename.Rename(subjects, editingItem.value, Values());
      CancelEdit();
    }

    /** `deleteItem(type, id, parentIds)` */
    method DeleteItem(kind: Kind, id: Key, parentIds: Option<seq<Key>>)
      modifies this
      ensures subjects == HierarchyDelete.Delete(old(subjects), kind, id, parentIds)
      ensures editingItem == old(editingItem) && Values() == old(Values())
      ensures addDialogOpen == old(addDialogOpen) && addDialogType == old(addDialogType) && addDialogContext == old(addDialogContext)
    {
      subjects := HierarchyDelete.Delete(subjects, kind, id, parentIds);
    }
  }
}
