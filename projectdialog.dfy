/** The project dialog: the tag list editor, and the save button whose save may wait for a
    pending tag to reach the page's tag list. The tag list belongs to the page; the dialog shows
    it and hands the page a new array for every change. The effect on the tag list runs after
    every render in which the dialog or the page handed in a new array. */
module ProjectDialog {
  import opened Types
  import opened Strings
  import opened Lists
  import opened Validates

  /** A page callback the dialog calls. */
  datatype Call = AddProjectCall | EditProjectCall | CloseCall

  /** The keys the tag input reacts to. */
  datatype Key = Enter | Backspace | OtherKey

  /** `saveProject`: the edit or the add callback, then the close callback. */
  function SaveCalls(isEdit: bool): seq<Call>
  {
    [if isEdit then EditProjectCall else AddProjectCall, CloseCall]
  }

  // ---------------------------------------------------------------------------------------------
  // The tag list

  /** No tag is blank and none occurs twice. */
  predicate CleanTags(tags: seq<string>)
  {
    && (forall i :: 0 <= i < |tags| ==> !Blank(tags[i]))
    && (forall i, j :: 0 <= i < j < |tags| ==> tags[i] != tags[j])
  }

  /** `handleAddTag`'s new tag list: the trimmed input appended when it is not empty and not
      there already; `None` when the input is rejected. */
  function AddTag(tags: seq<string>, input: string): (r: Option<seq<string>>)
    ensures r.Some? ==> r.value == tags + [Trim(input)] && Trim(input) !in tags
  {
    var t := Trim(input);
    if t != "" && t !in tags then Some(tags + [t]) else None
  }

  /** The input is accepted exactly when its trimmed text is not blank and not a tag yet. */
  lemma AddTagAccepts(tags: seq<string>, input: string)
    ensures AddTag(tags, input).Some? <==> !Blank(input) && Trim(input) !in tags
  {
    TrimEmptyIffBlank(input);
  }

  /** An accepted tag keeps the list clean. */
  lemma AddTagKeepsClean(tags: seq<string>, input: string)
    requires CleanTags(tags) && AddTag(tags, input).Some?
    ensures CleanTags(AddTag(tags, input).value)
  {
    var t := Trim(input);
    TrimSlice(input);
    assert !Blank(t) by {
      assert !IsSpace(t[0]);
    }
  }

  /** The test of `handleRemoveTag`'s filter. */
  function NotTag(tag: string): string -> bool
  {
    t => t != tag
  }

  /** `handleRemoveTag`: every entry equal to the tag goes; the rest keep their order. */
  function RemoveTag(tags: seq<string>, tag: string): (r: seq<string>)
    ensures tag !in r && forall t :: t != tag ==> (t in r <==> t in tags)
    ensures IsSubsequence(r, tags)
  {
    FilterSubsequence(tags, NotTag(tag));
    Filter(tags, NotTag(tag))
  }

  /** `tags.slice(0, -1)`: the last tag goes; an empty list stays empty. */
  function PopTag(tags: seq<string>): (r: seq<string>)
    ensures |r| == if tags == [] then 0 else |tags| - 1
    ensures r == tags[..|r|]
  {
    if tags == [] then [] else tags[..|tags| - 1]
  }

  /** Removing the tag just added gives the list back. */
  lemma RemoveUndoesAdd(tags: seq<string>, input: string)
    requires AddTag(tags, input).Some?
    ensures RemoveTag(AddTag(tags, input).value, Trim(input)) == tags
  {
    var t := Trim(input);
    FilterConcat(tags, [t], NotTag(t));
    FilterAll(tags, NotTag(t));
  }

  /** Backspace after an add gives the list back. */
  lemma PopUndoesAdd(tags: seq<string>, input: string)
    requires AddTag(tags, input).Some?
    ensures PopTag(AddTag(tags, input).value) == tags
  {
  }

  /** Removing keeps the list clean. */
  lemma RemoveKeepsClean(tags: seq<string>, tag: string)
    requires CleanTags(tags)
    ensures CleanTags(RemoveTag(tags, tag))
  {
    var r := RemoveTag(tags, tag);
    forall i | 0 <= i < |r|
      ensures !Blank(r[i])
    {
      assert r[i] in r;
    }
    assert InjectiveOn(tags, (s: string) => s);
    FilterInjective(tags, NotTag(tag), (s: string) => s);
  }

  // ---------------------------------------------------------------------------------------------
  // The save button

  /** The name field's rule: a name whose trimmed text is not empty. */
  const NameRule := ValidationRule((v: string) => |Trim(v)| > 0, "プロジェクト名は必須項目です")

  /** The save button is enabled unless the name field reports an error or the name is empty. */
  predicate SaveEnabled(hasError: bool, projectName: string)
  {
    !hasError && projectName != ""
  }

  /** With the name rule's verdict as the error flag, the button is enabled exactly for a name
      that is not blank. */
  lemma SaveEnabledIffNamed(projectName: string)
    ensures SaveEnabled(ValidateValue(projectName, [NameRule]).hasError, projectName) <==> !Blank(projectName)
  {
    TrimEmptyIffBlank(projectName);
    PassedIffAllAccept(projectName, [NameRule]);
    assert [NameRule][0] == NameRule;
  }

  /** The dialog's own state (`tagInput`, `shouldSave`), the page's tag list and edit flag as it
      shows them, and the callbacks it has called so far. The dialog stays mounted while hidden,
      so its state outlives a close. */
  class Dialog {
    var tags: seq<string>
    var tagInput: string
    var shouldSave: bool
    var calls: seq<Call>
    var isEdit: bool

    constructor (tags0: seq<string>, isEdit0: bool)
      ensures tags == tags0 && tagInput == "" && !shouldSave && calls == [] && isEdit == isEdit0
    {
      tags, tagInput, shouldSave, calls := tags0, "", false, [];
      isEdit := isEdit0;
    }

    /** The page renders with a new tag list and the edit flag `newIsEdit`: the dialog's own tag
        changes (edit flag as it was), opening the dialog on a project (`true`), or the delayed
        reset after a close (`[]` and `false`). The effect then runs a waiting save with the edit
        flag of that render. */
    method PageSetsTags(newTags: seq<string>, newIsEdit: bool)
      modifies this
      ensures tags == newTags && isEdit == newIsEdit && tagInput == old(tagInput) && !shouldSave
      ensures calls == old(calls) + if old(shouldSave) then SaveCalls(newIsEdit) else []
    {
      tags, isEdit := newTags, newIsEdit;
      if shouldSave {
        calls := calls + SaveCalls(isEdit);
        shouldSave := false;
      }
    }

    /** The cancel button: only the close callback. */
    method Cancel()
      modifies this
      ensures calls == old(calls) + [CloseCall]
      ensures tags == old(tags) && tagInput == old(tagInput) && shouldSave == old(shouldSave) && isEdit == old(isEdit)
    {
      calls := calls + [CloseCall];
    }

    /** Typing in the tag input. */
    method SetTagInput(text: string)
      modifies this
      ensures isEdit == old(isEdit)
      ensures tagInput == text && tags == old(tags) && shouldSave == old(shouldSave) && calls == old(calls)
    {
      tagInput := text;
    }

    /** `handleAddTag`: an accepted tag goes to the page and clears the input, and the effect
        then saves when a save is waiting; a rejected input changes nothing. */
    method AddTagFromInput()
      modifies this
      ensures isEdit == old(isEdit)
      ensures AddTag(old(tags), old(tagInput)).None? ==>
        tags == old(tags) && tagInput == old(tagInput) && shouldSave == old(shouldSave) && calls == old(calls)
      ensures AddTag(old(tags), old(tagInput)).Some? ==>
        && tags == AddTag(old(tags), old(tagInput)).value && tagInput == "" && !shouldSave
        && calls == old(calls) + if old(shouldSave) then SaveCalls(isEdit) else []
    {
      var added := AddTag(tags, tagInput);
      if added.Some? {
        tagInput := "";
        PageSetsTags(added.value, isEdit);
      }
    }

    /** `handleRemoveTag`: the filtered list goes to the page, always as a new array. */
    method RemoveTagAt(tag: string)
      modifies this
      ensures isEdit == old(isEdit)
      ensures tags == RemoveTag(old(tags), tag) && tagInput == old(tagInput) && !shouldSave
      ensures calls == old(calls) + if old(shouldSave) then SaveCalls(isEdit) else []
    {
      PageSetsTags(RemoveTag(tags, tag), isEdit);
    }

    /** `handleKeyDown`: Enter tries an add; Backspace on an empty input drops the last tag;
        other keys do nothing here. */
    method KeyDown(key: Key)
      modifies this
      ensures isEdit == old(isEdit)
      ensures key == Enter && AddTag(old(tags), old(tagInput)).Some? ==>
        tags == AddTag(old(tags), old(tagInput)).value && tagInput == "" && !shouldSave
      ensures key == Backspace && old(tagInput) == "" ==>
        tags == PopTag(old(tags)) && tagInput == "" && !shouldSave
      ensures (key == OtherKey || (key == Backspace && old(tagInput) != "") || (key == Enter && AddTag(old(tags), old(tagInput)).None?)) ==>
        tags == old(tags) && tagInput == old(tagInput) && shouldSave == old(shouldSave) && calls == old(calls)
      ensures calls == old(calls) +
        if old(shouldSave) && ((key == Enter && AddTag(old(tags), old(tagInput)).Some?) || (key == Backspace && old(tagInput) == ""))
        then SaveCalls(isEdit) else []
    {
      if key == Enter {
        AddTagFromInput();
      } else if key == Backspace && tagInput == "" {
        PageSetsTags(PopTag(tags), isEdit);
      }
    }

    /** `handleSave` as written: with an empty input, save now; with a pending input, try to add
        it and set `shouldSave`, so that the effect saves once the new tag list arrives. When the
        pending input is rejected no new list arrives: nothing is saved and `shouldSave` stays
        set. */
    method Save()
      modifies this
      ensures isEdit == old(isEdit)
      ensures old(tagInput) == "" ==>
        tags == old(tags) && tagInput == "" && shouldSave == old(shouldSave) && calls == old(calls) + SaveCalls(isEdit)
      ensures old(tagInput) != "" && AddTag(old(tags), old(tagInput)).Some? ==>
        tags == AddTag(old(tags), old(tagInput)).value && tagInput == "" && !shouldSave && calls == old(calls) + SaveCalls(isEdit)
      ensures old(tagInput) != "" && AddTag(old(tags), old(tagInput)).None? ==>
        tags == old(tags) && tagInput == old(tagInput) && shouldSave && calls == old(calls)
    {
      if tagInput != "" {
        var added := AddTag(tags, tagInput);
        shouldSave := true;
        if added.Some? {
          tagInput := "";
          PageSetsTags(added.value, isEdit);
        }
      } else {
        calls := calls + SaveCalls(isEdit);
      }
    }

    /** `handleSave` saving at once when the pending input is rejected: every press saves exactly
        once and leaves no save waiting. */
    method SaveFixed()
      requires !shouldSave
      modifies this
      ensures isEdit == old(isEdit)
      ensures calls == old(calls) + SaveCalls(isEdit) && !shouldSave
      ensures tags == if old(tagInput) != "" && AddTag(old(tags), old(tagInput)).Some? then AddTag(old(tags), old(tagInput)).value else old(tags)
    {
      var added := if tagInput != "" then AddTag(tags, tagInput) else None;
      if added.Some? {
        tagInput := "";
        shouldSave := true;
        PageSetsTags(added.value, isEdit);
      } else {
        calls := calls + SaveCalls(isEdit);
      }
    }
  }

  // ---------------------------------------------------------------------------------------------
  // A rejected pending tag

  /** As written: open the dialog (in either mode), press save with a pending input that is
      rejected (blank, or a tag already there), then remove any tag. The press saves nothing; the
      removal saves and closes. */
  method RejectedPendingAsWritten(tags: seq<string>, pending: string, removed: string, isEdit: bool)
    returns (afterSave: seq<Call>, afterRemove: seq<Call>)
    requires pending != "" && AddTag(tags, pending).None?
    ensures afterSave == [] && afterRemove == SaveCalls(isEdit)
  {
    var d := new Dialog(tags, isEdit);
    d.SetTagInput(pending);
    d.Save();
    afterSave := d.calls;
    d.RemoveTagAt(removed);
    afterRemove := d.calls;
  }

  /** As written: the same press, then the user clears the input and presses Backspace. The
      popped tag list reaches the page, and the waiting save goes out and closes the dialog. */
  method RejectedPendingThenBackspace(tags: seq<string>, pending: string, isEdit: bool)
    returns (afterSave: seq<Call>, afterBackspace: seq<Call>)
    requires pending != "" && AddTag(tags, pending).None?
    ensures afterSave == [] && afterBackspace == SaveCalls(isEdit)
  {
    var d := new Dialog(tags, isEdit);
    d.SetTagInput(pending);
    d.Save();
    afterSave := d.calls;
    d.SetTagInput("");
    d.KeyDown(Backspace);
    afterBackspace := d.calls;
  }

  /** As written: the same press, then the cancel button, then the page's delayed reset, which
      hands in `[]` with the edit flag cleared. The waiting save then asks the page to add a
      project, even when the dialog was opened to edit one. */
  method RejectedPendingThenCancel(tags: seq<string>, pending: string, isEdit: bool)
    returns (afterSave: seq<Call>, afterReset: seq<Call>)
    requires pending != "" && AddTag(tags, pending).None?
    ensures afterSave == [] && afterReset == [CloseCall, AddProjectCall, CloseCall]
  {
    var d := new Dialog(tags, isEdit);
    d.SetTagInput(pending);
    d.Save();
    afterSave := d.calls;
    d.Cancel();
    d.PageSetsTags([], false);
    afterReset := d.calls;
  }

  /** With the fixed save: the press saves, and neither a later removal nor the page's reset
      saves anything more. */
  method RejectedPendingFixed(tags: seq<string>, pending: string, removed: string, isEdit: bool)
    returns (afterSave: seq<Call>, afterRemove: seq<Call>, afterReset: seq<Call>)
    requires pending != "" && AddTag(tags, pending).None?
    ensures afterSave == SaveCalls(isEdit) && afterRemove == SaveCalls(isEdit) && afterReset == SaveCalls(isEdit)
  {
    var d := new Dialog(tags, isEdit);
    d.SetTagInput(pending);
    d.SaveFixed();
    afterSave := d.calls;
    d.RemoveTagAt(removed);
    afterRemove := d.calls;
    d.PageSetsTags([], false);
    afterReset := d.calls;
  }
}
