/**
 * The tag editor (TagManager.jsx): the list of `{ id, name, color }` tags,
 * edited by adding, renaming/recolouring and deleting, and the form state
 * that drives those edits.
 */
module TagManager {
  import opened Wrappers
  import opened Records

  /** The colour swatches; a reset form selects the first. */
  const Presets: seq<string> := ["#8B5CF6", "#10B981", "#3B82F6", "#F59E0B", "#EF4444", "#EC4899", "#06B6D4", "#6366F1"]

  /** The characters `String.prototype.trim` strips: white space and line terminators. */
  predicate IsJsSpace(c: char) {
    var n := c as int;
    9 <= n <= 13 || n == 0x20 || n == 0xA0 || n == 0x1680 || 0x2000 <= n <= 0x200A ||
    n == 0x2028 || n == 0x2029 || n == 0x202F || n == 0x205F || n == 0x3000 || n == 0xFEFF
  }

  /** A name made only of white space. */
  predicate Blank(s: string) {
    forall i :: 0 <= i < |s| ==> IsJsSpace(s[i])
  }

  function TrimStart(s: string): (r: string)
    ensures |r| <= |s| && r == s[|s| - |r|..]
    ensures r != [] ==> !IsJsSpace(r[0])
  {
    if s != [] && IsJsSpace(s[0]) then TrimStart(s[1..]) else s
  }

  function TrimEnd(s: string): (r: string)
    ensures |r| <= |s| && r == s[..|r|]
    ensures r != [] ==> !IsJsSpace(r[|r| - 1])
  {
    if s != [] && IsJsSpace(s[|s| - 1]) then TrimEnd(s[..|s| - 1]) else s
  }

  /** `s.trim()`. */
  function Trim(s: string): string {
    TrimEnd(TrimStart(s))
  }

  lemma {:induction false} TrimStartBlank(s: string)
    ensures TrimStart(s) == [] <==> Blank(s)
    decreases |s|
  {
    if s != [] && IsJsSpace(s[0]) {
      TrimStartBlank(s[1..]);
      assert Blank(s) <==> Blank(s[1..]) by {
        if Blank(s[1..]) {
          forall i | 0 <= i < |s|
            ensures IsJsSpace(s[i])
          {
            if i > 0 {
              assert s[i] == s[1..][i - 1];
            }
          }
        }
      }
    }
  }

  lemma {:induction false} TrimEndNotEmpty(s: string)
    requires s != []
    ensures TrimEnd(s) != [] || Blank(s)
    decreases |s|
  {
    if IsJsSpace(s[|s| - 1]) {
      var p := s[..|s| - 1];
      if p != [] {
        TrimEndNotEmpty(p);
      }
      if TrimEnd(p) == [] {
        forall i | 0 <= i < |s|
          ensures IsJsSpace(s[i])
        {
          if i < |s| - 1 {
            assert s[i] == p[i];
          }
        }
      }
    }
  }

  /** `!name.trim()` holds exactly for names made only of white space. */
  lemma TrimEmptyIffBlank(s: string)
    ensures Trim(s) == "" <==> Blank(s)
  {
    TrimStartBlank(s);
    var t := TrimStart(s);
    if t != [] {
      TrimEndNotEmpty(t);
      assert !IsJsSpace(t[0]);
    }
  }

  /** The ids of a tag list, in order. */
  function Ids(tags: seq<Tag>): (ids: seq<string>)
    ensures |ids| == |tags| && forall i :: 0 <= i < |tags| ==> ids[i] == tags[i].id
  {
    seq(|tags|, i requires 0 <= i < |tags| => tags[i].id)
  }

  /** No two tags share an id. */
  predicate UniqueIds(tags: seq<Tag>) {
    forall i, j :: 0 <= i < j < |tags| ==> tags[i].id != tags[j].id
  }

  /**
   * `handleAddTag`'s list change: a blank name changes nothing; otherwise one
   * tag with the name as typed and the selected colour goes at the end.
   */
  function AddTag(tags: seq<Tag>, id: string, name: string, color: string): (r: seq<Tag>)
    ensures Blank(name) ==> r == tags
    ensures !Blank(name) ==> |r| == |tags| + 1 && r[..|tags|] == tags && r[|tags|] == Tag(id, name, color)
  {
    if Blank(name) then tags else tags + [Tag(id, name, color)]
  }

  /** The single-tag edit of `handleUpdateTag`. */
  function Edit(t: Tag, editing: Option<string>, name: string, color: string): Tag {
    if editing == Some(t.id) then t.(name := name, color := color) else t
  }

  /**
   * `handleUpdateTag`'s list change: a blank name changes nothing; otherwise
   * exactly the tags whose id is the one being edited take the new name and
   * colour, and every id and position stays as it was.
   */
  function UpdateTag(tags: seq<Tag>, editing: Option<string>, name: string, color: string): (r: seq<Tag>)
    ensures |r| == |tags| && Ids(r) == Ids(tags)
    ensures Blank(name) ==> r == tags
    ensures forall i :: 0 <= i < |tags| && editing != Some(tags[i].id) ==> r[i] == tags[i]
    ensures !Blank(name) ==> forall i :: 0 <= i < |tags| && editing == Some(tags[i].id) ==>
              r[i] == Tag(tags[i].id, name, color)
  {
    if Blank(name) then tags
    else seq(|tags|, i requires 0 <= i < |tags| => Edit(tags[i], editing, name, color))
  }

  /** Saving the same edit twice is the same as saving it once. */
  lemma UpdateTagIdempotent(tags: seq<Tag>, editing: Option<string>, name: string, color: string)
    ensures UpdateTag(UpdateTag(tags, editing, name, color), editing, name, color) == UpdateTag(tags, editing, name, color)
  {
    var once := UpdateTag(tags, editing, name, color);
    var twice := UpdateTag(once, editing, name, color);
    assert forall i :: 0 <= i < |tags| ==> once[i].id == tags[i].id by {
      forall i | 0 <= i < |tags| ensures once[i].id == tags[i].id {
        assert Ids(once)[i] == Ids(tags)[i];
      }
    }
    assert forall i :: 0 <= i < |tags| ==> twice[i] == once[i];
  }

  /** `tags.filter(t => t.id !== id)`. */
  function RemoveTag(tags: seq<Tag>, id: string): (r: seq<Tag>)
    ensures |r| <= |tags|
    ensures forall t :: t in r <==> t in tags && t.id != id
  {
    if tags == [] then []
    else
      var rest := RemoveTag(tags[1..], id);
      assert forall t :: t in tags <==> t == tags[0] || t in tags[1..];
      if tags[0].id != id then [tags[0]] + rest else rest
  }

  /** Deleting from a list is deleting from each part, so the kept tags keep their order. */
  lemma {:induction false} RemoveTagAppend(a: seq<Tag>, b: seq<Tag>, id: string)
    ensures RemoveTag(a + b, id) == RemoveTag(a, id) + RemoveTag(b, id)
    decreases |a|
  {
    if a != [] {
      assert (a + b)[1..] == a[1..] + b;
      RemoveTagAppend(a[1..], b, id);
    } else {
      assert a + b == b;
    }
  }

  /** Deleting an id no tag has changes nothing. */
  lemma {:induction false} RemoveAbsent(tags: seq<Tag>, id: string)
    requires forall i :: 0 <= i < |tags| ==> tags[i].id != id
    ensures RemoveTag(tags, id) == tags
    decreases |tags|
  {
    if tags != [] {
      RemoveAbsent(tags[1..], id);
      assert [tags[0]] + tags[1..] == tags;
    }
  }

  /** Deleting a tag that was just added with a fresh id gives back the list. */
  lemma RemoveUndoesAdd(tags: seq<Tag>, id: string, name: string, color: string)
    requires forall i :: 0 <= i < |tags| ==> tags[i].id != id
    ensures RemoveTag(AddTag(tags, id, name, color), id) == tags
  {
    RemoveAbsent(tags, id);
    if !Blank(name) {
      RemoveTagAppend(tags, [Tag(id, name, color)], id);
      assert RemoveTag([Tag(id, name, color)], id) == [];
      assert tags + [] == tags;
    }
  }

  /** Adding with a fresh id, editing and deleting all keep ids unique. */
  lemma EditsKeepIdsUnique(tags: seq<Tag>, id: string, name: string, color: string, editing: Option<string>, gone: string)
    requires UniqueIds(tags)
    requires forall i :: 0 <= i < |tags| ==> tags[i].id != id
    ensures UniqueIds(AddTag(tags, id, name, color))
    ensures UniqueIds(UpdateTag(tags, editing, name, color))
    ensures UniqueIds(RemoveTag(tags, gone))
  {
    var u := UpdateTag(tags, editing, name, color);
    forall i, j | 0 <= i < j < |u| ensures u[i].id != u[j].id {
      assert Ids(u)[i] == Ids(tags)[i] && Ids(u)[j] == Ids(tags)[j];
    }
    RemoveKeepsUnique(tags, gone);
  }

  lemma {:induction false} RemoveKeepsUnique(tags: seq<Tag>, id: string)
    requires UniqueIds(tags)
    ensures UniqueIds(RemoveTag(tags, id))
    decreases |tags|
  {
    if tags != [] {
      var rest := RemoveTag(tags[1..], id);
      RemoveKeepsUnique(tags[1..], id);
      if tags[0].id != id {
        var r := [tags[0]] + rest;
        forall i, j | 0 <= i < j < |r| ensures r[i].id != r[j].id {
          if i == 0 {
            assert r[j] in rest;
            assert r[j] in tags[1..];
          } else {
            assert r[i] == rest[i - 1] && r[j] == rest[j - 1];
          }
        }
      }
    }
  }

  /** The editor's state, changed in place by its handlers. */
  class TagEditor {
    var tags: seq<Tag>
    var newTagName: string
    var selectedColor: string
    var editingTagId: Option<string>
    var deleteConfirmId: Option<string>

    /** The form as a reset leaves it. */
    predicate FormIsReset()
      reads this
    {
      newTagName == "" && selectedColor == Presets[0] && editingTagId.None?
    }

    constructor (initial: seq<Tag>)
      ensures tags == initial && FormIsReset() && deleteConfirmId.None?
    {
      tags := initial;
      newTagName := "";
      selectedColor := Presets[0];
      editingTagId := None;
      deleteConfirmId := None;
    }

    /** `resetForm`. */
    method ResetForm()
      modifies this
      ensures FormIsReset()
      ensures tags == old(tags) && deleteConfirmId == old(deleteConfirmId)
    {
      newTagName := "";
      selectedColor := Presets[0];
      editingTagId := None;
    }

    /** `handleAddTag`, with the id the clock would give passed in. */
    method HandleAddTag(id: string)
      modifies this
      ensures tags == AddTag(old(tags), id, old(newTagName), old(selectedColor))
      ensures Blank(old(newTagName)) ==> newTagName == old(newTagName) && selectedColor == old(selectedColor) && editingTagId == old(editingTagId)
      ensures !Blank(old(newTagName)) ==> FormIsReset()
      ensures deleteConfirmId == old(deleteConfirmId)
    {
      if Blank(newTagName) {
        return;
      }
      tags := tags + [Tag(id, newTagName, selectedColor)];
      ResetForm();
    }

    /** `handleUpdateTag`. */
    method HandleUpdateTag()
      modifies this
      ensures tags == UpdateTag(old(tags), old(editingTagId), old(newTagName), old(selectedColor))
      ensures Blank(old(newTagName)) ==> newTagName == old(newTagName) && selectedColor == old(selectedColor) && editingTagId == old(editingTagId)
      ensures !Blank(old(newTagName)) ==> FormIsReset()
      ensures deleteConfirmId == old(deleteConfirmId)
    {
      if Blank(newTagName) {
        return;
      }
      tags := UpdateTag(tags, editingTagId, newTagName, selectedColor);
      ResetForm();
    }

    /** `startEditing(tag)`: load the tag into the form and cancel any pending delete. */
    method StartEditing(tag: Tag)
      modifies this
      ensures editingTagId == Some(tag.id) && newTagName == tag.name && selectedColor == tag.color
      ensures deleteConfirmId.None? && tags == old(tags)
    {
      editingTagId := Some(tag.id);
      newTagName := tag.name;
      selectedColor := tag.color;
      deleteConfirmId := None;
    }

    /** A click on a row starts editing it unless that row is asking to confirm a delete. */
    method ClickRow(tag: Tag)
      modifies this
      ensures old(deleteConfirmId) == Some(tag.id) ==>
                tags == old(tags) && newTagName == old(newTagName) && selectedColor == old(selectedColor) &&
                editingTagId == old(editingTagId) && deleteConfirmId == old(deleteConfirmId)
      ensures old(deleteConfirmId) != Some(tag.id) ==>
                editingTagId == Some(tag.id) && newTagName == tag.name && selectedColor == tag.color &&
                deleteConfirmId.None? && tags == old(tags)
    {
      if deleteConfirmId != Some(tag.id) {
        StartEditing(tag);
      }
    }

    /** The trash button: ask to confirm deleting `id`. */
    method RequestDelete(id: string)
      modifies this
      ensures deleteConfirmId == Some(id)
      ensures tags == old(tags) && newTagName == old(newTagName) && selectedColor == old(selectedColor) && editingTagId == old(editingTagId)
    {
      deleteConfirmId := Some(id);
    }

    /** `confirmDelete(id)`: drop the tag, clear the pending delete, reset the form if it was editing that tag. */
    method ConfirmDelete(id: string)
      modifies this
      ensures tags == RemoveTag(old(tags), id) && deleteConfirmId.None?
      ensures old(editingTagId) == Some(id) ==> FormIsReset()
      ensures old(editingTagId) != Some(id) ==>
                newTagName == old(newTagName) && selectedColor == old(selectedColor) && editingTagId == old(editingTagId)
    {
      tags := RemoveTag(tags, id);
      deleteConfirmId := None;
      if editingTagId == Some(id) {
        ResetForm();
      }
    }

    /** The submit button: update while a (non-empty) id is being edited, add otherwise. */
    method Submit(id: string)
      modifies this
      ensures deleteConfirmId == old(deleteConfirmId)
      ensures !Blank(old(newTagName)) ==> FormIsReset()
      ensures Blank(old(newTagName)) ==>
                newTagName == old(newTagName) && selectedColor == old(selectedColor) && editingTagId == old(editingTagId)
      ensures old(editingTagId).Some? && old(editingTagId).value != "" ==>
                tags == UpdateTag(old(tags), old(editingTagId), old(newTagName), old(selectedColor))
      ensures !(old(editingTagId).Some? && old(editingTagId).value != "") ==>
                tags == AddTag(old(tags), id, old(newTagName), old(selectedColor))
    {
      if editingTagId.Some? && editingTagId.value != "" {
        HandleUpdateTag();
      } else {
        HandleAddTag(id);
      }
    }
  }
}
