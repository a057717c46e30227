/** The tag editor of a draft item. Adding and removing a tag build a new draft
    (handed to `onPendingItemChange`); creating a tag trims the typed name,
    picks a colour and resets the dialog state. */
module EditorTags {
  import opened ListTypes
  import Text

  /** `pendingItem.tags || []`: a draft without tags has the empty list. */
  function TagsOf(p: PendingItem): (r: seq<string>)
    ensures p.tags.None? ==> r == []
    ensures p.tags.Some? ==> r == p.tags.value
  {
    p.tags.GetOr([])
  }

  predicate NoDuplicates(names: seq<string>) {
    forall i, j :: 0 <= i < j < |names| ==> names[i] != names[j]
  }

  /** `availableTags.find(t => t.id === tagId)`: the first tag carrying `tagId`. */
  function FindTag(tags: seq<Tag>, tagId: string): (r: Option<Tag>)
    ensures r.None? <==> forall i :: 0 <= i < |tags| ==> tags[i].id != tagId
    ensures r.Some? ==> exists i :: 0 <= i < |tags| && tags[i] == r.value && tags[i].id == tagId &&
                                    forall j :: 0 <= j < i ==> tags[j].id != tagId
  {
    if tags == [] then None
    else if tags[0].id == tagId then Some(tags[0])
    else
      var r := FindTag(tags[1..], tagId);
      assert r.Some? ==> exists i :: 0 <= i < |tags[1..]| && tags[1..][i] == r.value && tags[1..][i].id == tagId &&
                                     forall j :: 0 <= j < i ==> tags[1..][j].id != tagId;
      assert r.Some? ==> exists i :: 1 <= i < |tags| && tags[i] == r.value && tags[i].id == tagId &&
                                     forall j :: 0 <= j < i ==> tags[j].id != tagId;
      r
  }

  /** `names.filter(t => t !== name)`. */
  function Without(names: seq<string>, name: string): (r: seq<string>)
    ensures |r| <= |names|
    ensures forall t :: t in r <==> t in names && t != name
  {
    if names == [] then []
    else (if names[0] == name then [] else [names[0]]) + Without(names[1..], name)
  }

  /** Filtering distributes over concatenation: the kept names stay in order. */
  lemma {:induction false} WithoutConcat(a: seq<string>, b: seq<string>, name: string)
    ensures Without(a + b, name) == Without(a, name) + Without(b, name)
  {
    if a == [] {
      assert a + b == b;
    } else {
      assert (a + b)[1..] == a[1..] + b;
      WithoutConcat(a[1..], b, name);
    }
  }

  /** Filtering out a name that is absent changes nothing. */
  lemma {:induction false} WithoutAbsent(names: seq<string>, name: string)
    requires name !in names
    ensures Without(names, name) == names
  {
    if names != [] {
      WithoutAbsent(names[1..], name);
      assert names == [names[0]] + names[1..];
    }
  }

  lemma {:induction false} WithoutNoDuplicates(names: seq<string>, name: string)
    requires NoDuplicates(names)
    ensures NoDuplicates(Without(names, name))
  {
    if names != [] {
      WithoutNoDuplicates(names[1..], name);
      assert names[0] !in names[1..];
    }
  }

  /** `addTag(tagId)`: the new draft handed on, or none when nothing is handed on
      (unknown tag id, or a name the draft already has). A new name is appended
      and every other field of the draft is kept. */
  function AddTag(p: PendingItem, availableTags: seq<Tag>, tagId: string): (r: Option<PendingItem>)
    ensures r.None? <==> FindTag(availableTags, tagId).None? || FindTag(availableTags, tagId).value.name in TagsOf(p)
    ensures r.Some? ==>
              var name := FindTag(availableTags, tagId).value.name;
              && name !in TagsOf(p)
              && r.value.tags.Some?
              && TagsOf(r.value) == TagsOf(p) + [name]
              && r.value == p.(tags := r.value.tags)
  {
    match FindTag(availableTags, tagId)
    case None => None
    case Some(tag) =>
      if tag.name in TagsOf(p) then None
      else Some(p.(tags := Some(TagsOf(p) + [tag.name])))
  }

  /** `removeTag(tagName)`: every occurrence of the name is dropped, the other
      names keep their order, and every other field of the draft is kept. */
  function RemoveTag(p: PendingItem, tagName: string): (r: PendingItem)
    ensures r.tags.Some? && TagsOf(r) == Without(TagsOf(p), tagName)
    ensures tagName !in TagsOf(r)
    ensures r == p.(tags := r.tags)
  {
    p.(tags := Some(Without(TagsOf(p), tagName)))
  }

  /** Adding keeps a duplicate-free tag list duplicate-free. */
  lemma AddTagKeepsNoDuplicates(p: PendingItem, availableTags: seq<Tag>, tagId: string)
    requires NoDuplicates(TagsOf(p))
    ensures AddTag(p, availableTags, tagId).Some? ==> NoDuplicates(TagsOf(AddTag(p, availableTags, tagId).value))
  {
    var r := AddTag(p, availableTags, tagId);
    if r.Some? {
      var s := TagsOf(p);
      var t := TagsOf(r.value);
      forall i, j | 0 <= i < j < |t| ensures t[i] != t[j] {
        if j == |s| { assert t[i] == s[i]; }
      }
    }
  }

  /** Removing keeps a duplicate-free tag list duplicate-free. */
  lemma RemoveTagKeepsNoDuplicates(p: PendingItem, tagName: string)
    requires NoDuplicates(TagsOf(p))
    ensures NoDuplicates(TagsOf(RemoveTag(p, tagName)))
  {
    WithoutNoDuplicates(TagsOf(p), tagName);
  }

  /** Adding a tag and then removing its name restores the original tag list. */
  lemma AddThenRemove(p: PendingItem, availableTags: seq<Tag>, tagId: string)
    requires AddTag(p, availableTags, tagId).Some?
    ensures var name := FindTag(availableTags, tagId).value.name;
            RemoveTag(AddTag(p, availableTags, tagId).value, name) == p.(tags := Some(TagsOf(p)))
  {
    var name := FindTag(availableTags, tagId).value.name;
    WithoutConcat(TagsOf(p), [name], name);
    WithoutAbsent(TagsOf(p), name);
    assert Without([name], name) == [] + Without([], name);
    var q := AddTag(p, availableTags, tagId).value;
    assert q == p.(tags := Some(TagsOf(p) + [name]));
    assert Without(TagsOf(q), name) == TagsOf(p);
  }

  /** The palette `handleCreateTag` picks from. */
  const TagColors: seq<string> :=
    ["bg-red-500", "bg-blue-500", "bg-green-500", "bg-yellow-500", "bg-purple-500", "bg-pink-500", "bg-indigo-500"]

  /** The tag `handleCreateTag` asks `createTag` to create. */
  datatype NewTag = NewTag(name: string, color: string)

  /** The dialog state of the tag editor: the typed name and whether the
      create-tag dialog is open. */
  class TagDialog {
    var newTagName: string
    var isAddingTag: bool

    constructor ()
      ensures newTagName == "" && !isAddingTag
    {
      newTagName := "";
      isAddingTag := false;
    }

    method SetNewTagName(value: string)
      modifies this
      ensures newTagName == value && isAddingTag == old(isAddingTag)
    {
      newTagName := value;
    }

    method SetIsAddingTag(open: bool)
      modifies this
      ensures isAddingTag == open && newTagName == old(newTagName)
    {
      isAddingTag := open;
    }

    /** `handleCreateTag()`. `colorIndex` is `Math.floor(Math.random() * 7)`. A
        blank name changes nothing and creates nothing; otherwise the trimmed
        name is created and the dialog is reset and closed. */
    method HandleCreateTag(colorIndex: nat) returns (created: Option<NewTag>)
      requires colorIndex < |TagColors|
      modifies this
      ensures Text.AllSpace(old(newTagName)) ==>
                created.None? && newTagName == old(newTagName) && isAddingTag == old(isAddingTag)
      ensures !Text.AllSpace(old(newTagName)) ==>
                && created == Some(NewTag(Text.Trim(old(newTagName)), TagColors[colorIndex]))
                && created.value.name != []
                && newTagName == "" && !isAddingTag
    {
      var name := Text.Trim(newTagName);
      if name == [] {
        return None;
      }
      created := Some(NewTag(name, TagColors[colorIndex]));
      newTagName := "";
      isAddingTag := false;
    }
  }
}
