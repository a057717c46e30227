/** `useCostcoItemEditor`: the inline title editor of the Costco list. Its only
    state is `editingItem`, the id and title being edited, or none. Each handler
    that may fire the update mutation takes the mutation's outcome as a
    parameter and returns the update it fires, if any. */
module CostcoItemEditor {
  import opened ListTypes
  import Text

  datatype EditingItem = EditingItem(id: string, title: string)

  /** The update `updateItemTitle(id, newTitle)` fires: the listed item with its
      title replaced by the trimmed new title. None for a blank title or an id
      that is not listed. */
  function TitleUpdate(items: seq<BaseItem>, id: string, newTitle: string): (r: Option<BaseItem>)
    ensures r.None? <==> Text.AllSpace(newTitle) || forall i :: 0 <= i < |items| ==> items[i].id != id
    ensures r.Some? ==>
              var item := FindById(items, id).value;
              && r.value.id == id
              && r.value == item.(title := Text.Trim(newTitle))
              && r.value.title != []
              && !Text.IsSpace(r.value.title[0]) && !Text.IsSpace(r.value.title[|r.value.title| - 1])
  {
    if Text.Trim(newTitle) == [] then None
    else match FindById(items, id)
      case None => None
      case Some(item) => Some(item.(title := Text.Trim(newTitle)))
  }

  class TitleEditor {
    var editingItem: Option<EditingItem>

    constructor ()
      ensures editingItem == None
    {
      editingItem := None;
    }

    /** `setEditingItem`, which the list also calls while the title is typed. */
    method SetEditingItem(e: Option<EditingItem>)
      modifies this
      ensures editingItem == e
    {
      editingItem := e;
    }

    /** `updateItemTitle(id, newTitle)`; `succeeds` is the outcome of the awaited
        mutation. Editing ends only when an update was fired and succeeded. */
    method UpdateItemTitle(items: seq<BaseItem>, id: string, newTitle: string, succeeds: bool)
      returns (update: Option<BaseItem>)
      modifies this
      ensures update == TitleUpdate(items, id, newTitle)
      ensures update.Some? && succeeds ==> editingItem == None
      ensures update.None? || !succeeds ==> editingItem == old(editingItem)
    {
      var trimmed := Text.Trim(newTitle);
      if trimmed == [] {
        return None;
      }
      var found := FindById(items, id);
      if found.None? {
        return None;
      }
      update := Some(found.value.(title := trimmed));
      if succeeds {
        editingItem := None;
      }
    }

    /** `handleKeyDown(e, id)`: Enter commits the edited title when editing,
        Escape cancels editing, any other key changes nothing. */
    method HandleKeyDown(key: string, items: seq<BaseItem>, id: string, succeeds: bool)
      returns (update: Option<BaseItem>)
      modifies this
      ensures key == "Enter" && old(editingItem).Some? ==>
                && update == TitleUpdate(items, id, old(editingItem).value.title)
                && editingItem == (if update.Some? && succeeds then None else old(editingItem))
      ensures key == "Enter" && old(editingItem).None? ==> update.None? && editingItem == old(editingItem)
      ensures key == "Escape" ==> update.None? && editingItem == None
      ensures key != "Enter" && key != "Escape" ==> update.None? && editingItem == old(editingItem)
    {
      update := None;
      if key == "Enter" {
        if editingItem.Some? {
          update := UpdateItemTitle(items, id, editingItem.value.title, succeeds);
        }
      } else if key == "Escape" {
        editingItem := None;
      }
    }

    /** `handleBlur(id)`: commits the edited title when editing. */
    method HandleBlur(items: seq<BaseItem>, id: string, succeeds: bool) returns (update: Option<BaseItem>)
      modifies this
      ensures old(editingItem).Some? ==>
                && update == TitleUpdate(items, id, old(editingItem).value.title)
                && editingItem == (if update.Some? && succeeds then None else old(editingItem))
      ensures old(editingItem).None? ==> update.None? && editingItem == old(editingItem)
    {
      update := None;
      if editingItem.Some? {
        update := UpdateItemTitle(items, id, editingItem.value.title, succeeds);
      }
    }

    /** `startEditing(item)`: begins editing the item's current title unless the
        archived items are shown. */
    method StartEditing(item: BaseItem, showArchived: bool)
      modifies this
      ensures showArchived ==> editingItem == old(editingItem)
      ensures !showArchived ==> editingItem == Some(EditingItem(item.id, item.title))
    {
      if !showArchived {
        editingItem := Some(EditingItem(item.id, item.title));
      }
    }
  }
}
