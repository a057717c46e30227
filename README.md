# collab-listiverse list logic in Dafny

A Dafny model of the client-side logic of a personal list manager. The app's lists are grocery, shopping, watch, read, local, recipe and Costco. The model covers five pieces:

- **`transformAndSortItems`** (`list_item_utils.dfy`) takes the rows of `list_items` as the store returns them, with their `item_tags` join.
  - It flattens each row's join into a `tags` array of tag names.
  - For the `local` list it sorts the items with a composite comparator:
    - dated items first, ascending by date;
    - then undated items with tags before undated items without;
    - then by the lower-cased first tag;
    - then newest `created_at` first.
  - Every other list keeps the order the store returned.
  - The sort is modelled as a stable insertion sort over sequences. It is proved to return a permutation of its input that is sorted by the comparator, and to keep input order among items the comparator ranks equal. The comparator is proved to be a total preorder.
- **`useCostcoItemToggler`** (`costco_toggler.dfy`) is a class holding the `pendingToggles` map. This map shadows each item's fetched `completed` flag while a toggle is in flight.
  - One method per event: the toggle itself, the mutation's success (which schedules the one-second removal), the removal timeout firing, and the mutation's failure.
- **`useCostcoItemEditor`** (`costco_item_editor.dfy`) is a class holding `editingItem`, the id and title being edited.
  - It handles start-editing, Enter, Escape, blur and the title update.
  - Handlers that may fire the update mutation take the mutation's outcome as a parameter and return the payload they fire.
- **The tag editor of a draft item** (`editor_tags.dfy`):
  - `addTag` and `removeTag` are functions from one `PendingItem` to the next.
  - `handleCreateTag` is a method on the dialog state (`newTagName`, `isAddingTag`).
- **The local list's tag registry** (`local_list.dfy`) is a class holding `tags` and `newTag`.
  - Its invariant is that tag names are pairwise distinct ignoring case. The three initial tags meet it, and `addTag` and `removeTag` keep it.

Shared records are in `types.dfy`: rows, items, drafts, tags, and the `find` by id. String helpers are in `text.dfy`:
- `trim`, over ECMAScript's whitespace and line terminators;
- ASCII lower-casing;
- a lexicographic order, which stands in for `localeCompare` and for comparing calendar dates.

Behaviour of the code worth knowing when reading the model:
- **Two toggles before a refetch.** Both toggles request `!item.completed` of the fetched item, so the second repeats the first instead of undoing it. Right after the second toggle the effective state is still the negated fetched flag (`CostcoToggler.ToggleTwice`). It stays so while the pending entry exists. Once the failure handler or the one-second removal deletes the entry, the item shows its fetched flag again.
- **Undated items in the local list.** Tag presence and the lower-cased first tag decide their order before `created_at` does.
- **Equal dates in the local list.** The comparator returns 0 for dated items with equal dates, with no `created_at` tiebreak. The stable sort then keeps the store's order, which is `created_at` descending (src/hooks/list/useListQuery.ts:28-29).
- **Failed toggles.** A failed toggle removes its pending entry at once, so the item shows its fetched flag again (`OnToggleFailed`).

## Model

| member | source | states |
|---|---|---|
| `ListTypes.FindById` | src/hooks/costco/useCostcoItemToggler.ts:15-19 | none exactly when no item has the id; otherwise an item with the id that no earlier item shares (the first match) |
| `Text.Trim` | src/components/costco/CostcoItemEditor.tsx:25 | the result is a contiguous part of the input with only whitespace cut before and after it; it neither starts nor ends with whitespace, and it is empty exactly when the input is all whitespace |
| `Text.TrimIdempotent` | src/components/costco/CostcoItemEditor.tsx:37 | trimming an already trimmed title changes nothing |
| `Text.LowerChar` | src/utils/listItemUtils.ts:25-26 | an ASCII capital becomes the small letter 32 code points above it; every other character is kept |
| `Text.Lower` | src/components/LocalList.tsx:33 | the lower-cased string has the same length, is lower-cased character by character, and holds no ASCII capital |
| `Text.LowerIdempotent` | src/utils/listItemUtils.ts:25-26 | lower-casing an already lower-cased string changes nothing |
| `Text.Compare` | src/utils/listItemUtils.ts:28 | the result is -1, 0 or 1, and 0 exactly when the strings are equal |
| `Text.CompareAntisymmetric` | src/utils/listItemUtils.ts:28 | swapping the strings negates the comparison |
| `Text.CompareTransitive` | src/utils/listItemUtils.ts:28 | the string order is transitive |
| `ListItemUtils.TagNames` | src/utils/listItemUtils.ts:7 | one name per join row, the i-th being that row's `tags.name`, in join order |
| `ListItemUtils.Transform` | src/utils/listItemUtils.ts:5-8 | `tags` is the in-order list of joined tag names, or empty without a join; every other field is copied from the row |
| `ListItemUtils.TransformAll` | src/utils/listItemUtils.ts:5-8 | one item per row, in row order, each transformed |
| `ListItemUtils.HasDate` | src/utils/listItemUtils.ts:13-17 | truthy exactly when the date is present and non-empty |
| `ListItemUtils.Compare` | src/utils/listItemUtils.ts:11-34 | two items tie exactly when they are in the same group (dated, undated tagged, undated untagged) and agree on its keys: the date for dated items, otherwise the lower-cased first tag when tagged and `created_at` |
| `ListItemUtils.CompareByRank` | src/utils/listItemUtils.ts:13-21 | a dated item sorts before an undated one, and an undated tagged item before an undated untagged one, whatever the other fields |
| `ListItemUtils.CompareAntisymmetric` | src/utils/listItemUtils.ts:11-34 | comparing b with a gives the negation of comparing a with b |
| `ListItemUtils.CompareTransitive` | src/utils/listItemUtils.ts:11-34 | if a sorts no later than b and b no later than c, then a sorts no later than c |
| `ListItemUtils.ComparatorIsTotalPreorder` | src/utils/listItemUtils.ts:11-34 | the comparator is reflexive (0 on equal items), total, sign-antisymmetric and transitive, so the sort is well defined |
| `ListItemUtils.Insert` | src/utils/listItemUtils.ts:11 | inserting adds exactly the one item to the multiset of items |
| `ListItemUtils.Sort` | src/utils/listItemUtils.ts:11 | the sorted sequence is a permutation of its input |
| `ListItemUtils.SortSorted` | src/utils/listItemUtils.ts:11-34 | every item of the sorted sequence compares no later than every item after it |
| `ListItemUtils.SortStable` | src/utils/listItemUtils.ts:11-34 | items that compare equal keep their input order (the sort is stable) |
| `ListItemUtils.TransformAndSortItems` | src/utils/listItemUtils.ts:4-38 | same length as the input and a permutation of the transformed rows; unchanged order for every list but `local`; for `local`, sorted by the comparator and stable |
| `ListItemUtils.LocalDatedFirst` | src/utils/listItemUtils.ts:16-17 | for `local`, every item with a truthy date precedes every item without one |
| `ListItemUtils.LocalDatesAscending` | src/utils/listItemUtils.ts:13-15 | for `local`, dated items are in ascending date order |
| `ListItemUtils.DatedEquivalence` | src/utils/listItemUtils.ts:13-15 | an item compares equal to a dated item exactly when it carries the same date, so with `SortStable` equal-dated items keep their input order |
| `ListItemUtils.LocalTaggedFirst` | src/utils/listItemUtils.ts:20-21 | for `local`, among undated items those with tags precede those without |
| `ListItemUtils.LocalFirstTagOrder` | src/utils/listItemUtils.ts:24-30 | for `local`, undated tagged items whose lower-cased first tags differ are in the order of those tags |
| `ListItemUtils.LocalNewestFirstOnTies` | src/utils/listItemUtils.ts:32-33 | for `local`, undated items tied on tags are in descending `created_at` order |
| `ListItemUtils.LocalExample` | src/utils/listItemUtils.ts:10-34 | items dated 2024-03-01, 2024-01-15 and undated come out as 2024-01-15, 2024-03-01, undated |
| `CostcoToggler.RequestFor` | src/hooks/costco/useCostcoItemToggler.ts:15-32 | no mutation exactly when no item has the id; otherwise the request is for the id with the negation of the fetched item's flag |
| `CostcoToggler.Toggler.constructor` | src/hooks/costco/useCostcoItemToggler.ts:11 | the pending map starts empty and no removal is scheduled |
| `CostcoToggler.Toggler.EffectiveCompleted` | src/hooks/costco/useCostcoItemToggler.ts:60-65 | without a pending entry for the item's id, the effective state is the fetched flag |
| `CostcoToggler.Toggler.ToggleItem` | src/hooks/costco/useCostcoItemToggler.ts:14-32 | an unknown id fires nothing and changes nothing; otherwise the entry for the id becomes the negated fetched flag, every other entry is kept, and the item's effective state is the negated fetched flag at once |
| `CostcoToggler.Toggler.OnToggleSucceeded` | src/hooks/costco/useCostcoItemToggler.ts:34-46 | success leaves the pending entry in place and schedules its removal |
| `CostcoToggler.Toggler.OnRemovalTimeout` | src/hooks/costco/useCostcoItemToggler.ts:40-46 | the timeout removes only the entry for its id; that item falls back to its fetched flag, every other item's effective state is unchanged |
| `CostcoToggler.Toggler.OnToggleFailed` | src/hooks/costco/useCostcoItemToggler.ts:48-57 | failure removes the entry for the id at once, so the item shows its fetched flag; other items are unaffected |
| `CostcoToggler.ToggleTwice` | src/hooks/costco/useCostcoItemToggler.ts:21-32 | two toggles before a refetch fire the same request, and the effective state stays the negated fetched flag |
| `CostcoItemEditor.TitleUpdate` | src/components/costco/CostcoItemEditor.tsx:24-38 | no update exactly when the title is blank or the id is not listed; otherwise the found item with its title replaced by the trimmed title, which is non-empty and has no outer whitespace |
| `CostcoItemEditor.TitleEditor.constructor` | src/components/costco/CostcoItemEditor.tsx:22 | nothing is being edited at first |
| `CostcoItemEditor.TitleEditor.SetEditingItem` | src/components/costco/CostcoItemEditor.tsx:79 | the setter replaces `editingItem` |
| `CostcoItemEditor.TitleEditor.UpdateItemTitle` | src/components/costco/CostcoItemEditor.tsx:24-49 | fires exactly `TitleUpdate`; editing is cleared only when an update was fired and succeeded, and is kept otherwise |
| `CostcoItemEditor.TitleEditor.HandleKeyDown` | src/components/costco/CostcoItemEditor.tsx:51-62 | Enter commits the edited title only while editing; Escape clears editing and fires nothing; other keys change nothing |
| `CostcoItemEditor.TitleEditor.HandleBlur` | src/components/costco/CostcoItemEditor.tsx:64-69 | blur commits the edited title only while editing, and changes nothing otherwise |
| `CostcoItemEditor.TitleEditor.StartEditing` | src/components/costco/CostcoItemEditor.tsx:71-75 | nothing changes while archived items are shown; otherwise the item's id and current title are being edited |
| `EditorTags.TagsOf` | src/components/list/editor/EditorTags.tsx:41 | a draft without a tag list has the empty list; otherwise its own list |
| `EditorTags.FindTag` | src/components/list/editor/EditorTags.tsx:38 | none exactly when no available tag has the id; otherwise a tag with that id that no earlier tag shares (the first match) |
| `EditorTags.Without` | src/components/list/editor/EditorTags.tsx:53 | the result holds exactly the names other than the removed one |
| `EditorTags.WithoutConcat` | src/components/list/editor/EditorTags.tsx:53 | the filter distributes over concatenation, so the kept names stay in order |
| `EditorTags.WithoutAbsent` | src/components/list/editor/EditorTags.tsx:53 | removing a name that is not there changes nothing |
| `EditorTags.AddTag` | src/components/list/editor/EditorTags.tsx:37-48 | no change exactly when the tag id is unknown or its name is already present; otherwise the name is appended after the existing tags (length grows by one) and every other draft field is kept |
| `EditorTags.RemoveTag` | src/components/list/editor/EditorTags.tsx:50-55 | every occurrence of the name is removed, the rest keep their order, missing tags count as empty, and every other draft field is kept |
| `EditorTags.AddTagKeepsNoDuplicates` | src/components/list/editor/EditorTags.tsx:41-47 | adding keeps a duplicate-free tag list duplicate-free |
| `EditorTags.RemoveTagKeepsNoDuplicates` | src/components/list/editor/EditorTags.tsx:50-55 | removing keeps a duplicate-free tag list duplicate-free |
| `EditorTags.AddThenRemove` | src/components/list/editor/EditorTags.tsx:37-55 | adding a tag and then removing its name restores the original tag list |
| `EditorTags.TagDialog.constructor` | src/components/list/editor/EditorTags.tsx:33-34 | the name starts empty and the dialog closed |
| `EditorTags.TagDialog.SetNewTagName` | src/components/list/editor/EditorTags.tsx:132 | typing replaces the name and leaves the dialog as it is |
| `EditorTags.TagDialog.SetIsAddingTag` | src/components/list/editor/EditorTags.tsx:117 | opening or closing the dialog leaves the name as it is |
| `EditorTags.TagDialog.HandleCreateTag` | src/components/list/editor/EditorTags.tsx:57-78 | a blank name creates nothing and changes nothing; otherwise the trimmed, non-empty name is created with a palette colour, the name is cleared and the dialog closed |
| `LocalList.TagExists` | src/components/LocalList.tsx:32-34 | true exactly when some tag's lower-cased name equals the lower-cased input |
| `LocalList.WithoutTagId` | src/components/LocalList.tsx:60 | the result holds exactly the tags whose id differs |
| `LocalList.WithoutTagIdConcat` | src/components/LocalList.tsx:60 | the filter distributes over concatenation, so the kept tags stay in order |
| `LocalList.WithoutTagIdKeepsDistinct` | src/components/LocalList.tsx:59-60 | removing tags keeps names pairwise distinct ignoring case |
| `LocalList.InitialTagsDistinct` | src/components/LocalList.tsx:17-21 | the three initial tags have pairwise distinct names ignoring case |
| `LocalList.LocalTags.constructor` | src/components/LocalList.tsx:17-22 | the registry starts with the three initial tags and an empty input, and its invariant holds |
| `LocalList.LocalTags.SetNewTag` | src/components/LocalList.tsx:85 | typing replaces the input and leaves the tags as they are |
| `LocalList.LocalTags.AddTag` | src/components/LocalList.tsx:29-57 | a blank input changes nothing; a name already present ignoring case changes nothing and keeps the input; otherwise exactly one tag with the trimmed name is appended and the input cleared; the invariant is kept |
| `LocalList.LocalTags.RemoveTag` | src/components/LocalList.tsx:59-65 | all tags with the id are removed, the others keep their order, and the invariant is kept |

## Left out

- Remote calls. The Supabase mutations, queries and `createTag` are not part of this model. Each handler returns the payload it would send. Where a handler awaits a result, the outcome is an input: the editor's `succeeds` parameter, and the toggler's success and failure events.
- Cache invalidation. The `invalidateQueries` call after a successful toggle refetches the items. This is outside the model.
- Timers. The one-second `setTimeout` is a scheduled event (`timers`) that fires later. Time itself is not modelled.
- Overlapping mutations. What happens between firing a mutation and its completion is not modelled, and neither is the order in which several in-flight mutations complete. A removal timeout deletes the entry for its id even if a newer toggle rewrote it; the model keeps that as written.
- Dates. `new Date(date).getTime()` differences become a lexicographic comparison of the date strings. This matches for dates in one ISO 8601 format. Differently formatted strings for the same instant, and unparsable dates (where JavaScript gets `NaN`), are not modelled. `created_at` is an integer count of milliseconds.
- Locale rules. `localeCompare` is an ordinary lexicographic order on characters. `toLowerCase` maps only the ASCII letters.
- Fields not read by these screens. The spread in `transformAndSortItems` also keeps fields such as `item_tags`, `type`, `user_id` and `updated_at`. The model's item lists only the fields the screens read.
- Missing joined tags. A join row whose nested `tags` record is null would make the flattening throw. The model's join rows always carry their tag.
- Randomness. `Math.random` colour choices and `crypto.randomUUID` ids are method parameters.
- UI output. Toasts and console logging are left out; `LocalTags.AddTag` returns which toast it would show.
- Sorting in place. `Array.prototype.sort` runs on a freshly mapped array that nothing else references. The model sorts a sequence, so the in-place update is not modelled.
- CostcoToggler.Toggler.EffectiveCompleted: its own contract states only the fallback to the fetched flag. What the pending entry makes it return is stated by the contracts of `ToggleItem`, `OnRemovalTimeout` and `OnToggleFailed`.
