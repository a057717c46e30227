/** The records the list screens work on: a fetched `list_items` row with its
    `item_tags` join, the flattened item the screens render, the draft of a
    new item, and a tag. */
module ListTypes {

  datatype Option<+T> = None | Some(value: T) {
    function GetOr(default: T): T {
      match this
      case Some(v) => v
      case None => default
    }
  }

  /** The list categories. The declared union has no `costco` member, although
      the Costco screen queries with that type. */
  datatype ListType = Grocery | Shopping | Watch | Read | Local | Recipe

  /** The `tags(name, color)` record nested in one `item_tags` join row. */
  datatype TagRef = TagRef(name: string, color: string)

  /** One `item_tags` join row as the query selects it. */
  datatype ItemTagRow = ItemTagRow(tagId: string, tags: TagRef)

  /** A `list_items` row as the store returns it, before its tags are flattened.
      `createdAt` is the creation time-stamp in milliseconds. */
  datatype Row = Row(
    id: string,
    url: string,
    title: string,
    description: Option<string>,
    completed: bool,
    date: Option<string>,
    notes: Option<string>,
    image: Option<string>,
    archived: bool,
    createdAt: int,
    itemTags: Option<seq<ItemTagRow>>)

  /** An item as the list screens see it: the row's fields with `tags` the names
      of its joined tags. */
  datatype BaseItem = BaseItem(
    id: string,
    url: string,
    title: string,
    description: Option<string>,
    completed: bool,
    tags: seq<string>,
    date: Option<string>,
    notes: Option<string>,
    image: Option<string>,
    archived: bool,
    createdAt: int)

  /** The draft of an item that has not been saved yet. */
  datatype PendingItem = PendingItem(
    url: string,
    title: string,
    description: Option<string>,
    tags: Option<seq<string>>,
    date: Option<string>,
    notes: Option<string>,
    image: Option<string>)

  datatype Tag = Tag(id: string, name: string, color: Option<string>)

  /** `items.find(item => item.id === id)`: the first item carrying `id`. */
  function FindById(items: seq<BaseItem>, id: string): (r: Option<BaseItem>)
    ensures r.None? <==> forall i :: 0 <= i < |items| ==> items[i].id != id
    ensures r.Some? ==> exists i :: 0 <= i < |items| && items[i] == r.value && items[i].id == id &&
                                    forall j :: 0 <= j < i ==> items[j].id != id
  {
    if items == [] then None
    else if items[0].id == id then Some(items[0])
    else
      var r := FindById(items[1..], id);
      assert r.Some? ==> exists i :: 0 <= i < |items[1..]| && items[1..][i] == r.value && items[1..][i].id == id &&
                                     forall j :: 0 <= j < i ==> items[1..][j].id != id;
      assert r.Some? ==> exists i :: 1 <= i < |items| && items[i] == r.value && items[i].id == id &&
                                     forall j :: 0 <= j < i ==> items[j].id != id;
      r
  }
}
