/** `transformAndSortItems`: flattens each row's tag join into tag names and,
    for the `local` list, orders the items by a composite comparator handed to
    a stable sort. Every other list keeps the order the store returned. */
module ListItemUtils {
  import opened ListTypes
  import Text

  /** The names of the joined tags, in join order. */
  function TagNames(rows: seq<ItemTagRow>): (names: seq<string>)
    ensures |names| == |rows|
    ensures forall i :: 0 <= i < |rows| ==> names[i] == rows[i].tags.name
  {
    if rows == [] then [] else [rows[0].tags.name] + TagNames(rows[1..])
  }

  /** One row with `tags` set to its joined tag names, or `[]` without a join. */
  function Transform(row: Row): (item: BaseItem)
    ensures row.itemTags.None? ==> item.tags == []
    ensures row.itemTags.Some? ==>
              && |item.tags| == |row.itemTags.value|
              && forall i :: 0 <= i < |item.tags| ==> item.tags[i] == row.itemTags.value[i].tags.name
    ensures item.id == row.id && item.url == row.url && item.title == row.title
    ensures item.description == row.description && item.completed == row.completed
    ensures item.date == row.date && item.notes == row.notes && item.image == row.image
    ensures item.archived == row.archived && item.createdAt == row.createdAt
  {
    BaseItem(row.id, row.url, row.title, row.description, row.completed,
             if row.itemTags.Some? then TagNames(row.itemTags.value) else [],
             row.date, row.notes, row.image, row.archived, row.createdAt)
  }

  function TransformAll(rows: seq<Row>): (items: seq<BaseItem>)
    ensures |items| == |rows|
    ensures forall i :: 0 <= i < |rows| ==> items[i] == Transform(rows[i])
  {
    if rows == [] then [] else [Transform(rows[0])] + TransformAll(rows[1..])
  }

  /** The `date` field is truthy: present and not the empty string. */
  predicate HasDate(item: BaseItem): (b: bool)
    ensures b <==> item.date.Some? && item.date.value != ""
  {
    item.date.Some? && item.date.value != ""
  }

  predicate HasTags(item: BaseItem) {
    |item.tags| > 0
  }

  /** The lower-cased first tag, the key among undated tagged items. */
  function FirstTagKey(item: BaseItem): string
    requires HasTags(item)
  {
    Text.Lower(item.tags[0])
  }

  /** The comparator of the `local` list: negative when `a` goes first. Two
      items tie exactly when they fall in the same group and agree on that
      group's keys: the date for dated items, otherwise the lower-cased first
      tag (when tagged) and `createdAt`. */
  function Compare(a: BaseItem, b: BaseItem): (r: int)
    ensures r == 0 <==>
              && Rank(a) == Rank(b)
              && (Rank(a) == 0 ==> a.date.value == b.date.value)
              && (Rank(a) == 1 ==> FirstTagKey(a) == FirstTagKey(b))
              && (Rank(a) != 0 ==> a.createdAt == b.createdAt)
  {
    if HasDate(a) && HasDate(b) then Text.Compare(a.date.value, b.date.value)
    else if HasDate(a) then -1
    else if HasDate(b) then 1
    else if HasTags(a) && !HasTags(b) then -1
    else if !HasTags(a) && HasTags(b) then 1
    else if HasTags(a) && HasTags(b) && FirstTagKey(a) != FirstTagKey(b) then
      Text.Compare(FirstTagKey(a), FirstTagKey(b))
    else b.createdAt - a.createdAt
  }

  /** The group an item falls in: dated, undated with tags, undated without. */
  function Rank(item: BaseItem): (k: nat)
    ensures k == 0 <==> HasDate(item)
    ensures k == 1 <==> !HasDate(item) && HasTags(item)
    ensures k <= 2
  {
    if HasDate(item) then 0 else if HasTags(item) then 1 else 2
  }

  /** Items of different groups are ordered by group alone. */
  lemma CompareByRank(a: BaseItem, b: BaseItem)
    ensures Rank(a) < Rank(b) ==> Compare(a, b) < 0
    ensures Rank(a) > Rank(b) ==> Compare(a, b) > 0
  {
  }

  lemma CompareAntisymmetric(a: BaseItem, b: BaseItem)
    ensures Compare(a, b) == -Compare(b, a)
  {
    if HasDate(a) && HasDate(b) {
      Text.CompareAntisymmetric(a.date.value, b.date.value);
    } else if HasTags(a) && HasTags(b) && FirstTagKey(a) != FirstTagKey(b) {
      Text.CompareAntisymmetric(FirstTagKey(a), FirstTagKey(b));
    }
  }

  lemma CompareTransitive(a: BaseItem, b: BaseItem, c: BaseItem)
    requires Compare(a, b) <= 0 && Compare(b, c) <= 0
    ensures Compare(a, c) <= 0
  {
    CompareByRank(a, b);
    CompareByRank(b, c);
    CompareByRank(a, c);
    if Rank(a) == Rank(b) == Rank(c) == 0 {
      Text.CompareTransitive(a.date.value, b.date.value, c.date.value);
    } else if Rank(a) == Rank(b) == Rank(c) == 1 {
      var ka, kb, kc := FirstTagKey(a), FirstTagKey(b), FirstTagKey(c);
      if ka != kb && kb != kc {
        Text.CompareTransitive(ka, kb, kc);
        if ka == kc {
          Text.CompareAntisymmetric(ka, kb);
        }
      } else if ka != kb {
        assert Compare(a, c) == Text.Compare(ka, kc) == Text.Compare(ka, kb);
      } else if kb != kc {
        assert Compare(a, c) == Text.Compare(ka, kc) == Text.Compare(kb, kc);
      }
    }
  }

  ghost predicate SortedBy(s: seq<BaseItem>) {
    forall i, j :: 0 <= i < j < |s| ==> Compare(s[i], s[j]) <= 0
  }

  /** The comparator is a total preorder: reflexive, total, transitive, and its
      results change sign when the arguments are swapped, which is what a sort
      comparator must satisfy for the order to be well defined. */
  lemma ComparatorIsTotalPreorder()
    ensures forall a :: Compare(a, a) == 0
    ensures forall a, b :: Compare(a, b) <= 0 || Compare(b, a) <= 0
    ensures forall a, b :: Compare(a, b) == -Compare(b, a)
    ensures forall a, b, c :: Compare(a, b) <= 0 && Compare(b, c) <= 0 ==> Compare(a, c) <= 0
  {
    forall a, b ensures Compare(a, b) == -Compare(b, a) {
      CompareAntisymmetric(a, b);
    }
    forall a, b, c | Compare(a, b) <= 0 && Compare(b, c) <= 0 ensures Compare(a, c) <= 0 {
      CompareTransitive(a, b, c);
    }
  }

  /** Inserts `x` before the first element it does not sort after. */
  function Insert(x: BaseItem, s: seq<BaseItem>): (r: seq<BaseItem>)
    ensures multiset(r) == multiset(s) + multiset{x}
    ensures |r| == |s| + 1
  {
    if s == [] then [x]
    else if Compare(x, s[0]) <= 0 then [x] + s
    else
      assert s == [s[0]] + s[1..];
      [s[0]] + Insert(x, s[1..])
  }

  /** The stable sort `Array.prototype.sort` performs with the comparator. */
  function Sort(s: seq<BaseItem>): (r: seq<BaseItem>)
    ensures multiset(r) == multiset(s)
    ensures |r| == |s|
  {
    if s == [] then []
    else
      assert s == [s[0]] + s[1..];
      Insert(s[0], Sort(s[1..]))
  }

  lemma InsertMember(x: BaseItem, s: seq<BaseItem>, y: BaseItem)
    requires y in Insert(x, s)
    ensures y == x || y in s
  {
    assert y in multiset(Insert(x, s));
  }

  lemma {:induction false} InsertSorted(x: BaseItem, s: seq<BaseItem>)
    requires SortedBy(s)
    ensures SortedBy(Insert(x, s))
  {
    if s == [] {
    } else if Compare(x, s[0]) <= 0 {
      forall j | 0 <= j < |s| ensures Compare(x, s[j]) <= 0 {
        if j > 0 { CompareTransitive(x, s[0], s[j]); }
      }
    } else {
      var rest := Insert(x, s[1..]);
      InsertSorted(x, s[1..]);
      CompareAntisymmetric(x, s[0]);
      forall j | 0 <= j < |rest| ensures Compare(s[0], rest[j]) <= 0 {
        InsertMember(x, s[1..], rest[j]);
      }
      var r := [s[0]] + rest;
      forall i, j | 0 <= i < j < |r| ensures Compare(r[i], r[j]) <= 0 {
        assert r[j] == rest[j - 1];
        if i > 0 { assert r[i] == rest[i - 1]; }
      }
    }
  }

  /** The result is ordered by the comparator. */
  lemma {:induction false} SortSorted(s: seq<BaseItem>)
    ensures SortedBy(Sort(s))
  {
    if s != [] {
      SortSorted(s[1..]);
      InsertSorted(s[0], Sort(s[1..]));
    }
  }

  /** The items of `s` that the comparator ranks equal to `k`, in `s`'s order. */
  function Block(s: seq<BaseItem>, k: BaseItem): (r: seq<BaseItem>)
    ensures |r| <= |s|
  {
    if s == [] then [] else (if Compare(s[0], k) == 0 then [s[0]] else []) + Block(s[1..], k)
  }

  lemma {:induction false} InsertStable(x: BaseItem, s: seq<BaseItem>, k: BaseItem)
    ensures Block(Insert(x, s), k) == (if Compare(x, k) == 0 then [x] else []) + Block(s, k)
  {
    if s == [] {
    } else if Compare(x, s[0]) <= 0 {
      assert ([x] + s)[1..] == s;
    } else {
      var rest := Insert(x, s[1..]);
      InsertStable(x, s[1..], k);
      assert ([s[0]] + rest)[1..] == rest;
      if Compare(x, k) == 0 && Compare(s[0], k) == 0 {
        CompareAntisymmetric(s[0], k);
        CompareTransitive(x, k, s[0]);
        assert false;
      }
    }
  }

  /** The sort is stable: items the comparator ranks equal keep their input order. */
  lemma {:induction false} SortStable(s: seq<BaseItem>, k: BaseItem)
    ensures Block(Sort(s), k) == Block(s, k)
  {
    if s != [] {
      SortStable(s[1..], k);
      InsertStable(s[0], Sort(s[1..]), k);
    }
  }

  /** `transformAndSortItems(items, listType)`. */
  function TransformAndSortItems(rows: seq<Row>, listType: ListType): (r: seq<BaseItem>)
    ensures |r| == |rows|
    ensures multiset(r) == multiset(TransformAll(rows))
    ensures listType != Local ==> r == TransformAll(rows)
    ensures listType == Local ==> SortedBy(r)
    ensures listType == Local ==> forall k :: Block(r, k) == Block(TransformAll(rows), k)
  {
    var items := TransformAll(rows);
    if listType == Local then
      SortSorted(items);
      assert forall k :: Block(Sort(items), k) == Block(items, k) by {
        forall k ensures Block(Sort(items), k) == Block(items, k) { SortStable(items, k); }
      }
      Sort(items)
    else
      items
  }

  /** For `local`, every dated item precedes every undated one. */
  lemma LocalDatedFirst(rows: seq<Row>)
    ensures var r := TransformAndSortItems(rows, Local);
            forall i, j :: 0 <= i < j < |r| && HasDate(r[j]) ==> HasDate(r[i])
  {
    var r := TransformAndSortItems(rows, Local);
    forall i, j | 0 <= i < j < |r| && HasDate(r[j]) ensures HasDate(r[i]) {
      CompareByRank(r[i], r[j]);
    }
  }

  /** For `local`, dated items are ascending by date. */
  lemma LocalDatesAscending(rows: seq<Row>)
    ensures var r := TransformAndSortItems(rows, Local);
            forall i, j :: 0 <= i < j < |r| && HasDate(r[i]) && HasDate(r[j]) ==>
              Text.Compare(r[i].date.value, r[j].date.value) <= 0
  {
  }

  /** Two dated items compare equal exactly when their dates are equal, so by
      the stability of the sort, items sharing a date keep their input order. */
  lemma DatedEquivalence(x: BaseItem, k: BaseItem)
    requires HasDate(k)
    ensures Compare(x, k) == 0 <==> HasDate(x) && x.date.value == k.date.value
  {
  }

  /** For `local`, among undated items the tagged ones come first. */
  lemma LocalTaggedFirst(rows: seq<Row>)
    ensures var r := TransformAndSortItems(rows, Local);
            forall i, j :: 0 <= i < j < |r| && !HasDate(r[i]) && HasTags(r[j]) ==> HasTags(r[i])
  {
    var r := TransformAndSortItems(rows, Local);
    forall i, j | 0 <= i < j < |r| && !HasDate(r[i]) && HasTags(r[j]) ensures HasTags(r[i]) {
      CompareByRank(r[i], r[j]);
    }
  }

  /** For `local`, undated tagged items with different lower-cased first tags are
      in the order of those tags. */
  lemma LocalFirstTagOrder(rows: seq<Row>)
    ensures var r := TransformAndSortItems(rows, Local);
            forall i, j :: 0 <= i < j < |r| && !HasDate(r[i]) && !HasDate(r[j]) &&
                           HasTags(r[i]) && HasTags(r[j]) && FirstTagKey(r[i]) != FirstTagKey(r[j]) ==>
              Text.Compare(FirstTagKey(r[i]), FirstTagKey(r[j])) < 0
  {
  }

  /** For `local`, the remaining ties among undated items are broken by the
      creation time, newest first. */
  lemma LocalNewestFirstOnTies(rows: seq<Row>)
    ensures var r := TransformAndSortItems(rows, Local);
            forall i, j :: 0 <= i < j < |r| && !HasDate(r[i]) && !HasDate(r[j]) &&
                           HasTags(r[i]) == HasTags(r[j]) &&
                           (HasTags(r[i]) ==> FirstTagKey(r[i]) == FirstTagKey(r[j])) ==>
              r[i].createdAt >= r[j].createdAt
  {
  }

  /** A `local` list holding items dated 2024-03-01 and 2024-01-15 and one
      undated item comes out as 2024-01-15, 2024-03-01, undated. */
  lemma LocalExample(march: Row, january: Row, undated: Row)
    requires march.date == Some("2024-03-01") && january.date == Some("2024-01-15") && undated.date == None
    ensures TransformAndSortItems([march, january, undated], Local) ==
            [Transform(january), Transform(march), Transform(undated)]
  {
    var m, j, u := Transform(march), Transform(january), Transform(undated);
    var rows := [march, january, undated];
    assert TransformAll(rows) == [m, j, u];
    ExampleDatesOrdered();
    SortThree(m, j, u);
  }

  lemma ExampleDatesOrdered()
    ensures Text.Compare("2024-01-15", "2024-03-01") < 0
  {
    var a, b := "2024-01-15", "2024-03-01";
    assert a[..6] == b[..6] && a[6] < b[6];
    assert a == a[..6] + a[6..] && b == b[..6] + b[6..];
    CompareAfterCommonPrefix(a[..6], a[6..], b[6..]);
  }

  lemma {:induction false} CompareAfterCommonPrefix(p: string, a: string, b: string)
    ensures Text.Compare(p + a, p + b) == Text.Compare(a, b)
  {
    if p == [] {
      assert p + a == a && p + b == b;
    } else {
      assert (p + a)[1..] == p[1..] + a && (p + b)[1..] == p[1..] + b;
      CompareAfterCommonPrefix(p[1..], a, b);
    }
  }

  lemma SortThree(m: BaseItem, j: BaseItem, u: BaseItem)
    requires Compare(j, m) < 0 && Compare(j, u) < 0 && Compare(m, u) < 0
    ensures Sort([m, j, u]) == [j, m, u]
  {
    SortCons([j, u]);
    assert [j, u][1..] == [u];
    SortCons([u]);
    assert Sort([u]) == [u];
    assert Sort([j, u]) == Insert(j, [u]) == [j, u];
    SortCons([m, j, u]);
    assert [m, j, u][1..] == [j, u];
    CompareAntisymmetric(j, m);
    assert Insert(m, [u]) == [m, u];
    assert Insert(m, [j, u]) == [j] + Insert(m, [u]);
  }

  /** One step of the sort: the head is inserted into the sorted tail. */
  lemma SortCons(s: seq<BaseItem>)
    requires s != []
    ensures Sort(s) == Insert(s[0], Sort(s[1..]))
  {
  }
}
