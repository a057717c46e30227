/** The tag registry of the local list screen: a list of tags and the typed
    name of a new one. Adding refuses a blank name and a name that an existing
    tag already has, ignoring case; removing drops the tags with an id. */
module LocalList {
  import opened ListTypes
  import Text

  /** `tags.some(tag => tag.name.toLowerCase() === name.toLowerCase())`. */
  function TagExists(tags: seq<Tag>, name: string): (b: bool)
    ensures b <==> exists t :: t in tags && Text.Lower(t.name) == Text.Lower(name)
  {
    if tags == [] then false
    else if Text.Lower(tags[0].name) == Text.Lower(name) then true
    else
      assert tags == [tags[0]] + tags[1..];
      TagExists(tags[1..], name)
  }

  /** `tags.filter(tag => tag.id !== id)`. */
  function WithoutTagId(tags: seq<Tag>, id: string): (r: seq<Tag>)
    ensures |r| <= |tags|
    ensures forall t :: t in r <==> t in tags && t.id != id
  {
    if tags == [] then []
    else (if tags[0].id == id then [] else [tags[0]]) + WithoutTagId(tags[1..], id)
  }

  /** Filtering distributes over concatenation: the kept tags stay in order. */
  lemma {:induction false} WithoutTagIdConcat(a: seq<Tag>, b: seq<Tag>, id: string)
    ensures WithoutTagId(a + b, id) == WithoutTagId(a, id) + WithoutTagId(b, id)
  {
    if a == [] {
      assert a + b == b;
    } else {
      assert (a + b)[1..] == a[1..] + b;
      WithoutTagIdConcat(a[1..], b, id);
    }
  }

  /** No two tags share a name, ignoring case. */
  ghost predicate DistinctIgnoringCase(tags: seq<Tag>) {
    forall i, j :: 0 <= i < j < |tags| ==> Text.Lower(tags[i].name) != Text.Lower(tags[j].name)
  }

  lemma {:induction false} WithoutTagIdKeepsDistinct(tags: seq<Tag>, id: string)
    requires DistinctIgnoringCase(tags)
    ensures DistinctIgnoringCase(WithoutTagId(tags, id))
  {
    if tags != [] {
      WithoutTagIdKeepsDistinct(tags[1..], id);
      var rest := WithoutTagId(tags[1..], id);
      forall j | 0 <= j < |rest| ensures Text.Lower(tags[0].name) != Text.Lower(rest[j].name) {
        var k :| 0 <= k < |tags[1..]| && tags[1..][k] == rest[j];
        assert tags[k + 1] == rest[j];
      }
      var r := WithoutTagId(tags, id);
      if tags[0].id != id {
        forall i, j | 0 <= i < j < |r| ensures Text.Lower(r[i].name) != Text.Lower(r[j].name) {
          assert r[j] == rest[j - 1];
          if i > 0 { assert r[i] == rest[i - 1]; }
        }
      }
    }
  }

  /** The tags the screen starts with. */
  const InitialTags: seq<Tag> := [
    Tag("1", "Important", Some("bg-red-500")),
    Tag("2", "Later", Some("bg-yellow-500")),
    Tag("3", "Reference", Some("bg-blue-500"))
  ]

  lemma InitialTagsDistinct()
    ensures DistinctIgnoringCase(InitialTags)
  {
    var names := [InitialTags[0].name, InitialTags[1].name, InitialTags[2].name];
    assert names[0][0] == 'I' && names[1][0] == 'L' && names[2][0] == 'R';
    forall i, j | 0 <= i < j < 3 ensures Text.Lower(names[i]) != Text.Lower(names[j]) {
      FirstLetterDiffers(names[i], names[j]);
    }
  }

  lemma FirstLetterDiffers(a: string, b: string)
    requires a != [] && b != [] && Text.LowerChar(a[0]) != Text.LowerChar(b[0])
    ensures Text.Lower(a) != Text.Lower(b)
  {
    assert Text.Lower(a)[0] != Text.Lower(b)[0];
  }

  /** The colour names a new tag's class is built from. */
  const ColorNames: seq<string> := ["red", "yellow", "blue", "green", "purple"]

  /** Which toast `addTag` ends with, if any. */
  datatype AddOutcome = Blank | AlreadyExists | Added(tag: Tag)

  class LocalTags {
    var tags: seq<Tag>
    var newTag: string

    ghost predicate Valid()
      reads this
    {
      DistinctIgnoringCase(tags)
    }

    constructor ()
      ensures Valid()
      ensures tags == InitialTags && newTag == ""
    {
      tags := InitialTags;
      newTag := "";
      InitialTagsDistinct();
    }

    method SetNewTag(value: string)
      requires Valid()
      modifies this
      ensures Valid()
      ensures newTag == value && tags == old(tags)
    {
      newTag := value;
    }

    /** `addTag()`. `freshId` is the `crypto.randomUUID()` result and
        `colorIndex` is `Math.floor(Math.random() * 5)`. */
    method AddTag(freshId: string, colorIndex: nat) returns (outcome: AddOutcome)
      requires Valid()
      requires colorIndex < |ColorNames|
      modifies this
      ensures Valid()
      ensures Text.AllSpace(old(newTag)) ==>
                outcome == Blank && tags == old(tags) && newTag == old(newTag)
      ensures !Text.AllSpace(old(newTag)) && TagExists(old(tags), Text.Trim(old(newTag))) ==>
                outcome == AlreadyExists && tags == old(tags) && newTag == old(newTag)
      ensures !Text.AllSpace(old(newTag)) && !TagExists(old(tags), Text.Trim(old(newTag))) ==>
                && outcome == Added(Tag(freshId, Text.Trim(old(newTag)), Some("bg-" + ColorNames[colorIndex] + "-500")))
                && tags == old(tags) + [outcome.tag]
                && newTag == ""
    {
      var name := Text.Trim(newTag);
      if name == [] {
        return Blank;
      }
      if TagExists(tags, name) {
        return AlreadyExists;
      }
      var tag := Tag(freshId, name, Some("bg-" + ColorNames[colorIndex] + "-500"));
      ghost var before := tags;
      tags := tags + [tag];
      newTag := "";
      outcome := Added(tag);
      forall i, j | 0 <= i < j < |tags| ensures Text.Lower(tags[i].name) != Text.Lower(tags[j].name) {
        if j == |before| {
          assert tags[i] == before[i];
        }
      }
    }

    /** `removeTag(id)`: drops every tag with `id`, keeping the others in order. */
    method RemoveTag(id: string)
      requires Valid()
      modifies this
      ensures Valid()
      ensures tags == WithoutTagId(old(tags), id) && newTag == old(newTag)
    {
      WithoutTagIdKeepsDistinct(tags, id);
      tags := WithoutTagId(tags, id);
    }
  }
}
