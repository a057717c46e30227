/** `useCostcoItemToggler`: an optimistic map of pending completion states that
    shadows the fetched `completed` flag while a toggle is in flight. The remote
    mutation is reduced to the events that reach the hook: the request it fires,
    its success (which schedules a delayed removal), the delayed removal firing,
    and its failure. */
module CostcoToggler {
  import opened ListTypes

  /** The payload of the toggle mutation. */
  datatype ToggleRequest = ToggleRequest(id: string, completed: bool)

  /** The mutation `toggleItem(id)` fires: the negation of the FETCHED flag of the
      first item with `id`, or none when no item carries `id`. It does not depend
      on any pending state. */
  function RequestFor(items: seq<BaseItem>, id: string): (r: Option<ToggleRequest>)
    ensures r.None? <==> forall i :: 0 <= i < |items| ==> items[i].id != id
    ensures r.Some? ==> r.value.id == id && r.value.completed == !FindById(items, id).value.completed
  {
    match FindById(items, id)
    case None => None
    case Some(item) => Some(ToggleRequest(id, !item.completed))
  }

  class Toggler {
    /** `pendingToggles`: item id to the completion state requested for it. */
    var pendingToggles: map<string, bool>
    /** The ids whose one-second removal timeout is scheduled and has not fired. */
    var timers: multiset<string>

    constructor ()
      ensures pendingToggles == map[] && timers == multiset{}
    {
      pendingToggles := map[];
      timers := multiset{};
    }

    /** `getEffectiveCompletedState`: the pending state when there is one, else
        the fetched flag. */
    function EffectiveCompleted(item: BaseItem): (b: bool)
      reads this
      ensures item.id !in pendingToggles ==> b == item.completed
    {
      if item.id in pendingToggles then pendingToggles[item.id] else item.completed
    }

    /** `toggleItem(id)` up to the point where it awaits the mutation: records the
        requested state for `id` and returns the mutation it fires. */
    method ToggleItem(items: seq<BaseItem>, id: string) returns (request: Option<ToggleRequest>)
      modifies this
      ensures request == RequestFor(items, id)
      ensures request.None? ==> pendingToggles == old(pendingToggles)
      ensures request.Some? ==> pendingToggles == old(pendingToggles)[id := request.value.completed]
      ensures request.Some? ==>
                var item := FindById(items, id).value;
                EffectiveCompleted(item) == !item.completed
      ensures forall key :: key != id ==> (key in pendingToggles <==> key in old(pendingToggles))
      ensures forall key :: key != id && key in pendingToggles ==> pendingToggles[key] == old(pendingToggles)[key]
      ensures timers == old(timers)
    {
      var found := FindById(items, id);
      if found.None? {
        request := None;
        return;
      }
      var newCompletedState := !found.value.completed;
      pendingToggles := pendingToggles[id := newCompletedState];
      request := Some(ToggleRequest(id, newCompletedState));
    }

    /** The mutation for `id` resolved: the removal of its pending entry is
        scheduled, the entry itself stays. */
    method OnToggleSucceeded(id: string)
      modifies this
      ensures pendingToggles == old(pendingToggles)
      ensures timers == old(timers) + multiset{id}
    {
      timers := timers + multiset{id};
    }

    /** The scheduled timeout for `id` fires: only the entry for `id` is removed. */
    method OnRemovalTimeout(id: string)
      requires id in timers
      modifies this
      ensures pendingToggles == old(pendingToggles) - {id}
      ensures timers == old(timers) - multiset{id}
      ensures forall item: BaseItem :: item.id == id ==> EffectiveCompleted(item) == item.completed
      ensures forall item: BaseItem :: item.id != id ==> EffectiveCompleted(item) == old(EffectiveCompleted(item))
    {
      pendingToggles := pendingToggles - {id};
      timers := timers - multiset{id};
    }

    /** The mutation for `id` failed: its entry is removed at once, so the item
        shows its fetched flag again. */
    method OnToggleFailed(id: string)
      modifies this
      ensures pendingToggles == old(pendingToggles) - {id}
      ensures timers == old(timers)
      ensures forall item: BaseItem :: item.id == id ==> EffectiveCompleted(item) == item.completed
      ensures forall item: BaseItem :: item.id != id ==> EffectiveCompleted(item) == old(EffectiveCompleted(item))
    {
      pendingToggles := pendingToggles - {id};
    }
  }

  /** Two toggles of the same item before the items are fetched again request the
      same value, so the second click repeats the first request instead of
      undoing it, and the effective state stays the negated fetched flag. */
  method ToggleTwice(t: Toggler, items: seq<BaseItem>, id: string) returns (first: Option<ToggleRequest>, second: Option<ToggleRequest>)
    modifies t
    ensures first == second == RequestFor(items, id)
    ensures first.Some? ==>
              var item := FindById(items, id).value;
              t.EffectiveCompleted(item) == !item.completed
  {
    first := t.ToggleItem(items, id);
    second := t.ToggleItem(items, id);
  }
}
