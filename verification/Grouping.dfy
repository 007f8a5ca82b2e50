/** Cutting a stream of marked items into groups: a group is closed in front of an item that opens
    the next one, once it has an item that counts. The result is the only list of groups with its
    properties. */
module Grouping {
  /** `vcl`: the item is a coded slice. `opens`: after a slice, it belongs to the next group. */
  datatype Item<T> = Item(value: T, vcl: bool, opens: bool)

  predicate HasVcl<T>(group: seq<Item<T>>) {
    exists i | 0 <= i < |group| :: group[i].vcl
  }

  /** The complete groups so far and the one being collected. */
  datatype Collected<T> = Collected(done: seq<seq<Item<T>>>, open: seq<Item<T>>)

  function Add<T>(c: Collected<T>, item: Item<T>): Collected<T> {
    if HasVcl(c.open) && item.opens then Collected(c.done + [c.open], [item])
    else Collected(c.done, c.open + [item])
  }

  function AddAll<T>(items: seq<Item<T>>): Collected<T> {
    if items == [] then Collected([], [])
    else Add(AddAll(items[..|items| - 1]), items[|items| - 1])
  }

  /** Everything collected, the last group closed too. */
  function Closed<T>(c: Collected<T>): seq<seq<Item<T>>> {
    if c.open == [] then c.done else c.done + [c.open]
  }

  function Groups<T>(items: seq<Item<T>>): seq<seq<Item<T>>> {
    Closed(AddAll(items))
  }

  function Flatten<T>(groups: seq<seq<T>>): seq<T> {
    if groups == [] then [] else Flatten(groups[..|groups| - 1]) + groups[|groups| - 1]
  }

  /** Within a group, nothing that opens one follows a slice. */
  predicate WellOrdered<T>(group: seq<Item<T>>) {
    forall i, j | 0 <= i < j < |group| && group[i].vcl :: !group[j].opens
  }

  /** One group follows another: the first has a slice, the second begins with an opening item. */
  predicate Follows<T>(a: seq<Item<T>>, b: seq<Item<T>>) {
    HasVcl(a) && b != [] && b[0].opens
  }

  predicate GroupOk<T>(groups: seq<seq<Item<T>>>, k: nat)
    requires k < |groups|
  {
    groups[k] != [] && WellOrdered(groups[k]) && (k > 0 ==> Follows(groups[k - 1], groups[k]))
  }

  predicate AllOk<T>(groups: seq<seq<Item<T>>>) {
    forall k {:trigger GroupOk(groups, k)} | 0 <= k < |groups| :: GroupOk(groups, k)
  }

  lemma HasVclSnoc<T>(group: seq<Item<T>>, item: Item<T>)
    ensures HasVcl(group + [item]) <==> HasVcl(group) || item.vcl
  {
    var longer := group + [item];
    if HasVcl(group) {
      var i :| 0 <= i < |group| && group[i].vcl;
      assert longer[i].vcl;
    }
    if item.vcl {
      assert longer[|group|].vcl;
    }
  }

  lemma WellOrderedSnoc<T>(group: seq<Item<T>>, item: Item<T>)
    ensures WellOrdered(group + [item]) <==> WellOrdered(group) && !(HasVcl(group) && item.opens)
  {
    var longer := group + [item];
    assert forall i | 0 <= i < |group| :: longer[i] == group[i];
    assert longer[|group|] == item;
  }

  lemma AllOkSnoc<T>(groups: seq<seq<Item<T>>>, group: seq<Item<T>>)
    ensures AllOk(groups + [group]) <==>
            && AllOk(groups) && group != [] && WellOrdered(group)
            && (groups != [] ==> Follows(groups[|groups| - 1], group))
  {
    var all := groups + [group];
    forall k | 0 <= k < |groups|
      ensures GroupOk(all, k) == GroupOk(groups, k)
    {
    }
    if AllOk(all) {
      assert GroupOk(all, |groups|);
      forall k | 0 <= k < |groups| ensures GroupOk(groups, k) {
        assert GroupOk(all, k);
      }
    }
  }

  lemma FlattenSnoc<T>(groups: seq<seq<T>>, group: seq<T>)
    ensures Flatten(groups + [group]) == Flatten(groups) + group
  {
    assert (groups + [group])[..|groups|] == groups;
  }

  ghost predicate CollectedOk<T>(items: seq<Item<T>>, c: Collected<T>) {
    && Flatten(c.done) + c.open == items
    && (if items == [] then c == Collected([], []) else c.open != [] && AllOk(c.done + [c.open]))
  }

  lemma AddKeeps<T>(items: seq<Item<T>>, c: Collected<T>, item: Item<T>)
    requires CollectedOk(items, c)
    ensures CollectedOk(items + [item], Add(c, item))
  {
    if HasVcl(c.open) && item.opens {
      OneIsOk(item);
      AllOkSnoc(c.done + [c.open], [item]);
      FlattenSnoc(c.done, c.open);
    } else if items == [] {
      OneIsOk(item);
      AllOkSnoc([], [item]);
      assert [] + [item] == [item];
    } else {
      WellOrderedSnoc(c.open, item);
      AllOkSnoc(c.done, c.open);
      AllOkSnoc(c.done, c.open + [item]);
    }
  }

  lemma OneIsOk<T>(item: Item<T>)
    ensures WellOrdered([item])
  {
  }

  lemma {:induction false} AddAllOk<T>(items: seq<Item<T>>)
    ensures CollectedOk(items, AddAll(items))
  {
    if items != [] {
      var before, item := items[..|items| - 1], items[|items| - 1];
      AddAllOk(before);
      AddKeeps(before, AddAll(before), item);
      assert before + [item] == items;
    }
  }

  /** The groups hold the items in order, and each ends where it has to. */
  lemma GroupsAreOk<T>(items: seq<Item<T>>)
    ensures AllOk(Groups(items)) && Flatten(Groups(items)) == items
  {
    AddAllOk(items);
    var c := AddAll(items);
    FlattenSnoc(c.done, c.open);
  }

  /** No other list of groups does: it would run a group past an item that opens the next, or
      close one where nothing opens. */
  lemma {:induction false} GroupsAreUnique<T>(items: seq<Item<T>>, groups: seq<seq<Item<T>>>)
    requires AllOk(groups) && Flatten(groups) == items
    ensures Groups(items) == groups
    decreases |items|
  {
    if groups != [] {
      var rest, last := groups[..|groups| - 1], groups[|groups| - 1];
      assert groups == rest + [last];
      AllOkSnoc(rest, last);
      FlattenSnoc(rest, last);
      var before, item := items[..|items| - 1], items[|items| - 1];
      var shorter := last[..|last| - 1];
      assert last == shorter + [item] && before == Flatten(rest) + shorter;
      AddAllOk(before);
      LastGroup(before, item, rest, shorter);
      if shorter == [] {
        GroupsAreUnique(before, rest);
      } else {
        FlattenSnoc(rest, shorter);
        WellOrderedSnoc(shorter, item);
        AllOkSnoc(rest, shorter);
        GroupsAreUnique(before, rest + [shorter]);
      }
    }
  }

  /** If the groups before `item` are known, `item` goes where it stands. */
  lemma LastGroup<T>(before: seq<Item<T>>, item: Item<T>, rest: seq<seq<Item<T>>>, shorter: seq<Item<T>>)
    requires AllOk(rest + [shorter + [item]]) && CollectedOk(before, AddAll(before))
    ensures (if shorter == [] then Groups(before) == rest else Groups(before) == rest + [shorter]) ==>
              Groups(before + [item]) == rest + [shorter + [item]]
  {
    var c := AddAll(before);
    assert (before + [item])[..|before|] == before;
    AllOkSnoc(rest, shorter + [item]);
    WellOrderedSnoc(shorter, item);
    assert [] + [item] == [item];
    if shorter == [] && Groups(before) == rest && rest != [] {
      assert c.open == rest[|rest| - 1] && c.done == rest[..|rest| - 1];
    } else if shorter != [] && Groups(before) == rest + [shorter] {
      assert c.open == (rest + [shorter])[|rest|] && c.done == (rest + [shorter])[..|rest|];
    }
  }
}
