/** The project board's logic on values: lookups, the dnd-kit relocation, the container and item
    moves behind a drag gesture, the drag dispatch, the duplicate-member check, the edits of
    projects and member items, and the member candidate list. The board page applies these to
    its objects in place; module BoardState proves its methods against the functions here. */
module Engine {
  import opened Types
  import opened Strings
  import opened Lists

  // ---------------------------------------------------------------------------------------------
  // Sequence surgery: JavaScript's splice and dnd-kit's arrayMove

  /** `s.splice(i, 1)` on the array: the element at `i` taken out. */
  function RemoveAt<T>(s: seq<T>, i: nat): (r: seq<T>)
    requires i < |s|
    ensures |r| == |s| - 1
    ensures forall k {:trigger r[k]} :: 0 <= k < |r| ==> r[k] == if k < i then s[k] else s[k + 1]
    ensures multiset(r) + multiset{s[i]} == multiset(s)
  {
    assert s == s[..i] + [s[i]] + s[i + 1..];
    s[..i] + s[i + 1..]
  }

  /** `s.splice(i, 0, x)` on the array: `x` put in at `i`, the rest shifted right. */
  function InsertAt<T>(s: seq<T>, i: nat, x: T): (r: seq<T>)
    requires i <= |s|
    ensures |r| == |s| + 1
    ensures forall k {:trigger r[k]} :: 0 <= k < |r| ==> r[k] == if k < i then s[k] else if k == i then x else s[k - 1]
    ensures multiset(r) == multiset(s) + multiset{x}
  {
    assert s == s[..i] + s[i..];
    s[..i] + [x] + s[i..]
  }

  /** dnd-kit's `arrayMove(s, from, to)`: the element at `from` ends at `to` and the elements
      between the two indices shift by one place towards `from`; nothing is lost or duplicated. */
  function ArrayMove<T>(s: seq<T>, from: nat, to: nat): (r: seq<T>)
    requires from < |s| && to < |s|
    ensures |r| == |s| && multiset(r) == multiset(s)
    ensures r[to] == s[from]
    ensures forall k {:trigger r[k]} :: 0 <= k < |s| && k != to ==>
      r[k] == if from < to && from <= k < to then s[k + 1]
              else if to < from && to < k <= from then s[k - 1]
              else s[k]
  {
    var m := RemoveAt(s, from);
    InsertAt(m, to, s[from])
  }

  /** The index `arrayMove` takes the element at `k` of its result from. */
  function MoveSource(from: nat, to: nat, k: nat): nat
  {
    if k == to then from
    else if from < to && from <= k < to then k + 1
    else if to < from && to < k <= from then k - 1
    else k
  }

  /** `arrayMove` as a reindexing: each place of the result is filled from a distinct place of
      the input. */
  lemma ArrayMoveSource<T>(s: seq<T>, from: nat, to: nat)
    requires from < |s| && to < |s|
    ensures forall k :: 0 <= k < |s| ==> MoveSource(from, to, k) < |s| && ArrayMove(s, from, to)[k] == s[MoveSource(from, to, k)]
    ensures forall i, j :: 0 <= i < j < |s| ==> MoveSource(from, to, i) != MoveSource(from, to, j)
  {
  }

  // ---------------------------------------------------------------------------------------------
  // Lookups

  /** The two kinds of draggable entity. */
  datatype Kind = ContainerKind | ItemKind

  /** Some item of the list carries the id. */
  predicate HasItem(items: seq<MemberItem>, id: string)
  {
    exists i :: 0 <= i < |items| && items[i].id == id
  }

  /** The container is the entity (kind container) or holds it (kind item). */
  predicate Holds(c: ProjectContainer, id: string, kind: Kind)
  {
    match kind
    case ContainerKind => c.id == id
    case ItemKind => HasItem(c.items, id)
  }

  /** The index of the first container that is or holds the entity, -1 when there is none. */
  function TargetIndex(v: seq<ProjectContainer>, id: string, kind: Kind): (k: int)
    ensures -1 <= k < |v|
    ensures 0 <= k ==> Holds(v[k], id, kind) && forall j :: 0 <= j < k ==> !Holds(v[j], id, kind)
    ensures k == -1 <==> forall j :: 0 <= j < |v| ==> !Holds(v[j], id, kind)
  {
    if v == [] then -1
    else if Holds(v[0], id, kind) then 0
    else
      var k := TargetIndex(v[1..], id, kind);
      assert forall j :: 1 <= j < |v| ==> v[j] == v[1..][j - 1];
      if k == -1 then -1 else k + 1
  }

  /** `findTarget(id, kind)`: the first container that is the entity or holds it. */
  function FindTarget(v: seq<ProjectContainer>, id: string, kind: Kind): (r: Option<ProjectContainer>)
    ensures r.None? <==> forall j :: 0 <= j < |v| ==> !Holds(v[j], id, kind)
    ensures r.Some? ==> exists k :: 0 <= k < |v| && r.value == v[k] && Holds(v[k], id, kind) &&
                                  (forall j :: 0 <= j < k ==> !Holds(v[j], id, kind))
  {
    var k := TargetIndex(v, id, kind);
    if k < 0 then None else Some(v[k])
  }

  /** `containers.findIndex(c => c.id === id)`. */
  function FindContainerIndex(v: seq<ProjectContainer>, id: string): int
  {
    TargetIndex(v, id, ContainerKind)
  }

  /** `items.findIndex(item => item.id === id)`: the first item with the id, -1 when none. */
  function FindItemIndex(items: seq<MemberItem>, id: string): (k: int)
    ensures -1 <= k < |items|
    ensures 0 <= k ==> items[k].id == id && forall j :: 0 <= j < k ==> items[j].id != id
    ensures k == -1 <==> !HasItem(items, id)
  {
    if items == [] then -1
    else if items[0].id == id then 0
    else
      var k := FindItemIndex(items[1..], id);
      assert forall j :: 1 <= j < |items| ==> items[j] == items[1..][j - 1];
      if k == -1 then -1 else k + 1
  }

  /** With distinct container ids, looking a found container up again by its id gives back its
      own index (the page finds a container, then its index by id). */
  lemma IndexOfFound(v: seq<ProjectContainer>, k: nat)
    requires UniqueIds(v) && k < |v|
    ensures FindContainerIndex(v, v[k].id) == k
  {
  }

  // ---------------------------------------------------------------------------------------------
  // Whole-board measures

  /** All member items of the board, container after container. */
  function AllItems(v: seq<ProjectContainer>): seq<MemberItem>
  {
    if v == [] then [] else v[0].items + AllItems(v[1..])
  }

  /** Replacing one container changes the board's items by exactly that container's items. */
  lemma AllItemsUpdate(v: seq<ProjectContainer>, k: nat, c: ProjectContainer)
    requires k < |v|
    ensures multiset(AllItems(v[k := c])) + multiset(v[k].items) == multiset(AllItems(v)) + multiset(c.items)
  {
    var w := v[k := c];
    AllItemsSplit(v, k);
    AllItemsSplit(w, k);
    AllItemsSplit(v[k..], 1);
    AllItemsSplit(w[k..], 1);
    assert w[..k] == v[..k];
    assert v[k..][1..] == v[k + 1..] == w[k..][1..];
    assert AllItems(v[k..][..1]) == v[k].items by { assert v[k..][..1][1..] == []; }
    assert AllItems(w[k..][..1]) == c.items by { assert w[k..][..1][1..] == []; }
  }

  /** The board's items are those of its containers concatenated, so a container's items are
      counted once. */
  lemma {:induction false} AllItemsSplit(v: seq<ProjectContainer>, k: nat)
    requires k <= |v|
    ensures AllItems(v) == AllItems(v[..k]) + AllItems(v[k..])
  {
    if k > 0 {
      AllItemsSplit(v[1..], k - 1);
      assert v[..k][1..] == v[1..][..k - 1];
      assert v[k..] == v[1..][k - 1..];
    } else {
      assert v[..k] == [];
    }
  }

  /** A container's fields other than its items: what an item move must leave alone. */
  function Frame(c: ProjectContainer): ProjectContainer
  {
    c.(items := [])
  }

  /** Same containers in the same order with the same fields; only items may differ. */
  predicate SameFrames(v: seq<ProjectContainer>, w: seq<ProjectContainer>)
  {
    |v| == |w| && forall k :: 0 <= k < |v| ==> Frame(v[k]) == Frame(w[k])
  }

  lemma SameFramesKeepIds(v: seq<ProjectContainer>, w: seq<ProjectContainer>)
    requires SameFrames(v, w)
    ensures UniqueIds(v) ==> UniqueIds(w)
    ensures forall id :: FindContainerIndex(w, id) == FindContainerIndex(v, id)
  {
    assert forall k :: 0 <= k < |v| ==> v[k].id == Frame(v[k]).id && w[k].id == Frame(w[k]).id;
    forall id ensures FindContainerIndex(w, id) == FindContainerIndex(v, id) {
      var a, b := FindContainerIndex(w, id), FindContainerIndex(v, id);
      if a >= 0 { assert Holds(v[a], id, ContainerKind); }
      if b >= 0 { assert Holds(w[b], id, ContainerKind); }
    }
  }

  // ---------------------------------------------------------------------------------------------
  // Container move

  /** `{...c, displayOrder: index}` over the whole list: every container's order is its index. */
  function Renumber(v: seq<ProjectContainer>): (r: seq<ProjectContainer>)
    ensures |r| == |v|
    ensures forall k :: 0 <= k < |v| ==> r[k] == v[k].(displayOrder := k)
  {
    seq(|v|, k requires 0 <= k < |v| => v[k].(displayOrder := k))
  }

  /** `sortContainer(activeId, overId)`: `None` when either container is missing (the page then
      does not set its state); otherwise the active container lands at the over container's index
      and every container's display order becomes its new index. */
  function SortContainer(v: seq<ProjectContainer>, activeId: string, overId: string): (r: Option<seq<ProjectContainer>>)
    ensures r.None? <==> FindContainerIndex(v, activeId) < 0 || FindContainerIndex(v, overId) < 0
    ensures r.Some? ==> |r.value| == |v| && forall k :: 0 <= k < |v| ==> r.value[k].displayOrder == k
    ensures r.Some? ==>
      r.value[FindContainerIndex(v, overId)] == v[FindContainerIndex(v, activeId)].(displayOrder := FindContainerIndex(v, overId))
  {
    var active := FindTarget(v, activeId, ContainerKind);
    var over := FindTarget(v, overId, ContainerKind);
    if active.None? || over.None? then None
    else
      var from := FindContainerIndex(v, active.value.id);
      var to := FindContainerIndex(v, over.value.id);
      Some(Renumber(ArrayMove(v, from, to)))
  }

  /** The container move in terms of the two containers' indices. */
  lemma SortContainerAt(v: seq<ProjectContainer>, activeId: string, overId: string)
    requires SortContainer(v, activeId, overId).Some?
    ensures var from, to := FindContainerIndex(v, activeId), FindContainerIndex(v, overId);
      0 <= from < |v| && 0 <= to < |v| && SortContainer(v, activeId, overId).value == Renumber(ArrayMove(v, from, to))
  {
  }

  /** The containers between the two indices shift by one place towards the vacated index; the
      others keep their place. Only the display orders are rewritten. */
  lemma SortContainerShifts(v: seq<ProjectContainer>, activeId: string, overId: string, k: nat)
    requires SortContainer(v, activeId, overId).Some?
    requires k < |v| && k != FindContainerIndex(v, overId)
    ensures var from, to := FindContainerIndex(v, activeId), FindContainerIndex(v, overId);
      SortContainer(v, activeId, overId).value[k] ==
        (if from < to && from <= k < to then v[k + 1]
         else if to < from && to < k <= from then v[k - 1]
         else v[k]).(displayOrder := k)
  {
    var from, to := FindContainerIndex(v, activeId), FindContainerIndex(v, overId);
    assert SortContainer(v, activeId, overId).value[k] == ArrayMove(v, from, to)[k].(displayOrder := k);
  }

  /** After a container move the display orders are exactly 0..n-1, the containers are those of
      before (up to their display order), and the items of the board are untouched. */
  lemma {:induction false} SortContainerPermutes(v: seq<ProjectContainer>, activeId: string, overId: string)
    requires SortContainer(v, activeId, overId).Some?
    ensures var r := SortContainer(v, activeId, overId).value;
      && (forall k :: 0 <= k < |r| ==> r[k].displayOrder == k)
      && multiset(Ids(r)) == multiset(Ids(v))
      && multiset(AllItems(r)) == multiset(AllItems(v))
  {
    var from, to := FindContainerIndex(v, activeId), FindContainerIndex(v, overId);
    var m := ArrayMove(v, from, to);
    var r := SortContainer(v, activeId, overId).value;
    assert Ids(r) == Ids(m);
    IdsOfMove(v, from, to);
    ItemsOfMove(v, from, to);
    ItemsOfRenumber(m);
  }

  lemma IdsOfMove(v: seq<ProjectContainer>, from: nat, to: nat)
    requires from < |v| && to < |v|
    ensures multiset(Ids(ArrayMove(v, from, to))) == multiset(Ids(v))
  {
    assert Ids(ArrayMove(v, from, to)) == ArrayMove(Ids(v), from, to);
  }

  lemma ItemsOfRemove(v: seq<ProjectContainer>, i: nat)
    requires i < |v|
    ensures multiset(AllItems(RemoveAt(v, i))) + multiset(v[i].items) == multiset(AllItems(v))
  {
    AllItemsSplit(v, i);
    AllItemsSplit(RemoveAt(v, i), i);
    assert RemoveAt(v, i)[..i] == v[..i];
    assert RemoveAt(v, i)[i..] == v[i + 1..];
    assert v[i..][1..] == v[i + 1..];
  }

  lemma ItemsOfInsert(v: seq<ProjectContainer>, i: nat, c: ProjectContainer)
    requires i <= |v|
    ensures multiset(AllItems(InsertAt(v, i, c))) == multiset(AllItems(v)) + multiset(c.items)
  {
    var w := InsertAt(v, i, c);
    AllItemsSplit(v, i);
    AllItemsSplit(w, i);
    assert w[..i] == v[..i];
    assert w[i..][1..] == v[i..];
  }

  lemma ItemsOfMove(v: seq<ProjectContainer>, from: nat, to: nat)
    requires from < |v| && to < |v|
    ensures multiset(AllItems(ArrayMove(v, from, to))) == multiset(AllItems(v))
  {
    ItemsOfRemove(v, from);
    ItemsOfInsert(RemoveAt(v, from), to, v[from]);
  }

  /** The board's items depend on the containers' items only. */
  lemma {:induction false} AllItemsOfSameItems(v: seq<ProjectContainer>, w: seq<ProjectContainer>)
    requires |v| == |w| && forall k :: 0 <= k < |v| ==> v[k].items == w[k].items
    ensures AllItems(v) == AllItems(w)
  {
    if v != [] {
      AllItemsOfSameItems(v[1..], w[1..]);
    }
  }

  lemma ItemsOfRenumber(v: seq<ProjectContainer>)
    ensures AllItems(Renumber(v)) == AllItems(v)
  {
    AllItemsOfSameItems(Renumber(v), v);
  }

  // ---------------------------------------------------------------------------------------------
  // Item moves

  /** The index of the container holding the item and the item's index inside it. */
  function ItemPlace(v: seq<ProjectContainer>, id: string): (p: (int, int))
    requires TargetIndex(v, id, ItemKind) >= 0
    ensures 0 <= p.0 < |v| && 0 <= p.1 < |v[p.0].items| && v[p.0].items[p.1].id == id
  {
    var c := TargetIndex(v, id, ItemKind);
    (c, FindItemIndex(v[c].items, id))
  }

  /** `sortItem(activeId, overId)`: `None` when either item is on no container. Within one
      container the items are relocated by `arrayMove`; across containers the active item is cut
      out of its list and put in at the over item's index of the other list. */
  function SortItem(v: seq<ProjectContainer>, activeId: string, overId: string): (r: Option<seq<ProjectContainer>>)
    requires UniqueIds(v)
    ensures r.None? <==> TargetIndex(v, activeId, ItemKind) < 0 || TargetIndex(v, overId, ItemKind) < 0
    ensures r.Some? ==> SameFrames(v, r.value)
  {
    var active := FindTarget(v, activeId, ItemKind);
    var over := FindTarget(v, overId, ItemKind);
    if active.None? || over.None? then None
    else
      IndexOfFound(v, TargetIndex(v, activeId, ItemKind));
      IndexOfFound(v, TargetIndex(v, overId, ItemKind));
      var ac := FindContainerIndex(v, active.value.id);
      var oc := FindContainerIndex(v, over.value.id);
      var ai := FindItemIndex(active.value.items, activeId);
      var oi := FindItemIndex(over.value.items, overId);
      if ac == oc then
        Some(v[ac := v[ac].(items := ArrayMove(v[ac].items, ai, oi))])
      else
        var moved := v[ac].items[ai];
        Some(v[ac := v[ac].(items := RemoveAt(v[ac].items, ai))]
              [oc := v[oc].(items := InsertAt(v[oc].items, oi, moved))])
  }

  /** After an item move the active item stands where the over item stood: same container, same
      index. */
  lemma SortItemPlaces(v: seq<ProjectContainer>, activeId: string, overId: string)
    requires UniqueIds(v) && SortItem(v, activeId, overId).Some?
    ensures var r := SortItem(v, activeId, overId).value;
      var ac, ai := ItemPlace(v, activeId).0, ItemPlace(v, activeId).1;
      var oc, oi := ItemPlace(v, overId).0, ItemPlace(v, overId).1;
      oi < |r[oc].items| && r[oc].items[oi] == v[ac].items[ai]
  {
    SortItemAt(v, activeId, overId);
  }

  /** An item move leaves every container other than the two holding the items untouched. */
  lemma SortItemKeepsOthers(v: seq<ProjectContainer>, activeId: string, overId: string, k: nat)
    requires UniqueIds(v) && SortItem(v, activeId, overId).Some?
    requires k < |v| && k != ItemPlace(v, activeId).0 && k != ItemPlace(v, overId).0
    ensures SortItem(v, activeId, overId).value[k] == v[k]
  {
    SortItemAt(v, activeId, overId);
  }

  /** Within one container the list is a rearrangement of itself; across containers the source
      list lost exactly the active item and the destination list gained it. */
  lemma SortItemLists(v: seq<ProjectContainer>, activeId: string, overId: string)
    requires UniqueIds(v) && SortItem(v, activeId, overId).Some?
    ensures var r := SortItem(v, activeId, overId).value;
      var ac, ai := ItemPlace(v, activeId).0, ItemPlace(v, activeId).1;
      var oc := ItemPlace(v, overId).0;
      && (ac == oc ==> multiset(r[ac].items) == multiset(v[ac].items))
      && (ac != oc ==>
            && r[ac].items == RemoveAt(v[ac].items, ai)
            && multiset(r[oc].items) == multiset(v[oc].items) + multiset{v[ac].items[ai]})
  {
    SortItemAt(v, activeId, overId);
  }

  /** An item move neither loses nor duplicates a member item anywhere on the board. */
  lemma SortItemConserves(v: seq<ProjectContainer>, activeId: string, overId: string)
    requires UniqueIds(v) && SortItem(v, activeId, overId).Some?
    ensures multiset(AllItems(SortItem(v, activeId, overId).value)) == multiset(AllItems(v))
  {
    var p, q := ItemPlace(v, activeId), ItemPlace(v, overId);
    SortItemAt(v, activeId, overId);
    if p.0 == q.0 {
      WithinConserves(v, p.0, p.1, q.1);
    } else {
      TransferConserves(v, p.0, p.1, q.0, q.1);
    }
  }

  /** Relocating an item inside one container conserves the board's items. */
  lemma WithinConserves(v: seq<ProjectContainer>, c: nat, from: nat, to: nat)
    requires c < |v| && from < |v[c].items| && to < |v[c].items|
    ensures multiset(AllItems(v[c := v[c].(items := ArrayMove(v[c].items, from, to))])) == multiset(AllItems(v))
  {
    var d := v[c].(items := ArrayMove(v[c].items, from, to));
    AllItemsUpdate(v, c, d);
    var a, b := multiset(AllItems(v[c := d])), multiset(AllItems(v));
    forall e ensures a[e] == b[e] {
      assert (a + multiset(v[c].items))[e] == (b + multiset(d.items))[e];
    }
  }

  /** Cutting the item at `(ac, ai)` and putting it in at `(oc, oi)` conserves the board's items. */
  lemma TransferConserves(v: seq<ProjectContainer>, ac: nat, ai: nat, oc: nat, oi: nat)
    requires ac < |v| && oc < |v| && ac != oc && ai < |v[ac].items| && oi <= |v[oc].items|
    ensures var w := v[ac := v[ac].(items := RemoveAt(v[ac].items, ai))];
      multiset(AllItems(w[oc := v[oc].(items := InsertAt(v[oc].items, oi, v[ac].items[ai]))])) == multiset(AllItems(v))
  {
    var moved := v[ac].items[ai];
    var w := v[ac := v[ac].(items := RemoveAt(v[ac].items, ai))];
    assert w[oc] == v[oc];
    var c := w[oc].(items := InsertAt(w[oc].items, oi, moved));
    AllItemsUpdate(v, ac, w[ac]);
    AllItemsUpdate(w, oc, c);
    MoveBetween(AllItems(v), AllItems(w), AllItems(w[oc := c]), v[ac].items, w[ac].items, w[oc].items, c.items, moved);
  }

  /** The item move in terms of the two items' places. */
  lemma SortItemAt(v: seq<ProjectContainer>, activeId: string, overId: string)
    requires UniqueIds(v) && SortItem(v, activeId, overId).Some?
    ensures var ac, ai := ItemPlace(v, activeId).0, ItemPlace(v, activeId).1;
      var oc, oi := ItemPlace(v, overId).0, ItemPlace(v, overId).1;
      && (ac == oc ==> SortItem(v, activeId, overId).value == v[ac := v[ac].(items := ArrayMove(v[ac].items, ai, oi))])
      && (ac != oc ==>
            SortItem(v, activeId, overId).value ==
            v[ac := v[ac].(items := RemoveAt(v[ac].items, ai))][oc := v[oc].(items := InsertAt(v[oc].items, oi, v[ac].items[ai]))])
  {
    IndexOfFound(v, TargetIndex(v, activeId, ItemKind));
    IndexOfFound(v, TargetIndex(v, overId, ItemKind));
  }

  /** Multiset bookkeeping for a transfer of one element from one list to another. */
  lemma MoveBetween<T>(all0: seq<T>, all1: seq<T>, all2: seq<T>, src0: seq<T>, src1: seq<T>, dst1: seq<T>, dst2: seq<T>, x: T)
    requires multiset(all1) + multiset(src0) == multiset(all0) + multiset(src1)
    requires multiset(all2) + multiset(dst1) == multiset(all1) + multiset(dst2)
    requires multiset(src1) + multiset{x} == multiset(src0)
    requires multiset(dst2) == multiset(dst1) + multiset{x}
    ensures multiset(all2) == multiset(all0)
  {
    forall e ensures multiset(all2)[e] == multiset(all0)[e] {
      assert (multiset(all2) + multiset(dst1))[e] == (multiset(all1) + multiset(dst2))[e];
      assert (multiset(all1) + multiset(src0))[e] == (multiset(all0) + multiset(src1))[e];
      assert (multiset(src1) + multiset{x})[e] == multiset(src0)[e];
      assert multiset(dst2)[e] == (multiset(dst1) + multiset{x})[e];
    }
  }

  /** `dropIntoContainer(activeId, overId)`: `None` when the item or the container is missing;
      otherwise the item is cut out of its list and appended to the container's list, which may be
      the list it came from. */
  function DropIntoContainer(v: seq<ProjectContainer>, activeId: string, overId: string): (r: Option<seq<ProjectContainer>>)
    requires UniqueIds(v)
    ensures r.None? <==> TargetIndex(v, activeId, ItemKind) < 0 || FindContainerIndex(v, overId) < 0
    ensures r.Some? ==> SameFrames(v, r.value)
  {
    var active := FindTarget(v, activeId, ItemKind);
    var over := FindTarget(v, overId, ContainerKind);
    if active.None? || over.None? then None
    else
      IndexOfFound(v, TargetIndex(v, activeId, ItemKind));
      var ac := FindContainerIndex(v, active.value.id);
      var oc := FindContainerIndex(v, over.value.id);
      var ai := FindItemIndex(active.value.items, activeId);
      var moved := v[ac].items[ai];
      var w := v[ac := v[ac].(items := RemoveAt(v[ac].items, ai))];
      Some(w[oc := w[oc].(items := w[oc].items + [moved])])
  }

  /** After a drop the active item is the last item of the target container, the list it came
      from lost exactly it, and every other container is untouched. */
  lemma DropPlaces(v: seq<ProjectContainer>, activeId: string, overId: string)
    requires UniqueIds(v) && DropIntoContainer(v, activeId, overId).Some?
    ensures var r := DropIntoContainer(v, activeId, overId).value;
      var (ac, ai) := ItemPlace(v, activeId);
      var oc := FindContainerIndex(v, overId);
      && r[oc].items != [] && r[oc].items[|r[oc].items| - 1] == v[ac].items[ai]
      && (forall k :: 0 <= k < |v| && k != ac && k != oc ==> r[k] == v[k])
      && (ac == oc ==> r[ac].items == RemoveAt(v[ac].items, ai) + [v[ac].items[ai]])
      && (ac != oc ==> r[ac].items == RemoveAt(v[ac].items, ai) && r[oc].items == v[oc].items + [v[ac].items[ai]])
  {
    IndexOfFound(v, TargetIndex(v, activeId, ItemKind));
    IndexOfFound(v, FindContainerIndex(v, overId));
  }

  /** The drop in terms of the item's place and the target container's index. */
  lemma DropAt(v: seq<ProjectContainer>, activeId: string, overId: string)
    requires UniqueIds(v) && DropIntoContainer(v, activeId, overId).Some?
    ensures var (ac, ai) := ItemPlace(v, activeId);
      var oc := FindContainerIndex(v, overId);
      var w := v[ac := v[ac].(items := RemoveAt(v[ac].items, ai))];
      0 <= oc < |v| && DropIntoContainer(v, activeId, overId).value == w[oc := w[oc].(items := w[oc].items + [v[ac].items[ai]])]
  {
    IndexOfFound(v, TargetIndex(v, activeId, ItemKind));
    IndexOfFound(v, FindContainerIndex(v, overId));
  }

  /** A drop neither loses nor duplicates a member item anywhere on the board. */
  lemma DropConserves(v: seq<ProjectContainer>, activeId: string, overId: string)
    requires UniqueIds(v) && DropIntoContainer(v, activeId, overId).Some?
    ensures multiset(AllItems(DropIntoContainer(v, activeId, overId).value)) == multiset(AllItems(v))
  {
    var (ac, ai) := ItemPlace(v, activeId);
    var oc := FindContainerIndex(v, overId);
    IndexOfFound(v, ac);
    IndexOfFound(v, oc);
    var moved := v[ac].items[ai];
    var w := v[ac := v[ac].(items := RemoveAt(v[ac].items, ai))];
    var c := w[oc].(items := w[oc].items + [moved]);
    assert DropIntoContainer(v, activeId, overId).value == w[oc := c];
    AllItemsUpdate(v, ac, w[ac]);
    AllItemsUpdate(w, oc, c);
    MoveBetween(AllItems(v), AllItems(w), AllItems(w[oc := c]), v[ac].items, w[ac].items, w[oc].items, c.items, moved);
  }

  /** Dropping the first of two items of one container on an empty second container moves it
      there and leaves the other item behind. */
  lemma DropOnEmptyContainer(i1: MemberItem, i2: MemberItem, c1: ProjectContainer, c2: ProjectContainer)
    requires c1.id != c2.id && c1.items == [i1, i2] && c2.items == [] && i1.id != i2.id
    ensures DropIntoContainer([c1, c2], i1.id, c2.id) == Some([c1.(items := [i2]), c2.(items := [i1])])
  {
    var v := [c1, c2];
    assert Holds(v[0], i1.id, ItemKind) by { assert v[0].items[0].id == i1.id; }
    assert TargetIndex(v, i1.id, ItemKind) == 0;
    assert FindItemIndex(c1.items, i1.id) == 0;
    assert !Holds(v[0], c2.id, ContainerKind) && Holds(v[1], c2.id, ContainerKind);
    assert FindContainerIndex(v, c2.id) == 1;
    assert RemoveAt(c1.items, 0) == [i2];
    var w := v[0 := c1.(items := [i2])];
    assert w[1] == c2 && w[1].items + [i1] == [i1];
    assert w[1 := w[1].(items := w[1].items + [i1])] == [c1.(items := [i2]), c2.(items := [i1])];
    assert DropIntoContainer(v, i1.id, c2.id).value == w[1 := w[1].(items := w[1].items + [i1])];
  }

  // ---------------------------------------------------------------------------------------------
  // Drag dispatch

  /** Item ids are generated as `item-…` and container ids as `container-…`; the page classifies
      an id by whether the marker occurs anywhere in it. */
  const ItemMarker: string := "item"
  const ContainerMarker: string := "container"

  /** The two item handlers as both drag handlers run them on two distinct ids. An item over an
      item is an item move, an item over a container a drop; both tests run, and the drop sees the
      item lists the item move has already changed. The last handler that sets the board wins:
      `None` when neither sets it. */
  function ItemHandlers(v: seq<ProjectContainer>, a: string, o: string): (r: Option<seq<ProjectContainer>>)
    requires UniqueIds(v)
    ensures r.Some? ==> SameFrames(v, r.value)
    ensures Includes(a, ItemMarker) && Includes(o, ItemMarker) && SortItem(v, a, o).Some? ==> r.Some?
    ensures !Includes(a, ItemMarker) ==> r.None?
  {
    var s := if Includes(a, ItemMarker) && Includes(o, ItemMarker) then SortItem(v, a, o) else None;
    var w := if s.Some? then s.value else v;
    SameFramesKeepIds(v, w);
    var d := if Includes(a, ItemMarker) && Includes(o, ContainerMarker) then DropIntoContainer(w, a, o) else None;
    if d.Some? then d else s
  }

  /** An item over an item: the board is `SortItem`'s result (the drop test fails on an id
      without the container marker). */
  lemma ItemOverItem(v: seq<ProjectContainer>, a: string, o: string)
    requires UniqueIds(v)
    requires Includes(a, ItemMarker) && Includes(o, ItemMarker) && !Includes(o, ContainerMarker)
    ensures ItemHandlers(v, a, o) == SortItem(v, a, o)
  {
  }

  /** An item over a container: the board is the drop onto the lists the item move has left
      (the board itself when the item move does not apply), or the item move's result when the
      drop does not apply. */
  lemma ItemOverContainer(v: seq<ProjectContainer>, a: string, o: string)
    requires UniqueIds(v)
    requires Includes(a, ItemMarker) && Includes(o, ContainerMarker)
    ensures var s := if Includes(o, ItemMarker) then SortItem(v, a, o) else None;
            var w := if s.Some? then s.value else v;
            UniqueIds(w) &&
            ItemHandlers(v, a, o) == if DropIntoContainer(w, a, o).Some? then DropIntoContainer(w, a, o) else s
  {
    var s := if Includes(o, ItemMarker) then SortItem(v, a, o) else None;
    var w := if s.Some? then s.value else v;
    SameFramesKeepIds(v, w);
  }

  /** `handleDragMove`: nothing unless both ids are present and differ; then the item handlers. */
  function DragMove(v: seq<ProjectContainer>, active: Option<string>, over: Option<string>): (r: seq<ProjectContainer>)
    requires UniqueIds(v)
    ensures active.None? || over.None? || active == over ==> r == v
    ensures SameFrames(v, r)
  {
    if active.None? || over.None? || active.value == over.value then v
    else
      var h := ItemHandlers(v, active.value, over.value);
      if h.Some? then h.value else v
  }

  /** `handleDragEnd`: as `handleDragMove`, with a container move tried first when both ids name
      containers. Every handler reads the board as it was when the gesture ended, and the last
      handler that sets the board wins: an item move or drop discards the container move. */
  function DragEnd(v: seq<ProjectContainer>, active: Option<string>, over: Option<string>): (r: seq<ProjectContainer>)
    requires UniqueIds(v)
    ensures active.None? || over.None? || active == over ==> r == v
    ensures |r| == |v|
  {
    if active.None? || over.None? || active.value == over.value then v
    else
      var a, o := active.value, over.value;
      var c := if Includes(a, ContainerMarker) && Includes(o, ContainerMarker) then SortContainer(v, a, o) else None;
      var h := ItemHandlers(v, a, o);
      if h.Some? then h.value else if c.Some? then c.value else v
  }

  /** Dragging never creates or loses a member item, whichever handlers fire. */
  lemma DragMoveConserves(v: seq<ProjectContainer>, active: Option<string>, over: Option<string>)
    requires UniqueIds(v)
    ensures multiset(AllItems(DragMove(v, active, over))) == multiset(AllItems(v))
  {
    if active.Some? && over.Some? && active.value != over.value && ItemHandlers(v, active.value, over.value).Some? {
      ItemHandlersConserve(v, active.value, over.value);
    }
  }

  lemma DragEndConserves(v: seq<ProjectContainer>, active: Option<string>, over: Option<string>)
    requires UniqueIds(v)
    ensures multiset(AllItems(DragEnd(v, active, over))) == multiset(AllItems(v))
  {
    if active.Some? && over.Some? && active.value != over.value {
      var a, o := active.value, over.value;
      if ItemHandlers(v, a, o).Some? {
        ItemHandlersConserve(v, a, o);
      } else if Includes(a, ContainerMarker) && Includes(o, ContainerMarker) && SortContainer(v, a, o).Some? {
        SortContainerPermutes(v, a, o);
      }
    }
  }

  /** The item move followed by the drop, as both handlers run them, conserves the items. */
  lemma ItemHandlersConserve(v: seq<ProjectContainer>, a: string, o: string)
    requires UniqueIds(v) && ItemHandlers(v, a, o).Some?
    ensures multiset(AllItems(ItemHandlers(v, a, o).value)) == multiset(AllItems(v))
  {
    var s := if Includes(a, ItemMarker) && Includes(o, ItemMarker) then SortItem(v, a, o) else None;
    var w := if s.Some? then s.value else v;
    SameFramesKeepIds(v, w);
    if s.Some? {
      SortItemConserves(v, a, o);
    }
    if Includes(a, ItemMarker) && Includes(o, ContainerMarker) && DropIntoContainer(w, a, o).Some? {
      DropConserves(w, a, o);
    }
  }

  /** Containers are reordered only when a drag ends, never while it moves: two container ids
      (that name no item) leave the board alone on a move and reorder it on drop. */
  lemma ContainersReorderOnlyOnEnd(v: seq<ProjectContainer>, a: string, o: string)
    requires UniqueIds(v) && a != o
    requires Includes(a, ContainerMarker) && Includes(o, ContainerMarker) && !Includes(a, ItemMarker)
    requires FindContainerIndex(v, a) >= 0 && FindContainerIndex(v, o) >= 0
    ensures DragMove(v, Some(a), Some(o)) == v
    ensures DragEnd(v, Some(a), Some(o)) == SortContainer(v, a, o).value
  {
  }

  /** The page tests for the marker anywhere in the id, not as a prefix: an id that contains both
      markers triggers both kinds of handler, and then the item handlers' result replaces the
      container move even when both succeed, so the drag ends with the same board as the move. */
  lemma ItemHandlersOverrideContainerMove(v: seq<ProjectContainer>, a: string, o: string)
    requires UniqueIds(v) && a != o
    requires Includes(a, ContainerMarker) && Includes(a, ItemMarker)
    requires Includes(o, ContainerMarker) && Includes(o, ItemMarker)
    requires SortItem(v, a, o).Some? && SortContainer(v, a, o).Some?
    ensures DragEnd(v, Some(a), Some(o)) == DragMove(v, Some(a), Some(o)) == ItemHandlers(v, a, o).value
    ensures SameFrames(v, DragEnd(v, Some(a), Some(o)))
  {
  }

  // ---------------------------------------------------------------------------------------------
  // Duplicate-member check

  /** Two items of the list carry the same non-empty member id. */
  predicate HasDuplicateMember(items: seq<MemberItem>)
  {
    exists i, j :: 0 <= i < j < |items| && items[i].memberId != "" && items[i].memberId == items[j].memberId
  }

  /** The name of the first project, in board order, that holds one member twice. */
  function FirstDuplicateProject(v: seq<ProjectContainer>): Option<string>
  {
    if v == [] then None
    else if HasDuplicateMember(v[0].items) then Some(v[0].name)
    else FirstDuplicateProject(v[1..])
  }

  /** The check reports nothing exactly when no project holds a member twice, and otherwise the
      name of the first project that does. */
  lemma {:induction false} FirstDuplicateProjectSpec(v: seq<ProjectContainer>)
    ensures FirstDuplicateProject(v).None? <==> forall k :: 0 <= k < |v| ==> !HasDuplicateMember(v[k].items)
    ensures FirstDuplicateProject(v).Some? ==>
      exists k :: 0 <= k < |v| && HasDuplicateMember(v[k].items) && FirstDuplicateProject(v).value == v[k].name &&
                  forall j :: 0 <= j < k ==> !HasDuplicateMember(v[j].items)
  {
    if v != [] && !HasDuplicateMember(v[0].items) {
      FirstDuplicateProjectSpec(v[1..]);
      assert forall k :: 1 <= k < |v| ==> v[k] == v[1..][k - 1];
      if FirstDuplicateProject(v).Some? {
        var k :| 0 <= k < |v[1..]| && HasDuplicateMember(v[1..][k].items) && FirstDuplicateProject(v).value == v[1..][k].name &&
                 forall j :: 0 <= j < k ==> !HasDuplicateMember(v[1..][j].items);
        assert forall j :: 0 <= j < k + 1 ==> !HasDuplicateMember(v[j].items) by {
          forall j | 0 < j < k + 1 ensures !HasDuplicateMember(v[j].items) {
            assert v[j] == v[1..][j - 1];
          }
        }
      }
    }
  }

  /** `checkDuplicateMemberIds`: each project's items are scanned with a set of member ids seen so
      far (empty ids skipped); the first repeat returns that project's name. */
  method CheckDuplicateMemberIds(v: seq<ProjectContainer>) returns (r: Option<string>)
    ensures r == FirstDuplicateProject(v)
  {
    for ci := 0 to |v|
      invariant FirstDuplicateProject(v) == FirstDuplicateProject(v[ci..])
    {
      assert v[ci..][1..] == v[ci + 1..];
      var items := v[ci].items;
      var seen: set<string> := {};
      for ii := 0 to |items|
        invariant seen == set j | 0 <= j < ii && items[j].memberId != "" :: items[j].memberId
        invariant !HasDuplicateMember(items[..ii])
      {
        var m := items[ii].memberId;
        if m != "" {
          if m in seen {
            var j :| 0 <= j < ii && items[j].memberId != "" && items[j].memberId == m;
            assert HasDuplicateMember(items);
            return Some(v[ci].name);
          }
          seen := seen + {m};
        }
        assert items[..ii + 1] == items[..ii] + [items[ii]];
      }
      assert items[..|items|] == items;
    }
    return None;
  }

  // ---------------------------------------------------------------------------------------------
  // Project edits

  /** `handleAddProject`: nothing while the dialog reports an error; otherwise a new project with
      the generated id, no items and display order equal to the current number of projects is
      appended. */
  function AddProject(v: seq<ProjectContainer>, hasError: bool, newId: string, name: string, description: string, tags: seq<string>): (r: seq<ProjectContainer>)
    ensures hasError ==> r == v
    ensures !hasError ==> |r| == |v| + 1 && r[..|v|] == v && r[|v|].id == newId && r[|v|].displayOrder == |v| && r[|v|].items == []
  {
    if hasError then v
    else v + [ProjectContainer(newId, |v|, name, description, tags, [])]
  }

  /** `handleEditProject`: nothing while the dialog reports an error; otherwise the project with
      the current id takes the dialog's name, description and tags. */
  function EditProject(v: seq<ProjectContainer>, hasError: bool, currentId: string, name: string, description: string, tags: seq<string>): (r: seq<ProjectContainer>)
    ensures |r| == |v|
  {
    if hasError then v
    else seq(|v|, k requires 0 <= k < |v| =>
           if v[k].id == currentId then v[k].(name := name, description := description, tags := tags) else v[k])
  }

  /** `handleDeleteProject`: nothing when no project has the id or the user does not confirm;
      otherwise every project with the id is filtered out and the others keep their order and their
      display orders. */
  function DeleteProject(v: seq<ProjectContainer>, id: string, confirmed: bool): (r: seq<ProjectContainer>)
    ensures FindContainerIndex(v, id) < 0 || !confirmed ==> r == v
    ensures FindContainerIndex(v, id) >= 0 && confirmed ==>
      |r| < |v| && (forall c :: c in r <==> c in v && c.id != id)
    ensures IsSubsequence(r, v)
  {
    if FindContainerIndex(v, id) < 0 || !confirmed then
      SubsequenceRefl(v);
      v
    else
      var k := FindContainerIndex(v, id);
      FilterShrinks(v, OtherId(id), k);
      FilterSubsequence(v, OtherId(id));
      Filter(v, OtherId(id))
  }

  /** The filter test keeping the projects with another id. */
  function OtherId(id: string): ProjectContainer -> bool
  {
    (c: ProjectContainer) => c.id != id
  }

  /** An edit changes only the name, description and tags of the projects with the id: ids,
      display orders and member items stay as they were. */
  lemma EditProjectKeepsStructure(v: seq<ProjectContainer>, hasError: bool, currentId: string, name: string, description: string, tags: seq<string>)
    ensures var r := EditProject(v, hasError, currentId, name, description, tags);
      && Ids(r) == Ids(v)
      && (forall k :: 0 <= k < |v| ==> r[k].displayOrder == v[k].displayOrder && r[k].items == v[k].items)
      && (forall k :: 0 <= k < |v| && (hasError || v[k].id != currentId) ==> r[k] == v[k])
      && (forall k :: 0 <= k < |v| && !hasError && v[k].id == currentId ==>
            r[k].name == name && r[k].description == description && r[k].tags == tags)
      && AllItems(r) == AllItems(v)
  {
    var r := EditProject(v, hasError, currentId, name, description, tags);
    AllItemsOfSameItems(r, v);
  }

  /** Deleting a project that was just added, under its fresh id, gives back the board. */
  lemma {:induction false} DeleteUndoesAdd(v: seq<ProjectContainer>, newId: string, name: string, description: string, tags: seq<string>)
    requires forall k :: 0 <= k < |v| ==> v[k].id != newId
    ensures DeleteProject(AddProject(v, false, newId, name, description, tags), newId, true) == v
  {
    var x := ProjectContainer(newId, |v|, name, description, tags, []);
    var w := v + [x];
    assert Holds(w[|v|], newId, ContainerKind);
    FilterConcat(v, [x], OtherId(newId));
    FilterAll(v, OtherId(newId));
  }

  /** Adding a project under a fresh id keeps the ids distinct. */
  lemma AddProjectKeepsIdsUnique(v: seq<ProjectContainer>, hasError: bool, newId: string, name: string, description: string, tags: seq<string>)
    requires UniqueIds(v) && forall k :: 0 <= k < |v| ==> v[k].id != newId
    ensures UniqueIds(AddProject(v, hasError, newId, name, description, tags))
  {
  }

  /** Deleting keeps the ids distinct. */
  lemma DeleteProjectKeepsIdsUnique(v: seq<ProjectContainer>, id: string, confirmed: bool)
    requires UniqueIds(v)
    ensures UniqueIds(DeleteProject(v, id, confirmed))
  {
    if FindContainerIndex(v, id) >= 0 && confirmed {
      FilterKeepsUnique(v, OtherId(id));
    }
  }

  lemma {:induction false} FilterKeepsUnique(v: seq<ProjectContainer>, p: ProjectContainer -> bool)
    requires UniqueIds(v)
    ensures UniqueIds(Filter(v, p))
  {
    if v != [] {
      FilterKeepsUnique(v[1..], p);
      assert forall c :: c in Filter(v[1..], p) ==> c in v[1..] && c.id != v[0].id;
    }
  }

  /** Deleting does not renumber: after deleting the first of two projects, a new project gets the
      same display order as the one left behind. */
  lemma DeleteThenAddRepeatsOrder(a: ProjectContainer, b: ProjectContainer, newId: string, name: string, description: string, tags: seq<string>)
    requires a.displayOrder == 0 && b.displayOrder == 1 && a.id != b.id
    ensures var r := AddProject(DeleteProject([a, b], a.id, true), false, newId, name, description, tags);
      |r| == 2 && r[0] == b && r[1].displayOrder == r[0].displayOrder
  {
    var v := [a, b];
    assert Holds(v[0], a.id, ContainerKind);
    assert Filter(v, OtherId(a.id)) == [b] by {
      assert v[1..] == [b];
      assert [b][1..] == [];
    }
  }

  // ---------------------------------------------------------------------------------------------
  // Member-item edits

  /** `handleAddMember`: nothing when no member is chosen or the current project is missing;
      otherwise a new item with the generated id is pushed onto that project's items. */
  function AddMember(v: seq<ProjectContainer>, memberId: string, containerId: string, newItemId: string, positions: seq<Position>): (r: seq<ProjectContainer>)
    ensures memberId == "" || FindContainerIndex(v, containerId) < 0 ==> r == v
    ensures SameFrames(v, r)
    ensures memberId != "" && FindContainerIndex(v, containerId) >= 0 ==>
      var k := FindContainerIndex(v, containerId);
      r[k].items == v[k].items + [MemberItem(newItemId, memberId, positions)] &&
      forall j :: 0 <= j < |v| && j != k ==> r[j] == v[j]
  {
    var k := FindContainerIndex(v, containerId);
    if memberId == "" || k < 0 then v
    else v[k := v[k].(items := v[k].items + [MemberItem(newItemId, memberId, positions)])]
  }

  /** `handleEditMember`: nothing when no member is chosen or the current project is missing;
      otherwise the items with the current item id take the chosen member and positions. */
  function EditMember(v: seq<ProjectContainer>, memberId: string, containerId: string, itemId: string, positions: seq<Position>): (r: seq<ProjectContainer>)
    ensures SameFrames(v, r)
    ensures memberId == "" || FindContainerIndex(v, containerId) < 0 ==> r == v
  {
    var k := FindContainerIndex(v, containerId);
    if memberId == "" || k < 0 then v
    else
      var items := v[k].items;
      v[k := v[k].(items := seq(|items|, i requires 0 <= i < |items| =>
                     if items[i].id == itemId then items[i].(memberId := memberId, positions := positions) else items[i]))]
  }

  /** The filter test keeping the items with another id. */
  function OtherItem(id: string): MemberItem -> bool
  {
    (it: MemberItem) => it.id != id
  }

  /** `handleDeleteMember`: nothing when the project or the item is missing or the user does not
      confirm; otherwise the items with the id are filtered out of that project. */
  function DeleteMember(v: seq<ProjectContainer>, containerId: string, itemId: string, confirmed: bool): (r: seq<ProjectContainer>)
    ensures SameFrames(v, r)
    ensures var k := FindContainerIndex(v, containerId);
      k < 0 || !HasItem(v[k].items, itemId) || !confirmed ==> r == v
    ensures var k := FindContainerIndex(v, containerId);
      k >= 0 && HasItem(v[k].items, itemId) && confirmed ==>
        && !HasItem(r[k].items, itemId)
        && |r[k].items| < |v[k].items|
        && (forall it :: it in r[k].items <==> it in v[k].items && it.id != itemId)
        && IsSubsequence(r[k].items, v[k].items)
        && (forall j :: 0 <= j < |v| && j != k ==> r[j] == v[j])
  {
    var k := FindContainerIndex(v, containerId);
    if k < 0 || !HasItem(v[k].items, itemId) || !confirmed then v
    else
      var kept := Filter(v[k].items, OtherItem(itemId));
      var i := FindItemIndex(v[k].items, itemId);
      FilterShrinks(v[k].items, OtherItem(itemId), i);
      FilterSubsequence(v[k].items, OtherItem(itemId));
      forall j | 0 <= j < |kept| ensures kept[j].id != itemId {
        assert kept[j] in kept;
      }
      v[k := v[k].(items := kept)]
  }

  /** Editing an item keeps every item's id and place; the items with the id carry the new member
      and positions, the others are unchanged. */
  lemma EditMemberKeepsItems(v: seq<ProjectContainer>, memberId: string, containerId: string, itemId: string, positions: seq<Position>)
    requires memberId != "" && FindContainerIndex(v, containerId) >= 0
    ensures var r := EditMember(v, memberId, containerId, itemId, positions);
      var k := FindContainerIndex(v, containerId);
      && |r[k].items| == |v[k].items|
      && (forall i :: 0 <= i < |v[k].items| ==> r[k].items[i].id == v[k].items[i].id)
      && (forall i :: 0 <= i < |v[k].items| && v[k].items[i].id == itemId ==>
            r[k].items[i].memberId == memberId && r[k].items[i].positions == positions)
      && (forall i :: 0 <= i < |v[k].items| && v[k].items[i].id != itemId ==> r[k].items[i] == v[k].items[i])
      && (forall j :: 0 <= j < |v| && j != k ==> r[j] == v[j])
  {
  }

  /** Deleting a member item that was just added, under its fresh id, gives back the board. */
  lemma DeleteMemberUndoesAdd(v: seq<ProjectContainer>, memberId: string, containerId: string, newItemId: string, positions: seq<Position>)
    requires memberId != "" && FindContainerIndex(v, containerId) >= 0
    requires !HasItem(v[FindContainerIndex(v, containerId)].items, newItemId)
    ensures DeleteMember(AddMember(v, memberId, containerId, newItemId, positions), containerId, newItemId, true) == v
  {
    var k := FindContainerIndex(v, containerId);
    var w := AddMember(v, memberId, containerId, newItemId, positions);
    var x := MemberItem(newItemId, memberId, positions);
    SameFramesKeepIds(v, w);
    assert w[k].items[|v[k].items|] == x;
    assert FindContainerIndex(w, containerId) == k;
    assert HasItem(w[k].items, newItemId);
    assert w[k].items == v[k].items + [x];
    FilterConcat(v[k].items, [x], OtherItem(newItemId));
    FilterAll(v[k].items, OtherItem(newItemId));
    assert [x][1..] == [];
    assert Filter([x], OtherItem(newItemId)) == [];
    assert Filter(w[k].items, OtherItem(newItemId)) == v[k].items;
    assert w[k].(items := v[k].items) == v[k];
    assert w[k := v[k]] == v;
  }

  /** Adding a member item puts exactly one item onto the board. */
  lemma AddMemberAddsOne(v: seq<ProjectContainer>, memberId: string, containerId: string, newItemId: string, positions: seq<Position>)
    requires memberId != "" && FindContainerIndex(v, containerId) >= 0
    ensures multiset(AllItems(AddMember(v, memberId, containerId, newItemId, positions))) ==
            multiset(AllItems(v)) + multiset{MemberItem(newItemId, memberId, positions)}
  {
    var k := FindContainerIndex(v, containerId);
    var c := v[k].(items := v[k].items + [MemberItem(newItemId, memberId, positions)]);
    AllItemsUpdate(v, k, c);
    var a, b := multiset(AllItems(v[k := c])), multiset(AllItems(v)) + multiset{MemberItem(newItemId, memberId, positions)};
    forall e ensures a[e] == b[e] {
      assert (a + multiset(v[k].items))[e] == (multiset(AllItems(v)) + multiset(c.items))[e];
    }
  }

  // ---------------------------------------------------------------------------------------------
  // Member candidates for the member dialog

  /** The member ids of a project's items, in item order. */
  function MemberIds(items: seq<MemberItem>): (r: seq<string>)
    ensures |r| == |items| && forall i :: 0 <= i < |items| ==> r[i] == items[i].memberId
  {
    seq(|items|, i requires 0 <= i < |items| => items[i].memberId)
  }

  /** A roster entry may be offered for a project holding `taken`: it is the member being edited,
      or it is not assigned there yet (an entry without an id never is). */
  predicate Assignable(m: MemberInfo, taken: seq<string>, memberId: string)
  {
    (memberId != "" && m.id == Some(memberId)) || !(m.id.Some? && m.id.value in taken)
  }

  /** The filter test of `Assignable`. */
  function Offered(taken: seq<string>, memberId: string): MemberInfo -> bool
  {
    (m: MemberInfo) => Assignable(m, taken, memberId)
  }

  /** A roster entry not marked deleted. */
  predicate Live(m: MemberInfo)
  {
    !m.isDeleted
  }

  /** `getFilterdMembers`: from the roster the page holds, nothing when the roster is empty;
      when the project exists and has items, the members already assigned there are dropped
      except the one being edited; then members marked deleted are dropped. */
  function CandidateMembers(members: seq<MemberInfo>, v: seq<ProjectContainer>, containerId: string, memberId: string): (r: seq<MemberInfo>)
    ensures var k := FindContainerIndex(v, containerId);
      forall m :: m in r <==>
        m in members && !m.isDeleted && (k < 0 || v[k].items == [] || Assignable(m, MemberIds(v[k].items), memberId))
  {
    if members == [] then []
    else
      var k := FindContainerIndex(v, containerId);
      var base := if k >= 0 && v[k].items != [] then Filter(members, Offered(MemberIds(v[k].items), memberId)) else members;
      Filter(base, Live)
  }

  /** The candidates keep the roster's order: they are one filter of the roster. */
  lemma CandidatesInRosterOrder(members: seq<MemberInfo>, v: seq<ProjectContainer>, containerId: string, memberId: string)
    ensures var k := FindContainerIndex(v, containerId);
      CandidateMembers(members, v, containerId, memberId) ==
        if k >= 0 && v[k].items != [] then Filter(members, Both(Offered(MemberIds(v[k].items), memberId), Live))
        else Filter(members, Live)
  {
    var k := FindContainerIndex(v, containerId);
    if members != [] && k >= 0 && v[k].items != [] {
      FilterFilter(members, Offered(MemberIds(v[k].items), memberId), Live);
    }
  }

  /** While an item is edited, its own member stays selectable (unless marked deleted), and no
      other member assigned to the project is offered. */
  lemma EditedMemberStaysCandidate(members: seq<MemberInfo>, v: seq<ProjectContainer>, containerId: string, memberId: string, m: MemberInfo)
    requires m in members && !m.isDeleted
    requires FindContainerIndex(v, containerId) >= 0
    ensures memberId != "" && m.id == Some(memberId) ==> m in CandidateMembers(members, v, containerId, memberId)
    ensures m.id.Some? && m.id.value in MemberIds(v[FindContainerIndex(v, containerId)].items) && m.id != Some(memberId) ==>
      m !in CandidateMembers(members, v, containerId, memberId)
  {
  }

  // ---------------------------------------------------------------------------------------------
  // Render order

  /** The sort key of the board's render. */
  function OrderKey(c: ProjectContainer): int
  {
    c.displayOrder
  }

  /** `containers.sort((a, b) => a.displayOrder - b.displayOrder)`, which is stable. */
  function RenderOrder(v: seq<ProjectContainer>): (r: seq<ProjectContainer>)
    ensures multiset(r) == multiset(v)
    ensures SortedBy(r, OrderKey)
  {
    SortBySorted(v, OrderKey);
    SortBy(v, OrderKey)
  }

  /** After a container move the render sort changes nothing: the display orders are already the
      indices. */
  lemma RenderAfterSortContainer(v: seq<ProjectContainer>, activeId: string, overId: string)
    requires SortContainer(v, activeId, overId).Some?
    ensures RenderOrder(SortContainer(v, activeId, overId).value) == SortContainer(v, activeId, overId).value
  {
    var r := SortContainer(v, activeId, overId).value;
    assert SortedBy(r, OrderKey);
    SortByKeepsSorted(r, OrderKey);
  }

  /** Projects with equal display orders are drawn in the order the list holds them. */
  lemma RenderOrderStable(v: seq<ProjectContainer>, order: int)
    ensures WithKey(RenderOrder(v), OrderKey, order) == WithKey(v, OrderKey, order)
  {
    SortByStable(v, OrderKey, order);
  }
}
