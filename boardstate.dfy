/** The board page's state as the program keeps it: the working list of project objects, the
    snapshot list taken when the board was loaded, and the edit-mode flag.

    The page shares and mutates JavaScript objects, so the model makes that part of the heap
    explicit. Project objects and items arrays have identities (references). A spread copy
    `{...c}` is a new project object that shares `c`'s items array. `push` and `splice` change an
    array that every object holding it sees. Each handler of `Board` performs the page's steps on
    this heap and is proved against the handler's function on values in module Engine. */
module BoardState {
  import opened Types
  import opened Strings
  import opened Lists
  import opened Engine

  /** The identity of a JavaScript object: a project object or an items array. */
  type Ref = nat

  /** A project object; `items` refers to an items array that other project objects may share. */
  datatype Obj = Obj(id: string, displayOrder: int, name: string, description: string, tags: seq<string>, items: Ref)

  /** The objects the page reaches, by identity, and the next unused reference. */
  datatype Heap = Heap(objs: map<Ref, Obj>, lists: map<Ref, seq<MemberItem>>, next: Ref)

  /** Every reference in use lies below `next`, so an allocation at `next` is new, and every
      project object's items array exists. */
  ghost predicate HeapOk(h: Heap)
  {
    && (forall r :: r in h.objs ==> r < h.next && h.objs[r].items in h.lists)
    && (forall l :: l in h.lists ==> l < h.next)
  }

  /** Every entry of the array refers to a project object. */
  ghost predicate Allocated(h: Heap, cs: seq<Ref>)
  {
    forall r :: r in cs ==> r in h.objs
  }

  /** The project object `r` read as a value. */
  function Val(h: Heap, r: Ref): (c: ProjectContainer)
    requires HeapOk(h) && r in h.objs
    ensures c.id == h.objs[r].id && c.items == h.lists[h.objs[r].items]
  {
    var o := h.objs[r];
    ProjectContainer(o.id, o.displayOrder, o.name, o.description, o.tags, h.lists[o.items])
  }

  /** An array of project objects read as a list of values. */
  function View(h: Heap, cs: seq<Ref>): (v: seq<ProjectContainer>)
    requires HeapOk(h) && Allocated(h, cs)
    ensures |v| == |cs| && forall k :: 0 <= k < |cs| ==> v[k] == Val(h, cs[k])
  {
    seq(|cs|, k requires 0 <= k < |cs| => Val(h, cs[k]))
  }

  /** No two project objects of the array hold the same items array (so none occurs twice). */
  ghost predicate Separate(h: Heap, cs: seq<Ref>)
    requires HeapOk(h) && Allocated(h, cs)
  {
    forall i, j :: 0 <= i < j < |cs| ==> h.objs[cs[i]].items != h.objs[cs[j]].items
  }

  /** No project object of `cs` holds an items array that a project object of `os` holds (so the
      two arrays share no project object either). */
  ghost predicate Apart(h: Heap, cs: seq<Ref>, os: seq<Ref>)
    requires HeapOk(h) && Allocated(h, cs) && Allocated(h, os)
  {
    forall i, j :: 0 <= i < |cs| && 0 <= j < |os| ==> h.objs[cs[i]].items != h.objs[os[j]].items
  }

  /** `h2` only adds objects to `h`: what `h` holds is unchanged. */
  ghost predicate Extends(h: Heap, h2: Heap)
  {
    && h.next <= h2.next
    && (forall r :: r in h.objs ==> r in h2.objs && h2.objs[r] == h.objs[r])
    && (forall l :: l in h.lists ==> l in h2.lists && h2.lists[l] == h.lists[l])
  }

  /** Allocation leaves every existing array's view, and its separation, as it was. */
  lemma ExtendsKeepsView(h: Heap, h2: Heap, cs: seq<Ref>)
    requires HeapOk(h) && HeapOk(h2) && Extends(h, h2) && Allocated(h, cs)
    ensures Allocated(h2, cs) && View(h2, cs) == View(h, cs)
    ensures Separate(h, cs) ==> Separate(h2, cs)
  {
  }

  // ---------------------------------------------------------------------------------------------
  // The heap steps the page takes

  /** An array literal or `map` producing a new items array, which goes at `h.next`. */
  function NewArray(h: Heap, e: seq<MemberItem>): (h2: Heap)
    requires HeapOk(h)
    ensures HeapOk(h2) && Extends(h, h2) && h2.next == h.next + 1 && h2.objs == h.objs && h.next in h2.lists && h2.lists[h.next] == e
  {
    h.(lists := h.lists[h.next := e], next := h.next + 1)
  }

  /** An object literal or spread copy: a new project object, which goes at `h.next`. */
  function NewObject(h: Heap, o: Obj): (h2: Heap)
    requires HeapOk(h) && o.items in h.lists
    ensures HeapOk(h2) && Extends(h, h2) && h2.next == h.next + 1 && h2.lists == h.lists && h.next in h2.objs && h2.objs[h.next] == o
  {
    h.(objs := h.objs[h.next := o], next := h.next + 1)
  }

  /** `push` or `splice` on the items array `l`: its contents become `e`. */
  function WriteArray(h: Heap, l: Ref, e: seq<MemberItem>): (h2: Heap)
    requires HeapOk(h) && l in h.lists
    ensures HeapOk(h2) && h2.objs == h.objs && h2.next == h.next && l in h2.lists && h2.lists[l] == e
  {
    h.(lists := h.lists[l := e])
  }

  /** `obj.items = …`: the project object's items field is reassigned to the array `l`. */
  function SetItems(h: Heap, r: Ref, l: Ref): (h2: Heap)
    requires HeapOk(h) && r in h.objs && l in h.lists
    ensures HeapOk(h2) && h2.lists == h.lists && h2.next == h.next && r in h2.objs && h2.objs[r].items == l
  {
    h.(objs := h.objs[r := h.objs[r].(items := l)])
  }

  /** What the board page keeps about its two arrays: allocated, separate, distinct ids. */
  ghost predicate StateOk(h: Heap, cs: seq<Ref>, os: seq<Ref>)
  {
    && HeapOk(h) && Allocated(h, cs) && Allocated(h, os)
    && Separate(h, cs) && Separate(h, os)
    && UniqueIds(View(h, cs)) && UniqueIds(View(h, os))
  }

  /** Apart, stated on membership so that it survives filtering and reordering. */
  lemma ApartByMembership(h: Heap, cs: seq<Ref>, os: seq<Ref>)
    requires HeapOk(h) && Allocated(h, cs) && Allocated(h, os)
    ensures Apart(h, cs, os) <==> forall r, q :: r in cs && q in os ==> h.objs[r].items != h.objs[q].items
  {
    if Apart(h, cs, os) {
      forall r, q | r in cs && q in os
        ensures h.objs[r].items != h.objs[q].items
      {
        var i :| 0 <= i < |cs| && cs[i] == r;
        var j :| 0 <= j < |os| && os[j] == q;
      }
    }
  }

  /** Writing the items array of `cs[k]`: that project reads the new contents and, because the
      arrays are separate, every other project of `cs` reads as before. A snapshot apart from `cs`
      is untouched. */
  lemma WriteOwn(h: Heap, cs: seq<Ref>, os: seq<Ref>, k: nat, e: seq<MemberItem>)
    requires StateOk(h, cs, os) && k < |cs|
    ensures var h2 := WriteArray(h, h.objs[cs[k]].items, e);
      && StateOk(h2, cs, os)
      && View(h2, cs) == View(h, cs)[k := View(h, cs)[k].(items := e)]
      && (Apart(h, cs, os) ==> Apart(h2, cs, os) && View(h2, os) == View(h, os))
  {
    var l := h.objs[cs[k]].items;
    var h2 := WriteArray(h, l, e);
    var v, w := View(h, cs), View(h2, cs);
    forall j | 0 <= j < |cs|
      ensures w[j] == v[k := v[k].(items := e)][j]
    {
      if j != k {
        assert h.objs[cs[j]].items != l;
      }
    }
    if Apart(h, cs, os) {
      forall j | 0 <= j < |os|
        ensures View(h2, os)[j] == View(h, os)[j]
      {
        assert h.objs[os[j]].items != l;
      }
    }
  }

  /** A new items array with contents `e` put into the items field of `cs[k]`: that project
      reads `e`, the rest of `cs` as before, and a snapshot apart from `cs` is untouched. */
  lemma RebindFresh(h: Heap, cs: seq<Ref>, os: seq<Ref>, k: nat, e: seq<MemberItem>)
    requires StateOk(h, cs, os) && k < |cs|
    ensures var h2 := SetItems(NewArray(h, e), cs[k], h.next);
      && StateOk(h2, cs, os)
      && View(h2, cs) == View(h, cs)[k := View(h, cs)[k].(items := e)]
      && (Apart(h, cs, os) ==> Apart(h2, cs, os) && View(h2, os) == View(h, os))
  {
    var h1 := NewArray(h, e);
    var h2 := SetItems(h1, cs[k], h.next);
    ExtendsKeepsView(h, h1, cs);
    ExtendsKeepsView(h, h1, os);
    var v, w := View(h1, cs), View(h2, cs);
    forall j | 0 <= j < |cs|
      ensures w[j] == v[k := v[k].(items := e)][j]
    {
      if j != k {
        assert h1.objs[cs[j]].items != h1.objs[cs[k]].items;
      }
    }
    forall i, j | 0 <= i < j < |os|
      ensures h2.objs[os[i]].items != h2.objs[os[j]].items
    {
      assert h1.objs[os[i]].items != h1.objs[os[j]].items;
    }
    forall j | 0 <= j < |os|
      ensures View(h2, os)[j].id == View(h1, os)[j].id
    {
    }
    if Apart(h, cs, os) {
      forall j | 0 <= j < |os|
        ensures os[j] != cs[k] && View(h2, os)[j] == View(h1, os)[j]
      {
        assert h1.objs[cs[k]].items != h1.objs[os[j]].items;
      }
    }
  }

  /** A spread copy of `cs[k]` with a new items array `e` replaces `cs[k]` in a copy of the
      array. Only allocation happens, so every other array reads as before. */
  lemma ReplaceByCopy(h: Heap, cs: seq<Ref>, os: seq<Ref>, k: nat, e: seq<MemberItem>)
    requires StateOk(h, cs, os) && k < |cs|
    ensures var h1 := NewArray(h, e);
      var h2 := NewObject(h1, h.objs[cs[k]].(items := h.next));
      var cs2 := cs[k := h1.next];
      && StateOk(h2, cs2, os)
      && View(h2, cs2) == View(h, cs)[k := View(h, cs)[k].(items := e)]
      && View(h2, os) == View(h, os)
      && (Apart(h, cs, os) ==> Apart(h2, cs2, os))
  {
    var h1 := NewArray(h, e);
    var h2 := NewObject(h1, h.objs[cs[k]].(items := h.next));
    var cs2 := cs[k := h1.next];
    ExtendsKeepsView(h, h2, cs);
    ExtendsKeepsView(h, h2, os);
    var v, w := View(h, cs), View(h2, cs2);
    forall j | 0 <= j < |cs|
      ensures w[j] == v[k := v[k].(items := e)][j]
    {
    }
    forall i, j | 0 <= i < j < |cs2|
      ensures h2.objs[cs2[i]].items != h2.objs[cs2[j]].items
    {
      assert h.objs[cs[i]].items != h.objs[cs[j]].items;
    }
  }

  /** A new project object over a new empty items array appended to a copy of the array. */
  lemma AppendNew(h: Heap, cs: seq<Ref>, os: seq<Ref>, p: ProjectContainer)
    requires StateOk(h, cs, os) && p.items == [] && forall k :: 0 <= k < |cs| ==> h.objs[cs[k]].id != p.id
    ensures var h1 := NewArray(h, []);
      var h2 := NewObject(h1, Obj(p.id, p.displayOrder, p.name, p.description, p.tags, h.next));
      var cs2 := cs + [h1.next];
      && StateOk(h2, cs2, os)
      && View(h2, cs2) == View(h, cs) + [p]
      && View(h2, os) == View(h, os)
      && (Apart(h, cs, os) ==> Apart(h2, cs2, os))
  {
    var h1 := NewArray(h, []);
    var h2 := NewObject(h1, Obj(p.id, p.displayOrder, p.name, p.description, p.tags, h.next));
    var cs2 := cs + [h1.next];
    ExtendsKeepsView(h, h2, cs);
    ExtendsKeepsView(h, h2, os);
    assert View(h2, cs2) == View(h, cs) + [p] by {
      forall j | 0 <= j < |cs2|
        ensures View(h2, cs2)[j] == (View(h, cs) + [p])[j]
      {
        if j < |cs| {
          assert cs2[j] == cs[j];
        }
      }
    }
  }

  /** Allocation keeps the state and the views of both arrays. */
  lemma ExtendsKeepsState(h: Heap, h2: Heap, cs: seq<Ref>, os: seq<Ref>)
    requires StateOk(h, cs, os) && HeapOk(h2) && Extends(h, h2)
    ensures StateOk(h2, cs, os) && View(h2, cs) == View(h, cs) && View(h2, os) == View(h, os)
    ensures Apart(h, cs, os) ==> Apart(h2, cs, os)
  {
    ExtendsKeepsView(h, h2, cs);
    ExtendsKeepsView(h, h2, os);
  }

  /** A new array `cs2` whose project objects, place by place, have the ids and items arrays of
      those of `cs` keeps the state, and keeps it apart from a snapshot `cs` was apart from. */
  lemma SameShape(h: Heap, cs: seq<Ref>, os: seq<Ref>, h2: Heap, cs2: seq<Ref>)
    requires StateOk(h, cs, os) && HeapOk(h2) && Extends(h, h2) && Allocated(h2, cs2) && |cs2| == |cs|
    requires forall k :: 0 <= k < |cs| ==> h2.objs[cs2[k]].items == h.objs[cs[k]].items && h2.objs[cs2[k]].id == h.objs[cs[k]].id
    ensures StateOk(h2, cs2, os) && View(h2, os) == View(h, os)
    ensures Apart(h, cs, os) ==> Apart(h2, cs2, os)
  {
    ExtendsKeepsView(h, h2, os);
    forall i, j | 0 <= i < j < |cs2|
      ensures View(h2, cs2)[i].id != View(h2, cs2)[j].id
    {
      assert View(h, cs)[i].id != View(h, cs)[j].id;
    }
  }

  // ---------------------------------------------------------------------------------------------
  // A snapshot that shares project objects or items arrays with the board

  /** No project object of `cs` holds the items array of the project object `r`. */
  ghost predicate Unshared(h: Heap, cs: seq<Ref>, r: Ref)
    requires HeapOk(h) && Allocated(h, cs) && r in h.objs
  {
    forall i :: 0 <= i < |cs| ==> h.objs[cs[i]].items != h.objs[r].items
  }

  /** What a change of the board `cs` from `h` to `h2` keeps of the snapshot `os`, however the two
      share: every snapshot project keeps its fields other than its items, and one whose items
      array no project of the board holds still reads as before and is still unshared. */
  ghost predicate UnsharedKept(h: Heap, h2: Heap, cs: seq<Ref>, os: seq<Ref>)
    requires HeapOk(h) && HeapOk(h2) && Allocated(h, cs) && Allocated(h, os) && Allocated(h2, os)
  {
    && Allocated(h2, cs)
    && SameFrames(View(h, os), View(h2, os))
    && forall j :: 0 <= j < |os| && Unshared(h, cs, os[j]) ==> Unshared(h2, cs, os[j]) && View(h2, os)[j] == View(h, os)[j]
  }

  /** The snapshot `os` after a `push` onto the items array of the project `id` of `cs`, when there
      is one: every snapshot project that holds that array reads the board project's new items,
      and every other one reads as before. */
  ghost predicate PushSeen(h: Heap, h2: Heap, cs: seq<Ref>, os: seq<Ref>, id: string)
    requires StateOk(h, cs, os) && StateOk(h2, cs, os)
  {
    var k := FindContainerIndex(View(h, cs), id);
    k >= 0 ==>
      View(h2, os) == seq(|os|, j requires 0 <= j < |os| =>
        if h.objs[os[j]].items == h.objs[cs[k]].items then Val(h, os[j]).(items := Val(h2, cs[k]).items) else Val(h, os[j]))
  }

  /** The snapshot `os` after the items field of the project `id` of `cs`, when there is one, was
      given a new array: a snapshot project that is that very object reads the board project's
      new items, and every other one reads as before. */
  ghost predicate RebindSeen(h: Heap, h2: Heap, cs: seq<Ref>, os: seq<Ref>, id: string)
    requires StateOk(h, cs, os) && StateOk(h2, cs, os)
  {
    var k := FindContainerIndex(View(h, cs), id);
    k >= 0 ==>
      View(h2, os) == seq(|os|, j requires 0 <= j < |os| =>
        if os[j] == cs[k] then Val(h, os[j]).(items := Val(h2, cs[k]).items) else Val(h, os[j]))
  }

  /** Writing the items array of a project of `cs` keeps what the snapshot is. */
  lemma WriteShared(h: Heap, cs: seq<Ref>, os: seq<Ref>, k: nat, e: seq<MemberItem>)
    requires StateOk(h, cs, os) && k < |cs|
    ensures UnsharedKept(h, WriteArray(h, h.objs[cs[k]].items, e), cs, os)
  {
  }

  /** A `push` onto the items array of the project `id`: the snapshot reads as `PushSeen` says. */
  lemma PushReachesSnapshot(h: Heap, cs: seq<Ref>, os: seq<Ref>, id: string, e: seq<MemberItem>)
    requires StateOk(h, cs, os) && FindContainerIndex(View(h, cs), id) >= 0
    ensures var h2 := WriteArray(h, h.objs[cs[FindContainerIndex(View(h, cs), id)]].items, e);
      StateOk(h2, cs, os) && PushSeen(h, h2, cs, os, id)
  {
    var k := FindContainerIndex(View(h, cs), id);
    WriteOwn(h, cs, os, k, e);
  }

  /** A new items array with contents `e` put into the items field of a project of `cs` keeps
      what the snapshot is. */
  lemma RebindShared(h: Heap, cs: seq<Ref>, os: seq<Ref>, k: nat, e: seq<MemberItem>)
    requires StateOk(h, cs, os) && k < |cs|
    ensures UnsharedKept(h, SetItems(NewArray(h, e), cs[k], h.next), cs, os)
  {
    var h1 := NewArray(h, e);
    var h2 := SetItems(h1, cs[k], h.next);
    forall j | 0 <= j < |os| && Unshared(h, cs, os[j])
      ensures Unshared(h2, cs, os[j]) && os[j] != cs[k]
    {
      assert h.objs[cs[k]].items != h.objs[os[j]].items;
    }
  }

  /** A new items array put into the items field of the project `id`: the snapshot reads as
      `RebindSeen` says. */
  lemma RebindReachesSnapshot(h: Heap, cs: seq<Ref>, os: seq<Ref>, id: string, e: seq<MemberItem>)
    requires StateOk(h, cs, os) && FindContainerIndex(View(h, cs), id) >= 0
    ensures var h2 := SetItems(NewArray(h, e), cs[FindContainerIndex(View(h, cs), id)], h.next);
      StateOk(h2, cs, os) && RebindSeen(h, h2, cs, os, id)
  {
    var k := FindContainerIndex(View(h, cs), id);
    RebindFresh(h, cs, os, k, e);
    var h1 := NewArray(h, e);
    ExtendsKeepsView(h, h1, os);
  }

  /** Allocation keeps what the snapshot is. */
  lemma UnsharedKeptExtends(h: Heap, h2: Heap, cs: seq<Ref>, os: seq<Ref>)
    requires StateOk(h, cs, os) && HeapOk(h2) && Extends(h, h2)
    ensures Allocated(h2, os) && UnsharedKept(h, h2, cs, os)
  {
    ExtendsKeepsView(h, h2, os);
  }

  /** Two changes of the board in a row keep what each keeps. */
  lemma UnsharedKeptTrans(h: Heap, h1: Heap, h2: Heap, cs: seq<Ref>, os: seq<Ref>)
    requires HeapOk(h) && HeapOk(h1) && HeapOk(h2) && Allocated(h, cs) && Allocated(h, os) && Allocated(h1, os) && Allocated(h2, os)
    requires UnsharedKept(h, h1, cs, os) && UnsharedKept(h1, h2, cs, os)
    ensures UnsharedKept(h, h2, cs, os)
  {
    forall k | 0 <= k < |os|
      ensures Frame(View(h, os)[k]) == Frame(View(h2, os)[k])
    {
      assert Frame(View(h, os)[k]) == Frame(View(h1, os)[k]);
    }
  }

  // ---------------------------------------------------------------------------------------------
  // Filtering and reordering the array of project objects

  /** The filter test of `handleDeleteProject`, on project objects. */
  function RefOtherId(h: Heap, id: string): Ref -> bool
  {
    (r: Ref) => r in h.objs && h.objs[r].id != id
  }

  /** The items array of a project object, as a function of the object. */
  function ItemsOf(h: Heap): Ref -> Ref
  {
    (r: Ref) => if r in h.objs then h.objs[r].items else 0
  }

  /** The id of a project, as a function of the project. */
  function IdOf(c: ProjectContainer): string
  {
    c.id
  }

  lemma ViewCons(h: Heap, cs: seq<Ref>)
    requires HeapOk(h) && Allocated(h, cs) && cs != []
    ensures View(h, cs) == [Val(h, cs[0])] + View(h, cs[1..])
  {
    assert View(h, cs)[1..] == View(h, cs[1..]);
  }

  /** Filtering the objects by id reads as filtering the projects by id. */
  lemma {:induction false} ViewFilter(h: Heap, cs: seq<Ref>, id: string)
    requires HeapOk(h) && Allocated(h, cs)
    ensures Allocated(h, Filter(cs, RefOtherId(h, id)))
    ensures View(h, Filter(cs, RefOtherId(h, id))) == Filter(View(h, cs), OtherId(id))
  {
    var p := RefOtherId(h, id);
    if cs != [] {
      ViewFilter(h, cs[1..], id);
      ViewCons(h, cs);
      var v := View(h, cs);
      assert v[0] == Val(h, cs[0]) && v[1..] == View(h, cs[1..]);
      assert Filter(v, OtherId(id)) == if OtherId(id)(v[0]) then [v[0]] + Filter(v[1..], OtherId(id)) else Filter(v[1..], OtherId(id));
      assert Filter(cs, p) == if p(cs[0]) then [cs[0]] + Filter(cs[1..], p) else Filter(cs[1..], p);
      if p(cs[0]) {
        ViewCons(h, Filter(cs, p));
        assert Filter(cs, p)[1..] == Filter(cs[1..], p);
      }
    }
  }

  /** Separate, as distinct items arrays along the array. */
  lemma SeparateInjective(h: Heap, cs: seq<Ref>)
    requires HeapOk(h) && Allocated(h, cs)
    ensures Separate(h, cs) <==> InjectiveOn(cs, ItemsOf(h))
  {
  }

  /** Distinct ids, as distinct images under `IdOf`. */
  lemma UniqueInjective(v: seq<ProjectContainer>)
    ensures UniqueIds(v) <==> InjectiveOn(v, IdOf)
  {
  }

  /** `containers.filter(c => c.id !== id)` keeps the state and reads as the filtered projects. */
  lemma FilterState(h: Heap, cs: seq<Ref>, os: seq<Ref>, id: string)
    requires StateOk(h, cs, os)
    ensures var cs2 := Filter(cs, RefOtherId(h, id));
      && Allocated(h, cs2) && StateOk(h, cs2, os)
      && View(h, cs2) == Filter(View(h, cs), OtherId(id))
      && (Apart(h, cs, os) ==> Apart(h, cs2, os))
  {
    var cs2 := Filter(cs, RefOtherId(h, id));
    ViewFilter(h, cs, id);
    SeparateInjective(h, cs);
    FilterInjective(cs, RefOtherId(h, id), ItemsOf(h));
    SeparateInjective(h, cs2);
    FilterKeepsUnique(View(h, cs), OtherId(id));
    ApartByMembership(h, cs, os);
    ApartByMembership(h, cs2, os);
  }

  /** The render sort key, on project objects. */
  function RefOrder(h: Heap): Ref -> int
  {
    (r: Ref) => if r in h.objs then h.objs[r].displayOrder else 0
  }

  /** The sort inserts only objects that are there. */
  lemma InsertByAllocated(h: Heap, x: Ref, t: seq<Ref>)
    requires HeapOk(h) && x in h.objs && Allocated(h, t)
    ensures Allocated(h, InsertBy(x, t, RefOrder(h)))
  {
    var r := InsertBy(x, t, RefOrder(h));
    forall q | q in r
      ensures q in h.objs
    {
      assert q in multiset(r);
    }
  }

  lemma {:induction false} ViewInsertBy(h: Heap, x: Ref, t: seq<Ref>)
    requires HeapOk(h) && x in h.objs && Allocated(h, t)
    ensures Allocated(h, InsertBy(x, t, RefOrder(h)))
    ensures View(h, InsertBy(x, t, RefOrder(h))) == InsertBy(Val(h, x), View(h, t), OrderKey)
  {
    var r := InsertBy(x, t, RefOrder(h));
    InsertByAllocated(h, x, t);
    if t == [] || RefOrder(h)(x) <= RefOrder(h)(t[0]) {
      assert r == [x] + t;
      ViewCons(h, r);
      assert r[1..] == t;
    } else {
      var rest := InsertBy(x, t[1..], RefOrder(h));
      assert r == [t[0]] + rest;
      InsertByAllocated(h, x, t[1..]);
      ViewInsertBy(h, x, t[1..]);
      ViewCons(h, t);
      ViewCons(h, r);
      assert r[1..] == rest;
      var vt := View(h, t);
      assert vt[0] == Val(h, t[0]) && vt[1..] == View(h, t[1..]);
      assert InsertBy(Val(h, x), vt, OrderKey) == [vt[0]] + InsertBy(Val(h, x), vt[1..], OrderKey);
    }
  }

  /** Sorting the objects by display order reads as sorting the projects by display order. */
  lemma {:induction false} ViewSortBy(h: Heap, cs: seq<Ref>)
    requires HeapOk(h) && Allocated(h, cs)
    ensures Allocated(h, SortBy(cs, RefOrder(h)))
    ensures View(h, SortBy(cs, RefOrder(h))) == SortBy(View(h, cs), OrderKey)
  {
    if cs != [] {
      ViewSortBy(h, cs[1..]);
      ViewCons(h, cs);
      ViewInsertBy(h, cs[0], SortBy(cs[1..], RefOrder(h)));
    }
  }

  /** The render sort of the array keeps the state and reads as the render order of the board. */
  lemma SortState(h: Heap, cs: seq<Ref>, os: seq<Ref>)
    requires StateOk(h, cs, os)
    ensures var cs2 := SortBy(cs, RefOrder(h));
      && Allocated(h, cs2) && StateOk(h, cs2, os)
      && View(h, cs2) == RenderOrder(View(h, cs))
      && (Apart(h, cs, os) ==> Apart(h, cs2, os))
  {
    var cs2 := SortBy(cs, RefOrder(h));
    ViewSortBy(h, cs);
    SeparateInjective(h, cs);
    SortByInjective(cs, RefOrder(h), ItemsOf(h));
    SeparateInjective(h, cs2);
    UniqueInjective(View(h, cs));
    SortByInjective(View(h, cs), OrderKey, IdOf);
    UniqueInjective(View(h, cs2));
    ApartByMembership(h, cs, os);
    ApartByMembership(h, cs2, os);
    forall r | r in cs2
      ensures r in cs
    {
      assert r in multiset(cs2);
    }
  }

  /** `arrayMove` on the array of project objects reads as `arrayMove` on the board, and moves
      only objects that were there. */
  lemma MoveView(h: Heap, cs: seq<Ref>, from: nat, to: nat)
    requires HeapOk(h) && Allocated(h, cs) && from < |cs| && to < |cs|
    ensures forall r :: r in ArrayMove(cs, from, to) ==> r in cs
    ensures Allocated(h, ArrayMove(cs, from, to)) && View(h, ArrayMove(cs, from, to)) == ArrayMove(View(h, cs), from, to)
  {
    var cs2 := ArrayMove(cs, from, to);
    ArrayMoveSource(cs, from, to);
    ArrayMoveSource(View(h, cs), from, to);
    forall r | r in cs2
      ensures r in cs
    {
      assert r in multiset(cs2);
    }
  }

  /** `arrayMove` on the array of project objects keeps the state and reads as `arrayMove` on the
      board. */
  lemma MoveState(h: Heap, cs: seq<Ref>, os: seq<Ref>, from: nat, to: nat)
    requires StateOk(h, cs, os) && from < |cs| && to < |cs|
    ensures var cs2 := ArrayMove(cs, from, to);
      && Allocated(h, cs2) && StateOk(h, cs2, os)
      && View(h, cs2) == ArrayMove(View(h, cs), from, to)
      && (Apart(h, cs, os) ==> Apart(h, cs2, os))
  {
    var cs2 := ArrayMove(cs, from, to);
    var v := View(h, cs);
    MoveView(h, cs, from, to);
    ArrayMoveSource(cs, from, to);
    forall i, j | 0 <= i < j < |cs2|
      ensures h.objs[cs2[i]].items != h.objs[cs2[j]].items && View(h, cs2)[i].id != View(h, cs2)[j].id
    {
      var a, b := MoveSource(from, to, i), MoveSource(from, to, j);
      if a < b {
        assert h.objs[cs[a]].items != h.objs[cs[b]].items && v[a].id != v[b].id;
      } else {
        assert h.objs[cs[b]].items != h.objs[cs[a]].items && v[b].id != v[a].id;
      }
    }
    ApartByMembership(h, cs, os);
    ApartByMembership(h, cs2, os);
  }

  // ---------------------------------------------------------------------------------------------
  // The page's handlers that build a new array, on the heap

  /** One step of `structuredClone`: the next project as a new object over a new items array,
      appended to the copies made so far. */
  lemma CloneStep(h: Heap, h2: Heap, cs: seq<Ref>, data: seq<ProjectContainer>, k: nat)
    requires HeapOk(h) && HeapOk(h2) && Extends(h, h2) && Allocated(h2, cs) && |cs| == k < |data|
    requires forall i :: 0 <= i < k ==> Val(h2, cs[i]) == data[i] && h.next <= h2.objs[cs[i]].items
    requires Separate(h2, cs)
    ensures var c := data[k];
      var h3 := NewObject(NewArray(h2, c.items), Obj(c.id, c.displayOrder, c.name, c.description, c.tags, h2.next));
      var cs2: seq<Ref> := cs + [h2.next + 1];
      && HeapOk(h3) && Extends(h, h3) && Allocated(h3, cs2) && Separate(h3, cs2)
      && forall i :: 0 <= i < k + 1 ==> Val(h3, cs2[i]) == data[i] && h.next <= h3.objs[cs2[i]].items
  {
    var c := data[k];
    var h1 := NewArray(h2, c.items);
    var h3 := NewObject(h1, Obj(c.id, c.displayOrder, c.name, c.description, c.tags, h2.next));
    var cs2: seq<Ref> := cs + [h2.next + 1];
    ExtendsKeepsView(h2, h3, cs);
    forall i | 0 <= i < k
      ensures Val(h3, cs2[i]) == data[i] && h.next <= h3.objs[cs2[i]].items
    {
      assert cs2[i] == cs[i] && View(h3, cs)[i] == View(h2, cs)[i];
    }
  }

  /** `structuredClone` of a list of projects: new project objects over new items arrays, all
      beyond what the heap held before. */
  method Clone(h: Heap, data: seq<ProjectContainer>) returns (h2: Heap, cs: seq<Ref>)
    requires HeapOk(h)
    ensures HeapOk(h2) && Extends(h, h2) && Allocated(h2, cs)
    ensures View(h2, cs) == data && Separate(h2, cs)
    ensures forall k :: 0 <= k < |cs| ==> h.next <= h2.objs[cs[k]].items
  {
    h2, cs := h, [];
    for k := 0 to |data|
      invariant HeapOk(h2) && Extends(h, h2) && Allocated(h2, cs) && |cs| == k
      invariant forall i :: 0 <= i < k ==> Val(h2, cs[i]) == data[i] && h.next <= h2.objs[cs[i]].items
      invariant Separate(h2, cs)
    {
      CloneStep(h, h2, cs, data, k);
      var c := data[k];
      var l := h2.next;
      h2 := NewArray(h2, c.items);
      var r := h2.next;
      h2 := NewObject(h2, Obj(c.id, c.displayOrder, c.name, c.description, c.tags, l));
      cs := cs + [r];
    }
  }

  /** `containers.map(c => ({...c, displayOrder: index}))`: a spread copy of every project object,
      numbered by its place. */
  method Renumbered(h: Heap, ms: seq<Ref>, ghost os: seq<Ref>) returns (h2: Heap, out: seq<Ref>)
    requires StateOk(h, ms, os)
    ensures StateOk(h2, out, os) && Extends(h, h2)
    ensures View(h2, out) == Renumber(View(h, ms)) && View(h2, os) == View(h, os)
    ensures Apart(h, ms, os) ==> Apart(h2, out, os)
  {
    h2, out := h, [];
    for k := 0 to |ms|
      invariant HeapOk(h2) && Extends(h, h2) && Allocated(h2, out) && |out| == k
      invariant forall i :: 0 <= i < k ==> h2.objs[out[i]] == h.objs[ms[i]].(displayOrder := i)
    {
      var r := h2.next;
      h2 := NewObject(h2, h.objs[ms[k]].(displayOrder := k));
      out := out + [r];
    }
    SameShape(h, ms, os, h2, out);
    assert View(h2, out) == Renumber(View(h, ms)) by {
      forall k | 0 <= k < |ms|
        ensures View(h2, out)[k] == Renumber(View(h, ms))[k]
      {
      }
    }
  }

  /** `handleEditProject` (without a dialog error): the projects with the id are replaced by spread
      copies carrying the dialog's fields; the others stay the same objects. */
  method SpreadEdit(h: Heap, cs: seq<Ref>, ghost os: seq<Ref>, currentId: string, name: string, description: string, tags: seq<string>)
    returns (h2: Heap, out: seq<Ref>)
    requires StateOk(h, cs, os)
    ensures StateOk(h2, out, os) && Extends(h, h2)
    ensures View(h2, out) == EditProject(View(h, cs), false, currentId, name, description, tags)
    ensures View(h2, os) == View(h, os)
    ensures Apart(h, cs, os) ==> Apart(h2, out, os)
  {
    ghost var v := View(h, cs);
    ghost var w := EditProject(v, false, currentId, name, description, tags);
    h2, out := h, [];
    for k := 0 to |cs|
      invariant HeapOk(h2) && Extends(h, h2) && Allocated(h2, out) && |out| == k
      invariant forall i :: 0 <= i < k ==>
        h2.objs[out[i]].items == h.objs[cs[i]].items && h2.objs[out[i]].id == h.objs[cs[i]].id && Val(h2, out[i]) == w[i]
    {
      var o := h.objs[cs[k]];
      if o.id == currentId {
        var r := h2.next;
        h2 := NewObject(h2, o.(name := name, description := description, tags := tags));
        out := out + [r];
      } else {
        out := out + [cs[k]];
      }
    }
    SameShape(h, cs, os, h2, out);
  }

  /** `sortContainer` on the heap: `None` when either container is missing; otherwise the new
      array of renumbered spread copies. */
  method SortContainerObjs(h: Heap, cs: seq<Ref>, ghost os: seq<Ref>, activeId: string, overId: string)
    returns (h2: Heap, next: Option<seq<Ref>>)
    requires StateOk(h, cs, os)
    ensures Extends(h, h2) && StateOk(h2, cs, os) && View(h2, cs) == View(h, cs) && View(h2, os) == View(h, os)
    ensures next.Some? <==> SortContainer(View(h, cs), activeId, overId).Some?
    ensures next.Some? ==> StateOk(h2, next.value, os) && View(h2, next.value) == SortContainer(View(h, cs), activeId, overId).value
    ensures next.Some? && Apart(h, cs, os) ==> Apart(h2, next.value, os)
    ensures next.None? ==> h2 == h
    ensures Apart(h, cs, os) ==> Apart(h2, cs, os)
  {
    var v := View(h, cs);
    var active := FindTarget(v, activeId, ContainerKind);
    var over := FindTarget(v, overId, ContainerKind);
    if active.None? || over.None? {
      return h, None;
    }
    var from := FindContainerIndex(v, active.value.id);
    var to := FindContainerIndex(v, over.value.id);
    var moved := ArrayMove(cs, from, to);
    MoveState(h, cs, os, from, to);
    var out;
    h2, out := Renumbered(h, moved, os);
    ExtendsKeepsState(h, h2, cs, os);
    next := Some(out);
  }

  /** `sortItem` on the heap, over the array the handler closed over: `None` when either item is
      on no project. Within one project the object's items field gets a new, reordered array;
      across projects the item is spliced out of one shared array and into another. */
  method SortItemObjs(h: Heap, cs: seq<Ref>, ghost os: seq<Ref>, activeId: string, overId: string)
    returns (h2: Heap, next: Option<seq<Ref>>)
    requires StateOk(h, cs, os)
    ensures StateOk(h2, cs, os) && h.next <= h2.next
    ensures next.Some? <==> SortItem(View(h, cs), activeId, overId).Some?
    ensures next.Some? ==> next.value == cs && View(h2, cs) == SortItem(View(h, cs), activeId, overId).value
    ensures next.None? ==> h2 == h
    ensures UnsharedKept(h, h2, cs, os)
    ensures Apart(h, cs, os) ==> Apart(h2, cs, os) && View(h2, os) == View(h, os)
  {
    var v := View(h, cs);
    var active := FindTarget(v, activeId, ItemKind);
    var over := FindTarget(v, overId, ItemKind);
    if active.None? || over.None? {
      UnsharedKeptExtends(h, h, cs, os);
      return h, None;
    }
    IndexOfFound(v, TargetIndex(v, activeId, ItemKind));
    IndexOfFound(v, TargetIndex(v, overId, ItemKind));
    var ac := FindContainerIndex(v, active.value.id);
    var oc := FindContainerIndex(v, over.value.id);
    var ai := FindItemIndex(active.value.items, activeId);
    var oi := FindItemIndex(over.value.items, overId);
    if ac == oc {
      var reordered := ArrayMove(v[ac].items, ai, oi);
      RebindFresh(h, cs, os, ac, reordered);
      RebindShared(h, cs, os, ac, reordered);
      h2 := SetItems(NewArray(h, reordered), cs[ac], h.next);
    } else {
      var moved := v[ac].items[ai];
      var rest := RemoveAt(v[ac].items, ai);
      WriteOwn(h, cs, os, ac, rest);
      WriteShared(h, cs, os, ac, rest);
      var h1 := WriteArray(h, h.objs[cs[ac]].items, rest);
      var grown := InsertAt(v[oc].items, oi, moved);
      WriteOwn(h1, cs, os, oc, grown);
      WriteShared(h1, cs, os, oc, grown);
      h2 := WriteArray(h1, h1.objs[cs[oc]].items, grown);
      UnsharedKeptTrans(h, h1, h2, cs, os);
    }
    next := Some(cs);
  }

  /** `dropIntoContainer` on the heap, over the array the handler closed over: `None` when the item
      or the container is missing; otherwise the item is spliced out of its shared array and
      pushed onto the container's. */
  method DropObjs(h: Heap, cs: seq<Ref>, ghost os: seq<Ref>, activeId: string, overId: string)
    returns (h2: Heap, next: Option<seq<Ref>>)
    requires StateOk(h, cs, os)
    ensures StateOk(h2, cs, os) && h.next <= h2.next
    ensures next.Some? <==> DropIntoContainer(View(h, cs), activeId, overId).Some?
    ensures next.Some? ==> next.value == cs && View(h2, cs) == DropIntoContainer(View(h, cs), activeId, overId).value
    ensures next.None? ==> h2 == h
    ensures UnsharedKept(h, h2, cs, os)
    ensures Apart(h, cs, os) ==> Apart(h2, cs, os) && View(h2, os) == View(h, os)
  {
    var v := View(h, cs);
    var active := FindTarget(v, activeId, ItemKind);
    var over := FindTarget(v, overId, ContainerKind);
    if active.None? || over.None? {
      UnsharedKeptExtends(h, h, cs, os);
      return h, None;
    }
    IndexOfFound(v, TargetIndex(v, activeId, ItemKind));
    var ac := FindContainerIndex(v, active.value.id);
    var oc := FindContainerIndex(v, over.value.id);
    var ai := FindItemIndex(active.value.items, activeId);
    var moved := v[ac].items[ai];
    var rest := RemoveAt(v[ac].items, ai);
    WriteOwn(h, cs, os, ac, rest);
    WriteShared(h, cs, os, ac, rest);
    var h1 := WriteArray(h, h.objs[cs[ac]].items, rest);
    var pushed := View(h1, cs)[oc].items + [moved];
    WriteOwn(h1, cs, os, oc, pushed);
    WriteShared(h1, cs, os, oc, pushed);
    h2 := WriteArray(h1, h1.objs[cs[oc]].items, pushed);
    UnsharedKeptTrans(h, h1, h2, cs, os);
    next := Some(cs);
  }

  /** The two item handlers both drag handlers run, over the array they closed over: an item
      move when both ids name items, then a drop when the over id names a container. Each sees
      the arrays the one before changed in place; the last one that sets the board wins. */
  method ItemHandlersObjs(h: Heap, stale: seq<Ref>, ghost os: seq<Ref>, a: string, o: string) returns (h2: Heap, next: Option<seq<Ref>>)
    requires StateOk(h, stale, os)
    ensures StateOk(h2, stale, os) && h.next <= h2.next
    ensures next.Some? <==> Engine.ItemHandlers(View(h, stale), a, o).Some?
    ensures next.Some? ==> next.value == stale && View(h2, stale) == Engine.ItemHandlers(View(h, stale), a, o).value
    ensures next.None? ==> h2 == h
    ensures UnsharedKept(h, h2, stale, os)
    ensures Apart(h, stale, os) ==> Apart(h2, stale, os) && View(h2, os) == View(h, os)
  {
    h2 := h;
    UnsharedKeptExtends(h, h, stale, os);
    var s: Option<seq<Ref>> := None;
    if Includes(a, ItemMarker) && Includes(o, ItemMarker) {
      h2, s := SortItemObjs(h2, stale, os, a, o);
    }
    var h1 := h2;
    var d: Option<seq<Ref>> := None;
    if Includes(a, ItemMarker) && Includes(o, ContainerMarker) {
      h2, d := DropObjs(h2, stale, os, a, o);
      UnsharedKeptTrans(h, h1, h2, stale, os);
    }
    next := if d.Some? then d else s;
  }

  /** `handleDragMove` on the heap: nothing unless both ids are present and differ; then the item
      handlers over the current array. `changed` tells whether the board was set. */
  method DragMoveObjs(h: Heap, cs: seq<Ref>, ghost os: seq<Ref>, active: Option<string>, over: Option<string>)
    returns (h2: Heap, cs2: seq<Ref>, changed: bool)
    requires StateOk(h, cs, os)
    ensures StateOk(h2, cs2, os)
    ensures View(h2, cs2) == Engine.DragMove(View(h, cs), active, over)
    ensures !changed ==> h2 == h && cs2 == cs
    ensures UnsharedKept(h, h2, cs, os)
    ensures Apart(h, cs, os) ==> Apart(h2, cs2, os) && View(h2, os) == View(h, os)
  {
    if active.None? || over.None? || active.value == over.value {
      UnsharedKeptExtends(h, h, cs, os);
      return h, cs, false;
    }
    var next;
    h2, next := ItemHandlersObjs(h, cs, os, active.value, over.value);
    cs2, changed := cs, next.Some?;
  }

  /** `handleDragEnd` on the heap: as `handleDragMove`, with a container move tried first when both
      ids name containers. All handlers read the array as it was when the gesture ended; an item
      handler that sets the board overrides the container move. */
  method DragEndObjs(h: Heap, cs: seq<Ref>, ghost os: seq<Ref>, active: Option<string>, over: Option<string>)
    returns (h2: Heap, cs2: seq<Ref>, changed: bool)
    requires StateOk(h, cs, os)
    ensures StateOk(h2, cs2, os)
    ensures View(h2, cs2) == Engine.DragEnd(View(h, cs), active, over)
    ensures !changed ==> h2 == h && cs2 == cs
    ensures UnsharedKept(h, h2, cs, os)
    ensures Apart(h, cs, os) ==> Apart(h2, cs2, os) && View(h2, os) == View(h, os)
  {
    if active.None? || over.None? || active.value == over.value {
      UnsharedKeptExtends(h, h, cs, os);
      return h, cs, false;
    }
    var a, o := active.value, over.value;
    var h1, c := h, None;
    if Includes(a, ContainerMarker) && Includes(o, ContainerMarker) {
      h1, c := SortContainerObjs(h, cs, os, a, o);
    }
    UnsharedKeptExtends(h, h1, cs, os);
    var next;
    h2, next := ItemHandlersObjs(h1, cs, os, a, o);
    UnsharedKeptTrans(h, h1, h2, cs, os);
    if next.Some? {
      cs2, changed := cs, true;
    } else if c.Some? {
      cs2, changed := c.value, true;
    } else {
      h2, cs2, changed := h, cs, false;
      UnsharedKeptExtends(h, h, cs, os);
    }
  }

  /** `handleAddProject` on the heap: nothing while the dialog reports an error; otherwise a new
      array with a new project object, over a new empty items array, appended. */
  method AddProjectObjs(h: Heap, cs: seq<Ref>, ghost os: seq<Ref>, hasError: bool, newId: string, name: string, description: string, tags: seq<string>)
    returns (h2: Heap, cs2: seq<Ref>, changed: bool)
    requires StateOk(h, cs, os)
    requires !hasError ==> FindContainerIndex(View(h, cs), newId) < 0
    ensures StateOk(h2, cs2, os)
    ensures View(h2, cs2) == Engine.AddProject(View(h, cs), hasError, newId, name, description, tags)
    ensures !changed ==> h2 == h && cs2 == cs
    ensures View(h2, os) == View(h, os) && (Apart(h, cs, os) ==> Apart(h2, cs2, os))
  {
    if hasError {
      return h, cs, false;
    }
    var p := ProjectContainer(newId, |cs|, name, description, tags, []);
    AppendNew(h, cs, os, p);
    var h1 := NewArray(h, []);
    h2 := NewObject(h1, Obj(p.id, p.displayOrder, p.name, p.description, p.tags, h.next));
    cs2, changed := cs + [h1.next], true;
  }

  /** `handleEditProject` on the heap: nothing while the dialog reports an error; otherwise a new
      array of spread copies for the projects with the current id. */
  method EditProjectObjs(h: Heap, cs: seq<Ref>, ghost os: seq<Ref>, hasError: bool, currentId: string, name: string, description: string, tags: seq<string>)
    returns (h2: Heap, cs2: seq<Ref>, changed: bool)
    requires StateOk(h, cs, os)
    ensures StateOk(h2, cs2, os)
    ensures View(h2, cs2) == Engine.EditProject(View(h, cs), hasError, currentId, name, description, tags)
    ensures !changed ==> h2 == h && cs2 == cs
    ensures View(h2, os) == View(h, os) && (Apart(h, cs, os) ==> Apart(h2, cs2, os))
  {
    if hasError {
      return h, cs, false;
    }
    h2, cs2 := SpreadEdit(h, cs, os, currentId, name, description, tags);
    changed := true;
  }

  /** `handleDeleteProject` on the heap: nothing when no project has the id or the user does not
      confirm; otherwise the filtered array. */
  method DeleteProjectObjs(h: Heap, cs: seq<Ref>, ghost os: seq<Ref>, id: string, confirmed: bool)
    returns (cs2: seq<Ref>, changed: bool)
    requires StateOk(h, cs, os)
    ensures StateOk(h, cs2, os)
    ensures View(h, cs2) == Engine.DeleteProject(View(h, cs), id, confirmed)
    ensures !changed ==> cs2 == cs
    ensures Apart(h, cs, os) ==> Apart(h, cs2, os)
  {
    if FindContainerIndex(View(h, cs), id) < 0 || !confirmed {
      return cs, false;
    }
    FilterState(h, cs, os, id);
    cs2, changed := Filter(cs, RefOtherId(h, id)), true;
  }

  /** `handleAddMember` on the heap: the new item is pushed onto the project's own items array. */
  method AddMemberObjs(h: Heap, cs: seq<Ref>, ghost os: seq<Ref>, memberId: string, containerId: string, newItemId: string, positions: seq<Position>)
    returns (h2: Heap, changed: bool)
    requires StateOk(h, cs, os)
    ensures StateOk(h2, cs, os)
    ensures View(h2, cs) == Engine.AddMember(View(h, cs), memberId, containerId, newItemId, positions)
    ensures !changed ==> h2 == h
    ensures changed <==> memberId != "" && FindContainerIndex(View(h, cs), containerId) >= 0
    ensures memberId != "" ==> PushSeen(h, h2, cs, os, containerId)
    ensures Apart(h, cs, os) ==> Apart(h2, cs, os) && View(h2, os) == View(h, os)
  {
    if memberId == "" {
      return h, false;
    }
    var k := FindContainerIndex(View(h, cs), containerId);
    if k < 0 {
      return h, false;
    }
    var e := h.lists[h.objs[cs[k]].items] + [MemberItem(newItemId, memberId, positions)];
    WriteOwn(h, cs, os, k, e);
    PushReachesSnapshot(h, cs, os, containerId, e);
    h2, changed := WriteArray(h, h.objs[cs[k]].items, e), true;
  }

  /** `handleEditMember` on the heap: a new items array with the edited items replaces the project
      object's `items` field. */
  method EditMemberObjs(h: Heap, cs: seq<Ref>, ghost os: seq<Ref>, memberId: string, containerId: string, itemId: string, positions: seq<Position>)
    returns (h2: Heap, changed: bool)
    requires StateOk(h, cs, os)
    ensures StateOk(h2, cs, os)
    ensures View(h2, cs) == Engine.EditMember(View(h, cs), memberId, containerId, itemId, positions)
    ensures !changed ==> h2 == h
    ensures changed <==> memberId != "" && FindContainerIndex(View(h, cs), containerId) >= 0
    ensures memberId != "" ==> RebindSeen(h, h2, cs, os, containerId)
    ensures Apart(h, cs, os) ==> Apart(h2, cs, os) && View(h2, os) == View(h, os)
  {
    if memberId == "" {
      return h, false;
    }
    var k := FindContainerIndex(View(h, cs), containerId);
    if k < 0 {
      return h, false;
    }
    var items := h.lists[h.objs[cs[k]].items];
    var updated := seq(|items|, i requires 0 <= i < |items| =>
                     if items[i].id == itemId then items[i].(memberId := memberId, positions := positions) else items[i]);
    RebindFresh(h, cs, os, k, updated);
    RebindReachesSnapshot(h, cs, os, containerId, updated);
    h2, changed := SetItems(NewArray(h, updated), cs[k], h.next), true;
  }

  /** `handleDeleteMember` on the heap: nothing when the project or the item is missing or the
      user does not confirm; otherwise a new array whose entry for the project is a spread copy
      over a new, filtered items array. */
  method DeleteMemberObjs(h: Heap, cs: seq<Ref>, ghost os: seq<Ref>, containerId: string, itemId: string, confirmed: bool)
    returns (h2: Heap, cs2: seq<Ref>, changed: bool)
    requires StateOk(h, cs, os)
    ensures StateOk(h2, cs2, os)
    ensures View(h2, cs2) == Engine.DeleteMember(View(h, cs), containerId, itemId, confirmed)
    ensures !changed ==> h2 == h && cs2 == cs
    ensures View(h2, os) == View(h, os) && (Apart(h, cs, os) ==> Apart(h2, cs2, os))
  {
    var v := View(h, cs);
    var k := FindContainerIndex(v, containerId);
    if k < 0 || !HasItem(v[k].items, itemId) || !confirmed {
      return h, cs, false;
    }
    var kept := Filter(h.lists[h.objs[cs[k]].items], OtherItem(itemId));
    ReplaceByCopy(h, cs, os, k, kept);
    var h1 := NewArray(h, kept);
    h2 := NewObject(h1, h.objs[cs[k]].(items := h.next));
    cs2, changed := cs[k := h1.next], true;
  }

  /** The render's `containers.sort(…)` by display order, on the references. When the two arrays
      are one, the sorted array is both. */
  method RenderObjs(h: Heap, cs: seq<Ref>, ghost os: seq<Ref>) returns (sorted: seq<Ref>)
    requires StateOk(h, cs, os)
    ensures StateOk(h, sorted, os) && View(h, sorted) == RenderOrder(View(h, cs))
    ensures Apart(h, cs, os) ==> Apart(h, sorted, os)
    ensures cs == os ==> StateOk(h, sorted, sorted) && (Apart(h, cs, os) ==> Apart(h, sorted, sorted))
  {
    SortState(h, cs, os);
    sorted := SortBy(cs, RefOrder(h));
    if cs == os {
      SortState(h, cs, sorted);
      SortState(h, sorted, sorted);
    }
  }

  // ---------------------------------------------------------------------------------------------
  // The page

  /** The prefixes of generated ids (the rest is a timestamp and random digits). */
  const NewContainerPrefix: string := "container-"
  const NewItemPrefix: string := "item-"

  /** The board page's state: `containers`, `originalContainers` and `isEditMode`, over the heap
      of project objects and items arrays they refer to. `sameArray` records that the two state
      arrays are one array object, as they are after a cancel. */
  class Board {
    var heap: Heap
    var containers: seq<Ref>
    var original: seq<Ref>
    var isEditMode: bool
    var sameArray: bool

    /** Both arrays refer to allocated project objects over distinct items arrays, each holds
        distinct project ids, and one array object has one content. */
    ghost predicate Valid()
      reads this
    {
      StateOk(heap, containers, original) && (sameArray ==> containers == original)
    }

    /** The working board as values. */
    function Current(): (v: seq<ProjectContainer>)
      requires Valid()
      reads this
      ensures UniqueIds(v)
    {
      View(heap, containers)
    }

    /** The snapshot a cancel restores, as values. */
    function Snapshot(): (v: seq<ProjectContainer>)
      requires Valid()
      reads this
      ensures UniqueIds(v)
    {
      View(heap, original)
    }

    /** The working board and the snapshot share no object, so edits of one leave the other. */
    ghost predicate Isolated()
      requires Valid()
      reads this
    {
      Apart(heap, containers, original)
    }

    /** The page's initial state: no projects, not editing. */
    constructor ()
      ensures Valid() && Current() == [] && Snapshot() == [] && !isEditMode
    {
      heap := Heap(map[], map[], 0);
      containers, original := [], [];
      isEditMode, sameArray := false, false;
    }

    /** `getProjects` once the store has answered: the working board and the snapshot are two
        separate deep copies of the fetched list. */
    method Load(data: seq<ProjectContainer>)
      requires Valid() && UniqueIds(data)
      modifies this
      ensures Valid() && Current() == data && Snapshot() == data && Isolated()
      ensures isEditMode == old(isEditMode)
    {
      var h1, cs := Clone(heap, data);
      var h2, os := Clone(h1, data);
      ExtendsKeepsView(h1, h2, cs);
      heap, containers, original, sameArray := h2, cs, os, false;
    }

    /** The edit button: edit mode starts; nothing is copied. */
    method EnterEditMode()
      requires Valid()
      modifies this
      ensures Valid() && heap == old(heap) && containers == old(containers) && original == old(original)
      ensures sameArray == old(sameArray) && isEditMode
    {
      isEditMode := true;
    }

    /** `cancel` as written: the working board becomes the snapshot array itself, so from now on
        the two share every object. */
    method Cancel()
      requires Valid()
      modifies this
      ensures Valid() && heap == old(heap) && original == old(original) && !isEditMode
      ensures containers == original && sameArray && Current() == old(Snapshot())
    {
      containers, sameArray := original, true;
      isEditMode := false;
    }

    /** `cancel` restoring a deep copy of the snapshot, which keeps the two apart. */
    method CancelFixed()
      requires Valid()
      modifies this
      ensures Valid() && original == old(original) && !isEditMode
      ensures Current() == old(Snapshot()) && Snapshot() == old(Snapshot()) && Isolated()
    {
      var h, cs := Clone(heap, Snapshot());
      ExtendsKeepsView(heap, h, original);
      heap, containers, sameArray := h, cs, false;
      isEditMode := false;
    }

    /** `handleAddProject`: nothing while the dialog reports an error; otherwise a new array with a
        new project object, over a new empty items array, appended. The generated id is new. */
    method AddProject(hasError: bool, stamp: string, name: string, description: string, tags: seq<string>)
      requires Valid()
      requires !hasError ==> FindContainerIndex(Current(), NewContainerPrefix + stamp) < 0
      modifies this
      ensures Valid() && original == old(original) && isEditMode == old(isEditMode)
      ensures Current() == Engine.AddProject(old(Current()), hasError, NewContainerPrefix + stamp, name, description, tags)
      ensures Snapshot() == old(Snapshot()) && (old(Isolated()) ==> Isolated())
    {
      var h, cs, changed := AddProjectObjs(heap, containers, original, hasError, NewContainerPrefix + stamp, name, description, tags);
      assert StateOk(h, cs, original) && View(h, original) == Snapshot();
      heap, containers, sameArray := h, cs, sameArray && !changed;
    }

    /** `handleEditProject`: nothing while the dialog reports an error; otherwise a new array in
        which the projects with the current id are spread copies with the dialog's fields. */
    method EditProject(hasError: bool, currentId: string, name: string, description: string, tags: seq<string>)
      requires Valid()
      modifies this
      ensures Valid() && original == old(original) && isEditMode == old(isEditMode)
      ensures Current() == Engine.EditProject(old(Current()), hasError, currentId, name, description, tags)
      ensures Snapshot() == old(Snapshot()) && (old(Isolated()) ==> Isolated())
    {
      var h, cs, changed := EditProjectObjs(heap, containers, original, hasError, currentId, name, description, tags);
      assert StateOk(h, cs, original) && View(h, original) == Snapshot();
      heap, containers, sameArray := h, cs, sameArray && !changed;
    }

    /** `handleDeleteProject`: nothing when no project has the id or the user does not confirm;
        otherwise the filtered array. */
    method DeleteProject(id: string, confirmed: bool)
      requires Valid()
      modifies this
      ensures Valid() && heap == old(heap) && original == old(original) && isEditMode == old(isEditMode)
      ensures Current() == Engine.DeleteProject(old(Current()), id, confirmed)
      ensures Snapshot() == old(Snapshot()) && (old(Isolated()) ==> Isolated())
    {
      var cs, changed := DeleteProjectObjs(heap, containers, original, id, confirmed);
      assert StateOk(heap, cs, original);
      containers, sameArray := cs, sameArray && !changed;
    }

    /** `handleAddMember`: the new item is pushed onto the project's own items array, which the
        snapshot sees too when it holds that array. */
    method AddMember(memberId: string, containerId: string, stamp: string, positions: seq<Position>)
      requires Valid()
      modifies this
      ensures Valid() && containers == old(containers) && original == old(original) && isEditMode == old(isEditMode)
      ensures Current() == Engine.AddMember(old(Current()), memberId, containerId, NewItemPrefix + stamp, positions)
      ensures old(Isolated()) ==> Isolated() && Snapshot() == old(Snapshot())
      ensures memberId == "" || FindContainerIndex(old(Current()), containerId) < 0 ==> heap == old(heap) && sameArray == old(sameArray)
      ensures memberId != "" ==> PushSeen(old(heap), heap, containers, original, containerId)
    {
      var h, changed := AddMemberObjs(heap, containers, original, memberId, containerId, NewItemPrefix + stamp, positions);
      heap, sameArray := h, sameArray && !changed;
    }

    /** `handleEditMember`: a new items array with the edited items replaces the project object's
        `items` field, which the snapshot sees too when it holds that object. */
    method EditMember(memberId: string, containerId: string, itemId: string, positions: seq<Position>)
      requires Valid()
      modifies this
      ensures Valid() && containers == old(containers) && original == old(original) && isEditMode == old(isEditMode)
      ensures Current() == Engine.EditMember(old(Current()), memberId, containerId, itemId, positions)
      ensures old(Isolated()) ==> Isolated() && Snapshot() == old(Snapshot())
      ensures memberId == "" || FindContainerIndex(old(Current()), containerId) < 0 ==> heap == old(heap) && sameArray == old(sameArray)
      ensures memberId != "" ==> RebindSeen(old(heap), heap, containers, original, containerId)
    {
      var h, changed := EditMemberObjs(heap, containers, original, memberId, containerId, itemId, positions);
      heap, sameArray := h, sameArray && !changed;
    }

    /** `handleDeleteMember`: nothing when the project or the item is missing or the user does not
        confirm; otherwise a new array whose entry for the project is a spread copy over a new,
        filtered items array. */
    method DeleteMember(containerId: string, itemId: string, confirmed: bool)
      requires Valid()
      modifies this
      ensures Valid() && original == old(original) && isEditMode == old(isEditMode)
      ensures Current() == Engine.DeleteMember(old(Current()), containerId, itemId, confirmed)
      ensures Snapshot() == old(Snapshot()) && (old(Isolated()) ==> Isolated())
    {
      var h, cs, changed := DeleteMemberObjs(heap, containers, original, containerId, itemId, confirmed);
      assert StateOk(h, cs, original) && View(h, original) == Snapshot();
      heap, containers, sameArray := h, cs, sameArray && !changed;
    }

    /** `handleDragMove`: nothing unless both ids are present and differ; then the item handlers. */
    method DragMove(active: Option<string>, over: Option<string>)
      requires Valid()
      modifies this
      ensures Valid() && original == old(original) && isEditMode == old(isEditMode)
      ensures Current() == Engine.DragMove(old(Current()), active, over)
      ensures old(Isolated()) ==> Isolated() && Snapshot() == old(Snapshot())
      ensures UnsharedKept(old(heap), heap, old(containers), original)
    {
      var h, cs, changed := DragMoveObjs(heap, containers, original, active, over);
      heap, containers, sameArray := h, cs, sameArray && !changed;
    }

    /** `handleDragEnd`: as `handleDragMove`, with a container move tried first when both ids name
        containers. */
    method DragEnd(active: Option<string>, over: Option<string>)
      requires Valid()
      modifies this
      ensures Valid() && original == old(original) && isEditMode == old(isEditMode)
      ensures Current() == Engine.DragEnd(old(Current()), active, over)
      ensures old(Isolated()) ==> Isolated() && Snapshot() == old(Snapshot())
      ensures UnsharedKept(old(heap), heap, old(containers), original)
    {
      var h, cs, changed := DragEndObjs(heap, containers, original, active, over);
      heap, containers, sameArray := h, cs, sameArray && !changed;
    }

    /** The render's `containers.sort(…)` by display order, in place: when the two state arrays
        are one array object, the snapshot is sorted with it. */
    method Render()
      requires Valid()
      modifies this
      ensures Valid() && heap == old(heap) && isEditMode == old(isEditMode) && sameArray == old(sameArray)
      ensures Current() == RenderOrder(old(Current()))
      ensures original == if old(sameArray) then containers else old(original)
      ensures old(Isolated()) ==> Isolated()
    {
      var sorted := RenderObjs(heap, containers, original);
      if sameArray {
        containers, original := sorted, sorted;
      } else {
        containers := sorted;
      }
      assert StateOk(heap, containers, original);
    }

    /** `save`: a project holding a member twice, with a non-empty name, stops it in edit mode
        with nothing sent; otherwise the board is sent to the store, edit mode ends, and, when the
        reload succeeded, the reloaded list replaces both arrays. Returns what was sent. */
    method Save(reloaded: Option<seq<ProjectContainer>>) returns (sent: Option<seq<ProjectContainer>>)
      requires Valid() && (reloaded.Some? ==> UniqueIds(reloaded.value))
      modifies this
      ensures Valid()
      ensures var dup := FirstDuplicateProject(old(Current()));
        dup.Some? && dup.value != "" ==>
          sent.None? && heap == old(heap) && containers == old(containers) && original == old(original) && isEditMode == old(isEditMode)
      ensures var dup := FirstDuplicateProject(old(Current()));
        dup.None? || dup.value == "" ==> sent == Some(old(Current())) && !isEditMode
      ensures sent.Some? && reloaded.Some? ==> Current() == reloaded.value && Snapshot() == reloaded.value && Isolated()
      ensures sent.Some? && reloaded.None? ==> heap == old(heap) && containers == old(containers) && original == old(original)
    {
      var dup := CheckDuplicateMemberIds(Current());
      if dup.Some? && dup.value != "" {
        return None;
      }
      sent := Some(Current());
      if reloaded.Some? {
        Load(reloaded.value);
      }
      isEditMode := false;
    }
  }

  // ---------------------------------------------------------------------------------------------
  // Cancelling twice

  /** The board after: load, edit, cancel, edit, add a member to the first project, cancel, with
      `cancel` as written. The second cancel does not bring back the loaded board: the first one
      made the working array the snapshot array, so the member was pushed onto the snapshot's
      own items array. */
  method CancelTwiceAsWritten(data: seq<ProjectContainer>, memberId: string, stamp: string, positions: seq<Position>)
    returns (restored: seq<ProjectContainer>)
    requires UniqueIds(data) && |data| > 0 && memberId != ""
    ensures restored != data
    ensures |restored| == |data| && restored[0].items == data[0].items + [MemberItem(NewItemPrefix + stamp, memberId, positions)]
  {
    var b := new Board();
    b.Load(data);
    b.EnterEditMode();
    b.Cancel();
    b.EnterEditMode();
    var k := FindContainerIndex(data, data[0].id);
    assert k == 0;
    b.AddMember(memberId, data[0].id, stamp, positions);
    assert b.Snapshot() == b.Current();
    b.Cancel();
    restored := b.Current();
    assert |restored[0].items| == |data[0].items| + 1;
  }

  /** The same steps with the cancel that restores a deep copy of the snapshot: the second cancel
      brings back the loaded board. */
  method CancelTwiceFixed(data: seq<ProjectContainer>, memberId: string, stamp: string, positions: seq<Position>)
    returns (restored: seq<ProjectContainer>)
    requires UniqueIds(data) && |data| > 0 && memberId != ""
    ensures restored == data
  {
    var b := new Board();
    b.Load(data);
    b.EnterEditMode();
    b.CancelFixed();
    b.EnterEditMode();
    b.AddMember(memberId, data[0].id, stamp, positions);
    b.CancelFixed();
    restored := b.Current();
  }
}
