/** The project collection in the document store: reading it back as a list of projects, and the
    reconciliation that writes an edited board to it. The store's calls are not made here; a save
    emits the log of calls it would make, and `ApplyAll` gives their effect on a store. */
module Persistence {
  import opened Types
  import opened Lists

  /** The fields a project document holds. `items` and `tags` may be missing; `idField` is the
      `id` field a whole-record write stores next to the document's own id. */
  datatype Doc = Doc(
    idField: Option<string>,
    displayOrder: int,
    name: string,
    description: string,
    items: Option<seq<MemberItem>>,
    tags: Option<seq<string>>)

  /** One document of a query answer: its document id and its fields. */
  datatype StoredDoc = StoredDoc(docId: string, data: Doc)

  /** A store call of `saveProjects`: a field update of an existing document, a whole-record
      write, or a delete. */
  datatype StoreOp =
    | Update(id: string, displayOrder: int, name: string, description: string, items: seq<MemberItem>, tags: seq<string>)
    | Put(project: ProjectContainer)
    | Delete(id: string)

  /** The document id a call addresses. */
  function Target(op: StoreOp): string
  {
    match op
    case Update(id, _, _, _, _, _) => id
    case Put(p) => p.id
    case Delete(id) => id
  }

  // ---------------------------------------------------------------------------------------------
  // fetchProjects

  /** One document read as a project: the id is the document id, missing `items` and `tags`
      read as empty lists. */
  function ProjectOf(d: StoredDoc): ProjectContainer
  {
    ProjectContainer(
      d.docId, d.data.displayOrder, d.data.name, d.data.description,
      if d.data.tags.Some? then d.data.tags.value else [],
      if d.data.items.Some? then d.data.items.value else [])
  }

  /** `fetchProjects`: the query answer read document by document, in answer order. */
  function FetchProjects(answer: seq<StoredDoc>): (ps: seq<ProjectContainer>)
    ensures |ps| == |answer|
    ensures forall i :: 0 <= i < |answer| ==> ps[i] == ProjectOf(answer[i])
  {
    seq(|answer|, i requires 0 <= i < |answer| => ProjectOf(answer[i]))
  }

  /** The document a whole-record write of `p` leaves: every field present, `id` included. */
  function Written(p: ProjectContainer): Doc
  {
    Doc(Some(p.id), p.displayOrder, p.name, p.description, Some(p.items), Some(p.tags))
  }

  /** A project written whole reads back as itself. */
  lemma ReadWritten(p: ProjectContainer)
    ensures ProjectOf(StoredDoc(p.id, Written(p))) == p
  {
  }

  /** A document with no `items` and no `tags` reads as a project with empty ones, whatever the
      other fields and whatever `id` field it stores. */
  lemma MissingFieldsDefault(docId: string, d: Doc)
    requires d.items.None? && d.tags.None?
    ensures var p := ProjectOf(StoredDoc(docId, d));
      p.id == docId && p.items == [] && p.tags == [] && p.name == d.name && p.displayOrder == d.displayOrder
  {
  }

  // ---------------------------------------------------------------------------------------------
  // The calls saveProjects makes

  /** The set of ids of a list of projects (`new Set(ps.map(p => p.id))`). */
  function IdSet(ps: seq<ProjectContainer>): set<string>
  {
    set p | p in ps :: p.id
  }

  /** The write for one project of the edited list: an update of the five fields when the id is
      stored already, a whole-record write otherwise. */
  function WriteFor(p: ProjectContainer, existing: set<string>): StoreOp
  {
    if p.id in existing then Update(p.id, p.displayOrder, p.name, p.description, p.items, p.tags)
    else Put(p)
  }

  /** The first loop's calls: one write per project of the edited list, in list order. */
  function Upserts(ps: seq<ProjectContainer>, existing: set<string>): (ops: seq<StoreOp>)
    ensures |ops| == |ps|
  {
    if ps == [] then [] else Upserts(ps[..|ps| - 1], existing) + [WriteFor(ps[|ps| - 1], existing)]
  }

  /** The second loop's calls: a delete for each stored project whose id the edited list lacks,
      in stored order. */
  function Deletes(stored: seq<ProjectContainer>, kept: set<string>): seq<StoreOp>
  {
    if stored == [] then []
    else
      var last := stored[|stored| - 1];
      Deletes(stored[..|stored| - 1], kept) + (if last.id in kept then [] else [Delete(last.id)])
  }

  /** All calls of a save of `ps` against the stored list `stored`: the writes, then the deletes. */
  function SavePlan(ps: seq<ProjectContainer>, stored: seq<ProjectContainer>): seq<StoreOp>
  {
    Upserts(ps, IdSet(stored)) + Deletes(stored, IdSet(ps))
  }

  /** `saveProjects`: the stored list is fetched afresh (the query answer is the parameter), then
      one write per edited project, then one delete per stored project the edit dropped. */
  method SaveProjects(newProjects: seq<ProjectContainer>, answer: seq<StoredDoc>) returns (log: seq<StoreOp>)
    ensures log == SavePlan(newProjects, FetchProjects(answer))
  {
    var existing := FetchProjects(answer);
    var existingIds := IdSet(existing);
    log := [];
    for i := 0 to |newProjects|
      invariant log == Upserts(newProjects[..i], existingIds)
    {
      var p := newProjects[i];
      if p.id in existingIds {
        log := log + [Update(p.id, p.displayOrder, p.name, p.description, p.items, p.tags)];
      } else {
        log := log + [Put(p)];
      }
      assert newProjects[..i + 1][..i] == newProjects[..i];
    }
    assert newProjects[..|newProjects|] == newProjects;
    var upserts := log;
    var newIds := IdSet(newProjects);
    for i := 0 to |existing|
      invariant log == upserts + Deletes(existing[..i], newIds)
    {
      var p := existing[i];
      assert existing[..i + 1][..i] == existing[..i];
      if p.id !in newIds {
        log := log + [Delete(p.id)];
      }
    }
    assert existing[..|existing|] == existing;
  }

  // ---------------------------------------------------------------------------------------------
  // What the calls are

  /** The i-th write is for the i-th edited project: an update exactly when its id is stored,
      carrying the five fields, else the whole record. */
  lemma {:induction false} OneWritePerProject(ps: seq<ProjectContainer>, existing: set<string>, i: nat)
    requires i < |ps|
    ensures var op := Upserts(ps, existing)[i];
      && Target(op) == ps[i].id
      && (op.Update? <==> ps[i].id in existing)
      && (op.Update? ==> op == Update(ps[i].id, ps[i].displayOrder, ps[i].name, ps[i].description, ps[i].items, ps[i].tags))
      && (op.Put? ==> op.project == ps[i])
  {
    if i < |ps| - 1 {
      OneWritePerProject(ps[..|ps| - 1], existing, i);
    }
  }

  /** The delete phase holds only deletes. */
  lemma {:induction false} DeletesOnly(stored: seq<ProjectContainer>, kept: set<string>)
    ensures forall op :: op in Deletes(stored, kept) ==> op.Delete?
  {
    if stored != [] {
      DeletesOnly(stored[..|stored| - 1], kept);
    }
  }

  /** A delete is issued exactly for an id that is stored and not kept. */
  lemma {:induction false} DeletesExactlyDropped(stored: seq<ProjectContainer>, kept: set<string>, id: string)
    ensures Delete(id) in Deletes(stored, kept) <==> id in IdSet(stored) && id !in kept
  {
    if stored != [] {
      var init, last := stored[..|stored| - 1], stored[|stored| - 1];
      DeletesExactlyDropped(init, kept, id);
      assert stored == init + [last];
      assert IdSet(stored) == IdSet(init) + {last.id};
    }
  }

  /** The writes name no deletes. */
  lemma {:induction false} UpsertsWriteOnly(ps: seq<ProjectContainer>, existing: set<string>)
    ensures forall op :: op in Upserts(ps, existing) ==> !op.Delete?
  {
    if ps != [] {
      UpsertsWriteOnly(ps[..|ps| - 1], existing);
    }
  }

  /** Every write comes before every delete, and a project of the edited list is never deleted. */
  lemma SaveOrder(ps: seq<ProjectContainer>, stored: seq<ProjectContainer>)
    ensures var log := SavePlan(ps, stored);
      forall i, j :: 0 <= i < j < |log| && log[i].Delete? ==> log[j].Delete?
    ensures forall p :: p in ps ==> Delete(p.id) !in SavePlan(ps, stored)
  {
    var u, d := Upserts(ps, IdSet(stored)), Deletes(stored, IdSet(ps));
    UpsertsWriteOnly(ps, IdSet(stored));
    DeletesOnly(stored, IdSet(ps));
    var log := u + d;
    forall k | 0 <= k < |u|
      ensures !log[k].Delete?
    {
      assert log[k] == u[k] && u[k] in u;
    }
    forall j | |u| <= j < |log|
      ensures log[j].Delete?
    {
      assert log[j] == d[j - |u|] && d[j - |u|] in d;
    }
    forall p | p in ps
      ensures Delete(p.id) !in log
    {
      DeletesExactlyDropped(stored, IdSet(ps), p.id);
    }
  }

  // ---------------------------------------------------------------------------------------------
  // Their effect on the store

  /** The collection: document id to fields. */
  type Store = map<string, Doc>

  /** One call on the store. `updateDoc` of a missing document fails; `deleteDoc` of a missing
      document succeeds and changes nothing. */
  function Apply(s: Store, op: StoreOp): Option<Store>
  {
    match op
    case Update(id, displayOrder, name, description, items, tags) =>
      if id in s then Some(s[id := s[id].(displayOrder := displayOrder, name := name, description := description, items := Some(items), tags := Some(tags))])
      else None
    case Put(p) => Some(s[p.id := Written(p)])
    case Delete(id) => Some(s - {id})
  }

  /** The calls in order; the first failing call stops the save (the rest are never made). */
  function ApplyAll(s: Store, ops: seq<StoreOp>): Option<Store>
  {
    if ops == [] then Some(s)
    else
      match ApplyAll(s, ops[..|ops| - 1])
      case None => None
      case Some(s1) => Apply(s1, ops[|ops| - 1])
  }

  /** The query answer lists the store: each document once, with its fields. */
  ghost predicate Answers(s: Store, answer: seq<StoredDoc>)
  {
    && (forall i, j :: 0 <= i < j < |answer| ==> answer[i].docId != answer[j].docId)
    && (forall d :: d in answer ==> d.docId in s && s[d.docId] == d.data)
    && (forall id :: id in s ==> exists d :: d in answer && d.docId == id)
  }

  lemma {:induction false} ApplyAllConcat(s: Store, a: seq<StoreOp>, b: seq<StoreOp>)
    ensures ApplyAll(s, a + b) == match ApplyAll(s, a) case None => None case Some(s1) => ApplyAll(s1, b)
  {
    if b != [] {
      ApplyAllConcat(s, a, b[..|b| - 1]);
      assert (a + b)[..|a + b| - 1] == a + b[..|b| - 1];
    } else {
      assert a + b == a;
    }
  }

  /** The last project of a list with distinct ids has an id the others lack. */
  lemma LastIdFresh(ps: seq<ProjectContainer>)
    requires UniqueIds(ps) && ps != []
    ensures ps[|ps| - 1].id !in IdSet(ps[..|ps| - 1])
  {
    var init, last := ps[..|ps| - 1], ps[|ps| - 1];
    forall p | p in init
      ensures p.id != last.id
    {
      var k :| 0 <= k < |init| && init[k] == p;
      assert ps[k] == p;
    }
  }

  /** One write, on a store holding every stored id: it succeeds, the project reads back as
      itself, and other documents are untouched. */
  lemma UpsertStep(s: Store, p: ProjectContainer, existing: set<string>)
    requires existing <= s.Keys
    ensures Apply(s, WriteFor(p, existing)).Some?
    ensures var s2 := Apply(s, WriteFor(p, existing)).value;
      && s2.Keys == s.Keys + {p.id}
      && ProjectOf(StoredDoc(p.id, s2[p.id])) == p
      && (forall id :: id in s && id != p.id ==> s2[id] == s[id])
  {
  }

  /** Running one more call after a log. */
  lemma ApplyAllSnoc(s: Store, ops: seq<StoreOp>, op: StoreOp)
    ensures ApplyAll(s, ops + [op]) == match ApplyAll(s, ops) case None => None case Some(s1) => Apply(s1, op)
  {
    assert (ops + [op])[..|ops|] == ops;
  }

  /** The ids of a list are those of all but its last project, and the last one's. */
  lemma IdSetSnoc(ps: seq<ProjectContainer>)
    requires ps != []
    ensures IdSet(ps) == IdSet(ps[..|ps| - 1]) + {ps[|ps| - 1].id}
  {
    var init, last := ps[..|ps| - 1], ps[|ps| - 1];
    assert ps == init + [last];
  }

  /** The writes of a list run the writes of all but its last project, then the last one's. */
  lemma UpsertsSnoc(s: Store, ps: seq<ProjectContainer>, existing: set<string>)
    requires ps != []
    ensures ApplyAll(s, Upserts(ps, existing)) ==
      match ApplyAll(s, Upserts(ps[..|ps| - 1], existing))
      case None => None
      case Some(s1) => Apply(s1, WriteFor(ps[|ps| - 1], existing))
  {
    ApplyAllSnoc(s, Upserts(ps[..|ps| - 1], existing), WriteFor(ps[|ps| - 1], existing));
  }

  /** What the writes of a list promise, given what the writes of all but its last project
      promise and what the last write does. */
  lemma UpsertsExtend(s: Store, s1: Store, s2: Store, ps: seq<ProjectContainer>)
    requires ps != [] && UniqueIds(ps)
    requires s1.Keys == s.Keys + IdSet(ps[..|ps| - 1])
    requires forall p :: p in ps[..|ps| - 1] ==> ProjectOf(StoredDoc(p.id, s1[p.id])) == p
    requires forall id :: id in s && id !in IdSet(ps[..|ps| - 1]) ==> s1[id] == s[id]
    requires s2.Keys == s1.Keys + {ps[|ps| - 1].id}
    requires ProjectOf(StoredDoc(ps[|ps| - 1].id, s2[ps[|ps| - 1].id])) == ps[|ps| - 1]
    requires forall id :: id in s1 && id != ps[|ps| - 1].id ==> s2[id] == s1[id]
    ensures s2.Keys == s.Keys + IdSet(ps)
    ensures forall p :: p in ps ==> ProjectOf(StoredDoc(p.id, s2[p.id])) == p
    ensures forall id :: id in s && id !in IdSet(ps) ==> s2[id] == s[id]
  {
    var init, last := ps[..|ps| - 1], ps[|ps| - 1];
    assert ps == init + [last];
    LastIdFresh(ps);
    IdSetSnoc(ps);
    forall p | p in ps
      ensures ProjectOf(StoredDoc(p.id, s2[p.id])) == p
    {
      if p != last {
        assert p in init;
        assert p.id in IdSet(init);
      }
    }
  }

  /** The writes, on a store holding every stored id: they all succeed, each edited project then
      reads back as itself, and documents of other ids are untouched. */
  lemma {:induction false} UpsertsEffect(s: Store, ps: seq<ProjectContainer>, existing: set<string>)
    requires existing <= s.Keys && UniqueIds(ps)
    ensures ApplyAll(s, Upserts(ps, existing)).Some?
    ensures var s2 := ApplyAll(s, Upserts(ps, existing)).value;
      && s2.Keys == s.Keys + IdSet(ps)
      && (forall p :: p in ps ==> ProjectOf(StoredDoc(p.id, s2[p.id])) == p)
      && (forall id :: id in s && id !in IdSet(ps) ==> s2[id] == s[id])
  {
    if ps != [] {
      var init, last := ps[..|ps| - 1], ps[|ps| - 1];
      assert UniqueIds(init) by {
        assert forall i, j :: 0 <= i < j < |init| ==> init[i] == ps[i] && init[j] == ps[j];
      }
      UpsertsEffect(s, init, existing);
      var s1 := ApplyAll(s, Upserts(init, existing)).value;
      UpsertStep(s1, last, existing);
      UpsertsSnoc(s, ps, existing);
      var s2 := Apply(s1, WriteFor(last, existing)).value;
      UpsertsExtend(s, s1, s2, ps);
    }
  }

  /** The deletes of a list run the deletes of all but its last project, then drop the last
      one's id unless it is kept. */
  lemma DeletesSnoc(s: Store, stored: seq<ProjectContainer>, kept: set<string>)
    requires stored != []
    ensures ApplyAll(s, Deletes(stored, kept)) ==
      match ApplyAll(s, Deletes(stored[..|stored| - 1], kept))
      case None => None
      case Some(s1) => Some(if stored[|stored| - 1].id in kept then s1 else s1 - {stored[|stored| - 1].id})
  {
    var init, last := stored[..|stored| - 1], stored[|stored| - 1];
    if last.id !in kept {
      ApplyAllSnoc(s, Deletes(init, kept), Delete(last.id));
    } else {
      assert Deletes(stored, kept) == Deletes(init, kept);
    }
  }

  /** The ids dropped from a list are those dropped from all but its last project, and the last
      one's unless it is kept. */
  lemma DroppedSnoc(stored: seq<ProjectContainer>, kept: set<string>)
    requires stored != []
    ensures IdSet(stored) - kept ==
      if stored[|stored| - 1].id in kept then IdSet(stored[..|stored| - 1]) - kept
      else (IdSet(stored[..|stored| - 1]) - kept) + {stored[|stored| - 1].id}
  {
    IdSetSnoc(stored);
  }

  /** The deletes remove exactly the dropped ids and never fail. */
  lemma {:induction false} DeletesEffect(s: Store, stored: seq<ProjectContainer>, kept: set<string>)
    ensures ApplyAll(s, Deletes(stored, kept)) == Some(s - (IdSet(stored) - kept))
  {
    if stored != [] {
      var init, last := stored[..|stored| - 1], stored[|stored| - 1];
      DeletesEffect(s, init, kept);
      DeletesSnoc(s, stored, kept);
      DroppedSnoc(stored, kept);
      RemoveOneMore(s, IdSet(init) - kept, last.id);
    } else {
      assert IdSet(stored) - kept == {};
      assert s - (IdSet(stored) - kept) == s;
    }
  }

  /** The ids of the fetched list are the store's document ids. */
  lemma AnswerIds(s: Store, answer: seq<StoredDoc>)
    requires Answers(s, answer)
    ensures IdSet(FetchProjects(answer)) == s.Keys
  {
    var stored := FetchProjects(answer);
    forall id | id in s
      ensures id in IdSet(stored)
    {
      var d :| d in answer && d.docId == id;
      var k :| 0 <= k < |answer| && answer[k] == d;
      assert stored[k].id == id;
    }
    forall p | p in stored
      ensures p.id in s
    {
      var k :| 0 <= k < |stored| && stored[k] == p;
      assert answer[k] in answer;
    }
  }

  /** Removing one more dropped id. */
  lemma RemoveOneMore(s: Store, a: set<string>, x: string)
    ensures s - a - {x} == s - (a + {x})
  {
  }

  /** A save against a store answered by `answer` leaves the store holding exactly the edited
      board: one document per edited project, reading back as that project, and nothing else. */
  lemma SaveStoresBoard(s: Store, answer: seq<StoredDoc>, ps: seq<ProjectContainer>)
    requires Answers(s, answer) && UniqueIds(ps)
    ensures var r := ApplyAll(s, SavePlan(ps, FetchProjects(answer)));
      && r.Some?
      && r.value.Keys == IdSet(ps)
      && forall p :: p in ps ==> ProjectOf(StoredDoc(p.id, r.value[p.id])) == p
  {
    var stored := FetchProjects(answer);
    AnswerIds(s, answer);
    UpsertsEffect(s, ps, IdSet(stored));
    var s1 := ApplyAll(s, Upserts(ps, IdSet(stored))).value;
    ApplyAllConcat(s, Upserts(ps, IdSet(stored)), Deletes(stored, IdSet(ps)));
    DeletesEffect(s1, stored, IdSet(ps));
    var s2 := s1 - (IdSet(stored) - IdSet(ps));
    assert s2.Keys == IdSet(ps);
  }
}
