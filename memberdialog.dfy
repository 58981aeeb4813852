/** The member dialog: the position checkboxes, the positions they produce on save, and the
    member search of its combobox. The position catalogue is a parameter. */
module MemberDialog {
  import opened Types
  import opened Strings
  import opened Lists

  /** One entry of the position catalogue with its check state. */
  datatype CheckboxItem = CheckboxItem(id: int, labelText: string, checked: bool)

  /** A page callback the dialog calls, with the positions it passes. */
  datatype Call = AddMemberCall(positions: seq<Position>) | EditMemberCall(positions: seq<Position>) | CloseCall

  /** Some position of the list has the id. */
  predicate HasId(ps: seq<Position>, id: int)
  {
    exists j :: 0 <= j < |ps| && ps[j].id == id
  }

  /** The position a catalogue entry stands for: its id, named by its label. */
  function PositionOf(c: CheckboxItem): Position
  {
    Position(c.id, c.labelText)
  }

  /** No two catalogue entries share an id. */
  predicate UniqueEntries(catalog: seq<CheckboxItem>)
  {
    forall i, j :: 0 <= i < j < |catalog| ==> catalog[i].id != catalog[j].id
  }

  // ---------------------------------------------------------------------------------------------
  // The checkboxes

  /** The edit-mode effect's list: every catalogue entry, checked when some given position has
      its id. */
  function Initial(catalog: seq<CheckboxItem>, ps: seq<Position>): (r: seq<CheckboxItem>)
    ensures |r| == |catalog|
  {
    seq(|catalog|, i requires 0 <= i < |catalog| => catalog[i].(checked := HasId(ps, catalog[i].id)))
  }

  /** In edit mode an entry starts checked exactly when a given position has its id; ids and
      labels are the catalogue's. */
  lemma InitialChecks(catalog: seq<CheckboxItem>, ps: seq<Position>, i: int)
    requires 0 <= i < |catalog|
    ensures PositionOf(Initial(catalog, ps)[i]) == PositionOf(catalog[i])
    ensures Initial(catalog, ps)[i].checked <==> exists j :: 0 <= j < |ps| && ps[j].id == catalog[i].id
  {
  }

  /** `handleCheckboxChange`: the entries with the id change their check state. */
  function Toggle(items: seq<CheckboxItem>, id: int): (r: seq<CheckboxItem>)
    ensures |r| == |items|
  {
    seq(|items|, i requires 0 <= i < |items| => if items[i].id == id then items[i].(checked := !items[i].checked) else items[i])
  }

  /** A toggle flips the check state of exactly the entries with the id and changes nothing else. */
  lemma ToggleFlipsOnly(items: seq<CheckboxItem>, id: int, i: int)
    requires 0 <= i < |items|
    ensures PositionOf(Toggle(items, id)[i]) == PositionOf(items[i])
    ensures Toggle(items, id)[i].checked != items[i].checked <==> items[i].id == id
  {
  }

  /** Toggling the same id twice gives the list back. */
  lemma ToggleTwice(items: seq<CheckboxItem>, id: int)
    ensures Toggle(Toggle(items, id), id) == items
  {
    var r := Toggle(Toggle(items, id), id);
    assert forall i :: 0 <= i < |items| ==> r[i] == items[i];
  }

  /** `handleSave`'s positions: one per checked entry, in list order, named by the label. */
  function Selected(items: seq<CheckboxItem>): seq<Position>
  {
    if items == [] then []
    else (if items[0].checked then [PositionOf(items[0])] else []) + Selected(items[1..])
  }

  /** A position is saved exactly when a checked entry stands for it; there are no more positions
      than entries. */
  lemma {:induction false} SelectedSpec(items: seq<CheckboxItem>)
    ensures |Selected(items)| <= |items|
    ensures forall p :: p in Selected(items) <==> exists k :: 0 <= k < |items| && items[k].checked && PositionOf(items[k]) == p
  {
    if items != [] {
      SelectedSpec(items[1..]);
      forall p | p in Selected(items)
        ensures exists k :: 0 <= k < |items| && items[k].checked && PositionOf(items[k]) == p
      {
        if !(items[0].checked && PositionOf(items[0]) == p) {
          var k :| 0 <= k < |items[1..]| && items[1..][k].checked && PositionOf(items[1..][k]) == p;
          assert items[k + 1] == items[1..][k];
        }
      }
      forall p: Position, k: int | 0 <= k < |items| && items[k].checked && PositionOf(items[k]) == p
        ensures p in Selected(items)
      {
        if k > 0 {
          assert items[1..][k - 1] == items[k];
        }
      }
    }
  }

  // ---------------------------------------------------------------------------------------------
  // The positions round trip

  /** The catalogue entries some given position names by id, in catalogue order, as positions
      with the catalogue's labels. */
  function CatalogPositions(catalog: seq<CheckboxItem>, ps: seq<Position>): seq<Position>
  {
    if catalog == [] then []
    else (if HasId(ps, catalog[0].id) then [PositionOf(catalog[0])] else []) + CatalogPositions(catalog[1..], ps)
  }

  /** Positions in, checkboxes, positions out: the result is the catalogue's own entries for the
      ids the positions name, in catalogue order, whatever the order, names or repeats of the
      positions given. */
  lemma {:induction false} RoundTrip(catalog: seq<CheckboxItem>, ps: seq<Position>)
    ensures Selected(Initial(catalog, ps)) == CatalogPositions(catalog, ps)
  {
    if catalog != [] {
      RoundTrip(catalog[1..], ps);
      assert Initial(catalog, ps)[1..] == Initial(catalog[1..], ps);
    }
  }

  /** A position comes out exactly when it is a catalogue entry whose id a given position names. */
  lemma {:induction false} CatalogPositionsSpec(catalog: seq<CheckboxItem>, ps: seq<Position>)
    ensures forall p :: p in CatalogPositions(catalog, ps) <==>
      HasId(ps, p.id) && exists k :: 0 <= k < |catalog| && PositionOf(catalog[k]) == p
  {
    if catalog != [] {
      CatalogPositionsSpec(catalog[1..], ps);
      forall p | p in CatalogPositions(catalog, ps)
        ensures exists k :: 0 <= k < |catalog| && PositionOf(catalog[k]) == p
      {
        if p != PositionOf(catalog[0]) {
          var k :| 0 <= k < |catalog[1..]| && PositionOf(catalog[1..][k]) == p;
          assert catalog[k + 1] == catalog[1..][k];
        }
      }
      forall p: Position, k: int | HasId(ps, p.id) && 0 <= k < |catalog| && PositionOf(catalog[k]) == p
        ensures p in CatalogPositions(catalog, ps)
      {
        if k > 0 {
          assert catalog[1..][k - 1] == catalog[k];
        }
      }
    }
  }

  /** No two positions of the list share an id. */
  predicate DistinctIds(ps: seq<Position>)
  {
    forall i, j :: 0 <= i < j < |ps| ==> ps[i].id != ps[j].id
  }

  /** With a catalogue of distinct ids, no id comes out twice. */
  lemma {:induction false} CatalogPositionsUnique(catalog: seq<CheckboxItem>, ps: seq<Position>)
    requires UniqueEntries(catalog)
    ensures DistinctIds(CatalogPositions(catalog, ps))
  {
    if catalog != [] {
      var rest := CatalogPositions(catalog[1..], ps);
      CatalogPositionsUnique(catalog[1..], ps);
      if HasId(ps, catalog[0].id) {
        CatalogPositionsSpec(catalog[1..], ps);
        var r := [PositionOf(catalog[0])] + rest;
        forall j | 0 <= j < |rest|
          ensures rest[j].id != catalog[0].id
        {
          assert rest[j] in rest;
          var k :| 0 <= k < |catalog[1..]| && PositionOf(catalog[1..][k]) == rest[j];
          assert catalog[1..][k] == catalog[k + 1];
        }
        assert DistinctIds(r);
      }
    }
  }

  /** Two position lists that name the same catalogue ids give the same positions. */
  lemma {:induction false} CatalogPositionsByIds(catalog: seq<CheckboxItem>, ps: seq<Position>, qs: seq<Position>)
    requires forall k :: 0 <= k < |catalog| ==> (HasId(ps, catalog[k].id) <==> HasId(qs, catalog[k].id))
    ensures CatalogPositions(catalog, ps) == CatalogPositions(catalog, qs)
  {
    if catalog != [] {
      assert HasId(ps, catalog[0].id) <==> HasId(qs, catalog[0].id);
      forall k | 0 <= k < |catalog[1..]|
        ensures HasId(ps, catalog[1..][k].id) <==> HasId(qs, catalog[1..][k].id)
      {
        assert catalog[1..][k] == catalog[k + 1];
      }
      CatalogPositionsByIds(catalog[1..], ps, qs);
    }
  }

  /** Saving what an edit started from and opening it again changes nothing: after one round trip
      the positions are a fixed point. */
  lemma RoundTripStable(catalog: seq<CheckboxItem>, ps: seq<Position>)
    ensures Selected(Initial(catalog, Selected(Initial(catalog, ps)))) == Selected(Initial(catalog, ps))
  {
    var r := CatalogPositions(catalog, ps);
    RoundTrip(catalog, ps);
    RoundTrip(catalog, r);
    CatalogPositionsSpec(catalog, ps);
    forall k | 0 <= k < |catalog|
      ensures HasId(r, catalog[k].id) <==> HasId(ps, catalog[k].id)
    {
      if HasId(ps, catalog[k].id) {
        var p := PositionOf(catalog[k]);
        assert p in r;
        var j :| 0 <= j < |r| && r[j] == p;
        assert r[j].id == catalog[k].id;
      }
      if HasId(r, catalog[k].id) {
        var j :| 0 <= j < |r| && r[j].id == catalog[k].id;
        assert r[j] in r;
      }
    }
    CatalogPositionsByIds(catalog, r, ps);
  }

  // ---------------------------------------------------------------------------------------------
  // The member search

  /** The test of `member.name.includes(query)`. */
  function NameIncludes(query: string): MemberInfo -> bool
  {
    (m: MemberInfo) => Includes(m.name, query)
  }

  /** `filteredMembers`: the whole list for an empty query, otherwise the members whose name
      contains the query. The empty query is no special case: every name contains it. */
  function FilteredMembers(list: seq<MemberInfo>, query: string): (r: seq<MemberInfo>)
    ensures r == Filter(list, NameIncludes(query))
  {
    if query == "" then
      assert forall m :: m in list ==> NameIncludes(query)(m) by {
        forall m | m in list
          ensures NameIncludes(query)(m)
        {
          IncludesEmpty(m.name);
        }
      }
      FilterAll(list, NameIncludes(query));
      list
    else Filter(list, NameIncludes(query))
  }

  // ---------------------------------------------------------------------------------------------
  // The dialog state

  /** The dialog's state: the checkboxes, the search query, and the callbacks called so far. */
  class Dialog {
    const catalog: seq<CheckboxItem>
    var checkedItems: seq<CheckboxItem>
    var query: string
    var calls: seq<Call>

    /** The dialog starts from a copy of the catalogue and an empty query. */
    constructor (catalog0: seq<CheckboxItem>)
      ensures catalog == catalog0 && checkedItems == catalog0 && query == "" && calls == []
    {
      catalog, checkedItems, query, calls := catalog0, catalog0, "", [];
    }

    /** The effect on `[isEdit, positions]`: in edit mode the checkboxes show the given
        positions; in add mode they stay as they are. */
    method SyncPositions(isEdit: bool, positions: seq<Position>)
      modifies this
      ensures checkedItems == if isEdit then Initial(catalog, positions) else old(checkedItems)
      ensures query == old(query) && calls == old(calls)
    {
      if isEdit {
        checkedItems := Initial(catalog, positions);
      }
    }

    /** A click on a checkbox. */
    method ToggleCheckbox(id: int)
      modifies this
      ensures checkedItems == Toggle(old(checkedItems), id) && query == old(query) && calls == old(calls)
    {
      checkedItems := Toggle(checkedItems, id);
    }

    /** Typing in the combobox input. */
    method SetQuery(text: string)
      modifies this
      ensures query == text && checkedItems == old(checkedItems) && calls == old(calls)
    {
      query := text;
    }

    /** `handleSave`: exactly one call, the edit or the add callback, with the checked positions. */
    method Save(isEdit: bool)
      modifies this
      ensures calls == old(calls) + [if isEdit then EditMemberCall(Selected(checkedItems)) else AddMemberCall(Selected(checkedItems))]
      ensures checkedItems == old(checkedItems) && query == old(query)
    {
      var selected := Selected(checkedItems);
      if isEdit {
        calls := calls + [EditMemberCall(selected)];
      } else {
        calls := calls + [AddMemberCall(selected)];
      }
    }

    /** `handleClose`: back to the catalogue's check states and an empty query, then the close
        callback. */
    method Close()
      modifies this
      ensures checkedItems == catalog && query == "" && calls == old(calls) + [CloseCall]
    {
      checkedItems, query := catalog, "";
      calls := calls + [CloseCall];
    }
  }

  /** Opening the dialog in edit mode on a member's positions and saving at once passes the
      catalogue's entries for the ids those positions name, in catalogue order. */
  method EditAndSave(catalog: seq<CheckboxItem>, positions: seq<Position>) returns (saved: seq<Position>)
    ensures saved == CatalogPositions(catalog, positions)
    ensures forall p :: p in saved <==> HasId(positions, p.id) && exists k :: 0 <= k < |catalog| && PositionOf(catalog[k]) == p
  {
    var d := new Dialog(catalog);
    d.SyncPositions(true, positions);
    d.Save(true);
    assert d.calls == [EditMemberCall(Selected(Initial(catalog, positions)))];
    saved := d.calls[0].positions;
    RoundTrip(catalog, positions);
    CatalogPositionsSpec(catalog, positions);
  }
}
