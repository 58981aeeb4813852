/** The member roster page: its table columns, the three-field search, the switch between the
    active and the deleted members, the reset, and the guarded logical delete. The member
    collection is held as a list of documents; whether a fetch succeeds is a parameter. */
module MemberPage {
  import opened Types
  import opened Strings
  import opened Lists
  import opened MemberStore

  /** A table column: its heading and the member field or action it shows. */
  datatype Header = Header(title: string, value: string)

  /** The field or action each column shows. */
  function Values(hs: seq<Header>): (r: seq<string>)
    ensures |r| == |hs| && forall i :: 0 <= i < |hs| ==> r[i] == hs[i].value
  {
    seq(|hs|, i requires 0 <= i < |hs| => hs[i].value)
  }

  /** `getHeaders`: name, e-mail and affiliation, then the deletion time when the deleted members
      are listed, otherwise the delete and the edit buttons. */
  method GetHeaders(deleted: bool) returns (headers: seq<Header>)
    ensures |headers| >= 3 && Values(headers)[..3] == ["name", "email", "belong_to"]
    ensures Values(headers)[3..] == if deleted then ["deletedAt"] else ["delete", "edit"]
    ensures "deletedAt" in Values(headers) <==> deleted
    ensures "delete" in Values(headers) <==> !deleted
    ensures "edit" in Values(headers) <==> !deleted
  {
    headers := [Header("名前", "name"), Header("メールアドレス", "email"), Header("所属", "belong_to")];
    if deleted {
      headers := headers + [Header("削除日時", "deletedAt")];
    } else {
      headers := headers + [Header("削除", "delete"), Header("編集", "edit")];
    }
    var vs := Values(headers);
    assert vs[..3] == ["name", "email", "belong_to"];
    assert vs == vs[..3] + vs[3..];
  }

  /** The search test: each field contains its query. */
  function Matches(name: string, email: string, belongTo: string): MemberInfo -> bool
  {
    (m: MemberInfo) => Includes(m.name, name) && Includes(m.email, email) && Includes(m.belongTo, belongTo)
  }

  /** The search effect: the whole list while all three queries are empty, otherwise the members
      whose name, e-mail and affiliation each contain their query. The empty case is no special
      case: every text contains the empty query. */
  function SearchFilter(list: seq<MemberInfo>, name: string, email: string, belongTo: string): (r: seq<MemberInfo>)
    ensures r == Filter(list, Matches(name, email, belongTo))
  {
    if name == "" && email == "" && belongTo == "" then
      assert forall m :: m in list ==> Matches(name, email, belongTo)(m) by {
        forall m | m in list
          ensures Matches(name, email, belongTo)(m)
        {
          IncludesEmpty(m.name);
          IncludesEmpty(m.email);
          IncludesEmpty(m.belongTo);
        }
      }
      FilterAll(list, Matches(name, email, belongTo));
      list
    else Filter(list, Matches(name, email, belongTo))
  }

  /** The filtered list is the member list with some members left out, in the same order. */
  lemma SearchKeepsOrder(list: seq<MemberInfo>, name: string, email: string, belongTo: string)
    ensures IsSubsequence(SearchFilter(list, name, email, belongTo), list)
  {
    FilterSubsequence(list, Matches(name, email, belongTo));
  }

  /** The roster page's state; `store` is the member collection the fetches and the delete see. */
  class Page {
    var store: seq<MemberDoc>
    var memberList: seq<MemberInfo>
    var filteredMemberList: seq<MemberInfo>
    var deletedMemberList: bool
    var searchName: string
    var searchEmail: string
    var searchBelongTo: string

    /** After every handler and the effects it sets off, the table shows the search over the
        member list. */
    predicate Valid()
      reads this
    {
      filteredMemberList == SearchFilter(memberList, searchName, searchEmail, searchBelongTo)
    }

    /** The mount: empty lists and queries, then `getMembers(false)`. */
    constructor (store0: seq<MemberDoc>, fetchOk: bool)
      ensures Valid() && store == store0 && !deletedMemberList
      ensures searchName == "" && searchEmail == "" && searchBelongTo == ""
      ensures memberList == if fetchOk then FetchMembers(store0, false) else []
    {
      store, memberList, filteredMemberList := store0, [], [];
      deletedMemberList, searchName, searchEmail, searchBelongTo := false, "", "", "";
      new;
      GetMembers(false, fetchOk);
    }

    /** `getMembers`: a fetch that succeeds replaces the member list, and the search effect then
        runs on it; a fetch that fails leaves everything as it was. */
    method GetMembers(flag: bool, fetchOk: bool)
      requires Valid()
      modifies this
      ensures Valid()
      ensures memberList == if fetchOk then FetchMembers(store, flag) else old(memberList)
      ensures store == old(store) && deletedMemberList == old(deletedMemberList)
      ensures searchName == old(searchName) && searchEmail == old(searchEmail) && searchBelongTo == old(searchBelongTo)
    {
      if fetchOk {
        var membersData := FetchMembers(store, flag);
        memberList, filteredMemberList := membersData, membersData;
        filteredMemberList := SearchFilter(memberList, searchName, searchEmail, searchBelongTo);
      }
    }

    /** `handleDeletedFilterList`: the flag flips and the members with the new flag are fetched. */
    method HandleDeletedFilterList(fetchOk: bool)
      requires Valid()
      modifies this
      ensures Valid() && deletedMemberList == !old(deletedMemberList)
      ensures memberList == if fetchOk then FetchMembers(store, deletedMemberList) else old(memberList)
      ensures store == old(store)
      ensures searchName == old(searchName) && searchEmail == old(searchEmail) && searchBelongTo == old(searchBelongTo)
    {
      var newDeletedMemberList := !deletedMemberList;
      deletedMemberList := newDeletedMemberList;
      GetMembers(newDeletedMemberList, fetchOk);
    }

    /** `handleReset`: all three queries cleared, back to the active members. */
    method HandleReset(fetchOk: bool)
      requires Valid()
      modifies this
      ensures Valid() && !deletedMemberList && store == old(store)
      ensures searchName == "" && searchEmail == "" && searchBelongTo == ""
      ensures memberList == if fetchOk then FetchMembers(store, false) else old(memberList)
    {
      searchName, searchEmail, searchBelongTo := "", "", "";
      deletedMemberList := false;
      filteredMemberList := SearchFilter(memberList, searchName, searchEmail, searchBelongTo);
      GetMembers(false, fetchOk);
    }

    /** A search input changes; the search effect runs. */
    method SetSearch(name: string, email: string, belongTo: string)
      requires Valid()
      modifies this
      ensures Valid() && searchName == name && searchEmail == email && searchBelongTo == belongTo
      ensures memberList == old(memberList) && store == old(store) && deletedMemberList == old(deletedMemberList)
    {
      searchName, searchEmail, searchBelongTo := name, email, belongTo;
      filteredMemberList := SearchFilter(memberList, searchName, searchEmail, searchBelongTo);
    }

    /** `handleDelete`: nothing for a member without an id or when the user does not confirm;
        otherwise back to the active list, the logical delete, and a fetch of the active members.
        A delete the store refuses (no document with the id) ends there. */
    method HandleDelete(member: MemberInfo, confirmed: bool, t: Moment, fetchOk: bool)
      requires Valid()
      modifies this
      ensures Valid()
      ensures member.id == None || member.id == Some("") || !confirmed ==>
        store == old(store) && memberList == old(memberList) && filteredMemberList == old(filteredMemberList)
        && deletedMemberList == old(deletedMemberList)
      ensures member.id != None && member.id != Some("") && confirmed ==>
        && !deletedMemberList
        && var deleted := DeleteMember(old(store), member.id.value, t);
        && store == (if deleted.Some? then deleted.value else old(store))
        && memberList == (if deleted.Some? && fetchOk then FetchMembers(store, false) else old(memberList))
      ensures searchName == old(searchName) && searchEmail == old(searchEmail) && searchBelongTo == old(searchBelongTo)
    {
      if member.id == None || member.id == Some("") {
        return;
      }
      if confirmed {
        deletedMemberList := false;
        var deleted := DeleteMember(store, member.id.value, t);
        if deleted.Some? {
          store := deleted.value;
          GetMembers(false, fetchOk);
        }
      }
    }
  }

  /** A confirmed delete from a freshly opened page: the store keeps every document, and when the
      member was in it, the table then shows only active members and not the deleted one. */
  method DeleteFromFreshPage(docs: seq<MemberDoc>, member: MemberInfo, t: Moment) returns (shown: seq<MemberInfo>, stored: seq<MemberDoc>)
    requires member.id.Some? && member.id.value != ""
    ensures |stored| == |docs|
    ensures DeleteMember(docs, member.id.value, t).Some? ==>
      && stored == DeleteMember(docs, member.id.value, t).value
      && shown == FetchMembers(stored, false)
      && (forall m :: m in shown ==> !m.isDeleted)
      && MemberOf(stored[DocIndex(docs, member.id.value)]) !in shown
  {
    var page := new Page(docs, true);
    page.HandleDelete(member, true, t, true);
    shown, stored := page.filteredMemberList, page.store;
    LogicalDelete(docs, member.id.value, t);
    if DeleteMember(docs, member.id.value, t).Some? {
      FetchMembersSelects(stored, false);
      forall m | m in shown
        ensures !m.isDeleted
      {
        assert m in Filter(FetchAllMembers(stored), MemberDeletedIs(false));
      }
    }
  }
}
