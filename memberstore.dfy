/** The member collection in the document store: reading members, selecting by the deleted flag,
    and the logical delete with its `YYYY/MM/DD hh:mm` time stamp. The store is a list of
    documents in query order; the calls themselves are not made here. */
module MemberStore {
  import opened Types
  import opened Lists

  /** A member document: its document id and its fields. `idField` is an `id` field stored in the
      document itself, if there is one. */
  datatype MemberDoc = MemberDoc(
    docId: string,
    idField: Option<string>,
    name: string,
    email: string,
    belongTo: string,
    isDeleted: bool,
    deletedAt: Option<string>)

  /** `{ id: doc.id, ...doc.data() }`: the document id, unless the fields hold an `id`, which the
      spread writes over it. */
  function MemberOf(d: MemberDoc): (m: MemberInfo)
    ensures m.isDeleted == d.isDeleted
  {
    MemberInfo(
      if d.idField.Some? then d.idField else Some(d.docId),
      d.name, d.email, d.belongTo, d.isDeleted, d.deletedAt)
  }

  /** A stored `id` field wins over the document id; without one the document id is used. */
  lemma StoredIdOverrides(d: MemberDoc)
    ensures MemberOf(d).id == Some(if d.idField.Some? then d.idField.value else d.docId)
  {
  }

  /** The documents read as members, in query order. */
  function MembersOf(docs: seq<MemberDoc>): (ms: seq<MemberInfo>)
    ensures |ms| == |docs|
    ensures forall i :: 0 <= i < |docs| ==> ms[i] == MemberOf(docs[i])
  {
    seq(|docs|, i requires 0 <= i < |docs| => MemberOf(docs[i]))
  }

  /** `fetchAllMembers`: every document. */
  function FetchAllMembers(docs: seq<MemberDoc>): seq<MemberInfo>
  {
    MembersOf(docs)
  }

  /** The query `where("isDeleted", "==", flag)`. */
  function DeletedIs(flag: bool): MemberDoc -> bool
  {
    (d: MemberDoc) => d.isDeleted == flag
  }

  /** `fetchMembers`: the documents whose deleted flag equals the argument. */
  function FetchMembers(docs: seq<MemberDoc>, flag: bool): seq<MemberInfo>
  {
    MembersOf(Filter(docs, DeletedIs(flag)))
  }

  /** The members with the given deleted flag. */
  function MemberDeletedIs(flag: bool): MemberInfo -> bool
  {
    (m: MemberInfo) => m.isDeleted == flag
  }

  /** `fetchMembers(flag)` is `fetchAllMembers()` cut down to the members with that flag, in the
      same order. */
  lemma {:induction false} FetchMembersSelects(docs: seq<MemberDoc>, flag: bool)
    ensures FetchMembers(docs, flag) == Filter(FetchAllMembers(docs), MemberDeletedIs(flag))
  {
    if docs != [] {
      FetchMembersSelects(docs[1..], flag);
      assert MembersOf(docs)[1..] == MembersOf(docs[1..]);
      var f := Filter(docs, DeletedIs(flag));
      if DeletedIs(flag)(docs[0]) {
        assert f == [docs[0]] + Filter(docs[1..], DeletedIs(flag));
        assert MembersOf(f) == [MemberOf(docs[0])] + MembersOf(Filter(docs[1..], DeletedIs(flag)));
      }
    }
  }

  // ---------------------------------------------------------------------------------------------
  // The time stamp

  /** The parts of `new Date()` the stamp uses: `getFullYear()`, `getMonth()` (0 for January),
      `getDate()`, `getHours()`, `getMinutes()`. */
  datatype Moment = Moment(year: nat, month0: nat, day: nat, hours: nat, minutes: nat)

  /** The ranges a calendar date and a clock time give. */
  predicate ValidMoment(t: Moment)
  {
    t.month0 < 12 && 1 <= t.day <= 31 && t.hours < 24 && t.minutes < 60
  }

  predicate IsDigit(c: char)
  {
    '0' <= c <= '9'
  }

  function DigitChar(d: nat): (c: char)
    requires d < 10
    ensures IsDigit(c)
  {
    ('0' as int + d) as char
  }

  /** `String(n)` for a non-negative integer: its decimal digits, no leading zero. */
  function Decimal(n: nat): (s: string)
    ensures |s| >= 1 && forall k :: 0 <= k < |s| ==> IsDigit(s[k])
    decreases n
  {
    if n < 10 then [DigitChar(n)] else Decimal(n / 10) + [DigitChar(n % 10)]
  }

  /** `s.padStart(2, "0")`. */
  function PadStart2(s: string): (r: string)
    ensures |r| == if |s| >= 2 then |s| else 2
  {
    if |s| >= 2 then s else seq(2 - |s|, _ => '0') + s
  }

  /** `String(n).padStart(2, "0")`. */
  function Pad2(n: nat): string
  {
    PadStart2(Decimal(n))
  }

  /** The `deletedAt` text: year as it is, then month (`getMonth() + 1`), day, hour and minute,
      each padded to two digits, as `YYYY/MM/DD hh:mm`. */
  function DeletedAt(t: Moment): string
  {
    Decimal(t.year) + "/" + Pad2(t.month0 + 1) + "/" + Pad2(t.day) + " " + Pad2(t.hours) + ":" + Pad2(t.minutes)
  }

  /** The number a string of decimal digits denotes. */
  function DigitsValue(s: string): nat
  {
    if s == [] then 0
    else
      var c := s[|s| - 1];
      DigitsValue(s[..|s| - 1]) * 10 + (if IsDigit(c) then c as int - '0' as int else 0)
  }

  lemma {:induction false} DecimalValue(n: nat)
    ensures DigitsValue(Decimal(n)) == n
    decreases n
  {
    if n >= 10 {
      DecimalValue(n / 10);
      var s := Decimal(n);
      assert s[..|s| - 1] == Decimal(n / 10);
    } else {
      assert Decimal(n)[..0] == [];
    }
  }

  /** The year is not padded: a year below 1000 is written with fewer than four digits. */
  lemma {:induction false} DecimalNoLeadingZero(n: nat)
    ensures Decimal(n)[0] == '0' <==> n == 0
    ensures |Decimal(n)| == 1 <==> n < 10
    decreases n
  {
    if n >= 10 {
      DecimalNoLeadingZero(n / 10);
    }
  }

  /** A part below 100 takes exactly two digits and reads back as itself. */
  lemma Pad2Value(n: nat)
    requires n < 100
    ensures |Pad2(n)| == 2 && IsDigit(Pad2(n)[0]) && IsDigit(Pad2(n)[1])
    ensures DigitsValue(Pad2(n)) == n
    ensures n < 10 <==> Pad2(n)[0] == '0'
  {
    DecimalValue(n);
    DecimalNoLeadingZero(n);
    var s := Pad2(n);
    if n < 10 {
      assert s == ['0', DigitChar(n)];
      assert s[..1] == ['0'];
      assert s[..1][..0] == [];
    } else {
      DecimalNoLeadingZero(n / 10);
      assert s == Decimal(n);
    }
  }

  /** Reads a `deletedAt` text back: the year is everything before the last twelve characters. */
  function ParseDeletedAt(s: string): Option<Moment>
  {
    if |s| < 13 then None
    else
      var n := |s| - 12;
      var year, rest := s[..n], s[n..];
      if rest[0] == '/' && rest[3] == '/' && rest[6] == ' ' && rest[9] == ':' && DigitsValue(rest[1..3]) >= 1 then
        Some(Moment(DigitsValue(year), DigitsValue(rest[1..3]) - 1, DigitsValue(rest[4..6]), DigitsValue(rest[7..9]), DigitsValue(rest[10..12])))
      else None
  }

  /** Where the parts sit in a stamp whose last four parts have two characters each. */
  lemma Layout(y: string, mo: string, d: string, h: string, mi: string)
    requires |mo| == 2 && |d| == 2 && |h| == 2 && |mi| == 2
    ensures var s := y + "/" + mo + "/" + d + " " + h + ":" + mi;
      && |s| == |y| + 12 && s[..|y|] == y
      && var rest := s[|y|..];
        rest[0] == '/' && rest[1..3] == mo && rest[3] == '/' && rest[4..6] == d
        && rest[6] == ' ' && rest[7..9] == h && rest[9] == ':' && rest[10..12] == mi
  {
    var rest := "/" + mo + "/" + d + " " + h + ":" + mi;
    assert y + "/" + mo + "/" + d + " " + h + ":" + mi == y + rest;
  }

  /** The stamp holds the moment's parts in the fixed layout: reading it back gives the moment. */
  lemma DeletedAtRoundTrip(t: Moment)
    requires ValidMoment(t)
    ensures ParseDeletedAt(DeletedAt(t)) == Some(t)
  {
    var y, mo, d, h, mi := Decimal(t.year), Pad2(t.month0 + 1), Pad2(t.day), Pad2(t.hours), Pad2(t.minutes);
    Pad2Value(t.month0 + 1);
    Pad2Value(t.day);
    Pad2Value(t.hours);
    Pad2Value(t.minutes);
    DecimalValue(t.year);
    Layout(y, mo, d, h, mi);
  }

  // ---------------------------------------------------------------------------------------------
  // deleteMember

  /** The only fields `deleteMember` writes. */
  datatype DeletePayload = DeletePayload(isDeleted: bool, deletedAt: string)

  /** The payload of `deleteMember` at a given moment. */
  function DeletePayloadAt(t: Moment): DeletePayload
  {
    DeletePayload(true, DeletedAt(t))
  }

  /** The index of the document with the given id, or -1. */
  function DocIndex(docs: seq<MemberDoc>, id: string): (k: int)
    ensures -1 <= k < |docs|
    ensures k >= 0 ==> docs[k].docId == id
    ensures k < 0 ==> forall j :: 0 <= j < |docs| ==> docs[j].docId != id
  {
    if docs == [] then -1
    else if docs[|docs| - 1].docId == id then |docs| - 1
    else DocIndex(docs[..|docs| - 1], id)
  }

  /** `deleteMember(id)` on the collection: the update fails when no document has the id;
      otherwise that document gets the two payload fields and stays in the collection. */
  function DeleteMember(docs: seq<MemberDoc>, id: string, t: Moment): Option<seq<MemberDoc>>
  {
    var k := DocIndex(docs, id);
    if k < 0 then None
    else
      var p := DeletePayloadAt(t);
      Some(docs[k := docs[k].(isDeleted := p.isDeleted, deletedAt := Some(p.deletedAt))])
  }

  /** The delete is logical: no document goes, the addressed one is marked deleted with the stamp
      and moves from the active list to the deleted list, and every other document is as it was. */
  lemma LogicalDelete(docs: seq<MemberDoc>, id: string, t: Moment)
    ensures DeleteMember(docs, id, t).Some? <==> exists j :: 0 <= j < |docs| && docs[j].docId == id
    ensures DeleteMember(docs, id, t).Some? ==>
      var after := DeleteMember(docs, id, t).value;
      var k := DocIndex(docs, id);
      && |after| == |docs|
      && after[k] == docs[k].(isDeleted := true, deletedAt := Some(DeletedAt(t)))
      && (forall j :: 0 <= j < |docs| && j != k ==> after[j] == docs[j])
      && MemberOf(after[k]) in FetchMembers(after, true)
      && MemberOf(after[k]) !in FetchMembers(after, false)
  {
    var k := DocIndex(docs, id);
    if k >= 0 {
      var after := DeleteMember(docs, id, t).value;
      assert after[k] in Filter(after, DeletedIs(true));
      var f := Filter(after, DeletedIs(true));
      var i :| 0 <= i < |f| && f[i] == after[k];
      assert FetchMembers(after, true)[i] == MemberOf(after[k]);
      var g := Filter(after, DeletedIs(false));
      forall m | m in FetchMembers(after, false)
        ensures !m.isDeleted
      {
        var j :| 0 <= j < |g| && MembersOf(g)[j] == m;
        assert g[j] in g;
      }
    }
  }
}
