/** The value records shared by the project board and the member roster. */
module Types {

  /** An optional value: `undefined`/`null` in the program is `None`. */
  datatype Option<T> = None | Some(value: T)

  /** A role code from the fixed position catalogue together with its label. */
  datatype Position = Position(id: int, name: string)

  /** One member assignment inside a project; its place in `items` is its rank. */
  datatype MemberItem = MemberItem(id: string, memberId: string, positions: seq<Position>)

  /** A project ("container") as a value: the abstract view of one board column. */
  datatype ProjectContainer = ProjectContainer(
    id: string,
    displayOrder: int,
    name: string,
    description: string,
    tags: seq<string>,
    items: seq<MemberItem>)

  /** A member of the roster; `id` is absent for a record not read from the store. */
  datatype MemberInfo = MemberInfo(
    id: Option<string>,
    name: string,
    email: string,
    belongTo: string,
    isDeleted: bool,
    deletedAt: Option<string>)

  /** The ids of a list of projects, in list order. */
  function Ids(ps: seq<ProjectContainer>): (r: seq<string>)
    ensures |r| == |ps|
    ensures forall i :: 0 <= i < |ps| ==> r[i] == ps[i].id
  {
    seq(|ps|, i requires 0 <= i < |ps| => ps[i].id)
  }

  /** No two projects of the list share an id. */
  predicate UniqueIds(ps: seq<ProjectContainer>)
  {
    forall i, j :: 0 <= i < j < |ps| ==> ps[i].id != ps[j].id
  }
}
