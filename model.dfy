/**
 The records the profile list is made of. A `Category` is a tag from a closed vocabulary with
 an internal `name` (what selection matches on) and a `displayName` (what is shown and what the
 current user's primary categories are stored as). A `User` is a profile as the repository
 delivers it.
 */
module Model {

  datatype Option<T> = None | Some(value: T)

  datatype Category = Category(name: string, displayName: string)

  datatype User = User(
    nome: string,
    sobrenome: string,
    cargo: string,
    imagemURL: string,
    categories: seq<Category>)

  /** `categories.map { it.name }`. */
  function Names(categories: seq<Category>): (r: seq<string>)
    ensures |r| == |categories|
    ensures forall i :: 0 <= i < |categories| ==> r[i] == categories[i].name
  {
    seq(|categories|, i requires 0 <= i < |categories| => categories[i].name)
  }

  /** `categories.map { it.displayName }`. */
  function DisplayNames(categories: seq<Category>): (r: seq<string>)
    ensures |r| == |categories|
    ensures forall i :: 0 <= i < |categories| ==> r[i] == categories[i].displayName
  {
    seq(|categories|, i requires 0 <= i < |categories| => categories[i].displayName)
  }

  /** `list.toSet()`. */
  function SetOf<T>(list: seq<T>): set<T>
  {
    set x | x in list
  }

  /** `list.intersect(other)`: the distinct elements of `list` that are also in `other`. */
  function Intersect<T>(list: seq<T>, other: set<T>): set<T>
  {
    set x | x in list && x in other
  }
}
