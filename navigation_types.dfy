/** The values the navigation service works on: menu nodes, the parent
    argument of the parent search, and the change event of the store. */
module NavigationTypes {

  datatype Option<+T> = None | Some(value: T)

  /** The `type` of a menu item. `Other` stands for every kind the tree
      algorithms do not treat specially (dividers, spacers, anything else). */
  datatype Kind = Basic | Aside | Collapsable | Group | Other

  /** The optional `children` array of a menu item. An empty array is
      `Present([])`, which is not the same as having no array at all. */
  datatype Children = Absent | Present(items: seq<Node>)

  /** A menu item. Display attributes (title, icon, link, ...) are opaque
      payload that no operation of the core interprets, so they are left out. */
  datatype Node = Node(id: string, kind: Kind, children: Children)

  /** The `parent` argument and result of the parent search: either a whole
      navigation array or a single item. */
  datatype Parent = Items(items: seq<Node>) | Item(item: Node)

  /** The value the store pushes to its change subject on every store or delete. */
  datatype ChangeEvent = ChangeEvent(key: string, navigation: seq<Node>)

  /** The kinds through which flattening descends. */
  predicate IsContainer(k: Kind)
  {
    k == Aside || k == Collapsable || k == Group
  }
}
