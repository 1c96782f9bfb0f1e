/** The role-based menu selection of the navigation service. The two role
    ids and the two menus are data of the surrounding application; they
    reach the model as a `RoleTable`. */
module RoleResolver {
  import opened NavigationTypes

  /** The human-resources role and its menu, the super-administrator role
      and its menu. */
  datatype RoleTable = RoleTable(rh: int, suadmin: int, menuRh: seq<Node>, menuAdmin: seq<Node>)

  /** The menu for a role: the human-resources menu, the administrator menu,
      or the empty menu for any other role. The cases are tried in order, so
      the human-resources case wins should the two ids coincide. The result
      is a value: later changes by the caller cannot reach the table. */
  function GetNavigationByRole(roleId: int, table: RoleTable): (navigation: seq<Node>)
    ensures roleId == table.rh ==> navigation == table.menuRh
    ensures roleId != table.rh && roleId == table.suadmin ==> navigation == table.menuAdmin
    ensures roleId != table.rh && roleId != table.suadmin ==> navigation == []
  {
    if roleId == table.rh then table.menuRh
    else if roleId == table.suadmin then table.menuAdmin
    else []
  }
}
