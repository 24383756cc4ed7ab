/**
 * The permission-gated dashboard menu: a fixed catalog of options, each
 * guarded by one permission, filtered by the user's permission set and
 * closed by the always-present logout entry.
 */
module Menu {

  /** An entry of the menu: its label and the permission that guards it. */
  datatype MenuOption = MenuOption(name: string, permission: string)

  const DashboardOption := MenuOption("View Dashboard", "DASHBOARD_VIEW")
  const UsersOption := MenuOption("View Users", "USER_READ")
  const CreateUserOption := MenuOption("Create User", "USER_CREATE")
  const RolesOption := MenuOption("View Roles", "ROLE_READ")
  const EditDataOption := MenuOption("Edit Data", "DATA_EDIT")
  const LogoutOption := MenuOption("Logout", "LOGOUT")

  /** The guarded options, in the order the menu lists them. */
  const Catalog: seq<MenuOption> := [DashboardOption, UsersOption, CreateUserOption, RolesOption, EditDataOption]

  /** The entries of `catalog` whose permission is in `perms`, in catalog order. */
  function Filter(catalog: seq<MenuOption>, perms: set<string>): (r: seq<MenuOption>)
    ensures |r| <= |catalog|
    ensures forall i :: 0 <= i < |r| ==> r[i] in catalog && r[i].permission in perms
  {
    if catalog == [] then []
    else if catalog[0].permission in perms then [catalog[0]] + Filter(catalog[1..], perms)
    else Filter(catalog[1..], perms)
  }

  /** The menu shown to a user whose permission set is `perms`. */
  function MenuFor(perms: set<string>): seq<MenuOption>
  {
    Filter(Catalog, perms) + [LogoutOption]
  }

  /** `a` can be obtained from `b` by deleting entries: `a` keeps `b`'s order. */
  ghost predicate IsSubsequence(a: seq<MenuOption>, b: seq<MenuOption>)
    decreases |b|
  {
    a == [] || (b != [] && ((a[0] == b[0] && IsSubsequence(a[1..], b[1..])) || IsSubsequence(a, b[1..])))
  }

  /** An option is kept exactly when it is in the catalog and its permission is held. */
  lemma {:induction false} FilterMembership(catalog: seq<MenuOption>, perms: set<string>, o: MenuOption)
    ensures o in Filter(catalog, perms) <==> o in catalog && o.permission in perms
  {
    if catalog != [] {
      FilterMembership(catalog[1..], perms, o);
      assert catalog == [catalog[0]] + catalog[1..];
    }
  }

  /** Filtering keeps the catalog's order. */
  lemma {:induction false} FilterKeepsOrder(catalog: seq<MenuOption>, perms: set<string>)
    ensures IsSubsequence(Filter(catalog, perms), catalog)
  {
    if catalog != [] {
      FilterKeepsOrder(catalog[1..], perms);
      if catalog[0].permission in perms {
        assert ([catalog[0]] + Filter(catalog[1..], perms))[1..] == Filter(catalog[1..], perms);
      }
    }
  }

  /** Filtering a concatenation filters each part. */
  lemma {:induction false} FilterAppend(a: seq<MenuOption>, b: seq<MenuOption>, perms: set<string>)
    ensures Filter(a + b, perms) == Filter(a, perms) + Filter(b, perms)
  {
    if a != [] {
      FilterAppend(a[1..], b, perms);
      assert (a + b)[1..] == a[1..] + b;
    } else {
      assert a + b == b;
    }
  }

  /**
   * The menu lists exactly the catalog entries whose permission is held, in
   * catalog order, and ends with the logout entry, which appears nowhere else.
   */
  lemma MenuShape(perms: set<string>)
    ensures var m := MenuFor(perms);
      && 1 <= |m| <= |Catalog| + 1
      && m[|m| - 1] == LogoutOption
      && IsSubsequence(m[..|m| - 1], Catalog)
      && (forall o :: o in m[..|m| - 1] <==> o in Catalog && o.permission in perms)
      && (forall i :: 0 <= i < |m| - 1 ==> m[i].permission in perms && m[i].permission != "LOGOUT")
  {
    var m := MenuFor(perms);
    assert m[..|m| - 1] == Filter(Catalog, perms);
    FilterKeepsOrder(Catalog, perms);
    forall o ensures o in m[..|m| - 1] <==> o in Catalog && o.permission in perms {
      FilterMembership(Catalog, perms, o);
    }
  }

  /** The Viewer role's permission set shows the dashboard entry and logout only. */
  lemma ViewerMenu()
    ensures MenuFor({"DASHBOARD_VIEW"}) == [DashboardOption, LogoutOption]
  {
    var perms := {"DASHBOARD_VIEW"};
    var rest := Filter(Catalog[1..], perms);
    if rest != [] {
      FilterMembership(Catalog[1..], perms, rest[0]);
      assert false;
    }
  }

  /** Builds the menu by appending each guarded entry whose permission is held, then logout. */
  method BuildMenu(perms: set<string>) returns (options: seq<MenuOption>)
    ensures options == MenuFor(perms)
  {
    options := [];
    assert options == Filter(Catalog[..0], perms);
    if "DASHBOARD_VIEW" in perms {
      options := options + [DashboardOption];
    }
    Extended(perms, 0);
    assert options == Filter(Catalog[..1], perms);
    if "USER_READ" in perms {
      options := options + [UsersOption];
    }
    Extended(perms, 1);
    assert options == Filter(Catalog[..2], perms);
    if "USER_CREATE" in perms {
      options := options + [CreateUserOption];
    }
    Extended(perms, 2);
    assert options == Filter(Catalog[..3], perms);
    if "ROLE_READ" in perms {
      options := options + [RolesOption];
    }
    Extended(perms, 3);
    assert options == Filter(Catalog[..4], perms);
    if "DATA_EDIT" in perms {
      options := options + [EditDataOption];
    }
    Extended(perms, 4);
    assert options == Filter(Catalog[..5], perms);
    assert Catalog[..5] == Catalog;
    options := options + [LogoutOption];
  }

  /** The filtered prefix of the catalog grows by its next entry when that entry's permission is held. */
  lemma Extended(perms: set<string>, k: nat)
    requires k < |Catalog|
    ensures Filter(Catalog[..k + 1], perms)
         == Filter(Catalog[..k], perms) + (if Catalog[k].permission in perms then [Catalog[k]] else [])
  {
    assert Catalog[..k + 1] == Catalog[..k] + [Catalog[k]];
    FilterAppend(Catalog[..k], [Catalog[k]], perms);
  }
}
