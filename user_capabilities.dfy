/**
 * `User_Capabilities`: on activation the plugin grants its own
 * capabilities to a list of user roles, on deactivation it takes them away.
 * WordPress's role registry is reduced to a map from role slug to the set
 * of capabilities the role is granted.
 */
module UserCapabilities {

  /** `$cap_list`: the capabilities unique to this plugin. */
  const CapList: seq<string> := [
    "manage_task_types",
    "manage_task_statuses",
    "manage_task_priorities",
    "create_tasks",
    "read_task",
    "read_private_tasks",
    "edit_task",
    "edit_tasks",
    "edit_others_tasks",
    "edit_private_tasks",
    "edit_published_tasks",
    "publish_tasks",
    "delete_task",
    "delete_tasks",
    "delete_others_tasks",
    "delete_private_tasks",
    "delete_published_tasks"
  ]

  /** The roles `register` and `unregister` act on when called without arguments. */
  const DefaultRoles: seq<string> := ["administrator", "editor", "author", "contributor"]

  const PluginCaps: set<string> := set c | c in CapList

  /** One role's capabilities after the plugin's are switched on or off. */
  function Toggled(caps: set<string>, change: bool): (toggled: set<string>) {
    if change then caps + PluginCaps else caps - PluginCaps
  }

  /** A role's capabilities once the first `j` of the plugin's have been added or removed. */
  ghost function PartlyToggled(caps: set<string>, j: nat, change: bool): (toggled: set<string>)
    requires j <= |CapList|
  {
    if change then caps + (set c | c in CapList[..j]) else caps - (set c | c in CapList[..j])
  }

  lemma PartlyToggledStep(caps: set<string>, j: nat, change: bool)
    requires j < |CapList|
    ensures PartlyToggled(caps, j + 1, change)
         == if change then PartlyToggled(caps, j, change) + {CapList[j]}
            else PartlyToggled(caps, j, change) - {CapList[j]}
  {
    assert CapList[..j + 1] == CapList[..j] + [CapList[j]];
  }

  /**
   * The role registry after `switch_access(listed, change)`: every listed
   * role that exists gains (or loses) all of the plugin's capabilities and
   * nothing else; every other role is as it was.
   */
  function Switched(roles: map<string, set<string>>, listed: seq<string>, change: bool): (r: map<string, set<string>>)
    ensures r.Keys == roles.Keys
    ensures forall role | role in roles && role !in listed :: r[role] == roles[role]
    ensures forall role | role in roles && role in listed ::
              forall c | c in CapList :: (c in r[role] <==> change)
    ensures forall role | role in roles ::
              forall c | c !in PluginCaps :: (c in r[role] <==> c in roles[role])
  {
    map role | role in roles :: if role in listed then Toggled(roles[role], change) else roles[role]
  }

  /** `register` twice leaves the registry as `register` once. */
  lemma {:induction false} RegisterIdempotent(roles: map<string, set<string>>, listed: seq<string>)
    ensures Switched(Switched(roles, listed, true), listed, true) == Switched(roles, listed, true)
  {
    var once := Switched(roles, listed, true);
    var twice := Switched(once, listed, true);
    forall role | role in roles
      ensures twice[role] == once[role]
    {
      if role in listed {
        assert twice[role] == Toggled(once[role], true);
      }
    }
  }

  /**
   * `register` then `unregister` on the same roles ends as `unregister`
   * alone: the listed roles hold none of the plugin's capabilities and keep
   * all others they had.
   */
  lemma {:induction false} RegisterThenUnregister(roles: map<string, set<string>>, listed: seq<string>)
    ensures Switched(Switched(roles, listed, true), listed, false) == Switched(roles, listed, false)
    ensures forall role | role in roles && role in listed ::
              Switched(Switched(roles, listed, true), listed, false)[role] !! PluginCaps
  {
    var on := Switched(roles, listed, true);
    var back := Switched(on, listed, false);
    var off := Switched(roles, listed, false);
    forall role | role in roles
      ensures back[role] == off[role]
    {
      if role in listed {
        assert back[role] == Toggled(on[role], false);
        assert off[role] == Toggled(roles[role], false);
      }
    }
  }

  /** Switching for the first `i + 1` listed roles is switching for the first `i`, then for one more. */
  lemma SwitchedStep(roles: map<string, set<string>>, listed: seq<string>, i: nat, change: bool)
    requires i < |listed|
    ensures var before := Switched(roles, listed[..i], change);
            var role := listed[i];
            Switched(roles, listed[..i + 1], change)
              == if role in roles then before[role := Toggled(before[role], change)] else before
  {
    var before := Switched(roles, listed[..i], change);
    var after := Switched(roles, listed[..i + 1], change);
    var role := listed[i];
    assert listed[..i + 1] == listed[..i] + [role];
    if role in roles {
      forall r | r in roles
        ensures after[r] == before[role := Toggled(before[role], change)][r]
      {
        if r == role && r in listed[..i] {
          assert before[r] == Toggled(roles[r], change);
        }
      }
    }
  }

  /**
   * WordPress's role registry: `get_role` finds a role by slug, and a role's
   * `add_cap` and `remove_cap` change its capabilities in place.
   */
  class RoleRegistry {
    var roles: map<string, set<string>>

    constructor (roles: map<string, set<string>>)
      ensures this.roles == roles
    {
      this.roles := roles;
    }

    /** `WP_Role::add_cap($cap, true)`. */
    method AddCap(role: string, cap: string)
      requires role in roles
      modifies this
      ensures roles == old(roles)[role := old(roles)[role] + {cap}]
    {
      roles := roles[role := roles[role] + {cap}];
    }

    /** `WP_Role::remove_cap($cap)`. */
    method RemoveCap(role: string, cap: string)
      requires role in roles
      modifies this
      ensures roles == old(roles)[role := old(roles)[role] - {cap}]
    {
      roles := roles[role := roles[role] - {cap}];
    }

    /**
     * `switch_access`: for each listed role that `get_role` finds, add (or
     * remove) each capability of `$cap_list` in turn.
     */
    method SwitchAccess(listed: seq<string>, change: bool)
      modifies this
      ensures roles == Switched(old(roles), listed, change)
    {
      var i := 0;
      while i < |listed|
        invariant 0 <= i <= |listed|
        invariant roles == Switched(old(roles), listed[..i], change)
      {
        var role := listed[i];
        SwitchedStep(old(roles), listed, i, change);
        if role in roles {
          SwitchRole(role, change);
        }
        i := i + 1;
      }
      assert listed[..i] == listed;
    }

    /** The inner loop of `switch_access`: every capability of `$cap_list` on one found role. */
    method SwitchRole(role: string, change: bool)
      requires role in roles
      modifies this
      ensures roles == old(roles)[role := Toggled(old(roles)[role], change)]
    {
      var j := 0;
      assert PartlyToggled(roles[role], 0, change) == roles[role] by {
        assert (set c | c in CapList[..0]) == {};
      }
      assert roles == roles[role := roles[role]];
      while j < |CapList|
        invariant 0 <= j <= |CapList|
        invariant role in roles
        invariant roles == old(roles)[role := PartlyToggled(old(roles)[role], j, change)]
      {
        PartlyToggledStep(old(roles)[role], j, change);
        if change {
          AddCap(role, CapList[j]);
        } else {
          RemoveCap(role, CapList[j]);
        }
        j := j + 1;
      }
      assert CapList[..j] == CapList;
    }

    /** `register($roles)`: grant the plugin's capabilities. */
    method Register(listed: seq<string> := DefaultRoles)
      modifies this
      ensures roles == Switched(old(roles), listed, true)
    {
      SwitchAccess(listed, true);
    }

    /** `unregister($roles)`: take the plugin's capabilities away. */
    method Unregister(listed: seq<string> := DefaultRoles)
      modifies this
      ensures roles == Switched(old(roles), listed, false)
    {
      SwitchAccess(listed, false);
    }
  }

  /** Activation then deactivation with the default roles. */
  method ActivateThenDeactivate(registry: RoleRegistry)
    modifies registry
    ensures registry.roles == Switched(old(registry.roles), DefaultRoles, false)
    ensures forall role | role in registry.roles && role in DefaultRoles :: registry.roles[role] !! PluginCaps
  {
    registry.Register();
    registry.Unregister();
    RegisterThenUnregister(old(registry.roles), DefaultRoles);
  }
}
