/** The role guard placed on views: who is turned away with 401 or 403, and who reaches the view. */
module Decorators {
  import Models

  /** What decorated_function does with a request carrying args. */
  datatype Decision<A> = Abort401 | Abort403 | CallView(args: A)

  /** any(current_user.has_role(role) for role in role_names). */
  function HoldsAny(user: Models.User, roleNames: seq<string>): (b: bool)
    ensures b <==> exists i :: 0 <= i < |roleNames| && Models.HasRole(user, roleNames[i])
  {
    if roleNames == [] then false
    else Models.HasRole(user, roleNames[0]) || HoldsAny(user, roleNames[1..])
  }

  /**
   * roles_required(*role_names): an unauthenticated user gets 401, an authenticated user
   * holding none of the roles gets 403, anyone else reaches the view with the same arguments.
   */
  function RolesRequired<A>(roleNames: seq<string>, authenticated: bool, user: Models.User, args: A): (d: Decision<A>)
    ensures d.Abort401? <==> !authenticated
    ensures d.Abort403? <==> authenticated && forall i :: 0 <= i < |roleNames| ==> !Models.HasRole(user, roleNames[i])
    ensures d.CallView? <==> authenticated && exists i :: 0 <= i < |roleNames| && Models.HasRole(user, roleNames[i])
    ensures d.CallView? ==> d.args == args
  {
    if !authenticated then Abort401
    else if !HoldsAny(user, roleNames) then Abort403
    else CallView(args)
  }

  /** With no role listed, every authenticated user is forbidden. */
  lemma NoRolesForbidsEveryone<A>(user: Models.User, args: A)
    ensures RolesRequired([], true, user, args) == Abort403
  {
  }

  /** A user holding a role whose name is listed reaches the view. */
  lemma ListedRoleAdmits<A>(roleNames: seq<string>, user: Models.User, i: nat, j: nat, args: A)
    requires i < |roleNames| && j < |user.roles| && user.roles[j].name == roleNames[i]
    ensures RolesRequired(roleNames, true, user, args) == CallView(args)
  {
    assert Models.HasRole(user, roleNames[i]);
  }

  /** Listing more roles never turns away a user who was admitted. */
  lemma MoreRolesStillAdmit<A>(roleNames: seq<string>, extra: seq<string>, user: Models.User, args: A)
    requires RolesRequired(roleNames, true, user, args).CallView?
    ensures RolesRequired(roleNames + extra, true, user, args).CallView?
  {
    var i :| 0 <= i < |roleNames| && Models.HasRole(user, roleNames[i]);
    assert (roleNames + extra)[i] == roleNames[i];
  }
}
