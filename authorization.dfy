/** The authorization gate a script passes before it is bound to its context:
    whether the current user may run a script of a given tier. */
module Authorization {

  /** The tier named in a script's manifest. Only FREE and VIP are singled out by
      the gate; every other tier of the enumeration behaves as Other. */
  datatype ScriptType = Free | Vip | Other

  /** What the gate reads of the client: the offline-mode configuration flag
      and the login session (logged in or not, and the user's group id). */
  datatype Login = Login(offlineMode: bool, loggedIn: bool, usergroupId: int)

  /** The eight privileged group ids of the login service (administrators,
      contributors, developers, moderators, super moderators, sponsors,
      script writers, VIPs). Their numeric values live outside the model. */
  datatype VipGroups = VipGroups(admin: int, contrib: int, dev: int, moderator: int,
                                 superModerator: int, sponsor: int, scriptWriter: int, vip: int)
  {
    /** The allow-list in the order the gate searches it. */
    function Ids(): (ids: seq<int>)
      ensures |ids| == 8
      ensures forall id :: id in ids <==>
        id == admin || id == contrib || id == dev || id == moderator ||
        id == superModerator || id == sponsor || id == scriptWriter || id == vip
    {
      [admin, contrib, dev, moderator, superModerator, sponsor, scriptWriter, vip]
    }
  }

  /** The group id the gate always turns away once a user is logged in. */
  const BannedGroup: int := 8

  /** The decision the gate makes, as written: a free script, or an online
      client without a login, is let through; otherwise a missing login or
      the banned group is refused; otherwise only a VIP script run by a
      member of an allow-listed group is let through. */
  predicate Authorized(tier: ScriptType, login: Login, groups: VipGroups)
  {
    if tier == Free || (!login.offlineMode && !login.loggedIn) then true
    else if !login.loggedIn || login.usergroupId == BannedGroup then false
    else tier == Vip && login.usergroupId in groups.Ids()
  }

  /** The gate as the client runs it, searching the allow-list with a loop. */
  method CanUse(tier: ScriptType, login: Login, groups: VipGroups) returns (allowed: bool)
    ensures allowed == Authorized(tier, login, groups)
  {
    if tier == Free || (!login.offlineMode && !login.loggedIn) {
      return true;
    }
    if !login.loggedIn || login.usergroupId == BannedGroup {
      return false;
    }
    var vip := groups.Ids();
    if tier == Vip {
      for k := 0 to |vip|
        invariant login.usergroupId !in vip[..k]
      {
        if vip[k] == login.usergroupId {
          return true;
        }
      }
    }
    return false;
  }

  /** A free script is let through whoever the user is. */
  lemma FreeAlwaysAllowed(login: Login, groups: VipGroups)
    ensures Authorized(Free, login, groups)
  {
  }

  /** An online client with nobody logged in may run a script of any tier. */
  lemma OnlineWithoutLoginAllowed(tier: ScriptType, groups: VipGroups, group: int)
    ensures Authorized(tier, Login(false, false, group), groups)
  {
  }

  /** An offline client with nobody logged in may run only free scripts. */
  lemma OfflineWithoutLoginOnlyFree(tier: ScriptType, groups: VipGroups, group: int)
    ensures Authorized(tier, Login(true, false, group), groups) <==> tier == Free
  {
  }

  /** A logged-in member of the banned group may run only free scripts, even
      if the banned id also appears on the allow-list. */
  lemma BannedGroupOnlyFree(tier: ScriptType, offline: bool, groups: VipGroups)
    ensures Authorized(tier, Login(offline, true, BannedGroup), groups) <==> tier == Free
  {
  }

  /** For a logged-in user outside the banned group, a non-free script is
      allowed exactly when it is a VIP script and the user's group is one of
      the eight allow-listed ids; the offline flag plays no part. */
  lemma LoggedInRestricted(tier: ScriptType, login: Login, groups: VipGroups)
    requires tier != Free && login.loggedIn && login.usergroupId != BannedGroup
    ensures Authorized(tier, login, groups) <==>
      tier == Vip &&
      (login.usergroupId == groups.admin || login.usergroupId == groups.contrib ||
       login.usergroupId == groups.dev || login.usergroupId == groups.moderator ||
       login.usergroupId == groups.superModerator || login.usergroupId == groups.sponsor ||
       login.usergroupId == groups.scriptWriter || login.usergroupId == groups.vip)
  {
  }

  /** A non-free script is never allowed for a user outside the allow-list
      unless the client is online and nobody is logged in. */
  lemma OutsideAllowListDenied(tier: ScriptType, login: Login, groups: VipGroups)
    requires tier != Free && login.usergroupId !in groups.Ids()
    requires login.offlineMode || login.loggedIn
    ensures !Authorized(tier, login, groups)
  {
  }
}
