/** The admin endpoint: a role gate in front of aggregate user statistics. */
module Admin {
  import opened Model

  /** What the statistics lookup returns: the user count and the count per role. */
  datatype UserStats = UserStats(totalUsers: nat, usersByRole: map<string, nat>)

  predicate IsAdminRole(role: string) {
    role == "admin" || role == "super_admin"
  }

  /** `usersByRole[role] || 0` */
  function RoleCount(usersByRole: map<string, nat>, role: string): (n: nat)
    ensures role !in usersByRole ==> n == 0
    ensures role in usersByRole ==> n == usersByRole[role]
  {
    if role in usersByRole then usersByRole[role] else 0
  }

  /** The dashboard record built from the statistics at instant `now`. */
  function DashboardFor(stats: UserStats, now: int): (d: Dashboard)
    ensures d.totalUsers == stats.totalUsers && d.usersByRole == stats.usersByRole
    ensures d.totalAdmins == RoleCount(stats.usersByRole, "admin") + RoleCount(stats.usersByRole, "super_admin")
    ensures "admin" !in stats.usersByRole && "super_admin" !in stats.usersByRole ==> d.totalAdmins == 0
    ensures |d.recentActivity| == 2
  {
    Dashboard(
      stats.totalUsers,
      RoleCount(stats.usersByRole, "admin") + RoleCount(stats.usersByRole, "super_admin"),
      stats.usersByRole,
      [Activity(1, "User registered", now), Activity(2, "Admin login", now)])
  }

  /** GET: admit a caller whose stored role is admin or super_admin. */
  function AdminGet(session: Option<Session>, users: map<UserId, User>, stats: UserStats, now: int): (r: Response)
    ensures r.status == 200 <==>
      SessionUserId(session).Some? && SessionUserId(session).value in users &&
      IsAdminRole(users[SessionUserId(session).value].role)
    ensures SessionUserId(session).None? ==> r == Response(401, Failure("Unauthorized"))
    ensures SessionUserId(session).Some? && r.status != 200 ==>
      r == Response(403, Failure("Unauthorized - Admin access required"))
    ensures r.status == 200 ==> r.body == AdminAccess("Admin access granted", DashboardFor(stats, now))
  {
    var id := SessionUserId(session);
    if id.None? then Response(401, Failure("Unauthorized"))
    else if id.value !in users || !IsAdminRole(users[id.value].role) then
      Response(403, Failure("Unauthorized - Admin access required"))
    else Response(200, AdminAccess("Admin access granted", DashboardFor(stats, now)))
  }
}
