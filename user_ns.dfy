/** User namespaces, as far as the namespace code consults them: an identity
    and the `check_cap(SYS_ADMIN, thread)` test. user.rs is not part of this
    model; the test is modelled by the set of user namespaces in which the
    calling thread holds CAP_SYS_ADMIN. */
module UserNamespaces {
  import opened Prelude

  class UserNamespace {
    constructor ()
    {
    }
  }

  /** `check_cap(CapSet::SYS_ADMIN, thread)` on `ns`: succeeds when the thread
      holds the capability there, and fails with EPERM otherwise. */
  function CheckSysAdmin(ns: UserNamespace, sysAdminIn: set<UserNamespace>): (r: Result<Unit>)
    ensures r.Ok? <==> ns in sysAdminIn
    ensures r.Err? ==> r.error == EPERM
  {
    if ns in sysAdminIn then Ok(Unit) else Err(EPERM)
  }
}
