/** Role gates and the branch decision of the warehouse. */
module Authorization {
  import opened Text
  import opened Realm

  predicate HasAnyRole(claims: Token, required: set<string>) {
    exists role :: role in claims.roles && role in required
  }

  /** The employee records: a missing branch is a registered employee without one. */
  type Directory = map<string, Option<string>>

  datatype EmployeeReply = Found(branch: Option<string>) | Refused(status: int)

  /** GET /employees/{username}: oneself, or anyone for hr-viewer. An empty name matches no route. */
  function GetEmployee(directory: Directory, claims: Token, username: string): EmployeeReply {
    if username == "" then Refused(404)
    else if claims.username != Some(username) && "hr-viewer" !in claims.roles then Refused(403)
    else if username !in directory then Refused(404)
    else Found(directory[username])
  }

  /** Who sees whose record: oneself always, and others only hr-viewer; whether a record exists is told to nobody else. */
  lemma EmployeeRule(directory: Directory, claims: Token, username: string)
    ensures var reply := GetEmployee(directory, claims, username);
            var maySee := username != "" && (claims.username == Some(username) || "hr-viewer" in claims.roles);
            && (reply.Found? <==> maySee && username in directory)
            && (reply == Refused(404) <==> username == "" || (maySee && username !in directory))
            && (!maySee ==> forall other: Directory :: GetEmployee(other, claims, username) == reply)
  {
  }

  /** What can go wrong on the way to the employee service and back. */
  datatype LookupFault = NoLookupFault | ExchangeFails | Unreachable | EmployeeServiceFails | UnreadableBody

  /** The warehouse asks for the caller's own record with a token exchanged from the caller's. */
  function ResolveOwnBranch(directory: Directory, claims: Token, fault: LookupFault): Result<Option<string>, int> {
    if fault.ExchangeFails? || fault.Unreachable? then Err(502)
    else if fault.EmployeeServiceFails? then Err(403)
    else
      match GetEmployee(directory, claims, if claims.username.Some? then claims.username.value else "")
      case Refused(_) => Err(403)
      case Found(branch) => if fault.UnreadableBody? then Err(502) else Ok(branch)
  }

  function AuthorizeBranch(directory: Directory, claims: Token, branch: string, fault: LookupFault): Result<(), int> {
    if !HasAnyRole(claims, {"warehouse-viewer", "warehouse-viewer-all"}) then Err(403)
    else if HasAnyRole(claims, {"warehouse-viewer-all"}) then Ok(())
    else
      match ResolveOwnBranch(directory, claims, fault)
      case Err(status) => Err(status)
      case Ok(own) => if own == Some(branch) then Ok(()) else Err(403)
  }

  /** The decision table: all branches for warehouse-viewer-all, the registered branch for warehouse-viewer. */
  predicate Permitted(directory: Directory, claims: Token, branch: string) {
    || "warehouse-viewer-all" in claims.roles
    || (&& "warehouse-viewer" in claims.roles
        && claims.username.Some? && claims.username.value != "" && claims.username.value in directory
        && directory[claims.username.value] == Some(branch))
  }

  /** The caller's own record exists. */
  predicate Registered(directory: Directory, claims: Token) {
    claims.username.Some? && claims.username.value != "" && claims.username.value in directory
  }

  /** The own branch, fault by fault: 502 exactly when the exchange or the call fails or an existing own record cannot be
      read, 403 when the employee service refuses or the record is missing, and otherwise the record's branch. */
  lemma OwnBranchByFault(directory: Directory, claims: Token, fault: LookupFault)
    ensures fault == ExchangeFails || fault == Unreachable ==> ResolveOwnBranch(directory, claims, fault) == Err(502)
    ensures fault == EmployeeServiceFails ==> ResolveOwnBranch(directory, claims, fault) == Err(403)
    ensures fault == UnreadableBody ==>
      ResolveOwnBranch(directory, claims, fault) == Err(if Registered(directory, claims) then 502 else 403)
    ensures fault == NoLookupFault ==>
      ResolveOwnBranch(directory, claims, fault) == if Registered(directory, claims) then Ok(directory[claims.username.value]) else Err(403)
  {
  }

  /** The code decides the table: never more than it under any fault, and exactly it without one. */
  lemma AuthorizeDecidesTable(directory: Directory, claims: Token, branch: string, fault: LookupFault)
    ensures AuthorizeBranch(directory, claims, branch, fault).Ok? ==> Permitted(directory, claims, branch)
    ensures fault.NoLookupFault? ==> (AuthorizeBranch(directory, claims, branch, fault).Ok? <==> Permitted(directory, claims, branch))
    ensures AuthorizeBranch(directory, claims, branch, fault).Err? ==> AuthorizeBranch(directory, claims, branch, fault).error in {403, 502}
  {
    if "warehouse-viewer-all" in claims.roles {
      assert HasAnyRole(claims, {"warehouse-viewer", "warehouse-viewer-all"}) && HasAnyRole(claims, {"warehouse-viewer-all"});
    } else if "warehouse-viewer" in claims.roles {
      assert HasAnyRole(claims, {"warehouse-viewer", "warehouse-viewer-all"});
    }
  }

  /** The decision in full: viewer-all always, nobody without a role, and a viewer by the lookup and the registered branch;
      a lookup that could not be made is a 502, every other denial a 403. */
  lemma AuthorizeByFault(directory: Directory, claims: Token, branch: string, fault: LookupFault)
    ensures var decision := AuthorizeBranch(directory, claims, branch, fault);
            && ("warehouse-viewer-all" in claims.roles ==> decision == Ok(()))
            && (claims.roles !! {"warehouse-viewer", "warehouse-viewer-all"} ==> decision == Err(403))
            && ("warehouse-viewer" in claims.roles && "warehouse-viewer-all" !in claims.roles ==>
                && (fault == ExchangeFails || fault == Unreachable ==> decision == Err(502))
                && (fault == EmployeeServiceFails ==> decision == Err(403))
                && (fault == UnreadableBody ==> decision == Err(if Registered(directory, claims) then 502 else 403))
                && (fault == NoLookupFault ==>
                    decision == if Registered(directory, claims) && directory[claims.username.value] == Some(branch) then Ok(()) else Err(403)))
  {
    OwnBranchByFault(directory, claims, fault);
    if "warehouse-viewer-all" in claims.roles {
      assert HasAnyRole(claims, {"warehouse-viewer", "warehouse-viewer-all"}) && HasAnyRole(claims, {"warehouse-viewer-all"});
    } else if "warehouse-viewer" in claims.roles {
      assert HasAnyRole(claims, {"warehouse-viewer", "warehouse-viewer-all"});
    }
  }

  /** The chained lookup is always a self lookup: its answer cannot depend on the caller's roles. */
  lemma ChainedLookupIsSelf(directory: Directory, claims: Token, roles: set<string>, fault: LookupFault)
    ensures ResolveOwnBranch(directory, claims, fault) == ResolveOwnBranch(directory, claims.(roles := roles), fault)
    ensures ResolveOwnBranch(directory, claims, fault).Ok? ==>
      claims.username.Some? && claims.username.value in directory
      && ResolveOwnBranch(directory, claims, fault).value == directory[claims.username.value]
  {
  }
}
