# A verified model of the FastAPI admin backend

These Dafny files model the stateful and algorithmic core of the backend and prove what it promises.
Each part has a model (functions on values that follow the code branch by branch), the code in its own
imperative form (classes and methods with loops, proved to do what the functions say), and theorems about
the functions, most of them over every run or every input.  The session, cache, scheduler and lockout methods
also keep the invariant of their state and say what the call means for later calls.  `dafny verify dfyconfig.toml` checks everything.

| part | files | what is proved |
|---|---|---|
| sessions and presence | `TimedMaps`, `RedisBatches`, `SessionModel`, `SessionInvariant`, `SessionRuns`, `SessionTheorems`, `SessionCalls`, `SessionEffects`, `SessionService` | secondary indexes agree with the primary keys although each expires on its own; single login, total revocation, single use of refresh tokens, presence |
| join serializer | `JoinModel`, `LeftJoin`, `JoinProofs`, `JoinTheorems`, `JoinFields`, `JoinOrder`, `JoinRelationships`, `JoinSerializer` | nesting undoes a multi-way left join, in any row order, exactly when no main object with id zero has children; relationship descriptions are read back |
| authorization cache | `UserCacheModel`, `UserCacheCoherence`, `UserCacheTheorems`, `UserCacheMenus`, `UserCacheCalls`, `UserCacheEffects`, `UserCacheService` | cached entries equal the recomputed join, up to deleted menus; exactly when deleting a menu, or changing a department, breaks this; what each operation changes in every user's join |
| snowflake ids and node leases | `SnowflakeBits`, `SnowflakeGenerator`, `SnowflakeService`, `NodeLease`, `NodeLeaseSafety`, `NodeLeaseFailures`, `NodeManager` | increasing ids for any clock, exclusive leases under any interleaving, globally distinct ids, and exactly when leases are lost and ids repeat |
| plugin requirements | `Requirements`, `RequirementsProofs`, `RequirementsCheck` | the optimistic search answers exactly the reachability question |
| plugin order | `PluginOrder`, `PluginOrderProofs`, `PluginResolver` | topological order exactly when there is one |
| tree builders | `TreeModel`, `TreeProofs`, `TreeBuilder` | which nodes a forest holds; the fast builder and the recursive one agree |
| queue consumer | `QueueModel`, `QueueConsumer` | conservation under any interleaving, draining |
| one-off schedules | `SchedulerModel`, `SchedulerRuns`, `SchedulerTheorems`, `SchedulerService` | when a one-off schedule fires once, and when twice |
| data permissions | `DataPermission` | the meaning of the compiled row filter |
| login lockout | `Lockout` | failures between resets, refusal under lock, guess rate |

`Wrappers` and `Collections` hold an option type and facts about sets and sequences without repeats.

Where the code does not keep a promise, the model keeps the code's behaviour, gives a concrete run that
breaks the promise, and states the exact condition under which it is kept:

- Deleting a menu removes its role links before looking up whose cache to clear, so nobody is cleared
  (`DeleteMenuCoherentIff`, `DeletedMenuStillServed`).
- Department changes clear no cache, so a cached user of a locked department is still served
  (`HitEqualsMiss`, `LockedDepartmentHappens`).
- Writing run counts back takes a name out of the dirty set before reading the schedule; a change detected
  just then reloads the old count and a one-off schedule fires twice (`FiresAgainIff`, `OneOffFiresTwice`).
- The serializer files the children of a main object with id zero under zero and looks them up under its
  address, so they are lost (`SerializeUndoesJoinIff`, `ZeroIdLosesChildren`).
- A queue consumer whose timeout or batch size is not positive exits without draining (`DrainsIff`).
- The first AND-rule added to OR-rules can reveal rows, and the first rule at all can hide them
  (`AddingAndRevealsIff`, `AddingOrHidesIff`).
- A missed heartbeat lets two processes hold one node (`LeaseLostIff`, `MissedHeartbeatDuplicates`).
- Two processes that issue on one node in one millisecond repeat ids, also when one hands the node over to the
  other in good order (`IdsRepeatIff`, `HandoverDuplicates`).
- The text form of the locked-until instant drops fractions of a second, so the lock ends up to a second
  early (`LockedExactlyUntil`).

Time is a non-decreasing integer: seconds for sessions, leases and the cache, milliseconds for the clock of
the id generator and for the lockout.  A key is live strictly before its deadline.  Every public operation is
one atomic step, except where the model says otherwise (lease steps, suspensions of the queue consumer,
readings of the schedule).  Session uuids and token identifiers are drawn from a counter, so they are fresh.

## Model

| member | source | states |
|---|---|---|
| SessionTheorems.AtMostOneFormalLogin | backend/common/security/token.py:140-174 | In every reachable state, two access tokens accepted for a user without multi login, neither of a swagger session, are the same token. |
| SessionTheorems.IndexesComplete | backend/common/security/token.py:52-209 | In every reachable state each live formal access or refresh key is in its user's index and each live swagger access key in the swagger set, no set expires before its keys, and a user with a live formal access token is in the directory. |
| SessionTheorems.ReachableInv | backend/common/security/token.py:52-330 | Every state reached from an empty store by logins, refreshes, revocations, toggles, connections, pruning and ticks satisfies the whole agreement between keys and indexes. |
| SessionRuns.RunKeepsInv | backend/common/security/token.py:52-330 | The agreement is kept along any run from any state that has it. |
| SessionRuns.StepKeepsInv | backend/common/security/token.py:52-330 | Each single operation keeps the agreement between keys and indexes and the single-login rule. |
| SessionRuns.RefreshLoginKeepsInv | backend/app/admin/service/auth_service.py:201-250 | The refresh endpoint, including its check for other live sessions, keeps single login. |
| SessionRuns.SetMultiLoginKeepsInv | backend/app/admin/service/user_service.py:210-226 | Turning multi login on or off, with or without an excluded session, keeps single login. |
| SessionRuns.PruneDirectoryKeepsInv | backend/app/admin/api/v1/monitor/online.py:26-56 | Pruning the directory never removes a user with a live formal access token. |
| SessionRuns.TickKeepsInv | backend/common/security/token.py:52-209 | Expiry of every kind of key at its own time keeps the agreement. |
| SessionTheorems.RevocationIsTotal | backend/common/security/token.py:311-330 | In every store whose indexes agree with its keys, so in every reachable one: after a total revocation the accepted tokens are exactly those accepted before that belong to another user, to the excluded session, or to swagger sessions when these are not included. |
| SessionTheorems.RevokeIsExact | backend/common/security/token.py:251-297 | Revoking a set of sessions makes exactly their access tokens unacceptable, for every token. |
| SessionTheorems.RevocationEndsRefresh | backend/common/security/token.py:311-330 | In every such store: after a total revocation the stored refresh tokens are exactly those of other users and of the excluded session. |
| SessionTheorems.RefreshAcceptedOnce | backend/common/security/token.py:212-248 | Over any run, a refresh token that was accepted is never accepted again. |
| SessionTheorems.SpentStays | backend/common/security/token.py:212-248 | A refresh token that is no longer the stored one of its session never becomes it again, over any run. |
| SessionTheorems.RefreshReplacesAccess | backend/common/security/jwt.py:96-102 | After a successful refresh exactly the new access token of the session is accepted. |
| SessionCalls.RefreshLoginCall | backend/app/admin/service/auth_service.py:201-250 | With the agreement the refresh endpoint accepts exactly the stored refresh token of an enabled user, and afterwards the accepted access tokens are the new one and those its eviction spares. |
| SessionCalls.LoginCall | backend/app/admin/service/auth_service.py:112-130 | After a login the accepted access tokens are the new one and those accepted before of other users, of swagger sessions, or of any session with multi login. |
| SessionTheorems.OnlineIffConnected | backend/app/admin/api/v1/monitor/online.py:63-72 | With the invariant, so in every reachable state, the monitor marks a session online exactly when some live connection maps to it. |
| SessionTheorems.RevokedIsOffline | backend/common/security/token.py:262-276 | With the invariant, a session is offline after its revocation and no connection maps to it. |
| SessionCalls.RevokeSessionsCall | backend/common/security/token.py:262-276 | After a revocation the connections left are exactly those in no live set of a revoked session, and every session is shown online exactly by them. |
| SessionEffects.LiveSessionsStay | backend/common/security/token.py:52-110 | In any store, reading the sessions of a user leaves in the index exactly the unmarked ones that hold a token, for the longest token lifetime, and lists the user if there are any. |
| SessionEffects.MarkedSessionsMove | backend/common/security/token.py:91-96 | In any store, marked sessions found in the index move to the swagger set, which then lasts as long as an access token. |
| SessionEffects.RevokedListing | backend/common/security/token.py:277-288 | A revocation takes the sessions out of both sets of the user, and the user out of the directory when the index is left empty; other users stay as they are. |
| SessionEffects.AccessWritten | backend/common/security/token.py:135-174 | What a minted access token writes: its key, the mark and its lifetime, the set of its kind and the directory, also when other sessions are evicted. |
| SessionEffects.RefreshWritten | backend/common/security/token.py:188-207 | What a minted refresh token writes, and that it writes nothing else. |
| SessionEffects.RefusedWhy | backend/app/admin/service/auth_service.py:201-250 | Which of the four refusals a refresh ends in, as conditions on the store before. |
| SessionEffects.ConnectWithTokenCall | backend/common/socketio/server.py:60-82 | A connection is let in exactly when its token is accepted, and its session is then shown online, for as long as the token lasts. |
| SessionEffects.ConnectWritten | backend/common/socketio/server.py:72-82 | A connection joins the set of its session, whose life it never shortens. |
| SessionEffects.DisconnectWritten | backend/common/socketio/server.py:95-117 | A disconnection, also of a connection whose key has expired, leaves in the set of its session exactly the other sids that map to it. |
| SessionService.SessionClient.ClassifySessions | backend/common/security/token.py:64-90 | The loop over indexed sessions separates swagger sessions and keeps those with a live token. |
| SessionService.SessionClient.GetUserSessions | backend/common/security/token.py:52-110 | Prunes index and directory in place; in a store that keeps the agreement between keys and indexes, which it keeps, the sessions returned, and then indexed, are exactly the live formal ones, the user is listed exactly when there is one, and nothing else changes. |
| SessionService.SessionClient.RevokeSessions | backend/common/security/token.py:251-297 | The collected keys and batched deletions amount to one deletion; in a store that keeps the agreement between keys and indexes, which it keeps, exactly the tokens of these sessions and the connections in their live sets are gone, and every session is shown online exactly by the connections that are left. |
| SessionService.SessionClient.RevokeUserTokens | backend/common/security/token.py:311-330 | In a store that keeps the agreement between keys and indexes, which it keeps: the access and refresh tokens left are exactly those of other users, of the excluded session and, unless included, the swagger access tokens; exactly the connections of the ended sessions are gone. |
| SessionService.SessionClient.CreateAccessToken | backend/common/security/token.py:113-176 | In a store that keeps the agreement between keys and indexes, for an unused or a formal session and the user's own multi-login flag, the call keeps it; the new token is good for the configured time, and the tokens and connections that go are exactly those of the session itself and of the sessions that a formal login without multi login evicts. |
| SessionService.SessionClient.CreateRefreshToken | backend/common/security/token.py:179-209 | The new token is good for the configured time; the stored refresh tokens are it and those of other sessions, no access token or connection is affected, and the agreement is kept when the session is the user's only formal one or multi login is on. |
| SessionService.SessionClient.CreateNewToken | backend/common/security/token.py:212-248 | In a store that keeps the agreement between keys and indexes, which it keeps, the exchange succeeds exactly for the stored refresh token, then leaves exactly the new access token for the session and spares swagger sessions and other users; otherwise nothing changes. |
| SessionService.SessionClient.Login | backend/app/admin/service/auth_service.py:112-130 | In a store that keeps the agreement between keys and indexes, which it keeps, exactly the new tokens, good for the configured times, and those of other users, of swagger sessions or, with multi login, of other sessions are good afterwards; exactly the connections of evicted sessions are gone. |
| SessionService.SessionClient.RefreshLogin | backend/app/admin/service/auth_service.py:201-250 | In a store that keeps the agreement between keys and indexes, which it keeps, the endpoint succeeds exactly when the user is enabled and the token is the stored one of its session, so that the remote-login check never refuses the stored token; success means a new pair under the login rule, and a refusal changes no token and no connection. |
| SessionService.SessionClient.SetMultiLogin | backend/app/admin/service/user_service.py:210-226 | In a store that keeps the agreement between keys and indexes, which it keeps, exactly this user's flag is set; turning multi login off leaves exactly the tokens of other users and of the excluded session, and turning it on changes nothing else. |
| SessionService.SessionClient.Connect | backend/common/socketio/server.py:73-82 | In a store that keeps the agreement between keys and indexes, which it keeps, the connection counts for its session for the given time, the monitor then shows a session online exactly when it is that one or another live connection maps to it, and only connections change. |
| SessionService.SessionClient.ConnectWithToken | backend/common/socketio/server.py:60-82 | A token is let in exactly when accepted; otherwise nothing changes. |
| SessionService.SessionClient.Disconnect | backend/common/socketio/server.py:95-117 | In a store that keeps the agreement between keys and indexes, which it keeps, a known connection then counts for no session, every session is shown by its other connections alone, and only connections change. |
| SessionService.SessionClient.PruneDirectory | backend/app/admin/api/v1/monitor/online.py:26-56 | The loops of the monitor drop the users without a readable token; in a store that keeps the agreement between keys and indexes, which they keep, the directory then lists exactly the users with a live formal access token. |
| SessionService.SessionClient.DeleteBatched | backend/database/redis.py:189-205 | Deleting key batches deletes exactly the keys given. |
| RedisBatches.MGetBatched | backend/database/redis.py:138-153 | The batched read returns what one read of all keys would, and rejects a batch size that is not positive. |
| RedisBatches.SMembersMany | backend/database/redis.py:167-187 | The batched set read returns what reading each set would. |
| RedisBatches.RemoveMembersBatched | backend/common/security/token.py:37-49 | Removing members in batches removes them all, and touches nothing when there are none. |
| JoinTheorems.SerializeUndoesJoinIff | backend/utils/serializers.py:64-375 | Serializing the rows of a nested-loop left join gives back exactly the original trees, in order, for any objects, including children shared by several parents, and any relation tree, exactly when no main object with id zero has children in a field that is kept. |
| JoinTheorems.SerializeUndoesJoin | backend/utils/serializers.py:64-375 | For main objects with positive ids it always does. |
| JoinTheorems.ZeroIdLosesChildren | backend/utils/serializers.py:96-97 | For a user with id zero and one role, serializing the joined rows does not give the user with the role. |
| JoinTheorems.UserRoleJoin | backend/utils/serializers.py:241-274 | The role of that user is in the joined rows, under the parent id zero. |
| JoinFields.ResultFieldsNamed | backend/utils/serializers.py:102-103 | Whatever the rows, the fields of a main object's result are exactly those of the relationships that leave its class and are not overwritten: under the custom name if there is one, else under the target class, with an s for the two to-many kinds; to-many fields hold all objects grouped there, the others the first or none. |
| JoinFields.LeavingInOrder | backend/utils/serializers.py:325-337 | The relationships that leave a class are read in the order given, so a later one with the same field overwrites an earlier one. |
| JoinFields.BuiltFieldsNamed | backend/utils/serializers.py:310-337 | The same of the nested objects at every level. |
| JoinFields.TreeFieldsNamed | backend/utils/serializers.py:102-103 | The same of the original trees, so of what serializing the join gives back. |
| JoinOrder.SerializeAnyOrder | backend/utils/serializers.py:64-375 | Serializing those rows in any other order, with any repetition, gives the same trees up to the order of siblings, each as often, at every level, exactly when no main object with id zero has children; to-one relationships have at most one object. |
| JoinSerializer.SelectJoinSerialize | backend/utils/serializers.py:164-375 | The index, hierarchy and recursion passes compute the specified nesting for any rows that have one column per class, also with columns no relationship names and children before their parents, for any relationships without a cycle, one per pair of classes. |
| JoinSerializer.IndexClasses | backend/utils/serializers.py:185-198 | The class index maps every class seen in the rows to its column. |
| JoinSerializer.BuildHierarchy | backend/utils/serializers.py:241-274 | The hierarchy holds, for each main object, class and parent, the objects the rows give there, in row order, and nothing for classes without a parent column. |
| JoinSerializer.DedupeObjects | backend/utils/serializers.py:146-154 | Keeps the first object of each id, in order. |
| JoinSerializer.RecursiveBuild | backend/utils/serializers.py:310-337 | The recursion over the relation graph builds the specified nodes, and ends. |
| JoinProofs.JoinGroups | backend/utils/serializers.py:241-274 | After deduplication, the rows of the join give each parent exactly its children, in order. |
| JoinRelationships.ParseUndoesRender | backend/utils/serializers.py:105-136 | Reading the description of a relationship, its names in any case, gives the relationship back with its classes in lower case and its custom name as it is. |
| JoinRelationships.ParseUndoesWriting | backend/utils/serializers.py:115-136 | However a relationship is written, its kind in any case and blanks around both parts, reading gives it back in lower case with its custom name as it is. |
| JoinRelationships.SkippedUnlessTwoDashes | backend/utils/serializers.py:119-122 | A description without exactly two dashes before its first colon is skipped. |
| JoinRelationships.ReadableRendered | backend/utils/serializers.py:105-136 | Reading a list of such descriptions gives the list back, each in lower case. |
| JoinRelationships.AddAllDescribes | backend/utils/serializers.py:126-136 | When each class has one parent, the three dictionaries say exactly what the relationships say. |
| JoinRelationships.ParseRelationships | backend/utils/serializers.py:105-136 | The loop skips what it cannot read and fills the dictionaries with the rest. |
| UserCacheCoherence.RunKeepsInv | backend/app/admin/utils/cache.py:60-130 | Over any run of user, role, scope, rule, department and menu operations other than menu deletion, every cached entry keeps agreeing with the tables. |
| UserCacheCoherence.StepKeepsInv | backend/app/admin/utils/cache.py:60-130 | Each single operation keeps every entry in agreement, or clears it. |
| UserCacheCoherence.StepFollows | backend/app/admin/utils/cache.py:60-130 | Each operation clears every entry whose join it changes, whether or not the other entries agree with the tables. |
| UserCacheTheorems.CachedEqualsJoin | backend/app/admin/crud/crud_user.py:371-417 | In every reachable state a cached entry has the account, roles, menus, scopes and rules of the join recomputed from the tables. |
| UserCacheTheorems.HitEqualsMiss | backend/app/admin/service/user_service.py:68-102 | A cache hit serves what a fresh lookup would, department aside, exactly when the user's department exists and is not locked; otherwise the fresh lookup would be refused for the department and nothing else. |
| UserCacheTheorems.LockedDepartmentStillServed | backend/app/admin/service/dept_service.py:76-97 | Locking the department of a cached user goes unnoticed until the entry is cleared, although a fresh lookup refuses. |
| UserCacheTheorems.LockedDepartmentHappens | backend/app/admin/service/dept_service.py:76-97 | A reachable state in which a user of a department that has just been locked is still served while a fresh lookup refuses. |
| UserCacheCalls.DeleteRolesCall | backend/app/admin/service/role_service.py:180-191 | With a coherent cache, which stays coherent, no answer for any user contains the deleted roles. |
| UserCacheCalls.UpdateScopeRulesCall | backend/app/admin/service/data_scope_service.py:113-131 | With a coherent cache, which stays coherent, every answer that contains the scope shows exactly the new rules. |
| UserCacheCalls.GrantedFromTables | backend/app/admin/service/user_service.py:89-102 | With a coherent cache an answer, cached or not, shows each role it includes with the row, menus, scopes and rules of the tables now. |
| UserCacheEffects.UpdateUserEffect | backend/app/admin/service/user_service.py:149-175 | What an update of a user writes, whom it touches, and when it is refused. |
| UserCacheEffects.UpdatedUserShows | backend/app/admin/service/user_service.py:149-175 | The next answer for an updated user shows the new profile, department and exactly the given roles. |
| UserCacheEffects.CreateUserEffect | backend/app/admin/service/user_service.py:125-146 | A new user has the given row and exactly the given roles; a taken id, or a missing department or role, is refused. |
| UserCacheEffects.UpdatePermissionEffect | backend/app/admin/service/user_service.py:178-231 | Exactly the flag asked for is reversed. |
| UserCacheEffects.DeleteUserEffect | backend/app/admin/service/user_service.py:337-353 | A deleted user and its role links are gone, everyone else stays. |
| UserCacheEffects.UpdateRoleEffect | backend/app/admin/service/role_service.py:116-133 | An updated role has its new row in every join, with the menus and scopes it had, and exactly its holders are cleared. |
| UserCacheEffects.UpdateRoleMenusEffect | backend/app/admin/service/role_service.py:136-155 | A role given menus has exactly those in every join, with the row and scopes it had. |
| UserCacheEffects.UpdateRoleScopesEffect | backend/app/admin/service/role_service.py:158-177 | A role given scopes has exactly those in every join, with the row and menus it had. |
| UserCacheEffects.DeleteRolesEffect | backend/app/admin/service/role_service.py:180-191 | Deleted roles vanish from every join, and nothing else does. |
| UserCacheEffects.UpdateMenuEffect | backend/app/admin/service/menu_service.py:94-117 | An updated menu has its new row wherever it is shown; refusals change nothing. |
| UserCacheEffects.DeleteMenuEffect | backend/app/admin/service/menu_service.py:120-135 | A deleted menu vanishes from every join, and nothing else does; one with children is refused. |
| UserCacheEffects.UpdateScopeEffect | backend/app/admin/service/data_scope_service.py:94-110 | An updated scope has its new row wherever it is shown, with the rules it had. |
| UserCacheEffects.UpdateScopeRulesEffect | backend/app/admin/service/data_scope_service.py:113-131 | A scope given rules has exactly those wherever it is shown. |
| UserCacheEffects.DeleteScopesEffect | backend/app/admin/service/data_scope_service.py:134-144 | Deleted scopes vanish from every join, and nothing else does. |
| UserCacheEffects.UpdateRuleEffect | backend/app/admin/service/data_rule_service.py:125-141 | An updated rule has its new row wherever it is shown. |
| UserCacheEffects.DeleteRulesEffect | backend/app/admin/service/data_rule_service.py:144-154 | Deleted rules vanish from every join, and nothing else does. |
| UserCacheEffects.UpdateDeptEffect | backend/app/admin/service/dept_service.py:76-97 | An updated department has its new row and no entry is cleared; a missing parent, or itself as parent, is refused. |
| UserCacheEffects.AvailableCases | backend/app/admin/service/user_service.py:68-87 | A lookup answers with the join, or with the first reason to refuse, in the order of the checks. |
| UserCacheEffects.GetJwtUserEffect | backend/app/admin/service/user_service.py:89-102 | A request is answered from a live entry or by a lookup, whose join is kept for the configured time; a refusal leaves no entry and no table changes. |
| UserCacheTheorems.DeleteMenuClearsNobody | backend/app/admin/crud/crud_menu.py:107-108 | Deleting a menu clears no cached entry, because its links are gone when the users to clear are looked up. |
| UserCacheTheorems.DeleteMenuCoherentIff | backend/app/admin/service/menu_service.py:120-135 | Menu deletion leaves the cache in agreement exactly when it is refused, finds no menu, or no entry shows the menu. |
| UserCacheTheorems.DeletedMenuStillServed | backend/app/admin/service/menu_service.py:120-135 | A reachable state in which a deleted menu is still served from the cache and a fresh lookup no longer has it. |
| UserCacheMenus.StaleOnlyByDeletedMenus | backend/app/admin/utils/cache.py:60-130 | Over every run of all operations, menu deletion included, a cached entry has the account, roles, scopes and rules of the join recomputed from the tables, and its menus that are still there are exactly those of the join. |
| UserCacheMenus.DeleteMenuKeepsButMenus | backend/app/admin/service/menu_service.py:120-135 | Menu deletion keeps that agreement up to deleted menus, although it clears nobody. |
| UserCacheCoherence.ClearCoversUsers | backend/app/admin/utils/cache.py:50-58 | Clearing users covers every user whose account or role links changed: every entry left is of a user whose join has not changed. |
| UserCacheCoherence.ClearCoversRoles | backend/app/admin/utils/cache.py:60-72 | Clearing by role covers every user whose join can change when the rows or links of those roles change: every entry left is of a user whose join has not changed. |
| UserCacheCoherence.ClearCoversMenus | backend/app/admin/utils/cache.py:74-91 | Clearing by menu covers every user whose join can change when those menu rows change: every entry left is of a user whose join has not changed. |
| UserCacheCoherence.ClearCoversScopes | backend/app/admin/utils/cache.py:93-110 | Clearing by scope covers every user whose join can change when those scopes or their rule links change: every entry left is of a user whose join has not changed. |
| UserCacheCoherence.ClearCoversRules | backend/app/admin/utils/cache.py:112-130 | Clearing by rule covers every user whose join can change when those rule rows change: every entry left is of a user whose join has not changed. |
| UserCacheService.AdminService.ClearByMenuId | backend/app/admin/utils/cache.py:74-91 | The two-table join query finds exactly the users of the roles of the menus. |
| UserCacheService.AdminService.ClearByDataScopeId | backend/app/admin/utils/cache.py:93-110 | The two-table join query finds exactly the users of the roles of the scopes. |
| UserCacheService.AdminService.ClearByDataRuleId | backend/app/admin/utils/cache.py:112-130 | The three-table join query finds exactly the users of the roles of the scopes of the rules. |
| UserCacheService.AdminService.GetJwtUser | backend/app/admin/service/user_service.py:89-102 | A coherent cache stays coherent, and the answer is that of a fresh lookup up to the department, or the fresh lookup would be refused for the department alone. |
| UserCacheService.AdminService.UpdateUser | backend/app/admin/service/user_service.py:149-175 | A coherent cache stays coherent: every entry equals the join recomputed from the changed tables; with user, department and roles there, the row gets the given profile and department, the user has exactly the given roles, is cleared, and no one else is touched; otherwise nothing happens. |
| UserCacheService.AdminService.UpdatePermission | backend/app/admin/service/user_service.py:178-231 | A coherent cache stays coherent: every entry equals the join recomputed from the changed tables; exactly the flag asked for is reversed, one's own only for multi login, the user is cleared, and no one else is touched; otherwise nothing happens. |
| UserCacheService.AdminService.DeleteUser | backend/app/admin/service/user_service.py:337-353 | A coherent cache stays coherent: every entry equals the join recomputed from the changed tables, and the next request of the user is refused. |
| UserCacheService.AdminService.UpdateRole | backend/app/admin/service/role_service.py:116-133 | A coherent cache stays coherent: every entry equals the join recomputed from the changed tables, and every answer that includes the role shows its new row. |
| UserCacheService.AdminService.UpdateRoleMenus | backend/app/admin/service/role_service.py:136-155 | A coherent cache stays coherent: every entry equals the join recomputed from the changed tables, and every answer that includes the role shows exactly the given menus. |
| UserCacheService.AdminService.UpdateRoleScopes | backend/app/admin/service/role_service.py:158-177 | A coherent cache stays coherent: every entry equals the join recomputed from the changed tables, and every answer that includes the role shows exactly the given scopes. |
| UserCacheService.AdminService.DeleteRoles | backend/app/admin/service/role_service.py:180-191 | A coherent cache stays coherent: every entry equals the join recomputed from the changed tables, and no answer for any user includes one of the roles. |
| UserCacheService.AdminService.UpdateMenu | backend/app/admin/service/menu_service.py:94-117 | A coherent cache stays coherent: every entry equals the join recomputed from the changed tables, and every answer that includes the menu shows its new row. |
| UserCacheService.AdminService.DeleteMenu | backend/app/admin/service/menu_service.py:120-135 | A coherent cache stays coherent exactly when the deletion is refused, finds no menu, or no entry shows the menu. |
| UserCacheService.AdminService.UpdateScope | backend/app/admin/service/data_scope_service.py:94-110 | A coherent cache stays coherent: every entry equals the join recomputed from the changed tables, and every answer that includes the scope shows its new row. |
| UserCacheService.AdminService.UpdateScopeRules | backend/app/admin/service/data_scope_service.py:113-131 | A coherent cache stays coherent: every entry equals the join recomputed from the changed tables, and every answer that includes the scope shows exactly the given rules. |
| UserCacheService.AdminService.DeleteScopes | backend/app/admin/service/data_scope_service.py:134-144 | A coherent cache stays coherent: every entry equals the join recomputed from the changed tables, and no answer shows one of the scopes. |
| UserCacheService.AdminService.UpdateRule | backend/app/admin/service/data_rule_service.py:125-141 | A coherent cache stays coherent: every entry equals the join recomputed from the changed tables, and every answer that shows the rule shows its new row. |
| UserCacheService.AdminService.DeleteRules | backend/app/admin/service/data_rule_service.py:144-154 | A coherent cache stays coherent: every entry equals the join recomputed from the changed tables, and no answer shows one of the rules. |
| SnowflakeBits.ParseUndoesCompose | backend/utils/snowflake.py:222-236 | Parsing a composed id gives back timestamp, datacenter, worker and sequence, for every timestamp, also before the epoch. |
| SnowflakeBits.OrAdds | backend/utils/snowflake.py:214-219 | Joining disjoint bit fields with a bitwise or is addition, for any sign. |
| SnowflakeBits.MaskIsRemainder | backend/utils/snowflake.py:229-233 | Masking with ones is the remainder by a power of two, for any sign. |
| SnowflakeBits.FitsSixtyThreeBits | backend/utils/snowflake.py:214-219 | An id is a non-negative 63-bit number exactly when the milliseconds since the epoch fit 41 bits. |
| SnowflakeGenerator.IdsIncrease | backend/utils/snowflake.py:186-219 | For every sequence of clock readings and calls the ids increase strictly and lie above what came before. |
| SnowflakeGenerator.GenerateAdvances | backend/utils/snowflake.py:186-219 | An emitted id is above the last one and parses to the node and timestamp; a call refused for the clock changes nothing. |
| SnowflakeGenerator.GenerateCases | backend/utils/snowflake.py:186-219 | A first reading past the last timestamp is emitted with number zero, one equal to it with the next number, and a call that has to wait emits the first later reading with number zero. |
| SnowflakeGenerator.BlocksIff | backend/utils/snowflake.py:178-219 | A call does not come back exactly when the clock shows nothing, or has to be waited for and never gets past the last timestamp. |
| SnowflakeGenerator.RefusedIff | backend/utils/snowflake.py:195-202 | A call is refused exactly when the first reading is behind by more than the tolerance, and then changes no state. |
| SnowflakeGenerator.AtMost4096PerMillisecond | backend/utils/snowflake.py:204-209 | At most 4096 ids of a run share a timestamp. |
| SnowflakeGenerator.NodesNeverCollide | backend/utils/snowflake.py:214-219 | Two generators that ever produce the same id have the same datacenter and worker. |
| SnowflakeGenerator.RunFitsSixtyThreeBits | backend/utils/snowflake.py:214-219 | An id of a run is a non-negative 63-bit number exactly when its timestamp is within 41 bits of the epoch. |
| SnowflakeService.Snowflake.TillNextMs | backend/utils/snowflake.py:178-184 | Reads the clock until it is past the given timestamp. |
| SnowflakeService.Snowflake.Generate | backend/utils/snowflake.py:186-219 | The generator with its fields updated in place returns what the model says, consuming the same readings, so that `GenerateCases` and `BlocksIff` hold of it. |
| NodeLeaseSafety.LeaseSafety | backend/utils/snowflake.py:54-108 | Under every interleaving of scans with any result, set-if-absent, heartbeats, expiry, crashes and releases, while no holder misses its lease and the clock has passed the previous holder's last timestamp when a node changes hands: no two processes hold one node, and no id is issued twice. |
| NodeLeaseSafety.RunKeepsInv | backend/utils/snowflake.py:54-108 | The lease invariant is kept along any allowed run. |
| NodeLeaseSafety.StepKeepsInv | backend/utils/snowflake.py:54-108 | Each allowed step keeps leases alive, holders exclusive and ids distinct. |
| NodeLeaseSafety.LeaseSteps | backend/utils/snowflake.py:79-108 | A heartbeat in time moves the end of the lease to one whole lifetime from now, one too late changes nothing; a release drops the key at once, a crash leaves it to expire. |
| NodeLeaseSafety.OthersUntouched | backend/utils/snowflake.py:54-108 | A step of one process leaves the clock, the other processes and the keys of nodes it neither held nor takes; ids are only appended, by the process that issues them. |
| NodeLeaseSafety.NewIdIsNew | backend/utils/snowflake.py:186-219 | The next id of a holder was issued by nobody before. |
| NodeLeaseFailures.LeaseLostIff | backend/utils/snowflake.py:54-108 | After an advance of the clock, some run without a further advance, in which every scan returns exactly the live keys, brings two processes to hold one node, if and only if the advance outruns some holder's last renewal; without that no run does, whatever its scans return. |
| NodeLeaseFailures.IdsRepeatIff | backend/utils/snowflake.py:54-219 | Over every run, with no assumption on leases or clocks: some id is issued twice if and only if two processes issue on one node in one millisecond. |
| NodeLeaseFailures.RunKeepsLogged | backend/utils/snowflake.py:54-219 | In every run, with no assumption, each process issues increasing ids, and starts every millisecond it issues in with the first sequence number. |
| NodeLeaseFailures.HandoverDuplicates | backend/utils/snowflake.py:97-108 | A run in which no time passes and no lease is late: a holder releases its node, the next one takes it within the same millisecond, and both issue the same id. |
| NodeLeaseFailures.MissedHeartbeatDuplicates | backend/utils/snowflake.py:80-95 | A run in which a missed heartbeat makes two processes hold one node and issue the same id. |
| NodeManager.AcquireTakesFirstFree | backend/utils/snowflake.py:67-73 | Uninterrupted, acquisition takes the first node in row-major order that is neither in the scan nor registered, and gives up exactly when there is none. |
| NodeManager.NodeStore.AcquireNodeId | backend/utils/snowflake.py:54-73 | The nested loops return the first free node and register it, or report that all are taken. |
| NodeManager.SameNodeTaken | backend/utils/snowflake.py:54-73 | The loops and the step protocol take the same node. |
| RequirementsProofs.InstalledIff | backend/plugin/requirements.py:25-71 | The check answers true exactly when no line of the file is malformed and every requirement reachable through active markers and extras is installed in a satisfying version with well-formed metadata, also for cyclic metadata. |
| RequirementsProofs.UnsatisfiedIsReal | backend/plugin/requirements.py:46-53 | The check answers false only when some reachable requirement is missing or in a wrong version. |
| RequirementsProofs.BadLineIsReal | backend/plugin/requirements.py:32-35 | A format error is raised only for a malformed line of the file or of the metadata of a reachable package. |
| RequirementsProofs.VisitTrue | backend/plugin/requirements.py:40-69 | A true answer leaves every newly visited package with all active dependencies satisfied and visited. |
| RequirementsCheck.Checker.RequirementSatisfied | backend/plugin/requirements.py:40-69 | The recursion over one shared visited set computes the specified search, and ends on cycles. |
| RequirementsCheck.Checker.AllSatisfied | backend/plugin/requirements.py:25-71 | All lines are parsed before any is looked at, then checked in order. |
| PluginOrderProofs.SucceedsIff | backend/plugin/core.py:162-197 | For distinct names, ordering succeeds exactly when every dependency is present and the relation is acyclic. |
| PluginOrderProofs.SuccessIsOrdered | backend/plugin/core.py:162-197 | The result is a permutation of the plugins with each one after all its dependencies. |
| PluginOrderProofs.FailureIsReal | backend/plugin/core.py:177-188 | A reported cycle is a real cycle and a reported missing dependency is declared and absent. |
| PluginOrderProofs.OrderedIsUnchanged | backend/plugin/core.py:162-197 | An input already in order is returned unchanged. |
| PluginOrderProofs.Idempotent | backend/plugin/core.py:162-197 | Ordering an ordered result changes nothing. |
| PluginResolver.Resolver.Visit | backend/plugin/core.py:174-192 | The recursion with its shared lists computes the specified visit, and ends. |
| PluginResolver.ResolvePluginOrder | backend/plugin/core.py:162-197 | The whole procedure returns the specified outcome. |
| TreeProofs.ForestHoldsGrounded | backend/utils/build_tree.py:25-50 | The forest contains each node whose chain of parents ends at null or a missing id exactly once, and no other node. |
| TreeProofs.GroundedIffNotCyclic | backend/utils/build_tree.py:25-50 | A node is dropped exactly when climbing its chain of parents comes back to a node already passed. |
| TreeProofs.AcyclicForestIsPermutation | backend/utils/build_tree.py:25-50 | When no chain is cyclic the forest is a permutation of the list. |
| TreeProofs.ForestIsSpelled | backend/utils/build_tree.py:25-50 | The roots are exactly the nodes with a null or missing parent, every node has exactly the nodes that name it for children, and roots and children stand in input order. |
| TreeProofs.NullForestIsSpelled | backend/utils/build_tree.py:53-68 | The same of the forest grown from null, whose roots are the nodes with a null parent. |
| TreeProofs.NullForestIsForest | backend/utils/build_tree.py:25-68 | The recursive builder started from null and the one-pass builder produce the same forest exactly when no named parent is missing. |
| TreeBuilder.TraversalToTree | backend/utils/build_tree.py:25-50 | The one-pass builder gives every node its children in input order and returns the top nodes; the objects spell out the forest. |
| TreeBuilder.RecursiveFromNull | backend/utils/build_tree.py:53-68 | Started from null the recursion ends for every list of distinct ids, whatever cycles it has, and the objects spell out the forest of null parents. |
| TreeBuilder.RecursiveToTree | backend/utils/build_tree.py:53-68 | The recursion returns the nodes with the given parent and completes everything below them. |
| QueueTheorems.NothingIsLost | backend/common/queue.py:17-109 | Whatever producers, timeouts, failing handlers and the stop signal do: handled batches, the items in hand and the queue are everything put, in order; the unfinished count is right; no batch is empty or too large. |
| QueueTheorems.DrainsUnderStop | backend/common/queue.py:93-109 | With the stop signal set, no producers and positive limits, the consumer makes exactly the number of items over the batch size, rounded up, handler calls and exits with an empty queue, even if handlers fail. |
| QueueTheorems.BatchesRoundUp | backend/common/queue.py:39-57 | The number of batches is that quotient rounded up. |
| QueueTheorems.DequeuesFull | backend/common/queue.py:38-66 | A batch is full unless the queue was empty at a stop or at the timeout. |
| QueueTheorems.StopIsSeen | backend/common/queue.py:38-57 | After collecting, the stop signal is set exactly when it was or came in the meantime. |
| QueueTheorems.DrainsIff | backend/common/queue.py:38-66 | With the stop signal set the consumer drains the queue exactly when it is empty already or batch size and timeout are positive. |
| QueueTheorems.ExitsEmpty | backend/common/queue.py:93-100 | With positive limits the consumer only exits after the stop signal and with an empty queue. |
| QueueTheorems.AllHandledOnExit | backend/common/queue.py:69-109 | On exit everything ever put has been handled, in order, and nothing is unfinished. |
| QueueConsumer.BatchDequeue | backend/common/queue.py:17-66 | The collecting loop does what the model says at each suspension. |
| QueueConsumer.BatchConsume | backend/common/queue.py:69-109 | The endless loop does what the model says, until told to stop. |
| SchedulerRuns.OneOffFiresOnce | backend/app/task/utils/schedulers.py:111-142 | Over every run in which no change is detected at the reading that is to save this schedule, whatever is detected at other readings and whatever reloads and edits happen, the one-off flag included, a schedule fires at most once as a one-off one between enablings. |
| SchedulerRuns.StaysOnce | backend/app/task/utils/schedulers.py:111-142 | A schedule that no edit makes a repeating one is one-off wherever it is stored or loaded, so that every firing of it counts. |
| SchedulerRuns.TickCases | backend/app/task/utils/schedulers.py:111-142 | An enabled, started and due schedule that is not a spent one-off fires: its count in memory rises by one and it becomes dirty; a spent one-off is disabled with count zero, in memory and in its row; otherwise nothing changes. |
| SchedulerRuns.ReloadsEnabledRows | backend/app/task/utils/schedulers.py:405-418 | A reload loads exactly the enabled rows as they are then stored. |
| SchedulerTheorems.FiresAgainIff | backend/app/task/utils/schedulers.py:332-353 | For any dirty set and any detections: after a write-back, or a reading that writes back, a one-off schedule that has just fired fires again when due exactly when a change is detected at its own reading. |
| SchedulerTheorems.WriteBack | backend/app/task/utils/schedulers.py:332-353 | A dirty schedule ends up with the run count in memory both in its row and in memory, unless a change is detected at its own reading: then with the old stored count. |
| SchedulerTheorems.UnloadedStaysDirty | backend/app/task/utils/schedulers.py:332-353 | Without a detected change exactly the names whose schedules are not loaded stay dirty. |
| SchedulerTheorems.DirtyDistinct | backend/app/task/utils/schedulers.py:315-320 | In every run the dirty set holds each name once. |
| SchedulerTheorems.OneOffFiresTwice | backend/app/task/utils/schedulers.py:332-353 | A run in which a one-off schedule fires twice without being enabled in between. |
| SchedulerRuns.StepKeepsInv | backend/app/task/utils/schedulers.py:111-165 | Each step keeps a fired one-off schedule unarmed, unless the step loses its run count. |
| SchedulerRuns.SyncKeepsInv | backend/app/task/utils/schedulers.py:332-353 | The write-back loop saves every dirty schedule whose run count it does not lose, whatever befalls the others, and keeps it unarmed. |
| SchedulerService.DatabaseScheduler.Sync | backend/app/task/utils/schedulers.py:332-353 | The loop and the property it reads, which call each other, compute the specified write-back, end, and leave every schedule whose count is not lost saved and unarmed. |
| SchedulerService.DatabaseScheduler.Schedule | backend/app/task/utils/schedulers.py:421-446 | Reading the schedule writes back and reloads when a change is detected, and keeps every schedule unarmed whose count is not lost. |
| SchedulerService.DatabaseScheduler.Tick | backend/app/task/utils/schedulers.py:111-142 | Fired one-off schedules stay unarmed, and a look does what `TickCases` says: it fires, disables or changes nothing. |
| DataPermissionCompiler.FilterDataPermission | backend/common/security/permission.py:54-178 | The compiled filter means: superuser or unfiltered role; otherwise, if there are rules, all AND-conditions hold and there is one, or some OR-condition holds, or there are no conditions; a rule, for one target model or for all, gives a condition for each of them that has its column; whatever order the rule set yields. |
| DataPermissionCompiler.CompileRules | backend/common/security/permission.py:107-169 | The two lists hold exactly the conditions of the AND-rules and of the OR-rules. |
| DataPermissionCompiler.CompileRule | backend/common/security/permission.py:107-161 | A rule yields one condition per target model that has the column, unless it is excluded or the expression unknown. |
| DataPermissionCompiler.GatherRules | backend/common/security/permission.py:77-85 | Collects the rules of enabled scopes of enabled roles. |
| DataPermissionTheorems.AddingOrHidesIff | backend/common/security/permission.py:171-178 | Adding OR-conditions hides some row exactly when there was no condition before. |
| DataPermissionTheorems.AddingAndRevealsIff | backend/common/security/permission.py:171-178 | Adding AND-conditions reveals some row exactly when there were only OR-conditions and none of the new ones is among them. |
| DataPermissionTheorems.OneMoreRule | backend/common/security/permission.py:107-178 | One more OR-rule never hides a row once there is a condition; one more AND-rule never reveals one once there is an AND-condition. |
| LockoutTheorems.AtMostThresholdFailures | backend/app/admin/service/user_password_history_service.py:44-70 | At most the threshold of password checks fail between resets, whatever the timing. |
| LockoutTheorems.CounterCounts | backend/app/admin/service/user_password_history_service.py:44-70 | The stored counter is the number of failed checks since the last reset. |
| LockoutTheorems.FailureCounts | backend/app/admin/service/user_password_history_service.py:44-70 | A failure counts one more than the live counter and locks exactly when that reaches the threshold; counter and lock then live for the lock time. |
| LockoutTheorems.LockedExactlyUntil | backend/app/admin/service/user_password_history_service.py:29-41 | After the failure that locks, an attempt is refused unchecked exactly until the stored instant, which is at most a second before the full lock time. |
| LockoutTheorems.AllRefusedWhileLocked | backend/app/admin/service/user_password_history_service.py:29-41 | A whole run of attempts under the lock is refused and changes nothing. |
| LockoutTheorems.GuessRate | backend/app/admin/service/auth_service.py:40-61 | However wrong guesses are timed, the number tried is at most the threshold, plus the threshold for each full lock round that has passed. |
| LockoutService.PasswordSecurity.CheckStatus | backend/app/admin/service/user_password_history_service.py:21-41 | Refuses exactly a disabled or locked user; otherwise no lock is alive afterwards; the counter stays within the allowance. |
| LockoutService.PasswordSecurity.HandleLoginFailure | backend/app/admin/service/user_password_history_service.py:44-70 | The counter stays within the allowance, and the failure that uses it up makes every later attempt of an enabled user refused exactly until the stored instant. |
| LockoutService.PasswordSecurity.Verify | backend/app/admin/service/auth_service.py:40-61 | An attempt is accepted exactly for an enabled, unlocked user with a correct, current password, and then clears both keys; it is refused unchecked exactly under the lock; the counter stays within the allowance, and the failure that uses it up locks every later attempt until the stored instant. |

## Left out

- Routes, middleware, responses, exception texts, logging, metrics, command line: input and output only.
- JWT signing, bcrypt, captcha, OAuth2: a token is what it carries plus an identifier that makes it unique; a password check is a boolean.
- Interleavings inside one session or service operation, so also two concurrent refreshes with one token.
- Failures of Redis or the database.
- Extra information of a session other than its swagger mark; it is never empty, as in every caller.
- Swagger sessions indexed by earlier releases: the loop that moves them is modelled, but no run creates them.
- JoinRelationships.ParseUndoesRender: lower case of letters outside ASCII is not modelled, so names are assumed to have none that it changes.
- JoinSerializer.SelectJoinSerialize: requires a column per class and relationships without a cycle, over which the recursion need not end, and one per pair of classes, as the dictionary keeps only the last; without relationships the rows of several columns are flattened, not nested; rows with classes moving between columns, objects without an id, flat mode and named-tuple output are not modelled, and the nested dictionaries of the hierarchy are one map keyed by main object, class and parent.
- The address that stands in for a main object's id when that is zero: equal objects have one address, and no address is an id.
- JoinOrder.SerializeAnyOrder: assumes that a to-one relationship has at most one object, because the serializer keeps the first it meets.
- Closing the sockets of revoked connections in the background: disconnections are separate steps that may come at any time.
- Registration from outside, which picks the first enabled role, is a creation without a department.
- Uniqueness checks on names, titles and e-mails, which only refuse an operation.
- Login time and avatar changes made outside the user service, which do not clear the cache and are outside the modelled entry.
- Last-inserted ids: a new row takes any id the table has never used.
- UserCacheCoherence.RunKeepsInv: menu deletion is not among its steps, because it breaks the agreement; `DeleteMenuCoherentIff` says when, and `StaleOnlyByDeletedMenus` what runs with it keep.
- Node numbers fixed by configuration, which never register; id generation before initialisation, which is refused, and after shutdown.
- NodeLeaseSafety.LeaseSafety: assumes heartbeats in time and a clock past the previous holder's last timestamp at a change of hands; `LeaseLostIff` says exactly when a lease is lost, and `IdsRepeatIff` exactly when an id repeats, without either.
- Parsing of requirement lines, marker evaluation and version comparison: parsed requirements with arbitrary functions for markers and specifiers; names are taken as canonical; blank and comment lines are dropped before.
- PluginOrderProofs.SucceedsIff: assumes distinct plugin names, which are directory names.
- TreeProofs.ForestHoldsGrounded: assumes distinct ids; sorting, the other node columns and the vben5 reshaping are not modelled.
- The queue race in which the outer timeout fires just as an item arrives: events happen one at a time while the consumer is suspended.
- A queue bound that makes producers wait.
- Change detection of the scheduler from a timestamp truncated to seconds: an arbitrary answer per reading.
- Database errors while writing back, process crashes between a firing and its write-back, and reuse of a schedule's name: schedules are known by id.
- Value casting and template variables of data rules: a condition holds of a row or does not.
- LockoutTheorems.AtMostThresholdFailures: for a fixed threshold and lock time; changing them at run time is not modelled.
- Plugin installation, code generation, e-mail, file upload, i18n, pagination, dictionaries and notices: easy or external.
