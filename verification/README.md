# Watari, verified

A Dafny model of the service layer of Watari, a case management system for security incidents, with proofs of what its
services, its realtime hub, its row-level security and its two client-side algorithms promise. A table is a map or a
sequence of rows, Redis is a map of keys with expiry times, and a request is one step that commits or leaves the state
as it was (`backend/src/db/session.py:96-103`). Services that update rows in place are classes whose methods are proved
against functions of the old state; the laws are lemmas about those functions and about all runs of them. Loops of the
source are loops here. The modules named `...Laws` say once more, declaratively and without the functions that compute it,
what each operation does.

| module | what it covers |
|---|---|
| `FolderForest`, `FolderLaws`, `FolderTree` | note folders: the cycle check, the forest that every tenant keeps in every run, and the tree that the notes pane builds from a flat list |
| `InlineMarkdown`, `NotePreview`, `Splitting` | the markdown preview: the inline tokenizer and the line loop with its code fences |
| `RealtimeHub`, `HubLaws`, `Presence` | message delivery to sockets by any number of API instances, and who is viewing a case |
| `RowLevelSecurity`, `TenantIsolation`, `TransactionLaws` | the policies of the tables, pooled connections, foreign keys that look past the policies, and what tenants can learn of and do to each other |
| `Sessions` | login sessions and the tokens that name them |
| `CaseNumbering`, `CaseService`, `CaseLaws` | case numbers under interleaved transactions; the lifecycle of cases, merges, provenance, the status trail, correlation |
| `Validators`, `ValidatorLaws`, `Observables`, `Alerts`, `AlertLaws` | normalisers, single and bulk creation of observables, deduplication and promotion of alerts |
| `Clustering`, `Heatmap`, `GeoClusters`, `StableSort` | the algorithms behind the timeline, the ATT&CK heatmap and the map |

Where the code and its documentation disagree, the model follows the code:

- `find_clusters` joins entries whose gap equals the threshold (`backend/src/services/clustering.py:54`); its docstring
  says "less than".
- `cluster_points` places each point in the first group whose centroid is near
  (`backend/src/services/geospatial.py:106-111`); its docstring calls that single-linkage.
- A domain or host name is stripped before its trailing dots are removed, and a Python `$` matches before a final
  newline (`backend/src/services/validators.py:33-44`). So a newline in front of trailing dots is stored, and such a
  value is not a fixed point of its normaliser. `DomainFixedPointIff` states exactly when it is one.
- `max` over a set of severities returns any element of highest rank (`backend/src/services/attack.py:175`), and all
  unknown severities have the same rank. `SeverityDeterminedIff` states exactly when the result is determined.
- A merge closes its sources without an outcome (`backend/src/services/cases.py:350-352`), so "closed implies outcome"
  is no invariant; an update may also take the outcome of a closed case. `MergeClosesWithoutOutcome` is a run that shows
  it, and `ClosedHasOutcomeIff` states exactly which requests break it.
- A session without a tenant matches no row, according to `backend/src/db/session.py:61-63`; the policies of the two
  template tables still show it the shared rows.
- The cycle check of folders reads the rows that row-level security shows the caller, and the foreign key of the parent
  column is checked against all rows. So the folders of each tenant stay a forest, but the whole table need not:
  `TwoTenantsCloseACycle`, `StepKeepsTableIff`.
- Row-level security does not isolate tenants from each other's keys: references are checked, and deletions cascade, past
  the policies. `SameAnswer` and `OthersCannotWrite` state exactly when a request notices or loses something by it,
  `ReferenceIsNoticed` and `DeletionCrossesTenants` are inputs for which it does.
- Closing one of two tabs of a user removes the user's presence (`backend/src/realtime/hub.py:94-99,163-165`), so the
  law about viewers speaks of the last operation on a case and user.

## Model

| member | source | states |
|---|---|---|
| `FolderForest.NoteService.WouldCreateCycle` | backend/src/services/notes.py:43-59 | on the rows the caller sees, whatever graph they form: the walk ends, and is true exactly if the moved folder is the new parent or above it, or the walk up from the new parent never ends |
| `FolderForest.NoteService.SelectParent` | backend/src/services/notes.py:55-58 | a query reads the parent of a folder that the caller sees, and nothing of any other |
| `FolderForest.SeesByPolicy` | backend/alembic/versions/0003_force_rls_and_app_role.py:147-163 | what a caller sees of folders and cases is what the policies admit, whatever connection the pool hands out |
| `FolderForest.WouldCycleOnForest` | backend/src/services/notes.py:43-59 | on an acyclic relation the check means just "is the new parent or one of its ancestors" |
| `FolderForest.RevisitIsEndless` | backend/src/services/notes.py:50-59 | a walk that comes back to a visited folder never ends, so the visited set is the right place to stop |
| `FolderForest.EdgeKeepsForestIff` | backend/src/services/notes.py:100-113 | giving a folder a parent keeps a forest if and only if the folder is not that parent or above it |
| `FolderForest.MoveKeepsViewIff` | backend/src/services/notes.py:43-59 | the check lets a move through if and only if the rows that the caller sees remain a forest |
| `FolderForest.AcyclicIffAllRooted` | backend/src/services/notes.py:43-59 | no folder is above itself exactly when every folder reaches a root |
| `FolderForest.DepthBound` | backend/src/services/notes.py:43-59 | a folder at depth d has d distinct folders above it, so depths stay below the number of rows |
| `FolderForest.NoteService.CreateFolder` | backend/src/services/notes.py:79-97 | the new row or the error, the whole new table, and that every tenant keeps its forest |
| `FolderForest.NoteService.UpdateFolder` | backend/src/services/notes.py:100-113 | the same for a move or rename: look-ups and cycle check over the visible rows, foreign key over all rows |
| `FolderForest.NoteService.DeleteFolder` | backend/src/services/notes.py:116-119 | visible children become roots and nothing else changes; a child hidden from the caller makes the foreign key refuse |
| `FolderForest.RunKeepsForests` | backend/src/services/notes.py:79-119 | whatever requests arrive from whatever callers, the folders of every tenant stay a forest, no parent dangles, and each folder has the tenant of its case |
| `FolderForest.StepKeepsTableIff` | backend/src/services/notes.py:79-119 | a request keeps the whole table acyclic if and only if it is not a move, let through, of a folder that is in fact the new parent or above it |
| `FolderForest.RunKeepsTable` | backend/src/services/notes.py:79-119 | a run that puts no folder under one of another tenant keeps the whole table a forest |
| `FolderForest.VisibleParentStaysApart` | backend/src/services/notes.py:100-113 | for a caller that is no administrator, that condition is that it sees the new parent |
| `FolderForest.ApartIsForestIff` | backend/src/services/notes.py:100-113 | tenants kept apart make a forest together exactly when each of them makes one |
| `FolderForest.TwoTenantsCloseACycle` | backend/src/services/notes.py:103-110 | the failing input: two tenants that each move a root under a hidden root of the other close a cycle |
| `FolderForest.AdministratorOpensTheWay` | backend/src/services/notes.py:103-110 | another one, in which every new parent is visible to its caller, because an administrator linked two tenants |
| `FolderLaws.StepObeys` | backend/src/services/notes.py:79-119 | what every request does to every field of every folder, for every caller: a creation adds its row, an update sets the fields that were sent and keeps all others, a deletion takes the parent of the children, and a refused request changes nothing; with the exact condition of each |
| `FolderLaws.ErrorsTell` | backend/src/services/notes.py:34-40 | which error each refused request reports |
| `FolderLaws.ParentStays` | backend/src/services/notes.py:102-110 | over runs, the parent of a folder only changes through an update of it that sends one, or the deletion of its parent |
| `FolderLaws.NameStays` | backend/src/services/notes.py:102-110 | over runs, its name only changes through an update that sends one |
| `FolderLaws.SortOrderStays` | backend/src/services/notes.py:102-110 | over runs, its sort order only changes through an update that sends one |
| `FolderLaws.IdentityStays` | backend/src/services/notes.py:79-119 | over runs, its id, tenant and case never change, and only its deletion removes it |
| `FolderTree.BuildFolderTree` | frontend/src/components/cases/NotesEditor.tsx:118-138 | on every list of folders: a folder that reaches a root occurs exactly once and any other not at all, under its listed parent, with every sibling list sorted |
| `FolderTree.Index` | frontend/src/components/cases/NotesEditor.tsx:119-120 | the map keeps the last row of each id, enumerated in the order of first insertion |
| `FolderTree.LinkNodes` | frontend/src/components/cases/NotesEditor.tsx:122-129 | each node is pushed to the children of its listed parent, or to the roots |
| `FolderTree.SortLevel` | frontend/src/components/cases/NotesEditor.tsx:130-136 | the recursive sort ends and yields the sorted nesting of the level |
| `FolderTree.NestedOccurrences` | frontend/src/components/cases/NotesEditor.tsx:118-138 | a nesting holds each folder as often as its top level covers it: once or never |
| `FolderTree.AllPlacedIffAcyclic` | frontend/src/components/cases/NotesEditor.tsx:118-138 | every folder of the list is shown exactly once if and only if the relation of the list is acyclic |
| `FolderTree.EveryFolderOfTheCaseIsPlaced` | frontend/src/components/cases/NotesEditor.tsx:118-138 | after any run of requests of any callers, whoever opens a case sees each of its folders exactly once, even if parents lie in other cases or tenants |
| `StableSort.SortIsSorted` | frontend/src/components/cases/NotesEditor.tsx:131-133 | the sort used by the models orders by its relation |
| `StableSort.SortIsStable` | backend/src/services/clustering.py:36 | sorting keeps the input order of elements that the relation does not tell apart |
| `StableSort.AscendingIsUnique` | backend/src/services/attack.py:185 | a set has one ascending arrangement, so the order of cells and of linked cases is determined |
| `InlineMarkdown.RenderInline` | frontend/src/components/cases/NotesEditor.tsx:504-533 | the loop ends, and cuts the text into leftmost, first-alternative, shortest matches and plain pieces in which no match begins |
| `InlineMarkdown.TryAlternative` | frontend/src/components/cases/NotesEditor.tsx:507 | the first end at which the alternative matches, or that it cannot match here |
| `InlineMarkdown.Exec` | frontend/src/components/cases/NotesEditor.tsx:511 | the leftmost match from `lastIndex`, with the first alternative that matches there |
| `InlineMarkdown.CutsRestore` | frontend/src/components/cases/NotesEditor.tsx:504-533 | putting the delimiters back around the pieces reproduces the text |
| `InlineMarkdown.CutsAreUnique` | frontend/src/components/cases/NotesEditor.tsx:504-533 | there is only one such cut, so the tokenizer's result is determined |
| `InlineMarkdown.PlainIsInert` | frontend/src/components/cases/NotesEditor.tsx:512 | rendering a plain piece again gives just that piece |
| `InlineMarkdown.GreedyIsShortest` | frontend/src/components/cases/NotesEditor.tsx:507 | for code and mentions the greedy match is the only one at its position |
| `NotePreview.MarkdownPreview` | frontend/src/components/cases/NotesEditor.tsx:411-502 | the placeholder exactly for blank content; otherwise the loop with its flag and buffer shows the document read fence by fence |
| `NotePreview.LineShows` | frontend/src/components/cases/NotesEditor.tsx:447-487 | which lines are headings of which level, items, gaps and paragraphs, and what each of them shows |
| `NotePreview.PreviewIsDetermined` | frontend/src/components/cases/NotesEditor.tsx:411-502 | a document has only one rendering |
| `NotePreview.PreviewReadsBack` | frontend/src/components/cases/NotesEditor.tsx:411-502 | writing the shown blocks back as text and previewing that text shows the same blocks |
| `NotePreview.BlankIffOnlyGaps` | frontend/src/components/cases/NotesEditor.tsx:412-418 | the placeholder replaces exactly the documents that would show nothing but gaps |
| `NotePreview.FencesPairUp` | frontend/src/components/cases/NotesEditor.tsx:424-440 | n fence lines make n/2 code elements, rounded up: an unclosed fence is closed by the end |
| `Splitting.SplitJoins` | frontend/src/components/cases/NotesEditor.tsx:419 | splitting at a separator and joining again restores the text, and no part holds the separator |
| `Splitting.JoinSplits` | frontend/src/components/cases/NotesEditor.tsx:432 | joining parts free of the separator and splitting again restores the parts |
| `RealtimeHub.ChannelRoundTrip` | backend/src/realtime/hub.py:214-222 | a channel name is read back as the topic it was made from, whatever the id contains |
| `RealtimeHub.WebSocketHub.ConnectCase` | backend/src/realtime/hub.py:89-92 | adds the socket under its case; no empty set appears |
| `RealtimeHub.WebSocketHub.DisconnectCase` | backend/src/realtime/hub.py:94-99 | removes the socket and a set that became empty, also for a case that has no entry |
| `RealtimeHub.WebSocketHub.ConnectTenant` | backend/src/realtime/hub.py:101-103 | the same for a tenant |
| `RealtimeHub.WebSocketHub.DisconnectTenant` | backend/src/realtime/hub.py:105-109 | the same for a tenant |
| `RealtimeHub.WebSocketHub.Snapshot` | backend/src/realtime/hub.py:214-223 | the sockets registered for the channel under the lock |
| `RealtimeHub.WebSocketHub.Deliver` | backend/src/realtime/hub.py:224-227 | sends to every socket of the snapshot that works; a failing one does not stop the others |
| `RealtimeHub.OwnChannelInOrderOnce` | backend/src/realtime/hub.py:113-154 | in every interleaving of any number of instances, a socket gets only messages of its channel, each at most once, in publication order |
| `RealtimeHub.NothingMissed` | backend/src/realtime/hub.py:197-227 | while a connection is uninterrupted, the socket has got exactly the messages of its channel that its instance has settled |
| `RealtimeHub.NoEmptySetRemains` | backend/src/realtime/hub.py:89-109 | in every run no connection map keeps an empty set |
| `RealtimeHub.OwnIsFilter` | backend/src/realtime/hub.py:214-222 | the messages a socket may expect are those of the log whose channel is its topic |
| `RealtimeHub.DeliveryReaches` | backend/src/realtime/hub.py:214-227 | in every reachable state, one round of the protocol on an instance reaches exactly the sockets that `Deliver` sends to, once each, and leaves it idle |
| `RealtimeHub.StepKeeps` | backend/src/realtime/hub.py:89-227 | every step of the protocol keeps the invariant from which these laws follow |
| `HubLaws.ListensIff` | backend/src/realtime/hub.py:178-195 | an instance listens exactly if its listener was started after the instance and not stopped since |
| `HubLaws.ConnectedGetsItsMessages` | backend/src/realtime/hub.py:89-154 | a socket that connects to a listening instance, and that no later step disconnects, fails or leaves without its listener, has been sent exactly the messages of its topic, in order, from the instance's cursor at the connect to what the instance has settled |
| `HubLaws.EverythingSettles` | backend/src/realtime/hub.py:197-227 | from every reachable state a listening instance can settle all that was published, by its own steps alone |
| `HubLaws.EveryMessageArrives` | backend/src/realtime/hub.py:89-227 | so such a socket gets every message of its topic that is published after it has connected |
| `HubLaws.DisconnectedGetsNoMore` | backend/src/realtime/hub.py:94-109 | a socket that disconnects gets at most the one message that was already on its way to it, whatever happens then |
| `Presence.PresenceTracker.TouchPresence` | backend/src/realtime/hub.py:158-161 | sets the score to the time and renews the expiry of the key |
| `Presence.PresenceTracker.RemovePresence` | backend/src/realtime/hub.py:163-165 | removes the member, and with the last one the key |
| `Presence.PresenceTracker.TrimStale` | backend/src/realtime/hub.py:167-171 | drops the members whose score is at least 30 seconds old |
| `Presence.PresenceTracker.Members` | backend/src/realtime/hub.py:172-174 | reads the members of a key that lives |
| `Presence.PresenceTracker.GetActiveViewers` | backend/src/realtime/hub.py:167-174 | after any history, when nothing comes between its two commands, the answer is the users whose last operation on the case was a touch less than 30 seconds ago |
| `Presence.InterleavedViewers` | backend/src/realtime/hub.py:167-174 | with any events between the two commands: who is reported was touched last less than 30 seconds before the look-up began, and who was touched last less than 30 seconds before it ended is reported |
| `Presence.RunAgrees` | backend/src/realtime/hub.py:158-174 | neither the expiry of the key nor the eager removal of stale members ever changes what a look-up finds |
| `Presence.RunIsLongLived` | backend/src/realtime/hub.py:158-161 | a key outlives every member that is still inside the window |
| `Presence.ViewersAreLastTouched` | backend/src/api/routers/realtime.py:55-68 | the stored scores inside the window are the viewers of the history |
| `Presence.ClosingOneTabRemovesTheUser` | backend/src/realtime/hub.py:94-99 | two touches and one removal leave the user not viewing |
| `RowLevelSecurity.ScopedSees` | backend/alembic/versions/0003_force_rls_and_app_role.py:147-163 | the three-valued policies admit exactly the rows of the scope's tenant and the shared rows of the two nullable tables; without a tenant only the latter |
| `TenantIsolation.PoliciesNeverRaise` | backend/alembic/versions/0003_force_rls_and_app_role.py:80-85 | in no run does a policy raise; without `NULLIF`, evaluating all operands, it raised exactly if an earlier request on the same connection had made a setting that this one does not make |
| `TenantIsolation.SettingsRemember` | backend/src/db/session.py:58-76 | over any run, a setting of a pooled connection is blank exactly if an earlier request on it made the setting |
| `TenantIsolation.Session.ApplyTenantContext` | backend/src/db/session.py:58-76 | the two settings become those of the context |
| `TenantIsolation.Session.EndTransaction` | backend/src/db/session.py:96-103 | settings that were made become blank, others stay |
| `TenantIsolation.Session.HandleRequest` | backend/src/db/session.py:79-103 | the request commits its transaction if the handler returns, leaves the database as it was if it raises, and hands the connection back |
| `TransactionLaws.ServeRunsThrough` | backend/src/db/session.py:79-103 | every request of every run, an administrator's too, runs through databases statement by statement: a query answers exactly the stored rows that the request may read and the condition selects; a write changes exactly those rows, and is refused exactly for a row it may not write, a key that exists, or a reference that would dangle; and all of it is committed exactly if the handler returned |
| `TransactionLaws.QueriesFind` | backend/alembic/versions/0003_force_rls_and_app_role.py:147-163 | the i-th answer, if it is a query's, holds each readable row that the condition selects with its stored value, and no other |
| `TransactionLaws.ExecuteObeys` | backend/alembic/versions/0003_force_rls_and_app_role.py:147-163 | the same law for one statement |
| `TransactionLaws.AdmittedByPolicy` | backend/alembic/versions/0003_force_rls_and_app_role.py:147-163 | what a request may read and write is what the policies admit, on whatever connection: everything for an administrator, its own and the shared rows otherwise |
| `TenantIsolation.ReachedPool` | backend/src/db/session.py:96-103 | after any run no pooled connection carries a setting that is still made |
| `TenantIsolation.ScopeOfRequest` | backend/src/db/session.py:58-103 | whatever a connection served before, a non-admin request has its own scope and no other |
| `TenantIsolation.GoneIsLeast` | backend/alembic/versions/0001_initial_schema.py:809-817 | a deletion takes the least set of rows that holds the chosen ones and every row that leans on it by a cascading foreign key, visible or not |
| `TenantIsolation.HiddenOnlyGo` | backend/alembic/versions/0003_force_rls_and_app_role.py:147-163 | a statement writes no row outside its scope; such a row goes exactly if a deletion takes it in turn |
| `TenantIsolation.SameAnswer` | backend/alembic/versions/0003_force_rls_and_app_role.py:147-163 | databases that agree inside the scope answer a statement alike, and agree again, if and only if it does not collide with a hidden row: by a key or a dangling reference in only one of them, or by a deletion that hidden rows refuse, or carry back to visible rows, in only one of them |
| `TenantIsolation.SameTransaction` | backend/src/db/session.py:79-103 | a transaction is told the same and might see the same after every statement if and only if none collides; then its outcome is the same too |
| `TenantIsolation.Isolation` | backend/src/db/session.py:58-103 | after any two histories on any connections, that holds of every non-admin request, scoped or not, whose scope the databases agree on |
| `TenantIsolation.GoneAmongOwn` | backend/alembic/versions/0001_initial_schema.py:809-817 | where no hidden row refers to what goes, a deletion goes as it would among the visible rows alone |
| `TenantIsolation.DiscreetIsIsolated` | backend/src/db/session.py:58-103 | a request that in each database by itself names no hidden row, and deletes nothing a hidden row refers to, is isolated outright |
| `TenantIsolation.ReferenceIsNoticed` | backend/src/services/attack.py:32-55 | the input that shows the condition matters: a mapping with a fresh key and an unchecked case id is told whether another tenant's case exists |
| `TenantIsolation.OthersOnlyTake` | backend/alembic/versions/0003_force_rls_and_app_role.py:147-163 | a statement of another tenant does nothing to a tenant's rows but take some in a deletion |
| `TenantIsolation.OthersCannotWrite` | backend/src/db/session.py:58-103 | over any run of requests of others a tenant's rows only shrink, and stay the same if and only if no request commits a deletion that takes one in turn |
| `TenantIsolation.LeaningOnItselfIsSafe` | backend/src/db/session.py:58-103 | if the cascading references of a tenant's rows name only its own rows, no run of others touches them |
| `TenantIsolation.LeaningRowIsTaken` | backend/alembic/versions/0001_initial_schema.py:809-817 | if one names another tenant's row, that tenant's deletion of it is refused or takes the referring row |
| `TenantIsolation.DeletionCrossesTenants` | backend/alembic/versions/0001_initial_schema.py:810-816 | the run that shows it: a tenant deletes its observable, and another tenant's mapping is gone |
| `TenantIsolation.StandardTablesAreClosed` | backend/alembic/versions/0003_force_rls_and_app_role.py:55-73 | a request without a tenant is shown no row of the sixteen standard tables, and one with a tenant only its own |
| `TenantIsolation.RunsStayConsistent` | backend/alembic/versions/0001_initial_schema.py:809-817 | no run, of administrators either, puts a row without a tenant into a standard table or leaves a foreign key without its row |
| `Sessions.SessionStore.CreateSession` | backend/src/auth/sessions.py:42-64 | stores the key with its time to live; Redis refuses one that is not positive |
| `Sessions.SessionStore.IsSessionActive` | backend/src/auth/sessions.py:67-69 | true exactly if the key has not expired or been deleted |
| `Sessions.SessionStore.TouchSession` | backend/src/auth/sessions.py:72-81 | renews an existing key, never creates one |
| `Sessions.SessionStore.InvalidateSession` | backend/src/auth/sessions.py:84-86 | deletes the key and nothing else |
| `Sessions.SessionStore.InvalidateAllSessions` | backend/src/auth/sessions.py:89-96 | the scan deletes exactly the user's keys and counts them |
| `Sessions.SessionStore.LogIn` | backend/src/api/routers/auth.py:70-89 | creates the session and issues a token of each type for it, with its expiry, or fails for a timeout that is not positive |
| `Sessions.SessionStore.RefreshAccess` | backend/src/api/routers/auth.py:101-131 | issues a new access token exactly for an unexpired refresh token that a login issued, whether its session is live or not |
| `Sessions.SessionStore.Authenticate` | backend/src/auth/dependencies.py:45-76 | accepts a token exactly if it is an access token that a login or a refresh of its session issued, has not expired, and the session is live; touches the session then, and does nothing otherwise |
| `Sessions.ExistsIffLive` | backend/src/auth/sessions.py:42-96 | over any run, the key exists exactly while the session was not invalidated since its login and every gap between touches is below what the earlier touch allows |
| `Sessions.DeadStaysDead` | backend/src/auth/sessions.py:67-96 | a session that died is never live again, whatever follows |
| `Sessions.LiveEarlier` | backend/src/auth/sessions.py:42-81 | a live session was live all along since its login |
| `Sessions.AcceptedIffAuthentic` | backend/src/auth/dependencies.py:45-76 | the same law of every token, in every run, said by the events alone |
| `Sessions.IssuedIff` | backend/src/api/routers/auth.py:70-131 | which tokens were issued, and until when they run, can be read off the logins and the successful refreshes |
| `Sessions.NoTokenRevives` | backend/src/api/routers/auth.py:101-138 | after a session has died no token for it is accepted, whatever refresh tokens are exchanged |
| `Sessions.TokensComeFromLogins` | backend/src/api/routers/auth.py:37-132 | every issued token, also a refreshed one, names a session that a login created |
| `CaseNumbering.NextCaseNumber` | backend/alembic/versions/0001_initial_schema.py:1043-1057 | the scan returns the largest visible number of the tenant plus one, or one |
| `CaseNumbering.InsertIsNext` | backend/src/services/cases.py:31-41 | an insert that passes the constraint can only use the next number, whatever was read before |
| `CaseNumbering.StepKeeps` | backend/src/services/cases.py:62-99 | begin, read, insert, commit and abort, in any interleaving, keep the invariant |
| `CaseNumbering.NumbersAreOneToN` | backend/alembic/versions/0001_initial_schema.py:237-239 | in every interleaving the committed numbers of each tenant are 1..n in commit order |
| `CaseNumbering.OneWriterPerTenant` | backend/src/services/cases.py:85-99 | while one transaction holds new cases of a tenant, every other that inserts waits or fails as if it had aborted |
| `CaseNumbering.OnlyCommitsCount` | backend/src/services/cases.py:85-99 | a step changes the committed numbers only if it is a commit, which appends those of its transaction |
| `CaseNumbering.CreationIsNumbered` | backend/src/services/cases.py:54-99 | in every reachable state, a creation with no other new case of the tenant in the way commits exactly the next number, and leaves the other tenants' alone |
| `CaseService.Service.CreateCase` | backend/src/services/cases.py:54-142 | the new case is `new`, has one `case_created` entry, and nothing else changes |
| `CaseService.Service.UpdateCase` | backend/src/services/cases.py:185-265 | the whole new row and the entries written, each error case, and that an error leaves everything as it was |
| `CaseService.Service.CloseCase` | backend/src/services/cases.py:268-277 | the case ends closed with the given outcome |
| `CaseService.Service.MergeCases` | backend/src/services/cases.py:280-356 | the whole new state of a merge, or the error of the first bad source with nothing changed |
| `CaseService.Service.CheckSources` | backend/src/services/cases.py:294-307 | the error of the first source that cannot be merged |
| `CaseService.Service.TransferRows` | backend/src/services/cases.py:309-331 | exactly the rows of the sources get the target's id, in place |
| `CaseService.Service.CloseSources` | backend/src/services/cases.py:333-352 | the target records its sources, the merge entry is written, and every source is closed |
| `CaseService.Service.DeleteEntry` | backend/src/services/timeline.py:104-111 | manual entries can be deleted, automatic ones are refused |
| `CaseLaws.HandleObeys` | backend/src/services/cases.py:54-356 | what every request does to every field and row: an update sets what was sent, keeps the rest, stamps a case that turns resolved or closed and records status and assignee changes; a merge moves exactly the rows of its sources, remembers and closes them; a refused request changes nothing; with the exact condition of each |
| `CaseLaws.UpdateErrors` | backend/src/services/cases.py:193-219 | which error an update reports, and that it succeeds otherwise |
| `CaseLaws.MergeRefusedIff` | backend/src/services/cases.py:294-307 | a merge is refused exactly if some source is the target, does not exist, or has another tenant |
| `CaseLaws.FirstBadDecides` | backend/src/services/cases.py:294-307 | the first such source in the list decides which error it is |
| `CaseLaws.TitleAndAssigneeStay` | backend/src/services/cases.py:199-204 | over runs, title and assignee of a case only change through an update that sends them |
| `CaseService.MergeConserves` | backend/src/services/cases.py:280-356 | no row is lost, duplicated or moved to another tenant, one entry is added, and the sources are empty |
| `CaseService.MergeRunConserves` | backend/src/services/cases.py:280-356 | over any chain of merges, with repeated or already merged sources, rows are conserved and each successful merge adds one entry |
| `CaseService.RunKeepsTenants` | backend/src/services/cases.py:54-356 | in every run each row has the tenant of its case |
| `CaseService.ProvenanceIsRecorded` | backend/src/services/cases.py:309-336 | in every run each observable is reachable from the case it was created in along `merged_from` edges |
| `CaseService.TrailLeadsToStatus` | backend/src/services/cases.py:206-229 | for a case outside any merge, the automatic status entries are a path from `new` to its status, each step to another status |
| `CaseService.RunStamps` | backend/src/services/cases.py:209-219 | resolved cases have `resolved_at`, closed ones `closed_at`, and neither is ever cleared |
| `CaseService.ClosedHasOutcomeIff` | backend/src/services/cases.py:206-219 | throughout a run a case is never closed without an outcome if and only if no request merges it away without one or takes the outcome of a case that stays closed |
| `CaseService.MergeClosesWithoutOutcome` | backend/src/services/cases.py:349-352 | a run after which a closed case has no outcome |
| `CaseService.FindCorrelatingCases` | backend/src/services/observables.py:177-194 | each case of the tenant that holds the value, once |
| `CaseService.CrossCaseCount` | backend/src/services/observables.py:163-174 | the size of that set without the excluded case |
| `CaseService.MergeMapsCorrelation` | backend/src/services/cases.py:309-331 | a merge maps each correlation set to its image under sources-to-target |
| `Validators.DomainIffDecomposes` | backend/src/services/validators.py:19-22 | the domain pattern accepts exactly the labels and a top-level name joined by dots |
| `Validators.HostIffDecomposes` | backend/src/services/validators.py:23-26 | the same for host names |
| `Validators.NamesArePlain` | backend/src/services/validators.py:19-26 | an accepted name holds letters, digits, hyphens and dots only, and does not end in a dot |
| `Validators.DomainFixedPointIff` | backend/src/services/validators.py:33-37 | a stored domain is a fixed point if and only if no newline stood in front of trailing dots |
| `Validators.HostnameFixedPointIff` | backend/src/services/validators.py:40-44 | the same for host names |
| `Validators.NewlineFree` | backend/src/services/validators.py:33-44 | inputs without a newline are always on the good side |
| `Validators.NewlineIsStored` | backend/src/services/validators.py:33-37 | an accepted input whose stored form is no fixed point |
| `Validators.EmailFixedPoint` | backend/src/services/validators.py:66-70 | every accepted e-mail address is a fixed point |
| `Validators.HashFixedPoint` | backend/src/services/validators.py:73-77 | every accepted hash is a fixed point |
| `Validators.HashTakenAsItIs` | backend/src/services/validators.py:73-77 | a value of exactly the length of a hash is accepted if and only if it is all hex digits, and is stored in lower case |
| `Validators.HashIsLowerHex` | backend/src/services/validators.py:73-77 | an accepted hash is lowercase hex of the length that its type names |
| `ValidatorLaws.DomainStoredIff` | backend/src/services/validators.py:33-37 | an input is stored as the domain v exactly if it holds v, perhaps in capitals and with dots behind it, between spaces, and v is a domain, or one with a newline behind it; v has no capitals |
| `ValidatorLaws.HostnameStoredIff` | backend/src/services/validators.py:40-44 | the same of a host name |
| `ValidatorLaws.EmailIffDecomposes` | backend/src/services/validators.py:24-26 | the pattern accepts exactly a non-empty local part of the allowed characters, an at sign and a domain |
| `ValidatorLaws.EmailStoredIff` | backend/src/services/validators.py:66-70 | an input is stored as the address v exactly if v is an address that stands in it, perhaps in capitals, with nothing but spaces around it; v has no capitals |
| `ValidatorLaws.HashStoredIff` | backend/src/services/validators.py:73-77 | the same of a hash of its length |
| `Observables.ObservableService.CreateObservable` | backend/src/services/observables.py:55-105 | appends the normalised row and its entry, or reports the error and changes nothing |
| `Observables.ObservableService.CreateObservablesBulk` | backend/src/services/observables.py:108-120 | creates the items in order and returns the new rows, or ends at the first failure with everything rolled back |
| `Observables.CreationAddsOneRow` | backend/src/services/observables.py:55-105 | a creation succeeds exactly if the case exists and the value is valid, and adds one row with the case, its tenant and what was sent, the value normalised, and one entry about it |
| `Observables.BulkIsAllOrNothing` | backend/src/services/observables.py:108-120 | a bulk request succeeds exactly if every item is valid, and then adds one row and one entry per item, in order |
| `Observables.StoredValuesAreNormalised` | backend/src/services/observables.py:45-105 | after any run each stored value is what the validator made of some input |
| `Observables.StoredFixedPoints` | backend/src/services/validators.py:94-115 | after any run stored e-mails and hashes are fixed points, hashes are lowercase hex, and names are fixed points exactly if they do not end in a newline |
| `Alerts.AlertService.IngestAlert` | backend/src/services/alerts.py:86-143 | returns the pending alert that matches, or adds a new pending one; a duplicate changes nothing |
| `Alerts.AlertService.DismissAlert` | backend/src/services/alerts.py:180-188 | status, reason and the status in the payload, nothing else |
| `Alerts.AlertService.PromoteAlert` | backend/src/services/alerts.py:191-261 | the target case, the observables copied into it, the entry, and the alert's new state, or the error with nothing changed |
| `AlertLaws.HandleObeys` | backend/src/services/alerts.py:86-261 | what every request does to every field of every alert and to the cases: an ingest adds one pending alert unless it repeats one; a dismissal sets its three fields; a promotion succeeds exactly if the alert exists and the given case exists in its tenant, or a title is given for a new one, and then adds exactly the usable observables and the entries to that case |
| `AlertLaws.PromotionErrors` | backend/src/services/alerts.py:198-216 | which error a refused promotion reports |
| `AlertLaws.PromotionsStayInTenant` | backend/src/services/alerts.py:200-210 | no run puts a row into a case of another tenant, and every promoted alert names an existing case of its own |
| `AlertLaws.KeyPrecedence` | backend/src/services/alerts.py:50-62 | an explicit non-empty key decides, then `uid_alt`, then `uid` |
| `AlertLaws.MappableIff` | backend/src/services/alerts.py:355-413 | which observables of a finding can be mapped, to which type, and with which marking |
| `Alerts.DerivedKeyIsNonEmpty` | backend/src/services/alerts.py:50-62 | the derived key is one of the payload's candidates, and never empty for a payload with a uid |
| `Alerts.PendingKeysAreUnique` | backend/src/services/alerts.py:86-143 | in every reachable state there is at most one pending alert per tenant and key |
| `Alerts.IngestFindsDuplicates` | backend/src/services/alerts.py:65-73 | the lookup is never ambiguous, finds an alert exactly if `is_duplicate_payload` holds for one of the tenant, and then nothing changes |
| `Alerts.NeverPendingAgain` | backend/src/services/alerts.py:180-261 | an alert that left the pending state never returns to it |
| `Alerts.PromotionIsBulkOfUsable` | backend/src/services/alerts.py:228-239 | promotion creates exactly what a bulk request for the mappable and valid observables would, which cannot fail |
| `Alerts.PromotionAddsUsable` | backend/src/services/alerts.py:228-239 | so the case gains one row and one `observable_added` entry per usable observable, in order, and nothing else |
| `Alerts.PromotedHashes` | backend/src/services/alerts.py:355-413 | every hash promoted is lowercase hex of the length its OCSF type names |
| `Alerts.HashIsUsableIff` | backend/src/services/alerts.py:378-393 | a hash of a finding is promoted exactly if it is 32, 40 or 64 hex digits with nothing around them, as the type of that length and in lower case |
| `Heatmap.ComputeHeatmapCells` | backend/src/services/attack.py:157-186 | one cell per distinct pair, strictly sorted, with the exact cases, their number and a severity of highest rank |
| `Heatmap.BuildHeatmap` | backend/src/services/attack.py:89-154 | the same of the joined rows that pass the filters |
| `Heatmap.FilteredAre` | backend/src/services/attack.py:99-118 | which joined rows count: the tenant's, within the times, of a case with the severity and the status of the filter |
| `Heatmap.TacticsStandTogether` | backend/src/services/attack.py:152 | the cells of a tactic stand together, with ascending techniques |
| `Heatmap.LexByFirstDifference` | backend/src/services/attack.py:152 | names are ordered by the first character in which they differ, a prefix first |
| `Heatmap.Aggregate` | backend/src/services/attack.py:164-170 | the dictionary holds the sets of cases and of severities of each pair |
| `Heatmap.SeverityDeterminedIff` | backend/src/services/attack.py:80-86 | the maximum is determined exactly if at most one severity of the highest rank occurs |
| `Heatmap.HeatmapOfSameRows` | backend/src/services/attack.py:157-186 | rows in another order, or repeated, give the same cells, up to severities of equal rank |
| `Heatmap.HeatmapOfConcatenation` | backend/src/services/attack.py:157-186 | the heatmap of two lists is the cellwise union of the cases and maximum of the severities |
| `Clustering.FindClusters` | backend/src/services/clustering.py:28-60 | the loop reports the kept runs of the entries in time order |
| `Clustering.KeptReports` | backend/src/services/clustering.py:41-49 | exactly the groups of two or more are reported, with bounds and ids |
| `Clustering.GroupsAreComponents` | backend/src/services/clustering.py:28-60 | the groups are the connected components of "at most the threshold apart", each in time order and separated by more than the threshold |
| `Clustering.ComponentsAreUnique` | backend/src/services/clustering.py:28-60 | the entries determine their components |
| `Clustering.InputOrderIrrelevant` | backend/src/services/clustering.py:36 | whatever order the entries come in, as many clusters are reported, in the same order, with the same bounds, and with the same ids up to their order |
| `Clustering.TiesKeepTheirOrder` | backend/src/services/clustering.py:36 | entries of the same moment stand in their group in input order |
| `Clustering.LargerThresholdCoarsens` | backend/src/services/clustering.py:54 | each group at a threshold lies inside one group at a larger threshold |
| `Clustering.NegativeThresholdReportsNothing` | backend/src/services/clustering.py:54 | a negative threshold reports no cluster |
| `GeoClusters.ClusterPoints` | backend/src/services/geospatial.py:91-122 | every point joins the first group whose centroid at that moment is within the radius, and founds a group otherwise; above zoom 11 all groups are singletons |
| `GeoClusters.FindHome` | backend/src/services/geospatial.py:102-113 | the index of that first group, or that there is none |
| `GeoClusters.GreedyIsDetermined` | backend/src/services/geospatial.py:101-113 | the placement rule leaves no choice |
| `GeoClusters.PlacedKeepsGroups` | backend/src/services/geospatial.py:101-113 | one placement keeps every point in one group, in input order |
| `GeoClusters.IdsConserved` | backend/src/services/geospatial.py:115-122 | every point id is reported as often as it was given |
| `GeoClusters.CentroidInBox` | backend/src/services/geospatial.py:125-128 | a centroid stays inside every box around its members |
| `GeoClusters.CentroidBalances` | backend/src/services/geospatial.py:125-128 | the differences of the members' latitudes, and longitudes, to the centroid sum to zero |
| `GeoClusters.RadiusShrinks` | backend/src/services/geospatial.py:59-88 | the radius strictly shrinks from level to level, and is zero exactly beyond the last |

## Left out

- Concurrency of requests: each request is one step, except in `CaseNumbering`, `RealtimeHub` and `Sessions`. Two moves
  of folders at once, or two ingests at once, are not modelled; nothing in the source serialises them.
- Same-case check of a folder's parent: `update_folder` makes none, so none is claimed; the pane's law holds anyway.
- `delete_case`, and the notes of a deleted folder: visible ones are detached, a hidden one makes the deletion fail.
- `CaseService.Service.MergeCases`: its callers see all cases, as administrators do; to the caller of a tenant, another
  tenant's source is not found, where the model answers that tenants cannot be mixed. The same holds of `PromoteAlert`.
- `FolderTree.BuildFolderTree`: `localeCompare` is a real-valued collation key, and sort orders are integers.
- `InlineMarkdown.RenderInline`: characters stand for UTF-16 code units, and the elements' markup is left out.
- `Presence.PresenceTracker.GetActiveViewers`: returns a set, the order of the sorted set is not modelled; `ZADD` and
  `EXPIRE` are one step, and all instances share one clock.
- `RealtimeHub.NothingMissed`: what a restarting listener missed is lost in the model as it is in Redis; a listener that
  stops amid a delivery drops the rest of it.
- `TenantIsolation.Isolation`: unique indexes besides primary keys are not modelled. Each of them holds the tenant, or the
  case, of the row, so they compare a written row only with rows of the same tenant, which the request sees. Check
  constraints read nothing but the row. Administrators and the owner connection bypass the policies and are outside the
  claim.
- `TenantIsolation.Session.HandleRequest`: a handler issues at most as many statements as an arbitrary limit says, and
  counts as raising beyond it.
- Tables without policies, the creation of the database role, and the downgrade of the migration.
- Signatures and hashes of tokens and passwords, the look-up of the user and its `is_active` flag: tokens are opaque
  values that exist once they were issued, and users are active.
- Normalisers of IP addresses, URLs, file names and registry keys: they rest on libraries and are a parameter.
- Lower-casing outside ASCII: `Lower` changes ASCII letters and the Kelvin sign, the one other character whose lower
  case is an ASCII letter; every other character is rejected by the patterns in either case.
- Templates, tags, custom fields, severities and descriptions of cases; the number of a new case is drawn in
  `CaseNumbering` only; whether an assignee exists.
- `CaseService.ProvenanceIsRecorded`: `update_observable` and `delete_observable` are not among its steps; the former
  changes neither the case nor the value.
- `update_entry`, manual entries' asset links, and the lanes of `build_swimlane`, which only file entries under a key.
- Modules and their event hooks: no module is subscribed.
- Rows that scripts or the seed data insert outside the services.
- `GeoClusters.ClusterPoints`: the distance is an arbitrary function and coordinates are reals, so rounding and the
  haversine formula are not modelled; neither is `normalize_marker`.
- Searches, list filters, dashboards, reports, role checks, storage and background jobs: reading and plumbing.
