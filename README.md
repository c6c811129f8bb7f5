# Hacknation25 discovery engine, modelled in Dafny

Hacknation25 is a city-discovery game. A mobile app shows the city's memorial
locations on a map and follows the device's position. Whenever the player
comes within 50 meters of a location they have not visited yet, the app
announces the discovery with a notification and checks in with the backend.
The backend records the visit and awards one point, at most once per
location. Players sign in under a guest account derived from the name they
type.

This project models the core of that system:

- the backend's check-in, nearest-unvisited and catalogue queries;
- the backend's user queries and its "A Guest" reset script;
- registration and login;
- the optional-authentication middleware and the order in which the
  location routes are registered;
- the app's request interceptor;
- the app's authentication context and login screen;
- the map screen's proximity scan and the background location task.

The store is a `Schema.DbState` value; the mutable store is the
`Schema.Database` class. Each backend handler takes the form its code has:

- the handlers that write (`getLocation`'s check-in, `register` and the
  reset script) are a specification function from the store to the new
  store and the response, plus a method on `Schema.Database` proved to
  follow that function;
- `getNearestUnvisited` and `getAllLocations`, which compute their answer
  step by step, are methods only, each with its result stated in its
  contract;
- the read-only handlers `getMe`, `getVisitedLocations`, `login`,
  `getLocationTimeline` and `getCategories` are functions only.

The app's stateful pieces are each a class:

- `Mobile.SecureStore` for the key/value storage;
- `AuthContext.Session` for the `{user, token, isLoading}` state;
- `LoginScreen.LoginForm`;
- `MapScreen.MapView`;
- `ApiClient.RequestConfig`.

Their methods state their whole new state.

Each side effect of a scan is a value of `Mobile.Effect`: a notification or
a check-in request. A scan returns the sequence of these effects, in the
order it issues them. Each network reply is a parameter of type
`Mobile.Reply`: a body, an HTTP error status, or no response. The following
foreign functions are parameters too:

- distance;
- bcrypt hash and compare;
- JWT sign and verify;
- `JSON.parse` and `JSON.stringify`.

Modules:

- `Wrappers` and `Text` are helpers. `Text` holds the ASCII string
  operations with JavaScript semantics: `trim`, `toLowerCase`, removing
  whitespace, `startsWith` and `split`.
- `Ordering` is insertion sort by an integer key, with a proof that the
  result is sorted and a permutation.
- `Schema` holds the rows, the store and the transaction.
- The other modules follow the source files, one each.

## Model

| member | source | states |
|---|---|---|
| Schema.FindLocation | backend/src/controllers/locationController.ts:39-41 | finds a location with that id; None exactly when no location has it |
| Schema.FindUser | backend/src/controllers/userController.ts:12-14 | finds a user with that id; None exactly when no user has it |
| Schema.FindUserByEmail | backend/src/controllers/authController.ts:60 | finds a user with that email; None exactly when no user has it |
| Schema.FindVisit | backend/src/controllers/locationController.ts:52-59 | finds the visit of that user and location pair; None exactly when the pair has none |
| Schema.AddPoints | backend/src/controllers/locationController.ts:74-81 | the user with that id gains k points and every other row is unchanged |
| Schema.SetPoints | backend/src/scripts/resetAGuest.ts:36-39 | the user with that id gets exactly k points and every other row is unchanged |
| Schema.VisitsOf | backend/src/controllers/userController.ts:37-38 | the visits kept are exactly those of that user |
| Schema.VisitsNotOf | backend/src/scripts/resetAGuest.ts:29-31 | the visits kept are exactly those of other users |
| Schema.VisitsSplit | backend/src/scripts/resetAGuest.ts:29-33 | one user's visits and everyone else's visits together are the whole table, counted with multiplicity |
| Schema.Database.CheckInTransaction | backend/src/controllers/locationController.ts:67-82 | both writes are one atomic step: the visit is appended and the points are added together, or, when the user row is gone, nothing changes |
| LocationController.CheckIn | backend/src/controllers/locationController.ts:35-92 | an unknown id gives 404 and changes nothing; a guest or an already visited pair gets the location with false/0 and changes nothing; a first visit by an existing user answers true/1 with the location, appends exactly that visit and adds exactly 1 point to that user only |
| LocationController.GetLocation | backend/src/controllers/locationController.ts:35-92 | the method leaves the store and gives the answer exactly as CheckIn says |
| LocationController.CheckInIdempotent | backend/src/controllers/locationController.ts:52-61 | a second check-in for the same pair answers false/0 and changes nothing |
| LocationController.RepeatedCheckInAwardsOnce | backend/src/controllers/locationController.ts:52-83 | any number n ≥ 1 of check-ins for one pair leaves the store exactly as one check-in does, so at most one point is awarded |
| LocationController.FirstVisitAwardsExactlyOnePoint | backend/src/controllers/locationController.ts:61-83 | any number n ≥ 1 of check-ins by an existing user at a location not yet visited appends exactly one visit and raises that user's points by exactly 1 |
| LocationController.CheckInTimes_Stable | backend/src/controllers/locationController.ts:52-61 | once a check-in has happened, repeating it any number of times changes nothing |
| LocationController.CheckInPreservesValid | backend/src/controllers/locationController.ts:52-82 | a check-in keeps visits unique per pair and user ids and emails unique |
| LocationController.CheckInMonotonic | backend/src/controllers/locationController.ts:74-81 | a check-in never lowers anybody's points and keeps the user rows in place |
| LocationController.VisitedIds | backend/src/controllers/locationController.ts:127-131 | the listed ids are exactly the locations that user has visited |
| LocationController.LocationsNotIn | backend/src/controllers/locationController.ts:134-138 | keeps exactly the locations whose id is not in the list |
| LocationController.Unvisited | backend/src/controllers/locationController.ts:127-138 | keeps exactly the locations that user has not visited |
| LocationController.GetNearestUnvisited | backend/src/controllers/locationController.ts:114-167 | 401 exactly without a user; 400 exactly when lat or lon is NaN; "All locations visited!" exactly when nothing is unvisited; otherwise an unvisited location whose distance is at most that of every unvisited location, with no earlier candidate at that distance |
| LocationController.Closest | backend/src/controllers/locationController.ts:148-158 | the loop returns a minimum-distance candidate and its distance; with ties it returns the first one, because the comparison is strict |
| LocationController.GetCategories | backend/src/controllers/locationController.ts:204-210 | every category of the enumeration is listed, each once |
| LocationController.ParseCategory | backend/src/controllers/locationController.ts:12 | accepts a string exactly when it names an enumeration member |
| LocationController.CategoryRoundTrip | backend/src/controllers/locationController.ts:12 | the name of every category is accepted as that category |
| LocationController.Summaries | backend/src/controllers/locationController.ts:18-25 | one selected-field record per location, in order |
| LocationController.LocationsWhere | backend/src/controllers/locationController.ts:12-17 | keeps exactly the locations of the category, or all of them without a filter |
| LocationController.GetAllLocations | backend/src/controllers/locationController.ts:8-33 | `results` is the list's length; a valid category gives exactly that category's locations; anything else is ignored and the whole table is listed in order |
| LocationController.WhereNoneIsAll | backend/src/controllers/locationController.ts:10-17 | an empty filter returns the table unchanged |
| LocationController.EventsOf | backend/src/controllers/locationController.ts:172-173 | keeps exactly the location's events |
| LocationController.GetLocationTimeline | backend/src/controllers/locationController.ts:169-182 | exactly the location's events, with multiplicity; years never decrease; `results` is the length |
| Ordering.Insert | backend/src/controllers/locationController.ts:174 | adds one element to a sorted list: the result is sorted and has the old contents plus the new element |
| Ordering.SortBy | backend/src/controllers/locationController.ts:174 | the result is sorted by the key and is a permutation of the input |
| Ordering.SameElements | backend/src/controllers/userController.ts:42 | two lists that are permutations of each other have the same members |
| UserController.GetMe | backend/src/controllers/userController.ts:6-32 | 401 exactly without a user; 404 exactly when no row has that id; otherwise that user's selected fields |
| UserController.WithLocations | backend/src/controllers/userController.ts:39-41 | each visit is paired with its own location, in order |
| UserController.VisitsIn | backend/src/controllers/userController.ts:37-43 | the entries' visits, in order |
| UserController.GetVisitedLocations | backend/src/controllers/userController.ts:34-50 | exactly the visits of the user named by the path, with multiplicity, newest first, each with its location; `results` is the length |
| UserController.EntriesCarryVisits | backend/src/controllers/userController.ts:39-41 | pairing visits with their locations loses no visit and changes no order |
| UserController.NewestFirstOrder | backend/src/controllers/userController.ts:42 | sorting the user's visits keeps only that user's visits and orders them by creation time, descending |
| ResetGuest.FindFirstGuest | backend/src/scripts/resetAGuest.ts:13-18 | the first user named A Guest; None exactly when there is none |
| ResetGuest.Reset | backend/src/scripts/resetAGuest.ts:13-39 | without an A Guest the store is unchanged; the locations, the timeline and the number of users never change, and no visit is created |
| ResetGuest.ResetAGuest | backend/src/scripts/resetAGuest.ts:6-42 | the store after the script is the Reset function of the one before; it reports the user that was reset and the number of deleted visits |
| ResetGuest.ResetWithoutGuest | backend/src/scripts/resetAGuest.ts:20-23 | without an A Guest nothing changes |
| ResetGuest.ResetEffect | backend/src/scripts/resetAGuest.ts:29-39 | afterwards the guest has no visits and 0 points; every other visit and every other user is unchanged |
| ResetGuest.ResetDeletesExactlyGuestVisits | backend/src/scripts/resetAGuest.ts:29-33 | the deleted count is the number of visits the guest had |
| ResetGuest.ResetIdempotent | backend/src/scripts/resetAGuest.ts:13-39 | running the script twice is the same as running it once; the email argument is not an input |
| ResetGuest.FirstGuestAfterSetPoints | backend/src/scripts/resetAGuest.ts:13-39 | zeroing the guest's points keeps the same user first among the guests |
| ResetGuest.VisitsNotOfTwice | backend/src/scripts/resetAGuest.ts:29-31 | deleting the guest's visits a second time deletes nothing |
| ResetGuest.SetPointsTwice | backend/src/scripts/resetAGuest.ts:36-39 | zeroing the points a second time changes nothing |
| AuthController.RegisterSpec | backend/src/controllers/authController.ts:14-51 | 400 exactly when a field is missing or empty; then 400 exactly when the email is taken; both leave the table unchanged; otherwise exactly one row is appended, with the hash of the password, 0 points and the new id, and the token is signed for that id |
| AuthController.Register | backend/src/controllers/authController.ts:14-51 | the method changes the user table exactly as RegisterSpec says and leaves the other tables alone |
| AuthController.RegisterPreservesValid | backend/src/controllers/authController.ts:21-35 | registration keeps ids and emails unique, given a fresh id |
| AuthController.Login | backend/src/controllers/authController.ts:53-81 | 400 exactly when the email or the password is missing; then the same 401 for an unknown email and for a wrong password; otherwise a token for the matching user and that user's stored points |
| AuthController.FindUserByEmailAppend | backend/src/controllers/authController.ts:21-60 | a freshly registered email finds the new row |
| AuthController.RegisterThenLogin | backend/src/controllers/authController.ts:14-81 | after a successful registration, logging in with the same credentials succeeds and reports 0 points |
| LocationRoutes.BearerToken | backend/src/routes/locationRoutes.ts:21 | the second space-separated field exists exactly when the header contains a space |
| LocationRoutes.SplitHasField | backend/src/routes/locationRoutes.ts:21 | `split(' ')` has a second field exactly when the string contains a space |
| LocationRoutes.FirstSpace | backend/src/routes/locationRoutes.ts:21 | the position of the first space |
| LocationRoutes.ResolveUser | backend/src/routes/locationRoutes.ts:19-29 | a user is set exactly when a header is present, starts with "Bearer", its token verifies, the lookup does not fail and the user exists; it is then the verified id |
| LocationRoutes.Request.constructor | backend/src/routes/locationRoutes.ts:18 | a request starts as a guest, with its header |
| LocationRoutes.IsLoggedIn | backend/src/routes/locationRoutes.ts:18-32 | calls `next` exactly once on every path; sets the user only as ResolveUser says and otherwise leaves the request as a guest |
| LocationRoutes.Router.Register | backend/src/routes/locationRoutes.ts:51-166 | a registration is appended to the router's routes, in order |
| LocationRoutes.BuildLocationRouter | backend/src/routes/locationRoutes.ts:16-166 | the built router holds the seven routes in their registration order |
| LocationRoutes.LocationRouteTable | backend/src/routes/locationRoutes.ts:51-166 | seven routes, each with its own handler; the literal GET routes `/categories` (first) and `/nearest-unvisited` behind `protect` (fourth) are registered before GET `/:id` behind `isLoggedIn` (fifth) |
| LocationRoutes.Dispatch | backend/src/routes/locationRoutes.ts:51-166 | an answered route is a registered one that matches the request; no answer means no registered route matches |
| LocationRoutes.DispatchIsFirstMatch | backend/src/routes/locationRoutes.ts:51-166 | dispatch returns the first matching route, and nothing exactly when no route matches |
| LocationRoutes.DispatchSkips | backend/src/routes/locationRoutes.ts:51-166 | routes in front that do not match do not affect dispatch |
| LocationRoutes.SingleSegmentDispatch | backend/src/routes/locationRoutes.ts:51-116 | `/categories` and `/nearest-unvisited` reach their own handlers; every other single segment reaches `getLocation` behind `isLoggedIn` |
| LocationRoutes.GetLocationReachedExactly | backend/src/routes/locationRoutes.ts:51-116 | `getLocation` is reached exactly for one non-empty segment that is not a reserved name |
| LocationRoutes.GetLocationNeedsOneSegment | backend/src/routes/locationRoutes.ts:116-134 | no other path reaches `getLocation` |
| LocationRoutes.MatchesOneSegment | backend/src/routes/locationRoutes.ts:116 | a one-segment pattern matches a one-segment path exactly when its verb and segment match |
| LocationRoutes.OnlyOneGetLocation | backend/src/routes/locationRoutes.ts:116 | `getLocation` is registered once |
| LocationRoutes.OrderMatters | backend/src/routes/locationRoutes.ts:51-116 | were `/:id` registered first, `/categories` would reach `getLocation` |
| Mobile.TruthyStoredItem | frontend/mobile-app/src/api/client.ts:18-19 | a stored item tests truthy exactly when it is present and not empty; null and "" are both falsy |
| Mobile.SecureStore.SetItem | frontend/mobile-app/src/context/AuthContext.tsx:44-45 | only that key changes, to the value |
| Mobile.SecureStore.DeleteItem | frontend/mobile-app/src/context/AuthContext.tsx:50-51 | only that key is removed |
| ApiClient.BearerHeader | frontend/mobile-app/src/api/client.ts:20 | the header starts with "Bearer " (so also with "Bearer"), and the rest is exactly the token |
| ApiClient.RequestConfig.constructor | frontend/mobile-app/src/api/client.ts:17 | a configuration holds its URL and headers |
| ApiClient.Intercept | frontend/mobile-app/src/api/client.ts:17-23 | a failing storage read rejects the request, and only then is no config returned; otherwise the same config is returned; its Authorization header is set exactly when the read succeeds and a truthy token is stored, and every other field is unchanged |
| ApiClient.BearerRoundTrip | frontend/mobile-app/src/api/client.ts:20 | for a token without spaces, the backend's parsing of the header gives back the token (backend/src/routes/locationRoutes.ts:19-21) |
| ApiClient.TokenWithSpaceIsCut | frontend/mobile-app/src/api/client.ts:20 | every token containing a space comes back cut at its first space |
| ApiClient.ClientHeaderAuthenticates | frontend/mobile-app/src/api/client.ts:20 | a header built by the client authenticates exactly when its token verifies to an existing user (backend/src/routes/locationRoutes.ts:19-26) |
| AuthContext.Restored | frontend/mobile-app/src/context/AuthContext.tsx:22-41 | the state is settled; a token and a user are held exactly when both are stored, truthy and parse, and storage does not fail; otherwise both are null |
| AuthContext.Refreshed | frontend/mobile-app/src/context/AuthContext.tsx:59-73 | the token and the loading flag are kept; the user is replaced exactly when storage does not fail, a truthy token is stored and the reply carries a user; a storage failure changes nothing; a settled state with a token stays settled |
| AuthContext.Session.constructor | frontend/mobile-app/src/context/AuthContext.tsx:16-20 | the initial state is a null user, a null token and loading |
| AuthContext.Session.RestoreToken | frontend/mobile-app/src/context/AuthContext.tsx:22-41 | the new state is Restored of what is stored, and it is settled |
| AuthContext.Session.SignIn | frontend/mobile-app/src/context/AuthContext.tsx:43-47 | both keys are stored and the state equals the arguments, not loading |
| AuthContext.Session.SignOut | frontend/mobile-app/src/context/AuthContext.tsx:49-53 | both keys are deleted and the state is cleared, not loading |
| AuthContext.Session.RefreshUser | frontend/mobile-app/src/context/AuthContext.tsx:59-73 | the state is Refreshed of the old one; the stored user is rewritten exactly when storage does not fail, a truthy token is stored and the reply carries a user, and otherwise the storage is unchanged |
| AuthContext.SignInThenRestore | frontend/mobile-app/src/context/AuthContext.tsx:22-47 | restoring after a sign-in gives back the signed-in token and user |
| AuthContext.SignOutThenRestore | frontend/mobile-app/src/context/AuthContext.tsx:22-53 | restoring after a sign-out gives the signed-out state |
| LoginScreen.NormalizedName | frontend/mobile-app/src/screens/LoginScreen.tsx:24 | the derived name holds no whitespace and no upper-case letter |
| LoginScreen.DerivedEmail | frontend/mobile-app/src/screens/LoginScreen.tsx:24-25 | the email's local part is exactly the derived name, and it is followed by exactly "@hacknation.test" |
| LoginScreen.NormalizedNameIdempotent | frontend/mobile-app/src/screens/LoginScreen.tsx:24 | deriving the name again from the derived name changes nothing |
| LoginScreen.EmailIgnoresCase | frontend/mobile-app/src/screens/LoginScreen.tsx:24-25 | names that differ only in letter case give the same email |
| LoginScreen.EmailIgnoresWhitespace | frontend/mobile-app/src/screens/LoginScreen.tsx:24-25 | inserting a whitespace character anywhere in the name does not change the email |
| LoginScreen.NameAcceptedIffNonEmptyLocalPart | frontend/mobile-app/src/screens/LoginScreen.tsx:15-25 | the name passes the blank check exactly when the email's local part is not empty |
| LoginScreen.Failure | frontend/mobile-app/src/screens/LoginScreen.tsx:52-59 | an HTTP error, and only an HTTP error, ends in the server-error alert with its status; no response ends in the "could not access" alert |
| LoginScreen.LoginFlow | frontend/mobile-app/src/screens/LoginScreen.tsx:14-63 | a blank name sends nothing; login comes first; registration, with the typed name as first name, follows exactly a 400, 401 or 404; a second, identical login follows exactly a registration without a token; the session is signed in with the token and user of the reply that succeeds; a failed first login, registration or fallback login ends in that reply's alert |
| LoginScreen.LoginForm.constructor | frontend/mobile-app/src/screens/LoginScreen.tsx:11-12 | the form starts empty and not loading |
| LoginScreen.LoginForm.SetUsername | frontend/mobile-app/src/screens/LoginScreen.tsx:12 | only the username changes |
| LoginScreen.LoginForm.HandleLogin | frontend/mobile-app/src/screens/LoginScreen.tsx:14-63 | sends the requests of LoginFlow; signs the session in exactly when the outcome is a sign-in, otherwise leaves it and the storage alone; loading is false after every attempt and untouched by the early return |
| LoginScreen.Attempt | frontend/mobile-app/src/screens/LoginScreen.tsx:20-51 | the try block's requests and outcome are those of LoginFlow, for a name that is not blank |
| LoginScreen.LoginReply | backend/src/controllers/authController.ts:53-81 | the backend's login answer as the screen receives it; a wrong password is a 401 |
| LoginScreen.RegisterReply | backend/src/controllers/authController.ts:14-51 | the backend's registration answer as the screen receives it; it always carries a token and never the points |
| LoginScreen.NewNameRegisters | frontend/mobile-app/src/screens/LoginScreen.tsx:33-42 | a new name is refused with 401, registered, and signed in with the new account's token after two requests |
| LoginScreen.KnownNameLogsIn | frontend/mobile-app/src/screens/LoginScreen.tsx:33-36 | a registered name signs in with one request and the account's points |
| LoginScreen.NameAEmail | frontend/mobile-app/src/screens/LoginScreen.tsx:24-25 | the name "A" is the account a@hacknation.test |
| LoginScreen.NameAIsTheGuest | frontend/mobile-app/src/screens/LoginScreen.tsx:27-40 | registering the name "A" creates a row that the reset script selects (backend/src/scripts/resetAGuest.ts:13-18) |
| MapScreen.Discoveries | frontend/mobile-app/src/screens/MapScreen.tsx:97-107 | no more discoveries than catalogue entries; each is a catalogue entry that is not in the visited snapshot and is closer than 50 m |
| MapScreen.DiscoveriesMembers | frontend/mobile-app/src/screens/MapScreen.tsx:97-107 | a location is discovered exactly when it is in the catalogue, not in the visited snapshot, and closer than 50 m |
| MapScreen.Announcements | frontend/mobile-app/src/screens/MapScreen.tsx:112-119 | one notification per discovery, in order, naming it |
| MapScreen.CheckIns | frontend/mobile-app/src/screens/MapScreen.tsx:122-126 | one check-in request per discovery, in order |
| MapScreen.MapView.constructor | frontend/mobile-app/src/screens/MapScreen.tsx:41-42 | the screen starts with no locations and no visited ids |
| MapScreen.MapView.LoadData | frontend/mobile-app/src/screens/MapScreen.tsx:67-91 | the catalogue replaces the locations when it arrives; with a signed-in user and an array reply, the visited ids become exactly the rows' location ids; any failure keeps what was held |
| MapScreen.MapView.Scan | frontend/mobile-app/src/screens/MapScreen.tsx:95-128 | the scan's effects are all the discoveries' notifications, then all their check-ins; the visited ids grow by exactly the discovered ids |
| MapScreen.MapView.WatcherCallback | frontend/mobile-app/src/screens/MapScreen.tsx:46-95 | the callback the watcher actually calls does nothing and changes nothing |
| MapScreen.MapView.CheckProximity | frontend/mobile-app/src/screens/MapScreen.tsx:94-129 | a scan of the screen's current locations against its current visited ids |
| MapScreen.IdsOf | frontend/mobile-app/src/screens/MapScreen.tsx:109 | every discovery's id is marked, and no more ids than discoveries |
| MapScreen.ScanEffects | frontend/mobile-app/src/screens/MapScreen.tsx:109-126 | twice as many effects as discoveries: first each discovery's notification, in order, then each discovery's check-in, in order |
| MapScreen.LocationIdsOf | frontend/mobile-app/src/screens/MapScreen.tsx:80 | an id is in the visited set exactly when some row carries it as its location id |
| MapScreen.DiscoveriesStep | frontend/mobile-app/src/screens/MapScreen.tsx:97-107 | one more catalogue entry adds exactly that entry when it is undiscovered and in range |
| MapScreen.ScanStep | frontend/mobile-app/src/screens/MapScreen.tsx:97-126 | one more catalogue entry adds its notification, its check-in and its id when it is undiscovered and in range, and nothing otherwise |
| MapScreen.EffectsStep | frontend/mobile-app/src/screens/MapScreen.tsx:109-126 | one more discovery adds its notification, its check-in and its id |
| MapScreen.IdsOfMembers | frontend/mobile-app/src/screens/MapScreen.tsx:109 | the marked ids are exactly the discoveries' ids |
| MapScreen.DiscoveriesDistinct | frontend/mobile-app/src/screens/MapScreen.tsx:97 | a catalogue with distinct ids gives discoveries with distinct ids |
| MapScreen.DistinctPrefix | frontend/mobile-app/src/screens/MapScreen.tsx:97 | all but the last of distinct discoveries are distinct and differ from the last |
| MapScreen.AnnouncedOnce | frontend/mobile-app/src/screens/MapScreen.tsx:112-126 | each discovery is announced exactly once and checked in exactly once |
| MapScreen.NeverAnnounced | frontend/mobile-app/src/screens/MapScreen.tsx:99-107 | a location that is not among the discoveries is never announced or checked in |
| MapScreen.DiscoveredExactlyOnce | frontend/mobile-app/src/screens/MapScreen.tsx:97-127 | each catalogue entry gets one notification and one check-in exactly when it is unvisited and within 50 m, and none otherwise |
| MapScreen.NoRepeatedDiscovery | frontend/mobile-app/src/screens/MapScreen.tsx:99-109 | once marked, a location is not discovered again by a later update |
| MapScreen.StaleWatcherMissesDiscovery | frontend/mobile-app/src/screens/MapScreen.tsx:46-95 | standing on a location, the current state's scan announces it and checks in, while the mounted state's scan does nothing |
| MapScreen.ServerRows | frontend/mobile-app/src/screens/MapScreen.tsx:77-80 | the visited list's rows, as the screen reads them, carry each visit's location id |
| MapScreen.RowIdsAreVisitIds | frontend/mobile-app/src/screens/MapScreen.tsx:75-80 | the ids loaded from the rows are exactly the listed visits' location ids |
| MapScreen.RowIdIsVisitId | frontend/mobile-app/src/screens/MapScreen.tsx:80 | every loaded id comes from a listed visit |
| MapScreen.VisitIdIsRowId | frontend/mobile-app/src/screens/MapScreen.tsx:80 | every listed visit's location id is loaded |
| MapScreen.LoadedIdsAreServerVisits | frontend/mobile-app/src/screens/MapScreen.tsx:75-80 | the ids the screen loads are exactly the locations the backend holds a visit for (backend/src/controllers/userController.ts:34-50) |
| LocationTask.KeysOf | frontend/mobile-app/src/services/LocationTask.ts:64 | every row's key is collected |
| LocationTask.KeysOfOnlyKeys | frontend/mobile-app/src/services/LocationTask.ts:64 | every collected key is some row's key |
| LocationTask.SameVisitedAsMapScreen | frontend/mobile-app/src/services/LocationTask.ts:64 | with a location id on every row, the task collects the same set as the map screen (frontend/mobile-app/src/screens/MapScreen.tsx:80) |
| LocationTask.StoredVisited | frontend/mobile-app/src/services/LocationTask.ts:54-68 | empty without a truthy stored user, on a failed reply and on a reply that is not an array; otherwise every row's key is in it |
| LocationTask.Interleaved | frontend/mobile-app/src/services/LocationTask.ts:80-103 | two effects per discovery with a token, one without |
| LocationTask.InterleavedShape | frontend/mobile-app/src/services/LocationTask.ts:80-103 | with a token, each discovery gives its check-in and then its notification; without one, only the notifications |
| LocationTask.TaskEffects | frontend/mobile-app/src/services/LocationTask.ts:34-110 | nothing happens on an error, without fixes, without a first fix, when reading the stored token or user fails, without the catalogue, or on an unreadable stored user; without a token only notifications are sent; otherwise the effects are the interleaving of the check-ins (with a token) and notifications of the discoveries, at the first fix, among the locations not in the stored visited set |
| LocationTask.TaskAnnouncesDiscoveries | frontend/mobile-app/src/services/LocationTask.ts:71-105 | when the task runs and its storage reads succeed, it notifies exactly the map screen's notifications, in order, and sends the map screen's check-ins with a token and none without one (frontend/mobile-app/src/screens/MapScreen.tsx:109-126), provided geolib's distance and the screen's haversine decide `< 50` alike |
| MapScreen.DiscoveriesSameDecision | frontend/mobile-app/src/screens/MapScreen.tsx:97-107 | two distance functions that decide `< 50` alike discover the same locations |
| LocationTask.KeysStep | frontend/mobile-app/src/services/LocationTask.ts:64 | one more row adds exactly its key, if it has one |
| LocationTask.InterleavedStep | frontend/mobile-app/src/services/LocationTask.ts:80-103 | one more discovery adds its check-in, with a token, then its notification |
| LocationTask.RunTask | frontend/mobile-app/src/services/LocationTask.ts:34-110 | the task's effects are TaskEffects of the stored token and user, and none when reading them fails |
| LocationTask.CollectVisited | frontend/mobile-app/src/services/LocationTask.ts:54-68 | the loop collects exactly the rows' keys |
| LocationTask.ScanCatalogue | frontend/mobile-app/src/services/LocationTask.ts:71-105 | the loop skips visited and distant locations, and gives the discoveries' effects in order |
| LocationTask.NotificationsConcat | frontend/mobile-app/src/services/LocationTask.ts:91-103 | picking out the notifications distributes over concatenation |
| LocationTask.RequestsConcat | frontend/mobile-app/src/services/LocationTask.ts:82-89 | picking out the check-ins distributes over concatenation |
| LocationTask.SameNotifications | frontend/mobile-app/src/services/LocationTask.ts:80-103 | with or without a token, the task notifies exactly as the map screen would, in the same order (frontend/mobile-app/src/screens/MapScreen.tsx:112-119) |
| LocationTask.SameRequests | frontend/mobile-app/src/services/LocationTask.ts:82-89 | the task sends the map screen's check-ins with a token, and none without one |
| LocationTask.SingleEffects | frontend/mobile-app/src/services/LocationTask.ts:82-103 | a notification is a notification and not a request, and a check-in the reverse |
| LocationTask.OnlyFirstFixCounts | frontend/mobile-app/src/services/LocationTask.ts:41 | only the first fix of the batch decides the effects |
| Text.Split | backend/src/routes/locationRoutes.ts:21 | `split` always gives at least one field |
| Text.SplitAtFirst | backend/src/routes/locationRoutes.ts:21 | a split at the first separator gives the text before it, then the split of the rest |
| Text.SplitNoSeparator | backend/src/routes/locationRoutes.ts:21 | without a separator the string is its only field |
| Text.ToLower | frontend/mobile-app/src/screens/LoginScreen.tsx:24 | same length, and each character is lowered on its own |
| Text.RemoveSpaces | frontend/mobile-app/src/screens/LoginScreen.tsx:24 | never longer, and every non-whitespace character of the input is kept |
| Text.TrimStart | frontend/mobile-app/src/screens/LoginScreen.tsx:24 | a suffix of the input; everything cut is whitespace; it does not start with whitespace |
| Text.TrimEnd | frontend/mobile-app/src/screens/LoginScreen.tsx:24 | a prefix of the input; everything cut is whitespace; it does not end with whitespace |
| Text.Trim | frontend/mobile-app/src/screens/LoginScreen.tsx:15 | never longer, and a non-empty result starts and ends with a non-whitespace character |
| Text.StartsWithIffPrefix | backend/src/routes/locationRoutes.ts:19 | `startsWith(p)` holds exactly when the string is `p` followed by something |
| Text.RemoveSpacesHasNoSpace | frontend/mobile-app/src/screens/LoginScreen.tsx:24 | removing whitespace leaves none |
| Text.TrimEmptyIffAllSpace | frontend/mobile-app/src/screens/LoginScreen.tsx:15 | a name trims to empty exactly when it is all whitespace |
| Text.RemoveSpacesEmptyIffAllSpace | frontend/mobile-app/src/screens/LoginScreen.tsx:24 | removing whitespace gives the empty string exactly when the name is all whitespace |

## Left out

- Prisma, bcrypt, jsonwebtoken, axios, expo-secure-store, `JSON.parse` and
  `JSON.stringify` are not modelled. Each is a store operation, a reply
  parameter or a function parameter.
- `jwt.verify` throws on a bad token. This is a `verify` function that can
  return None.
- A failing user lookup in `isLoggedIn` is the flag `lookupFails`.
- The 90-day token expiry is not modelled.
- Distances are not computed, because they are floating-point
  trigonometry. Each distance function is a parameter of its own: the map
  screen's and the backend's haversine, and geolib's `getDistance` in the
  background task, which is a different formula and rounds to whole
  metres. The only comparisons made are `< 50` and the strict `<` of the
  nearest search.
- LocationTask.TaskAnnouncesDiscoveries: the agreement between the
  background task and the map screen is proved only for distance functions
  that decide `< 50` alike. Near the 50 m boundary the two formulas can
  disagree, and then one of the two discovers a location that the other
  does not.
- `parseFloat` is an optional real, where `None` stands for NaN. Infinite
  coordinates are not distinguished.
- Concurrency is not modelled:
  - two check-ins racing between the read and the transaction;
  - the `forEach(async …)` callbacks of the map screen running
    concurrently;
  - React's batching of state updates.
- MapScreen.MapView.Scan: the map screen's scan is modelled as issuing all of its
  notifications in catalogue order, then all of its check-ins. This is the
  order in which the callbacks reach their first and second `await`.
- The React render cycle is not modelled. The position watcher is modelled
  only for the state its callback captures at mount; see Findings.
- Sampling intervals, accuracy settings, permission requests and the
  background-task registration are not modelled. They are configuration and
  I/O. A refused permission means the watcher never starts.
- A failing `scheduleNotificationAsync` is not modelled. It would end the
  background task's loop early (through the outer catch) and would leave
  the map screen's callback without its check-in.
- Storage failures are not modelled in `signIn` and `signOut`. They are
  modelled, as the flag `storageFails`, in `restoreToken`, in `refreshUser`
  (its read or its write fails, and the catch leaves everything unchanged)
  in the request interceptor (its read fails and the request is
  rejected before it is sent) and in the background task (reading the
  token or the user fails, and the outer catch ends the run with no
  effect). A failed write is modelled as writing
  nothing.
- A stored user string that parses to `null` is treated like one that does
  not parse.
- `restoreToken` does not validate the token with the backend, and neither
  does the model.
- `refreshUser` is not called by any of the modelled screens. It is
  modelled on its own.
- `trim`, `toLowerCase` and `\s` are restricted to ASCII. The Unicode
  whitespace and case tables are not modelled.
- Express path matching is modelled on `/`-separated segments, with
  literal segments compared ignoring ASCII case, as Express does by
  default. Trailing slashes, URL decoding and Unicode case folding are not
  modelled.
- `createLocation`, `addTimelineEvent`, `signToken`'s options, `seed.ts`,
  the `protect` middleware, the `app.ts` wiring, and the UI screens and
  components are not part of this model. They are plain inserts, wiring,
  or presentation.
- LoginScreen.Failure: the alert's message text (`e.response.data.message
  || e.message`) is not modelled, only its status.
- LocationController.Closest: stated over the values of the distance
  parameter, since the haversine arithmetic is not modelled.
- Schema.Database.CheckInTransaction: the transaction's rollback, when the
  user row was deleted after the visit was read, is modelled as no change.
  The store error reaches the caller as `StoreError` (an error handled by
  `catchAsync`).

## Findings

| source | as written | input that shows it | evidently intended | confidence | as-written member | corrected member |
|---|---|---|---|---|---|---|
| frontend/mobile-app/src/screens/MapScreen.tsx:46-95 | the position watcher is registered once, by an effect with no dependencies. Its callback is therefore the first render's `checkProximity`, whose `locations` is the initial `[]`. The scan always returns at line 95, so the foreground screen never announces or checks in anything | the catalogue has loaded one location `l`, and the device stands at `l.position` | every position update scans the locations and visited ids the screen currently holds | not executed | MapScreen.MapView.WatcherCallback, MapScreen.StaleWatcherMissesDiscovery | MapScreen.MapView.CheckProximity, MapScreen.DiscoveredExactlyOnce |

The rest of the model uses `CheckProximity`. The background task in
`LocationTask.ts` does not have this defect, because it fetches its data on
every run.
