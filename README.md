# alumni_connect in Dafny

This project models the logic of alumni_connect, a role-based alumni, faculty and admin web app. It covers five parts:

- **Event store.** `createEvent`, `getEvents` and `showInterest`. The interest toggle removes every occurrence of the caller from `interestedUsers`, or appends the caller at the end.
- **User collection.** The admin handlers: add faculty or alumni only when the email is unused, list users by role, admin login, delete by id *and* role, and choose mail recipients.
- **User and Event records.** The role enum, the required paths, the optional profile sections, and the password hook.
- **Profile pages.** The pure front-end helpers: the profile-object updates, the comma-list and newline-list codecs, the shallow merge on load, `getInitials`, the array-field editor, and the three search filters with the interested count.
- **Login page and auth context.** How the login request is chosen and how its reply is handled, and the mirroring of the signed-in user into localStorage, including a proved JSON round trip.

Stores are in memory:

- The event collection is a class over a map from event id to event, plus the insertion order.
- The user collection is a class over a sequence of users in storage order.
- localStorage is a class over a string map.

Ids are ints. Dates and clock readings are ints passed in as parameters. What the server answered is a parameter of the login page too. The welcome mail has no effect on any answer. Its sender (`alumni_connect/backend/utils/emailService.js:26-31`) catches and logs every delivery error, so `addFaculty`, `addAlumni` and `sendMail` never fail because of the mail.

Modules, one file each:

- `Wrappers`, `Seqs` (filter, positions, first index), `Text` (ASCII case mapping, `includes`, `trim`, `split`, `join`);
- `UserModel`, `EventModel`, `EventController`, `AdminController`;
- `ProfileDoc`, `ProfileEditor`, `FacultyProfile`, `AlumniProfile`;
- `Directory`, `AlumniList`, `FacultyList`, `ViewAlumni`;
- `Json`, `AuthContext`, `Login`.

Where a written description of the system and the code disagree, the model follows the code:

- The event handlers do no expiry pruning on listing and no visibility filtering by creator or date.
- The event handlers do no role or ownership checks.
- There is no update, delete or fetch-by-id of events.
- A validation failure answers 500, not 400.
- `getEvents` returns every stored event in storage order, unsorted.

## Model

| member | source | states |
|---|---|---|
| EventModel.MissingPaths | alumni_connect/backend/models/Event.js:4-24 | lists a path exactly when that required path is missing or empty |
| EventModel.Create | alumni_connect/backend/models/Event.js:3-31 | fails exactly when a required path is missing, and then lists the missing paths. On success it copies the fields, starts with no interested users, and sets both timestamps to the creation time |
| EventController.Toggle | alumni_connect/backend/controllers/eventController.js:38-45 | flips the caller's membership and keeps every other id's membership. An absent caller is appended once at the end. A present caller has every occurrence removed, with the remaining ids kept in order |
| EventController.ToggleKeepsNoDup | alumni_connect/backend/controllers/eventController.js:38-45 | a duplicate-free list stays duplicate-free |
| EventController.ToggleTwiceRestores | alumni_connect/backend/controllers/eventController.js:38-45 | toggling twice from "not interested" gives back the original list |
| EventController.ToggleTwiceMovesToEnd | alumni_connect/backend/controllers/eventController.js:38-45 | toggling twice from "interested" moves the caller to the end of the list |
| EventController.DraftFor | alumni_connect/backend/controllers/eventController.js:6-13 | the creator is the authenticated caller. The four fields come from the body, and the body's own `createdBy` is ignored |
| EventController.Populate | alumni_connect/backend/controllers/eventController.js:23 | the creator becomes `{_id, name}` when the user exists, and null otherwise |
| EventController.EventStore.constructor | alumni_connect/backend/models/Event.js:33 | an empty, valid store |
| EventController.ToggleKeepsInvariant | alumni_connect/backend/controllers/eventController.js:38-47 | toggling one user in a stored event keeps the store invariant, including that no interested list names a user twice |
| EventController.EventStore.CreateEvent | alumni_connect/backend/controllers/eventController.js:4-18 | on success (201) stores the created event at the end of the order. On a validation failure (500) nothing changes. The store invariant is kept |
| EventController.EventStore.GetEvents | alumni_connect/backend/controllers/eventController.js:21-28 | every stored event, once each in storage order, with its creator populated; nothing is filtered |
| EventController.EventStore.ShowInterest | alumni_connect/backend/controllers/eventController.js:31-52 | a malformed id (500) or an unknown id (404) leaves the store unchanged. Otherwise only that event's `interestedUsers` (toggled) and `updatedAt` change |
| UserModel.ParseRole | alumni_connect/backend/models/User.js:18-22 | accepts exactly "admin", "faculty" and "alumni" |
| UserModel.RoleNameRoundTrip | alumni_connect/backend/models/User.js:18-22 | every role's stored name is accepted and read back as that role |
| UserModel.MissingPaths | alumni_connect/backend/models/User.js:5-17 | lists name, email or password exactly when that path is missing or empty |
| UserModel.Create | alumni_connect/backend/models/User.js:4-60 | fails exactly when a required path is missing. On success it copies name, email, role and profile, and afterwards exactly the given password matches. The hook as written runs with the password counted as modified |
| UserModel.PreSaveAsWritten | alumni_connect/backend/models/User.js:54-60 | the hook as written hashes the stored password again on every save |
| UserModel.ResaveLocksOut | alumni_connect/backend/models/User.js:54-64 | after the hook as written runs on a save that did not touch the password, the user's own password no longer matches |
| UserModel.HooksAgreeOnModified | alumni_connect/backend/models/User.js:54-60 | on a modified password, as on a new document, the hook as written and the intended hook give the same user |
| UserModel.PreSave | alumni_connect/backend/models/User.js:54-60 | the intended hook hashes only a modified password and leaves the user alone otherwise |
| UserModel.ResaveKeepsLogin | alumni_connect/backend/models/User.js:54-64 | under the intended hook, a save that does not touch the password keeps every login |
| AdminController.PublicView | alumni_connect/backend/controllers/adminController.js:82 | the listed user has every field except the password |
| AdminController.FacultyDraft | alumni_connect/backend/controllers/adminController.js:16-26 | role faculty; the department goes under `basicInfo`; no other section is set |
| AdminController.AlumniDraft | alumni_connect/backend/controllers/adminController.js:51-64 | role alumni; the department goes under `basicInfo` and the graduation year under `academic` |
| AdminController.EmailTakenMeans | alumni_connect/backend/controllers/adminController.js:11-12 | the duplicate check fires exactly when some stored user has the given email |
| AdminController.LoginKey | alumni_connect/backend/controllers/adminController.js:106 | `email \|\| username`: an empty or missing email falls back to the username |
| AdminController.FindAdmin | alumni_connect/backend/controllers/adminController.js:105-108 | finds only a stored admin whose email is the key, and finds one whenever such an admin exists |
| AdminController.AdminLogin | alumni_connect/backend/controllers/adminController.js:100-138 | logs in exactly when the admin is found and the password matches, answering with the admin's fields and the claims `{id, role}`. An unknown admin or a wrong password answers 401, and only those do. A missing password answers 500 |
| AdminController.AdminLoginExact | alumni_connect/backend/controllers/adminController.js:105-119 | when emails are unique, login succeeds exactly when some admin holds the key as email and the password matches |
| AdminController.NonAdminRejected | alumni_connect/backend/controllers/adminController.js:105-113 | a user whose role is not admin always gets 401 |
| AdminController.Listing | alumni_connect/backend/controllers/adminController.js:82 | the users with that role, in storage order, without passwords |
| AdminController.ListingIsExact | alumni_connect/backend/controllers/adminController.js:92 | every user of the role is listed, and only users of that role |
| AdminController.Recipients | alumni_connect/backend/controllers/adminController.js:180-182 | the emails of the targeted users, in storage order |
| AdminController.RecipientsAll | alumni_connect/backend/controllers/adminController.js:181 | 'all' reaches every user |
| AdminController.RecipientsOfRole | alumni_connect/backend/controllers/adminController.js:181 | a role's name reaches exactly the users with that role |
| AdminController.RecipientsOfUnknown | alumni_connect/backend/controllers/adminController.js:181 | any other value, a missing one included, reaches nobody |
| AdminController.UserTable.constructor | alumni_connect/backend/models/User.js:66 | an empty, valid table |
| AdminController.UserTable.Add | alumni_connect/backend/controllers/adminController.js:11-35 | the shared step of both add handlers, keeping unique ids and emails |
| AdminController.UserTable.AddFaculty | alumni_connect/backend/controllers/adminController.js:7-39 | a taken email answers 400 "Faculty already exists" and nothing is added. A validation failure answers 500 and nothing is added. Otherwise the faculty is appended and the answer is 201 with id, name, email and role |
| AdminController.UserTable.AddAlumni | alumni_connect/backend/controllers/adminController.js:42-77 | the same for alumni, with "Alumni already exists" |
| AdminController.AddAddsOneOrNothing | alumni_connect/backend/controllers/adminController.js:11-35 | a taken email adds nothing. A 201 appends exactly one user holding the draft's role, profile and email. Every other answer leaves the table as it was |
| AdminController.UserTable.GetAllFaculty | alumni_connect/backend/controllers/adminController.js:80-87 | answers the faculty listing and leaves the table unchanged |
| AdminController.UserTable.GetAllAlumni | alumni_connect/backend/controllers/adminController.js:90-97 | answers the alumni listing and leaves the table unchanged |
| AdminController.UserTable.Login | alumni_connect/backend/controllers/adminController.js:100-138 | answers the login decision and leaves the table unchanged |
| AdminController.UserTable.RemoveWithRole | alumni_connect/backend/controllers/adminController.js:143-152 | a malformed id answers 500 and a non-matching id or role 404, both with the table kept. Otherwise exactly the first user with that id and role is removed |
| AdminController.UserTable.RemoveFaculty | alumni_connect/backend/controllers/adminController.js:141-156 | the delete with role faculty and the "Faculty …" messages |
| AdminController.UserTable.RemoveAlumni | alumni_connect/backend/controllers/adminController.js:159-174 | the delete with role alumni and the "Alumni …" messages |
| AdminController.RemoveKeepsInvariant | alumni_connect/backend/models/User.js:5-13 | deleting one stored user keeps emails and ids unique and every stored user well formed |
| AdminController.RemoveTakesExactlyOne | alumni_connect/backend/controllers/adminController.js:143-152 | when ids are unique, a successful removal shortens the table by one and removes exactly the user with that id |
| AdminController.RemoveWrongRoleIsNotFound | alumni_connect/backend/controllers/adminController.js:143-150 | an id of the other role answers 404 and the table is kept |
| AdminController.UserTable.SendMail | alumni_connect/backend/controllers/adminController.js:177-194 | answers the selected recipients and 200, whatever the delivery outcome |
| Seqs.Filter | alumni_connect/backend/controllers/eventController.js:40-42 | the kept elements are exactly the elements the predicate accepts |
| Seqs.Positions | alumni_connect/frontend/src/pages/admin/AlumniList.jsx:47-51 | the ascending list of every accepted index |
| Seqs.FilterSelectsInOrder | alumni_connect/frontend/src/pages/admin/AlumniList.jsx:47-51 | filtering keeps the accepted elements in their original order and adds nothing |
| Seqs.FilterAppend | alumni_connect/backend/controllers/eventController.js:40-44 | filtering distributes over concatenation |
| Seqs.FilterAllKept | alumni_connect/backend/controllers/eventController.js:40-42 | a filter that accepts everything is the identity |
| Seqs.FilterNoDup | alumni_connect/backend/controllers/eventController.js:40-42 | filtering keeps a list duplicate-free |
| Seqs.FirstIndex | alumni_connect/backend/controllers/adminController.js:11 | `findOne`: the first accepted position, or none when nothing is accepted |
| Text.Includes | alumni_connect/frontend/src/pages/admin/AlumniList.jsx:48 | true exactly when the needle occurs at some position |
| Text.TrimStart | alumni_connect/frontend/src/components/ProfileEditor.jsx:92 | drops exactly the leading white space |
| Text.TrimEnd | alumni_connect/frontend/src/components/ProfileEditor.jsx:92 | drops exactly the trailing white space |
| Text.Trim | alumni_connect/frontend/src/components/ProfileEditor.jsx:92 | a contiguous core with no outer white space, such that everything around it is white space |
| Text.TrimSubset | alumni_connect/frontend/src/components/ProfileEditor.jsx:204 | trimming introduces no character |
| Text.Split | alumni_connect/frontend/src/components/ProfileEditor.jsx:204 | at least one piece, and no piece contains the separator |
| Text.JoinSplit | alumni_connect/frontend/src/pages/faculty/FacultyProfile.jsx:174-179 | joining the pieces with the separator gives back the text |
| Text.SplitJoin | alumni_connect/frontend/src/pages/faculty/FacultyProfile.jsx:174-179 | splitting a join of separator-free pieces gives back the pieces |
| ProfileDoc.SetField | alumni_connect/frontend/src/components/ProfileEditor.jsx:66-74 | `handleChange`: one field of one section takes the new value, and every other field and section is unchanged |
| ProfileDoc.Merge | alumni_connect/frontend/src/pages/faculty/FacultyProfile.jsx:37 | loaded sections replace previous ones wholesale, and the others are kept |
| ProfileDoc.MergeIsShallow | alumni_connect/frontend/src/pages/faculty/FacultyProfile.jsx:37 | a default field absent from a loaded section is lost |
| ProfileDoc.LoadProfile | alumni_connect/frontend/src/pages/faculty/FacultyProfile.jsx:35-39 | no stored profile leaves the state as it was; a stored profile is merged shallowly |
| ProfileDoc.AfterSave | alumni_connect/frontend/src/pages/faculty/FacultyProfile.jsx:53-58 | an ok response leaves edit mode. A failed response or a failed fetch keeps the mode |
| ProfileDoc.TrimAll | alumni_connect/frontend/src/components/ProfileEditor.jsx:204 | each piece is trimmed, and there are as many pieces as before |
| ProfileDoc.ParseCommaList | alumni_connect/frontend/src/components/ProfileEditor.jsx:204 | at least one item; no item has a comma or outer white space |
| ProfileDoc.CommaListRoundTrip | alumni_connect/frontend/src/components/ProfileEditor.jsx:203-204 | parsing the display of a non-empty list of clean items gives the list back |
| ProfileDoc.EmptyCommaListReadsBackBlank | alumni_connect/frontend/src/pages/faculty/FacultyProfile.jsx:132-137 | an empty list displays as "" and reads back as [""] |
| ProfileDoc.EditCommaField | alumni_connect/frontend/src/components/ProfileEditor.jsx:199-206 | an array field is read as a comma list and any other field takes the raw text. Nothing else changes |
| ProfileDoc.EditCommaFieldRoundTrip | alumni_connect/frontend/src/components/ProfileEditor.jsx:199-206 | typing back what a clean list field displays leaves the profile unchanged |
| ProfileDoc.ParseLines | alumni_connect/frontend/src/pages/faculty/FacultyProfile.jsx:179 | at least one item, none holding a newline; nothing is trimmed |
| ProfileDoc.LinesRoundTrip | alumni_connect/frontend/src/pages/faculty/FacultyProfile.jsx:174-179 | parsing the display of a non-empty list of single-line items gives the list back |
| ProfileDoc.LinesShowParse | alumni_connect/frontend/src/pages/faculty/FacultyProfile.jsx:174-179 | displaying the parse of any text gives the text back |
| ProfileEditor.HeadsAreWordStarts | alumni_connect/frontend/src/components/ProfileEditor.jsx:20-23 | the first characters of the space-separated words are exactly the word starts |
| ProfileEditor.Initials | alumni_connect/frontend/src/components/ProfileEditor.jsx:19-26 | at most two characters: the first word starts, upper-cased |
| ProfileEditor.DoubleSpaceIgnored | alumni_connect/frontend/src/components/ProfileEditor.jsx:21-22 | a doubled space separates words exactly as one space does |
| ProfileEditor.InitialsIgnoreEmptyWords | alumni_connect/frontend/src/components/ProfileEditor.jsx:19-26 | empty words contribute nothing to the initials |
| ProfileEditor.AvatarInitials | alumni_connect/frontend/src/components/ProfileEditor.jsx:29 | a missing or empty name gives "U" |
| ProfileEditor.HasCaseless | alumni_connect/frontend/src/components/ProfileEditor.jsx:96 | true exactly when some item equals the value ignoring case |
| ProfileEditor.AddItem | alumni_connect/frontend/src/components/ProfileEditor.jsx:89-109 | an empty input does nothing. A duplicate (ignoring case) of the trimmed value only sets "This <field> already exists". Otherwise the trimmed value is appended, the input and error are cleared, and nothing else changes |
| ProfileEditor.AddKeepsCaselessDistinct | alumni_connect/frontend/src/components/ProfileEditor.jsx:96-105 | adding never creates two items equal ignoring case |
| ProfileEditor.DropIndex | alumni_connect/frontend/src/components/ProfileEditor.jsx:112 | removes exactly the element at an in-range index, and keeps the list otherwise |
| ProfileEditor.RemoveItem | alumni_connect/frontend/src/components/ProfileEditor.jsx:111-114 | only the item at the index is removed, the others keep their order, the length drops by one, and nothing else changes |
| FacultyProfile.Apply | alumni_connect/frontend/src/pages/faculty/FacultyProfile.jsx:105-181 | every edit changes one key of one section and never touches `contact`. basicInfo takes text. academic takes a comma list when the field is an array. research takes a newline list when the field is an array |
| FacultyProfile.EditKeepsLists | alumni_connect/frontend/src/pages/faculty/FacultyProfile.jsx:128-179 | a list stays a list under academic and research edits |
| FacultyProfile.AcademicRoundTrip | alumni_connect/frontend/src/pages/faculty/FacultyProfile.jsx:128-140 | typing back a clean academic list's display leaves the profile unchanged |
| FacultyProfile.EmptyAcademicListBecomesBlankItem | alumni_connect/frontend/src/pages/faculty/FacultyProfile.jsx:132-137 | an empty academic list, submitted as displayed, becomes [""] |
| FacultyProfile.ResearchRoundTrip | alumni_connect/frontend/src/pages/faculty/FacultyProfile.jsx:174-181 | typing back a research list's display leaves the profile unchanged |
| FacultyProfile.ResearchShowsWhatWasTyped | alumni_connect/frontend/src/pages/faculty/FacultyProfile.jsx:174-181 | a research list displays exactly the typed text |
| FacultyProfile.LoadKeepsMissingDefaults | alumni_connect/frontend/src/pages/faculty/FacultyProfile.jsx:7-39 | a default section absent from the stored profile survives loading |
| AlumniProfile.Apply | alumni_connect/frontend/src/pages/alumni/AlumniProfile.jsx:107-151 | every edit changes one key of one section and never touches `social` or `education`. skills and achievements become comma lists; other professional keys take the raw text |
| AlumniProfile.ListKeyRoundTrip | alumni_connect/frontend/src/pages/alumni/AlumniProfile.jsx:130-142 | typing back a clean skills or achievements display leaves the profile unchanged |
| AlumniProfile.KeyNameDecidesListness | alumni_connect/frontend/src/pages/alumni/AlumniProfile.jsx:130-151 | after a professional edit, the field is a list exactly when its key is skills or achievements |
| AlumniProfile.LoadKeepsMissingDefaults | alumni_connect/frontend/src/pages/alumni/AlumniProfile.jsx:7-42 | a default section absent from the stored profile survives loading; without a stored professional section, skills and achievements stay empty lists |
| Directory.TopDepartment | alumni_connect/frontend/src/pages/admin/AlumniList.jsx:50 | present exactly when `profile.department` is present |
| Directory.BasicInfoDepartment | alumni_connect/frontend/src/pages/admin/FacultyList.jsx:50 | present exactly when `profile.basicInfo.department` is present |
| Directory.CardOf | alumni_connect/backend/controllers/adminController.js:92 | a listed user has no top-level department; its `basicInfo` department is carried over |
| Directory.MentionsEmpty | alumni_connect/frontend/src/pages/admin/AlumniList.jsx:48 | the empty term is found in every text |
| Directory.MentionsIgnoresCase | alumni_connect/frontend/src/pages/admin/AlumniList.jsx:48 | upper-casing the text does not change a match |
| Directory.SearchKeepsNoDup | alumni_connect/frontend/src/pages/admin/AlumniList.jsx:47-51 | filtering never duplicates an entry |
| AlumniList.Search | alumni_connect/frontend/src/pages/admin/AlumniList.jsx:47-51 | keeps, in order, exactly the alumni whose name, email or `profile.department` contains the term, ignoring case |
| AlumniList.EmptyTermKeepsAll | alumni_connect/frontend/src/pages/admin/AlumniList.jsx:47-51 | an empty term keeps everyone |
| AlumniList.NameOrEmailSuffices | alumni_connect/frontend/src/pages/admin/AlumniList.jsx:48-50 | a missing department never hides a name or email match |
| AlumniList.BasicInfoDepartmentNotSearched | alumni_connect/frontend/src/pages/admin/AlumniList.jsx:50-80 | for users as the back end lists them, only name and email are searched |
| FacultyList.Search | alumni_connect/frontend/src/pages/admin/FacultyList.jsx:47-51 | keeps, in order, exactly the faculty whose name, email or `profile.basicInfo.department` contains the term, ignoring case |
| FacultyList.EmptyTermKeepsAll | alumni_connect/frontend/src/pages/admin/FacultyList.jsx:47-51 | an empty term keeps everyone |
| FacultyList.NameOrEmailSuffices | alumni_connect/frontend/src/pages/admin/FacultyList.jsx:48-50 | a missing profile or department never hides a name or email match |
| FacultyList.ListedDepartmentSearched | alumni_connect/frontend/src/pages/admin/FacultyList.jsx:50 | the department the back end sends is searched |
| ViewAlumni.Search | alumni_connect/frontend/src/pages/faculty/ViewAlumni.jsx:21-24 | keeps, in order, exactly the alumni whose name or `profile.department` contains the term, ignoring case |
| ViewAlumni.EmptyTermKeepsAll | alumni_connect/frontend/src/pages/faculty/ViewAlumni.jsx:21-24 | an empty term keeps everyone |
| ViewAlumni.EmailNotSearched | alumni_connect/frontend/src/pages/faculty/ViewAlumni.jsx:21-24 | for every list and term, an alumnus whose name and department do not mention the term is hidden, whatever its email; changing the email never changes whether an alumnus matches |
| ViewAlumni.InterestedCount | alumni_connect/frontend/src/pages/faculty/ViewAlumni.jsx:82 | the length of `interestedAlumni`, or 0 when it is absent |
| ViewAlumni.DetailsOf | alumni_connect/backend/models/Event.js:25-28 | a stored event carries its list as `interestedUsers`, so `interestedAlumni` is absent |
| ViewAlumni.StoredEventsShowNoInterest | alumni_connect/frontend/src/pages/faculty/ViewAlumni.jsx:82 | the panel shows 0 for every stored event |
| Json.HexRoundTrip | alumni_connect/frontend/src/context/AuthContext.jsx:10-20 | a written hex digit reads back as its value |
| Json.EscapeRoundTrip | alumni_connect/frontend/src/context/AuthContext.jsx:10-20 | every character's escape reads back as that character |
| Json.StringBodyRoundTrip | alumni_connect/frontend/src/context/AuthContext.jsx:10-20 | an escaped string body reads back exactly |
| Json.QuoteRoundTrip | alumni_connect/frontend/src/context/AuthContext.jsx:10-20 | a stringified string parses back |
| Json.MembersRoundTrip | alumni_connect/frontend/src/context/AuthContext.jsx:10-20 | stringified members parse back in order |
| Json.ObjectRoundTrip | alumni_connect/frontend/src/context/AuthContext.jsx:10-20 | `JSON.parse(JSON.stringify(o))` gives back the members of a flat string-valued object |
| Json.Lookup | alumni_connect/frontend/src/context/AuthContext.jsx:10 | the last member with the key decides, and it is absent exactly when no member has the key |
| Json.LookupAppend | alumni_connect/frontend/src/context/AuthContext.jsx:10 | later members decide their keys; members with other keys do not matter |
| AuthContext.LookupMembers | alumni_connect/frontend/src/context/AuthContext.jsx:10-20 | each of the five keys reads back its own field |
| AuthContext.InitialUser | alumni_connect/frontend/src/context/AuthContext.jsx:6-16 | null when the `user` entry is absent, empty or unparsable; otherwise the parsed user |
| AuthContext.Persisted | alumni_connect/frontend/src/context/AuthContext.jsx:18-28 | a user writes `user` (JSON), `userToken` and `userId`. Null removes exactly those three. No other key is touched |
| AuthContext.SessionRoundTrip | alumni_connect/frontend/src/context/AuthContext.jsx:10-20 | saving a user and starting afresh gives back the same user |
| AuthContext.LogoutForgets | alumni_connect/frontend/src/context/AuthContext.jsx:9-26 | after a logout a fresh start has no user |
| AuthContext.PersistIdempotent | alumni_connect/frontend/src/context/AuthContext.jsx:18-28 | running the effect twice changes nothing more |
| AuthContext.LocalStorage.GetItem | alumni_connect/frontend/src/context/AuthContext.jsx:9 | the entry when present, and null otherwise |
| AuthContext.LocalStorage.SetItem | alumni_connect/frontend/src/context/AuthContext.jsx:20-22 | one entry is set |
| AuthContext.LocalStorage.RemoveItem | alumni_connect/frontend/src/context/AuthContext.jsx:24-26 | one entry is removed |
| AuthContext.Initialize | alumni_connect/frontend/src/context/AuthContext.jsx:6-16 | the initial user read from storage |
| AuthContext.SyncEffect | alumni_connect/frontend/src/context/AuthContext.jsx:18-28 | leaves storage as `Persisted` describes |
| Login.RequestFor | alumni_connect/frontend/src/pages/Login.jsx:17-24 | exactly `admin@example.com` selects the admin endpoint, with `username` equal to the email. Any other email goes to the users endpoint with only email and password |
| Login.AdminRequestKey | alumni_connect/frontend/src/pages/Login.jsx:21-24 | the admin endpoint looks the admin up by the typed email |
| Login.RedirectPath | alumni_connect/frontend/src/pages/Login.jsx:54 | both branches give "/" + role |
| Login.CaughtMessage | alumni_connect/frontend/src/pages/Login.jsx:59 | never empty; a non-empty message is kept |
| Login.Decide | alumni_connect/frontend/src/pages/Login.jsx:12-60 | the error is cleared first. A non-ok reply shows the server's message or 'Login failed'. A thrown error shows its message or 'Login failed. Please try again.'. Only an ok reply with a token sets the user (id, name, email, role, token), stores the token and redirects. An ok reply without a token changes nothing |
| Login.FailureIsExplained | alumni_connect/frontend/src/pages/Login.jsx:38-60 | every failure shows a message and sets no user |
| Login.HandleSubmit | alumni_connect/frontend/src/pages/Login.jsx:12-61 | sends the request for what was typed and applies the reply. `userToken` is written exactly when the user is signed in |
| Login.LoginSurvivesReload | alumni_connect/frontend/src/context/AuthContext.jsx:18-22 | a successful login followed by the effect leaves a session that a fresh start reads back, with the token stored |

## Left out

- HTTP, Express routing, `fetch`, the database connection and error middleware are not modelled. Each handler is one atomic step on an in-memory store. Two concurrent adds with the same email could both pass the duplicate check in the source; the model cannot show that.
- Bcrypt salts, cost and timing are not modelled. A stored password is a chain of hash steps over the typed text.
- JWT signing, its secret and its one-day expiry are not modelled. The token is its claims `{id, role}`.
- Delivery of the welcome mail and of `sendMail` is not modelled. The mail sender swallows delivery errors, so no answer depends on delivery. `sendMail` passes the message and subject into the password and role parameters of the mail helper; only recipient selection is modelled.
- A non-ObjectId id is modelled as a missing id (None), answered with 500 as Mongoose's cast error is.
- A missing or uncastable event date is modelled as None.
- `findOne({ email: undefined })` is modelled as matching nothing, as every stored user has an email.
- Recipients (AdminController.Recipients, AdminController.RecipientsOfUnknown): a missing `recipients` builds `{ role: undefined }`. Under the same driver assumption it is modelled as matching nothing, as every stored user has a role.
- User timestamps and Mongoose's default empty arrays inside nested profile sections are not modelled. Sections the handlers do not set are absent.
- Unicode case mapping is not modelled; `toLowerCase` and `toUpperCase` act on ASCII letters only.
- ObjectId comparison (`includes` against `toString`) is modelled as int equality.
- `Json.ParseObject`: JSON values other than strings inside the stored user object are treated like a parse failure. An escape of a surrogate is rejected, so surrogate pairs are not decoded.
- `ProfileEditor.AddItem` requires the field to hold an array: the add button exists only inside `renderArrayField`, which calls `value.map`. The `|| []` fallback for a missing field is therefore not modelled.
- `AuthContext.InitialUser` reads only the five user fields; other keys in a stored user object are dropped.
- InitialUser (AuthContext.InitialUser): the source keeps any truthy `JSON.parse` result as the user, so a stored `"x"` string or `[1]` array becomes the user. The model parses objects only and answers null for those.
- Initials (ProfileEditor.Initials): `word[0]` and `.slice(0, 2)` count UTF-16 code units, so a word that starts with a character outside the Basic Multilingual Plane yields a lone surrogate. The model takes whole characters.
- Create (UserModel.Create): bcrypt compares only the first 72 bytes of a password, so two long passwords with the same first 72 bytes both match. The model promises that exactly the given password matches.
- ResaveLocksOut (UserModel.ResaveLocksOut): a stored password is an abstract chain of hash steps. The lemma says only that the user's own password stops matching. With real bcrypt, the previous hash string typed as a password would still match the doubled hash.
- PreSaveAsWritten (UserModel.PreSaveAsWritten): the hook is one atomic step. In the source, `next()` at `User.js:56` lets Mongoose go on with the save before the awaited re-hash at `User.js:58-59` reassigns the password. Whether that save or only a later one persists the doubled hash depends on that timing, which the model does not capture.
- The user controller behind `/users/login` and `/users/:id/profile` is not part of this model. The profile pages' save is modelled only through its `res.ok` outcome.
- These are not modelled: image upload in the editor, the event routes without an implementation, the seed script, mock and form-only pages, layouts and navigation.

## Findings

| source | as written | input that shows it | evidently intended | confidence | as-written member | corrected member |
|---|---|---|---|---|---|---|
| alumni_connect/backend/models/User.js:55-59 | `next()` is called without `return` when the password is unmodified, so the hook hashes the stored hash again | any `save()` of an existing user that does not change the password, such as a profile update through the document. The doubled hash is persisted by that save or a later one, depending on hook timing | hash only a modified password | medium, not executed | UserModel.ResaveLocksOut | UserModel.ResaveKeepsLogin |
