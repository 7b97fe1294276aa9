# Wishlist and recommendations: a Dafny model

This project models the client-side core of a wishlist web application
built on a hosted database. Users keep a wishlist of gifts. They follow
friends through a directed `friendships` table, browse a friend's list and
book gifts on it. They post recommendations tagged with hashtags and get
notifications. Administrators manage users and recommendations. The Vue
component keeps the lists on screen and filters them by search text and
selected hashtags.

The model has one module per source file:

- `App` for `js/app.js`;
- `Recommendations`, `Friends`, `Profile`, `Notifications`, `Admin` and
  `Storage` for the wrapper files of the same names.

Helper modules hold what they share:

- `Results` holds `Option`, `Result`, the `Status` a wrapper returns, and
  the refusals (`NotAuthenticated`, `NotAdmin`, `RowNotFound` and so on).
- `Seqs` holds `filter`, `indexOf` and the store's `select`/`update`/`delete
  ... where` on a table.
- `Sorting` holds the newest-first ordering of `.order('created_at', {
  ascending: false })` and the count sort of the popular hashtags.
- `Text` holds `toLowerCase`, `includes`, `split`, `join`, `trim` and the
  decimal form of a number.
- `Store` holds the table rows and the class `Db`. `Db` keeps each table as a
  sequence field plus the id counter of new rows. Its invariant `Valid()`
  says that primary keys are unique and every row id was handed out by the
  counter. `Db.CurrentUser` is `getCurrentUser` from `js/auth.js`.

Each wrapper that writes to the store is a method on a `Db`. It states the
whole new content of the store: which table changed, and into what. It also
states every refusal, and that a refused call leaves the store alone. Each
wrapper that only reads is a function of the store.

The signed-in session is a parameter `Option<UserId>`: `None` means nobody
is signed in. The database clock (`created_at`) and `Date.now()` are
parameters too.

The component state of `js/app.js` is the class `App.AppState`. Its fields
are the ones the modelled methods read or write. Its invariant is that the
hashtag selection holds no tag twice.

## Model

| member | source | states |
|---|---|---|
| Store.Db.CurrentUser | js/auth.js:81-103 | nobody without a session; otherwise the `users` row whose id is the session's, or nobody exactly when no such row exists |
| Store.FindUniqueUser | js/auth.js:94-98 | with unique ids, looking up a user's own id finds that very row |
| Store.AuthorsJoined | js/recommendations.js:17-21 | every recommendation's author has a `users` row, so the join finds it |
| Store.JoinedIndexwise | js/recommendations.js:17-21 | the author condition read row by row is the same condition |
| Store.OwnerOrAdmin | js/profile.js:160 | the rule of deleting gifts and recommendations: the row's owner or an administrator |
| Store.Db.InsertGift | js/profile.js:72-84 | `insert` of a gift: it is appended with the next id, the id counter moves on, nothing else changes, and the store invariant holds |
| Store.Db.InsertBooking | js/friends.js:173-181 | `insert` of a booking: it is appended with the next id, the id counter moves on, nothing else changes, and the store invariant holds |
| Store.Db.InsertNotification | js/notifications.js:4-14 | `insert` of a notification: it is appended with the next id, the id counter moves on, nothing else changes, and the store invariant holds |
| Store.Db.InsertRecommendation | js/recommendations.js:41-54 | `insert` of a recommendation: it is appended with the next id, the id counter moves on, nothing else changes, and the store invariant holds |
| Recommendations.ParseHashtags | js/recommendations.js:36-39 | every tag is non-empty, trimmed and free of commas; the tags are the trimmed comma-separated pieces with the empty ones left out, in input order, each non-empty piece as often as it occurs |
| Recommendations.TrimmedPieces | js/recommendations.js:37-38 | trimming the comma-free pieces of a split gives trimmed, comma-free strings |
| Recommendations.ParseBlank | js/recommendations.js:36-39 | a string of only commas and whitespace, the empty string included, yields no hashtag |
| Recommendations.ParseJoined | js/recommendations.js:36-39 | round trip: parsing the comma-joined list of well-formed hashtags gives exactly that list back |
| Recommendations.TrimAllTrimmed | js/recommendations.js:38 | trimming already trimmed pieces leaves the list unchanged |
| Recommendations.WithAuthors | js/recommendations.js:17-21 | fails exactly when some row's author is missing (the `rec.users.username` dereference throws); otherwise one entry per row, in order, carrying its author's name and avatar |
| Recommendations.ViewsCarryAuthors | js/recommendations.js:17-21 | a successful join keeps the rows in order and gives each the name and avatar of its author's `users` row |
| Recommendations.GetRecommendations | js/recommendations.js:2-26 | newest first; a non-empty answer holds exactly the stored rows, as a multiset; when every author has a `users` row, one entry per stored row, each carrying its author's name and avatar, and otherwise nothing (the dereference throws) |
| Recommendations.AddRecommendation | js/recommendations.js:28-64 | without a user: `NotAuthenticated`, store unchanged; otherwise exactly one row is appended, owned by the caller, with the parsed hashtags and a fresh id; all other tables are unchanged; the store invariant holds |
| Recommendations.DeleteRecommendation | js/recommendations.js:66-104 | refusals in source order: `NotAuthenticated`, `RowNotFound` (`.single()` finds no row), `NoDeletePermission` (neither author nor administrator), each leaving the store unchanged; otherwise exactly the rows with that id are removed and nothing else changes |
| Recommendations.AllTags | js/recommendations.js:117 | a tag is listed exactly when it occurs in the non-null hashtags of some row |
| Recommendations.AllTagsAppend | js/recommendations.js:117 | the tags of two row lists together are the tags of the first followed by those of the second, so counts add up |
| Recommendations.AllTagsConcat | js/recommendations.js:117 | `flatMap` over two row lists together is the concatenation of the two results |
| Recommendations.CountTags | js/recommendations.js:120-123 | over a dictionary with no inherited keys, the loop ends with one key per distinct tag, no key twice, and each key's count equal to its number of occurrences |
| Recommendations.GetPopularHashtags | js/recommendations.js:106-131 | at most ten tags, none twice, all used; in non-increasing order of use; a used tag left out means ten were returned, each used at least as often |
| Recommendations.RankedEntries | js/recommendations.js:126-127 | the sorted entries hold each distinct tag exactly once, with its count, in non-increasing order of count |
| Recommendations.LeftOutRanksLower | js/recommendations.js:127-129 | a tag cut by `slice(0, 10)` means ten were kept, and none of them is used less |
| Recommendations.RankingProperties | js/recommendations.js:126-129 | the ranking guarantees of `GetPopularHashtags` follow from sorting count entries and keeping the first ten |
| Recommendations.Lookup | js/recommendations.js:122 | `tagCounts[tag]` on a plain object: an own property first; a name inherited from `Object.prototype` gives a function or the prototype; any other name gives `undefined` |
| Recommendations.Bump | js/recommendations.js:122 | `(v \|\| 0) + 1`: `undefined` becomes 1, a count goes up by one, a function or the prototype turns into a string |
| Recommendations.Assign | js/recommendations.js:122 | assigning to `__proto__` is ignored; any other key gets the value as an own property |
| Recommendations.TallyAsWritten | js/recommendations.js:120-123 | the counting loop as the code is written: the tally never has an own `__proto__` key, and every key is a tag |
| Recommendations.TallyOfOrdinaryTags | js/recommendations.js:120-123 | for tags that are not inherited names, the loop as written gives exactly one key per tag, holding its number of occurrences |
| Recommendations.OrdinaryStep | js/recommendations.js:122 | one step on a tag that is not an inherited name raises its own count, or sets it to 1 |
| Recommendations.CountedStep | js/recommendations.js:121-123 | counting one more occurrence keeps a tally of counts exact |
| Recommendations.ProtoTagDropped | js/recommendations.js:120-129 | a tag `__proto__` that occurs once leaves the tally as written empty, so the source ranks nothing |
| Recommendations.ConstructorCountIsText | js/recommendations.js:120-127 | a tag `constructor` gets a string as its count in the tally as written |
| Recommendations.ProtoTagKept | js/recommendations.js:106-131 | the intended ranking of a single row tagged `__proto__` is exactly that tag |
| Friends.BookingsOf | js/friends.js:142-148 | the embedded `booked_gifts` of a gift are exactly the bookings that name it |
| Friends.ViewGift | js/friends.js:155-159 | the view keeps the gift, embeds exactly the bookings that name it, is booked exactly when one exists, and `booked_by` is the booker of the first of them |
| Friends.WishlistOf | js/friends.js:142-159 | one view per gift of the owner, in table order, every gift of the owner among them, each showing its bookings |
| Friends.ViewGifts | js/friends.js:155-159 | same gifts in the same order; each view embeds exactly the bookings of its gift, is booked exactly when one exists, and then names a booker of that gift |
| Friends.OutgoingFriendIds | js/friends.js:9-15 | an id is listed exactly when an edge leads from the caller to it; one id per such edge, in table order |
| Friends.Profiles | js/friends.js:22-24 | every profile is the summary of the `users` row of a listed id; every listed id with a row has its profile in the answer; one profile per listed id that has a row, in list order |
| Friends.FriendProfiles | js/friends.js:9-24 | the join on the two tables: one profile per edge from the caller whose far end has a `users` row, in table order, each that row's columns, every added user among them |
| Friends.GetFriends | js/friends.js:2-29 | no session: empty; otherwise one profile per edge from the caller whose far end has a `users` row, in table order, each exactly that row's columns; every user the caller added is among them (an edge towards the caller does not count) |
| Friends.ExcludedIds | js/friends.js:48-51 | the excluded ids are exactly the caller and the users the caller has added |
| Friends.Summaries | js/friends.js:54-58 | one summary per user, in order; the summaries are exactly those of the users |
| Friends.SearchUsers | js/friends.js:31-69 | no session: empty; otherwise exactly the summaries of stored users, other than the caller and the caller's friends, whose name or email contains the query |
| Friends.AddFriend | js/friends.js:71-96 | without a user: `NotAuthenticated`, store unchanged; otherwise exactly the edge from the caller to the friend is appended, and nothing else changes |
| Friends.RemoveFriend | js/friends.js:98-120 | without a user: `NotAuthenticated`, store unchanged; otherwise every edge from the caller to the friend is gone and every other edge remains |
| Friends.RemovingKeepsReverseEdge | js/friends.js:105-109 | removing a friend leaves the friend's edge towards the caller in place |
| Friends.GetFriendGifts | js/friends.js:122-164 | empty without a session, and empty unless exactly one edge leads from the caller to the friend (`.single()`); otherwise one view per gift of the friend, in table order, every gift of the friend among them, each showing its bookings |
| Friends.BookGift | js/friends.js:166-191 | without a user: `NotAuthenticated`, store unchanged; otherwise exactly one booking of the gift by the caller is appended, with a fresh id |
| Friends.UnbookGift | js/friends.js:193-215 | without a user: `NotAuthenticated`, store unchanged; otherwise no booking of the gift by the caller is left, and every other booking remains |
| Profile.ApplyPatch | js/profile.js:9-12 | the patched columns take their new values; id, email, admin flag, theme and creation time are kept |
| Profile.EmptyPatch | js/profile.js:9-12 | an empty patch changes nothing |
| Profile.UpdateProfile | js/profile.js:2-23 | without a user: `NotAuthenticated`, store unchanged; otherwise only the caller's own row is patched, every other row and table is unchanged |
| Profile.UpdateAvatar | js/profile.js:25-32 | only the avatar of the caller's row changes |
| Profile.FindGift | js/profile.js:105-109 | the found gift is stored and has that id; none is found only when no gift has that id |
| Profile.GetMyGifts | js/profile.js:34-63 | no session: empty; otherwise one view per gift of the caller, in table order, every gift of the caller among them, each showing its bookings |
| Profile.AddGift | js/profile.js:65-95 | without a user: `NotAuthenticated`, store unchanged; otherwise exactly one gift with the given content is appended, owned by the caller, with a fresh id |
| Profile.UpdateGift | js/profile.js:97-140 | refusals in source order: `NotAuthenticated`, `RowNotFound`, `NoEditPermission` (only the owner edits), each leaving the store unchanged; the owner of an existing gift always succeeds, and then only the content of the gift with that id changes, and ids and owners stay |
| Profile.DeleteGift | js/profile.js:142-185 | refusals `NotAuthenticated`, `RowNotFound`, `NoDeletePermission` (neither owner nor administrator), each leaving the store unchanged; the owner or an administrator always succeeds on an existing gift, and then the gift and all its bookings are gone, every other gift and booking remains, and exactly one gift fewer is stored |
| Profile.RemovesExactlyOne | js/profile.js:171-174 | with unique ids, deleting by an id that is present removes exactly one row |
| Profile.CopyGiftToMyWishlist | js/profile.js:187-203 | the copy is a new gift of the caller's carrying exactly the six content fields of the original |
| Notifications.CreateNotification | js/notifications.js:2-25 | exactly one unread notice is appended, with the given recipient, sender, type and content and a fresh id |
| Notifications.ViewNotification | js/notifications.js:48-52 | the sender name is never empty; it is the system name exactly when the sender is missing or has an empty name; an avatar is shown exactly when the sender has a non-empty one, and it is the sender's |
| Notifications.Inbox | js/notifications.js:34-41 | exactly the notices addressed to the caller, as a multiset, newest first |
| Notifications.ViewAll | js/notifications.js:48-52 | one entry per notice, in the same order |
| Notifications.GetMyNotifications | js/notifications.js:27-57 | no session: empty; otherwise exactly the caller's notices, newest first, each with its sender columns |
| Notifications.MarkNotificationAsRead | js/notifications.js:59-81 | without a user: `NotAuthenticated`, store unchanged; otherwise only the caller's notice with that id becomes read |
| Notifications.MarkAllRead | js/notifications.js:90-94 | every notice of the caller is read afterwards; other recipients' notices are unchanged; no column except `is_read` changes |
| Notifications.MarkAllReadIdempotent | js/notifications.js:90-94 | marking everything read a second time changes nothing |
| Notifications.MarkAllNotificationsAsRead | js/notifications.js:83-105 | without a user: `NotAuthenticated`, store unchanged; otherwise the notifications table becomes `MarkAllRead` of the old one, and nothing else changes |
| Notifications.DeleteNotification | js/notifications.js:107-129 | without a user: `NotAuthenticated`, store unchanged; otherwise at most one row goes: the caller's notice with that id, while everybody else's notices and the caller's other notices remain |
| Admin.GetAllUsers | js/admin.js:2-22 | empty for anybody but an administrator; otherwise all users as a multiset, newest first |
| Admin.ToggleRefusal | js/admin.js:26-34 | `NotAdmin` exactly for a non-administrator; `CannotDemoteSelf` exactly for an administrator removing their own rights; no refusal in every other case |
| Admin.ToggleAdminStatus | js/admin.js:24-50 | a refused call leaves the store unchanged; otherwise only the admin flag of the target row changes; an administrator who calls it is still one afterwards |
| Admin.DeleteUser | js/admin.js:52-77 | `NotAdmin` or `CannotDeleteSelf` leave the store unchanged; otherwise the user with that id is gone, every other user remains, and at most one row is removed |
| Admin.WithUserDetails | js/admin.js:101-106 | fails exactly when some row's author is missing; otherwise one entry per row, in order, with its author's name, email and avatar |
| Admin.ViewsCarryDetails | js/admin.js:101-106 | a successful join keeps the rows in order and gives each the name, email and avatar of its author's `users` row |
| Admin.NewestWithDetails | js/admin.js:86-106 | newest first, the stored rows as a multiset; one entry per row with its author's details when every author has a `users` row, and nothing otherwise |
| Admin.IsAdmin | js/admin.js:5 | the caller is signed in and has the administrator flag |
| Admin.GetAllRecommendationsWithUserDetails | js/admin.js:79-111 | empty for anybody but an administrator; newest first; a non-empty answer holds exactly the stored recommendations, as a multiset; for an administrator, when every author has a `users` row, one entry per stored row with its author's name, email and avatar, and otherwise nothing |
| Storage.FileExtension | js/storage.js:14 | the extension is a suffix of the name with no '.', preceded by the last '.', or the whole name when there is none |
| Storage.ExtensionOfSuffix | js/storage.js:14 | a name ending in '.' and a dot-free `ext` has extension `ext`, whatever comes before |
| Storage.UploadFileName | js/storage.js:2-15 | no file: `NoFileSelected` (checked first); no user: `NotAuthenticated`; otherwise the name is exactly the folder, '/', the user id, '_', the decimal timestamp, '.' and the file's extension |
| Storage.UploadNamesDiffer | js/storage.js:15 | two uploads of the same file by the same user at different timestamps get different names |
| Storage.StoredNameShape | js/storage.js:15 | the folder, the user id and the extension can be read back from a stored object name |
| Storage.DefaultFolderLeadingSlash | js/storage.js:2-15 | with the default empty folder, the object name starts with '/' |
| Storage.DeleteFilePath | js/storage.js:38-45 | `InvalidUrl` when the URL lacks `bucket/` or nothing follows the first one; otherwise the non-empty text between the first `bucket/` and the next one or the end |
| Storage.PieceAfterFirst | js/storage.js:41 | reference definition by `indexOf` alone: present exactly when the URL contains the separator; holds no separator; sits right after the first one and ends at the next one or the end |
| Storage.SplitSecond | js/storage.js:41 | `split(sep)` has a second piece exactly when `PieceAfterFirst` finds one, and that piece is the one it finds |
| Storage.DeleteFilePathOfUrl | js/storage.js:41-45 | round trip: for a URL `prefix + bucket + '/' + path` (a bucket without '/', and neither prefix nor path holding `bucket/`), the path recovered is exactly `path` |
| App.FilteredRecommendations | js/app.js:78-100 | the kept entries are in their original order; with no search and no tags, everything is kept; an entry is kept, with all its copies, exactly when it matches the lower-cased search in title or description and carries every selected tag, so a row with null hashtags is dropped once a tag is selected |
| App.HasAllTags | js/app.js:92-95 | a row passes when it has hashtags containing every selected tag; a row with null hashtags passes only an empty selection |
| App.FilteredFriends | js/app.js:103-113 | everything for an empty search; otherwise exactly the friends whose lower-cased name or email contains the lower-cased search, in order, each with as many copies as the list holds (a friend added twice is shown twice) |
| App.FilteredAdminUsers | js/app.js:116-126 | the same rule as the friend list, over all users: in order, each matching user with all its copies |
| App.FilteredAdminRecommendations | js/app.js:129-139 | everything for an empty search; otherwise exactly the entries whose title or author name contains the search, ignoring case, in order, each with all its copies |
| App.Toggled | js/app.js:279-286 | an absent tag is appended; a present tag loses its first occurrence: one fewer element, one fewer copy of the tag, the others in their order |
| App.ToggledNoDuplicates | js/app.js:279-286 | toggling keeps the selection free of repeats; afterwards the tag is selected exactly when it was not before |
| App.ToggleTwice | js/app.js:279-286 | toggling twice restores whether the tag is selected, and restores the whole selection when the tag was absent |
| App.UntoggleAppended | js/app.js:279-286 | toggling a tag that was just appended gives the selection back |
| App.Selected | js/app.js:288-292 | the tag is selected afterwards; a selected tag leaves the list alone; an absent one is appended |
| App.SelectIdempotent | js/app.js:288-292 | selecting twice is selecting once, and never adds a repeat |
| App.AppState.constructor | js/app.js:3-74 | the initial `data()`: no profile, the recommendations tab, and every list and selection empty |
| App.AppState.ToggleHashtag | js/app.js:279-286 | the selection becomes `Toggled` of the old one, stays free of repeats, and holds the tag exactly when it did not before |
| App.AppState.SelectHashtag | js/app.js:288-292 | the selection becomes `Selected` of the old one and stays free of repeats |
| App.AppState.SearchFriends | js/app.js:299-313 | a query under three characters clears the results and sets the error without searching; otherwise the results are the user search, with the not-found error exactly when they are empty |
| App.AppState.ResetAllData | js/app.js:216-226 | the signed-in user's data is cleared and the recommendations tab is shown |
| Text.Lower | js/app.js:82-88 | same length, character by character lower case |
| Text.LowerIdempotent | js/app.js:82-88 | lower-casing twice is lower-casing once |
| Text.Split | js/recommendations.js:37 | at least one piece; no piece holds the separator; joining the pieces with it gives the string back |
| Text.SplitJoin | js/recommendations.js:37 | round trip: splitting the join of separator-free pieces on a one-character separator gives the pieces back |
| Text.Trim | js/recommendations.js:38 | the result is a slice of the input with only whitespace outside it; it is trimmed, and empty exactly when the input is all whitespace |
| Text.TrimSlice | js/recommendations.js:38 | cutting whitespace off the front and then the end leaves a slice with only whitespace outside it |
| Text.TrimOfTrimmed | js/recommendations.js:38 | trimming a trimmed string changes nothing |
| Text.DecimalString | js/storage.js:15 | a non-empty string of digits, without a leading zero unless the number is 0, whose decimal value is the number |
| Text.DecimalValue | js/storage.js:15 | the number a string of decimal digits denotes |
| Text.DecimalStringInjective | js/storage.js:15 | different numbers have different decimal forms |
| Text.Contains | js/app.js:85-86 | `includes`: the needle occurs at some position of the string |
| Text.ContainsIgnoringCase | js/app.js:85-86 | containment after lower-casing both sides, as `toLowerCase().includes()` and `ilike` test it |
| Text.IndexOf | js/storage.js:41 | the position of the first occurrence of the needle, or none exactly when it does not occur |
| Text.Join | js/friends.js:58 | `join`: the pieces with the separator between each two, the inverse of `Split` |
| Seqs.FirstIndex | js/app.js:280 | -1 exactly when the element is absent; otherwise the position of its first occurrence |
| Seqs.Filter | js/app.js:84 | the kept elements are a subsequence of the input; each accepted element keeps its number of copies, and a rejected one has none |
| Seqs.UpdateWhere | js/profile.js:119-130 | the store's `update(...).eq(...)`: same length; a matching row is patched, every other row stays, positions are kept |
| Sorting.SortDesc | js/recommendations.js:127 | a permutation of the input, in non-increasing order of the key |

## Findings

| source | as written | input that shows it | evidently intended | confidence | as-written member | corrected member |
|---|---|---|---|---|---|---|
| js/recommendations.js:120-123 | the tags are counted on a plain `{}`, which inherits `__proto__` and other names from `Object.prototype` | one row tagged `__proto__`: the count is written to the prototype setter and ignored, so no tag is ranked | every tag counted from 0 in a dictionary without inherited keys, so the row's tag is ranked | not executed | Recommendations.ProtoTagDropped | Recommendations.ProtoTagKept |
| js/recommendations.js:122-127 | `(tagCounts[tag] \|\| 0) + 1` on an inherited method name starts from that method | one row tagged `constructor`: its count becomes the string `function Object() { [native code] }1`, and the comparator `b[1] - a[1]` gives NaN | the count 1 | not executed | Recommendations.ConstructorCountIsText | Recommendations.CountTags |

## Left out

- Failures of the hosted database, the storage service and the network are left out. Every wrapper's `catch` branch that turns such a failure into `{ error }` or `[]` is unmodelled. The one store outcome that is modelled is `.single()` finding no row.
- Row-level security policies and the foreign-key cascades that `deleteUser` relies on (js/admin.js:64-66) are left out. `Admin.DeleteUser` removes the `users` row only.
- Friends.GetFriends: a friendship whose `users` row is missing is dropped from the answer. The source spreads `null` into an empty object there instead. The function also requires the store invariant `Db.Valid()`, which every modelled write preserves.
- Text.Lower: lower-cases basic Latin and Cyrillic capitals only, not all of Unicode.
- Friends.SearchUsers: `ilike` is modelled as containment that ignores case, with the same Latin and Cyrillic lower-casing as `Text.Lower`. `%` and `_` in the query are not treated as wildcards.
- App.AppState.SearchFriends: the three-character limit counts code points, where JavaScript's `length` counts UTF-16 code units.
- Recommendations.GetPopularHashtags: ties between tags of equal count are not ordered. In the source, `Object.entries` lists integer-like keys first, in ascending numeric order, and then the other keys in insertion order, and the sort is stable. The model promises only the count order.
- Recommendations.Bump: the text a native function turns into is modelled as V8 writes it; other engines may format it differently.
- The calls `upload`, `remove` and `getPublicUrl` of the storage service are left out. Only the object names that `uploadFile` and `deleteFile` compute are modelled.
- Storage.DeleteFilePathOfUrl: the round trip needs a bucket name without '/'; with one, an earlier separator can overlap the prefix.
- `hasUnreadNotifications` in `getCurrentUser` (js/auth.js:105-112) is left out, because no modelled operation reads it. Sign-in, sign-up and sign-out in js/auth.js are left out, because they are calls into the authentication service.
- In js/app.js, the Vue mount, `setTimeout`, `confirm`, date formatting and the UI flags of the modals are left out. So is the order in which un-awaited loads finish.
- Profile.UpdateProfile: the patch covers the two columns the profile page sends, the user name and the avatar. The source forwards any object to `.update`.
- Text fields the source allows to be null (descriptions, links, article numbers) are strings in the model, with "" for null.
- App.FilteredRecommendations: because null is modelled as "", the model keeps or drops such a row quietly. In the source, a row with a null description whose title does not match the search makes `rec.description.toLowerCase()` throw a TypeError (js/app.js:86). The app's own forms always write '', so only rows written by other clients can be null.
