# Campus events: comments, user profiles and badges in Dafny

This project models the server core of a college event application. Students
comment on events. Organizers and admins moderate those comments. Users keep a
profile. A badge engine awards achievement badges from activity counters.
The model covers:

- the three document schemas: `User`, `Comment` and `Event`;
- the comment handlers: create, list, edit, delete, like, reply, report, pin,
  moderate-delete and list reported;
- the user handlers: profile lookup and update, avatar upload, event history,
  manual badge award and e-mail preferences;
- the badge engine: the nine-entry catalogue, `checkAndAwardBadges`,
  `updateStatsAndCheckBadges` and `getAllBadges`.

Modules follow the source files:

| module | file | models |
|---|---|---|
| `Common` | `common.dfy` | document ids, `Option`, `Result` and the HTTP error (status, message) |
| `JsString` | `js_string.dfy` | the JavaScript string operations the handlers use: `trim`, `.length`, `split`, `join` |
| `EventModel` | `event_model.dfy` | `models/Event.js` |
| `UserModel` | `user_model.dfy` | `models/User.js` and the User collection, a class `UserStore` |
| `CommentModel` | `comment_model.dfy` | `models/Comment.js` and the Comment collection, a class `CommentStore` |
| `BadgeSystem` | `badge_system.dfy` | `utils/badgeSystem.js` |
| `CommentController` | `comment_controller.dfy` | `controllers/commentController.js` |
| `UserController` | `user_controller.dfy` | `controllers/userController.js` |

The database is the state that changes, so it is modelled that way:

- Each collection the handlers write is a class holding a `map` from document
  id to document.
- Its `Valid()` predicate holds the schema constraints and the uniqueness
  rules.
- A handler is a method that takes the store, `modifies` it, and keeps
  `Valid()`.
- A handler's `ensures` gives the complete answer and the complete new
  collection for every branch, error branches included.
- The Event collection is only read here, so it is a parameter: a `map` where
  handlers look events up by id, and a `seq` where the source runs a query.

Two JavaScript details are modelled exactly:

- String length is counted in UTF-16 code units, as `.length` counts it.
- `trim` removes exactly the ECMAScript white-space and line-terminator
  characters.

Mongoose save-time validation is modelled where a handler can feed it invalid
data. A rejected save throws, and the handler answers 500 "Server error" with
nothing stored. This happens for:

- a bio longer than 500 code units, or a year outside the enum, in
  `updateMyProfile`;
- a missing or empty badge name in `awardBadge`.

A read of a missing event through `populate` yields `null`. The next
`event.createdBy` then throws, so a non-admin pinning or moderating a comment
whose event is gone gets a 500. An admin never reads the event.

Three behaviours of the code are easy to miss, and the model keeps them:

- `updateStatsAndCheckBadges` adds any `increment`, negative ones included,
  so nothing keeps the counters from decreasing. The model does the same.
- The badges of the catalogue that compare with `===` hold only at the exact
  count. A step that jumps over the threshold never awards the badge
  (`BadgeSystem.ThresholdSkipped`).
- `getReportedComments` restricts organizers to their own events but applies
  no check for students. The route is labelled organizer/admin only, but no
  guard enforces it (see Findings).

## Model

| member | source | states |
|---|---|---|
| JsString.Utf16Length | controllers/commentController.js:22 | `.length` of a string is between its number of characters and twice that (astral characters count two) |
| JsString.Trim | controllers/commentController.js:18 | `trim()` yields the piece of the input that starts at `TrimOffset`, with only white space cut off before and after it; the piece has no white space at either end, and is empty exactly when the input is all white space |
| JsString.TrimFixedPoint | controllers/commentController.js:143 | trimming changes a string exactly when it has white space at an end; trimming twice is trimming once |
| JsString.TrimShortens | controllers/commentController.js:22-30 | the stored (trimmed) content is never longer than the content the length check accepted |
| JsString.Split | controllers/userController.js:104 | `split(sep)` yields at least one piece and no piece contains the separator |
| JsString.Join | controllers/userController.js:104 | `parts.join(sep)`: the pieces with the separator between each two |
| JsString.SplitJoin | controllers/userController.js:104 | splitting the join of pieces that hold no separator gives the pieces back |
| JsString.JoinSplit | controllers/userController.js:104 | `split(sep).join(sep)` gives the original string back |
| JsString.SplitWithoutSeparator | controllers/userController.js:104 | a string without the separator splits into itself alone |
| JsString.SplitConcat | controllers/userController.js:104 | splitting `x + sep + y` is splitting `x` followed by splitting `y` |
| EventModel.ValidEvent | models/Event.js:4-7 | the schema's required strings (title, description, location) are non-empty |
| EventModel.ParseCategory | models/Event.js:8-12 | a string passes the category enum exactly when it is the spelling of one of the six categories, and maps back to it |
| EventModel.ParseStatus | models/Event.js:15-19 | a string passes the status enum exactly when it is one of the three statuses' spellings |
| EventModel.NewEvent | models/Event.js:13-23 | a new event has no capacity limit, no banner, status published, not featured, no views and no attendees; it is valid exactly when the required strings are non-empty |
| UserModel.ParseRole | models/User.js:7 | a string passes the role enum exactly when it is "student", "organizer" or "admin" |
| UserModel.Names | controllers/userController.js:170 | the badge names in earned order, one per badge |
| UserModel.NamesAppend | utils/badgeSystem.js:87-93 | the names after pushing badges are the old names followed by the new ones |
| UserModel.NewUser | models/User.js:3-50 | a new user is a student unless a role is given, with the given name and e-mail, a profile of empty strings, no interests and empty social links, no badges, zero counters and every e-mail flag on; valid exactly when name and e-mail are non-empty |
| UserModel.ValidProfile | models/User.js:12-15 | the schema's profile checks: a bio of at most 500 code units and a year in the enum |
| UserModel.ValidUser | models/User.js:4-27 | the schema's checks of one user: name and e-mail present, a valid profile, every badge named |
| UserModel.UserStore.constructor | models/User.js:3-50 | a collection starts from any set of users satisfying the schema, unique e-mails and unique badge names per user |
| CommentModel.NewComment | models/Comment.js:22-46 | a new comment holds the given event, author, parent, content and time, has no likes and no reports and is neither pinned nor deleted; it is valid exactly when its content is |
| CommentModel.ValidContent | models/Comment.js:15-21 | the schema's content checks: trimmed, and between 1 and 500 code units |
| CommentModel.ValidComment | models/Comment.js:15-46 | one stored comment: valid content, no user twice among the likers or the reporters, and flagged exactly when someone reported it |
| CommentModel.ReplyCount | models/Comment.js:56-61 | the `replyCount` virtual is bounded by the collection size and is zero exactly when no stored comment names this one as parent |
| CommentModel.CommentStore.constructor | models/Comment.js:3-49 | a collection starts from any set of valid comments whose threads are at most one level deep |
| CommentModel.CommentStore.Replace | controllers/commentController.js:143-144 | saving a stored comment that keeps its parent overwrites exactly that comment and keeps the collection valid |
| CommentModel.CommentStore.Insert | controllers/commentController.js:27-33 | saving a new comment stores it under a fresh id and nothing else; a reply must name a stored top-level comment |
| BadgeSystem.Meets | utils/badgeSystem.js:9-57 | the four shapes of `criteria`: a counter equal to a number, or event data reporting at least a number of attendees |
| BadgeSystem.CatalogueWellFormed | utils/badgeSystem.js:4-59 | the nine catalogue names are non-empty and pairwise distinct |
| BadgeSystem.AllBadges | utils/badgeSystem.js:147-153 | `getAllBadges` lists the nine entries in catalogue order with their name, description and icon |
| BadgeSystem.Records | utils/badgeSystem.js:87-92 | the pushed badge records, one per earned entry, in order, each stamped with the call's time |
| BadgeSystem.EarnedAmong | utils/badgeSystem.js:78-96 | over any list of entries, an entry is earned exactly when it is listed, not already held by name, and its criterion holds |
| BadgeSystem.Earned | utils/badgeSystem.js:78-96 | a catalogue entry is awarded exactly when the user does not hold a badge of that name and its criterion holds of the counters and event data |
| BadgeSystem.EarnedAmongInOrder | utils/badgeSystem.js:78 | awarded entries keep the relative order of the list they are drawn from |
| BadgeSystem.EarnedInCatalogueOrder | utils/badgeSystem.js:78 | badges are awarded in catalogue order |
| BadgeSystem.EarnedAmongDistinct | utils/badgeSystem.js:80-82 | no name is awarded twice in one walk over distinctly named entries |
| BadgeSystem.AwardKeepsNamesUnique | utils/badgeSystem.js:80-94 | if the user held no two badges of one name, the same is true after the award |
| BadgeSystem.AwardedNamesNonEmpty | models/User.js:27 | every awarded badge has a non-empty name, as the schema requires |
| BadgeSystem.EarnedIdempotent | utils/badgeSystem.js:80-86 | after an award, evaluating again with the same counters and event data awards nothing |
| BadgeSystem.Bump | utils/badgeSystem.js:128 | `stats[statType] += increment` moves the named counter by `increment` and leaves the other two alone |
| BadgeSystem.FirstStepOnUnitStep | utils/badgeSystem.js:9 | a unit step of the attended count awards "First Step" exactly when the count goes from 0 to 1 and the badge is not held |
| BadgeSystem.ActiveParticipantOnlyAtFive | utils/badgeSystem.js:15 | "Active Participant" is awarded exactly when the attended count is 5 and the badge is not held |
| BadgeSystem.ThresholdSkipped | utils/badgeSystem.js:15 | a step of several events that jumps over 5 misses "Active Participant", and so does any later count above the new one |
| BadgeSystem.PopularOrganizerNeedsEventData | utils/badgeSystem.js:39 | "Popular Organizer" is awarded exactly when it is not held and event data reports at least 50 attendees; never without event data |
| BadgeSystem.WalkStep | utils/badgeSystem.js:78-95 | one step of the walk over distinctly named entries: checking "held" against the growing list agrees with checking it against the badges held before the call, and the step pushes exactly the earned entry |
| BadgeSystem.AwardKeepsUsersValid | utils/badgeSystem.js:86-99 | storing the awarded badges keeps the User collection valid |
| BadgeSystem.EvaluateCatalogue | utils/badgeSystem.js:75-96 | for any catalogue with distinct names, the loop ends with the held badges followed by a record of each earned entry, and with the earned names in catalogue order |
| BadgeSystem.CheckAndAwardBadges | utils/badgeSystem.js:66-109 | an unknown user gets nothing and nothing changes; otherwise the earned names are answered and appended as badges, and no other user changes |
| BadgeSystem.UpdateStatsAndCheckBadges | utils/badgeSystem.js:118-142 | an unknown user gets nothing; otherwise one counter moves by `increment`, the engine runs on the new counters, and the new counters and awarded names are answered |
| BadgeSystem.SecondAwardNoop | utils/badgeSystem.js:80-99 | after an award the user has nothing left to earn, and writing the second result back leaves the collection as it was |
| BadgeSystem.CheckTwice | utils/badgeSystem.js:66-109 | running the engine twice in a row answers the earned names, then nothing; the collection ends as the first run left it |
| CommentController.ValidateContent | controllers/commentController.js:18-24 | content is accepted exactly when it is present, not all white space, and at most 500 code units; accepted content is answered trimmed and satisfies the schema; every rejection is a 400 |
| CommentController.IndexOf | controllers/commentController.js:203 | `indexOf` answers the first position holding the user, or -1 exactly when the user is absent |
| CommentController.ToggledLikes | controllers/commentController.js:203-210 | a toggle adds the caller at the end when absent and removes one occurrence when present; nobody else's like changes; on a duplicate-free list the caller's membership flips and the list stays duplicate-free |
| CommentController.ToggleTwice | controllers/commentController.js:203-210 | like-then-unlike restores the exact list; unlike-then-like restores the same set of likers |
| CommentController.ModerationCheck | controllers/commentController.js:323-326 | an admin always passes; anyone else passes exactly when they created the comment's event; a missing event is a 500, a foreign event a 403 |
| CommentController.CreateComment | controllers/commentController.js:5-46 | an unknown event is a 404, then the content checks; a known event with accepted content always succeeds, storing one new top-level comment with the trimmed content under a fresh id |
| CommentController.EditComment | controllers/commentController.js:113-156 | 404, then 400 on a deleted comment, then 403 for a non-author, then the content checks; on success only the content changes |
| CommentController.DeleteComment | controllers/commentController.js:159-184 | 404, then 403 for a non-author; the author's delete always succeeds, as a soft delete that only sets the deleted flag (again on an already deleted comment) |
| CommentController.ToggleLike | controllers/commentController.js:187-223 | 404, then 400 on a deleted comment; on a live comment it always succeeds: the caller's like flips, and the answer gives the new count and whether the caller now likes the comment |
| CommentController.ReplyToComment | controllers/commentController.js:226-275 | 404, 400 on a deleted parent, 400 on a parent that is a reply, then the content checks; the reply is stored on the parent's event, so threads stay one level deep |
| CommentController.ReportComment | controllers/commentController.js:278-307 | 404, 400 on a deleted comment, 400 for a repeat reporter; otherwise the reporter is recorded and the comment flagged |
| CommentController.PinComment | controllers/commentController.js:310-339 | 404, then the moderation check; the pinned flag flips and its new value is answered |
| CommentController.MarkReplies | controllers/commentController.js:365-368 | `updateMany({ parentId }, { isDeleted: true })` marks exactly the replies of the comment and changes nothing else |
| CommentController.TwoWritesCascade | controllers/commentController.js:361-368 | marking the comment and then its replies, in two writes, is the cascade delete |
| CommentController.MarkRepliesKeepsValid | controllers/commentController.js:364-367 | the bulk update of the replies keeps the Comment collection valid |
| CommentController.CascadeDeleted | controllers/commentController.js:361-368 | the cascade delete: the same comments, where only the deleted flag changes, and it is set on the comment and its replies |
| CommentController.DeleteThread | controllers/commentController.js:360-368 | the save of the comment followed by the bulk update of its replies leaves exactly the cascade delete, in a valid collection |
| CommentController.ModerateDelete | controllers/commentController.js:342-375 | 404, then the moderation check; the comment and all its replies are marked deleted |
| CommentController.GetComments | controllers/commentController.js:49-110 | 404 for an unknown event; otherwise exactly the visible top-level comments of the event, each with exactly its visible replies, its like count and whether the viewer likes it |
| CommentController.ListedOnce | controllers/commentController.js:61-91 | no reply is listed as a thread or under two threads, and replies under a deleted comment are listed nowhere |
| CommentController.ModerationHidesThread | controllers/commentController.js:361-368 | after a moderation delete the comment and all its replies disappear from the listing, and no other comment changes |
| CommentController.GetReportedComments | controllers/commentController.js:378-406 | exactly the reported, not deleted comments; an organizer's list is limited to events they created |
| CommentController.ReportedScopes | controllers/commentController.js:386-390 | an organizer sees a subset of what an admin sees; a student sees exactly what an admin sees |
| CommentController.StudentSeesForeignReports | controllers/commentController.js:386-390 | a student who created no event is shown a report on another user's event |
| CommentController.GetReportedCommentsForModerators | routes/commentRoutes.js:20-23 | students are refused with 403; organizers get exactly the reports on their own events; admins get every report |
| UserController.GetUserProfile | controllers/userController.js:8-41 | the stored user for a known id, otherwise 404 "User not found" |
| UserController.ApplyProfilePatch | controllers/userController.js:57-68 | each supplied field (bio, phone, department, year, interests) replaces the stored one and each absent one is kept; the avatar is kept; without a `socialLinks` object the links are kept, with one only its supplied keys change |
| UserController.ApplySocialLinksPatch | controllers/userController.js:63-68 | each supplied social-link key replaces the stored link; each absent key keeps it |
| UserController.ProfilePatchIdempotent | controllers/userController.js:57-68 | sending the same update twice stores the same profile as sending it once; an empty update changes nothing |
| UserController.ProfilePatchValidity | controllers/userController.js:57-70 | starting from a stored profile, the update passes the schema exactly when the supplied bio is at most 500 code units and the supplied year is in the enum |
| UserController.UpdateMyProfile | controllers/userController.js:46-84 | 404, then the supplied fields are stored field by field as ApplyProfilePatch states; a profile the schema rejects is a 500 that stores nothing |
| UserController.LastTwo | controllers/userController.js:104 | `slice(-2)`: the last two segments, or all of them when there are fewer |
| UserController.PublicId | controllers/userController.js:104 | the public id contains no `.` and at most one `/` |
| UserController.PublicIdIsInfix | controllers/userController.js:104 | the public id is a contiguous piece of the avatar URL |
| UserController.PublicIdOfHostedPath | controllers/userController.js:104 | for `prefix/folder/name.ext` the public id is `folder/name` |
| UserController.UploadAvatar | controllers/userController.js:89-124 | no file is a 400 before any lookup, then 404; otherwise the new URL is stored and answered, and the old image's public id is destroyed exactly when there was an old avatar |
| UserController.InsertByDateDesc | controllers/userController.js:137 | one insertion step adds exactly the one event to the list |
| UserController.InsertKeepsSorted | controllers/userController.js:137 | inserting into a newest-first list keeps it newest first |
| UserController.SortByDateDesc | controllers/userController.js:137-142 | `sort({ date: -1 })` yields the same events, newest first |
| UserController.Filter | controllers/userController.js:134-142 | a query keeps each selected event as often as it is stored and drops every other |
| UserController.GetUserEventHistory | controllers/userController.js:129-153 | the published events the user attends and every event the user created, each list newest first and each holding exactly the matching events |
| UserController.AwardBadge | controllers/userController.js:158-189 | 404, then 400 when a badge of that name is held, then 500 for a missing or empty name; otherwise the badge is appended, stamped with the time, and answered |
| UserController.AwardTwice | controllers/userController.js:170-174 | a name awarded once is refused with 400 the second time |
| UserController.ApplyEmailPatch | controllers/userController.js:205-221 | without an `email` object the preferences are unchanged |
| UserController.EmailPatchFields | controllers/userController.js:205-221 | each of the five flags is stored as the request gave it, or kept when the request left it out |
| UserController.EmailPatchIdempotent | controllers/userController.js:205-221 | the same request twice stores what it stores once; an empty `email` object changes nothing |
| UserController.UpdateNotificationPreferences | controllers/userController.js:194-237 | 404, otherwise the supplied flags are stored and nothing else of the user changes |

## Left out

- Persistence, `async`/`await` and concurrency are not modelled. Each handler runs as one atomic step over the collections. Races between concurrent requests are not modelled.
- The catch-all 500 answers for database failures are not modelled. Only the failures that follow from the data are: schema rejections and the `null` event in pin and moderate-delete.
- Malformed document ids in a request are not modelled. Ids are naturals, so the cast error such an id raises (a 500) does not arise.
- `populate` projections are not modelled: the author's name, e-mail, avatar and role on comments, and the organizer on history entries. Neither are the password exclusion on profile reads, passwords themselves, and the `createdAt`/`updatedAt` timestamps. The one exception is a comment's `createdAt`, which is the `now` parameter.
- The clock is a parameter `now` (`earnedAt`, comment creation).
- The image host is left out. `uploadAvatar` answers the public id it would destroy. The upload itself, the destroy call and its logged failure are not modelled.
- The `increment = 1` default of `updateStatsAndCheckBadges` is not modelled: the caller always passes `increment`. An unknown `statType` string, which yields `NaN` in the source, is not modelled: `StatType` is closed. Non-numeric counters are not modelled either.
- Request bodies carrying `null` or values of the wrong type are not modelled. A field is either absent (`None`) or a value of the schema's type. So `null` fields, numbers cast to strings and non-object `socialLinks` do not arise.
- CommentController.GetComments: does not model the sort orders (`latest`, `oldest`, `likes`, pinned first) or the replies' oldest-first order. Threads are a map from comment id, and replies a set of ids.
- CommentController.GetReportedComments: does not model the newest-first order. The answer is the set of matching comment ids.
- UserController.GetUserEventHistory: Mongo's order among events with the same date is not specified. The model promises only newest-first order and the same events.
- The e-mail templates, the routes and authentication middleware, the event and analytics controllers, and the frontend are not part of this model. The caller's id and role are parameters.

## Findings

| source | as written | input that shows it | evidently intended | confidence | as-written member | corrected member |
|---|---|---|---|---|---|---|
| controllers/commentController.js:378-390 | the reported-comments listing filters organizers by the events they created and applies no check to any other role; the route, labelled organizer/admin only, has no guard | a student, who created no event, asks for the reported comments and receives every report on every event | students are refused; organizers see reports on their own events; admins see all | medium, not executed | CommentController.StudentSeesForeignReports | CommentController.GetReportedCommentsForModerators |
