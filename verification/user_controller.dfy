/**
 * The user handlers (controllers/userController.js): profile lookup and
 * update, avatar replacement, event history, manual badge awards and e-mail
 * preferences. A save that breaks the schema throws, and the handler answers
 * 500 "Server error" with nothing stored.
 */
module UserController {
  import opened Common
  import opened JsString
  import opened EventModel
  import opened UserModel

  const UserNotFound: HttpError := HttpError(NotFound, "User not found")
  const ServerFailure: HttpError := HttpError(ServerError, "Server error")

  /** `getUserProfile` and `getMyProfile`: the stored user (the password is not part of the model), or 404. */
  function GetUserProfile(users: map<UserId, User>, id: UserId): (r: Result<User>)
    ensures r.Ok? <==> id in users
    ensures r.Ok? ==> r.value == users[id]
    ensures r.Err? ==> r.error == UserNotFound
  {
    if id in users then Ok(users[id]) else Err(UserNotFound)
  }

  /** `value !== undefined ? value : current`. */
  function Patched<T>(current: T, update: Option<T>): T {
    if update.Some? then update.value else current
  }

  /** The fields of `req.body.socialLinks`; `None` is a field left undefined. */
  datatype SocialLinksPatch = SocialLinksPatch(
    linkedin: Option<string>,
    github: Option<string>,
    twitter: Option<string>,
    instagram: Option<string>)

  /** The fields `updateMyProfile` reads from the request body. */
  datatype ProfilePatch = ProfilePatch(
    bio: Option<string>,
    phone: Option<string>,
    department: Option<string>,
    year: Option<string>,
    interests: Option<seq<string>>,
    socialLinks: Option<SocialLinksPatch>)

  /** `if (socialLinks.k !== undefined) ...` for each key: a defined key replaces the stored link, an undefined one keeps it. */
  function ApplySocialLinksPatch(links: SocialLinks, patch: SocialLinksPatch): (r: SocialLinks)
    ensures patch.linkedin.Some? ==> r.linkedin == patch.linkedin.value
    ensures patch.linkedin.None? ==> r.linkedin == links.linkedin
    ensures patch.github.Some? ==> r.github == patch.github.value
    ensures patch.github.None? ==> r.github == links.github
    ensures patch.twitter.Some? ==> r.twitter == patch.twitter.value
    ensures patch.twitter.None? ==> r.twitter == links.twitter
    ensures patch.instagram.Some? ==> r.instagram == patch.instagram.value
    ensures patch.instagram.None? ==> r.instagram == links.instagram
  {
    SocialLinks(Patched(links.linkedin, patch.linkedin), Patched(links.github, patch.github),
                Patched(links.twitter, patch.twitter), Patched(links.instagram, patch.instagram))
  }

  /**
   * The profile after `updateMyProfile` copies the supplied fields: each given
   * field replaces the stored one, the others and the avatar are kept.
   */
  function ApplyProfilePatch(p: Profile, patch: ProfilePatch): (r: Profile)
    ensures r.avatar == p.avatar
    ensures patch.bio.Some? ==> r.bio == patch.bio.value
    ensures patch.bio.None? ==> r.bio == p.bio
    ensures patch.phone.Some? ==> r.phone == patch.phone.value
    ensures patch.phone.None? ==> r.phone == p.phone
    ensures patch.department.Some? ==> r.department == patch.department.value
    ensures patch.department.None? ==> r.department == p.department
    ensures patch.year.Some? ==> r.year == patch.year.value
    ensures patch.year.None? ==> r.year == p.year
    ensures patch.interests.Some? ==> r.interests == patch.interests.value
    ensures patch.interests.None? ==> r.interests == p.interests
    ensures patch.socialLinks.None? ==> r.socialLinks == p.socialLinks
    ensures patch.socialLinks.Some? ==> r.socialLinks == ApplySocialLinksPatch(p.socialLinks, patch.socialLinks.value)
  {
    Profile(p.avatar,
            Patched(p.bio, patch.bio),
            Patched(p.phone, patch.phone),
            Patched(p.department, patch.department),
            Patched(p.year, patch.year),
            Patched(p.interests, patch.interests),
            if patch.socialLinks.Some? then ApplySocialLinksPatch(p.socialLinks, patch.socialLinks.value) else p.socialLinks)
  }

  /** Sending the same update twice stores what sending it once stores; an empty body changes nothing. */
  lemma ProfilePatchIdempotent(p: Profile, patch: ProfilePatch)
    ensures ApplyProfilePatch(ApplyProfilePatch(p, patch), patch) == ApplyProfilePatch(p, patch)
    ensures ApplyProfilePatch(p, ProfilePatch(None, None, None, None, None, None)) == p
    ensures ApplyProfilePatch(p, ProfilePatch(None, None, None, None, None, Some(SocialLinksPatch(None, None, None, None)))) == p
  {
  }

  /**
   * Starting from a stored (valid) profile, the updated profile passes the
   * schema exactly when the supplied bio is at most 500 code units and the
   * supplied year is one of the enum values.
   */
  lemma ProfilePatchValidity(p: Profile, patch: ProfilePatch)
    requires ValidProfile(p)
    ensures ValidProfile(ApplyProfilePatch(p, patch)) <==>
      && (patch.bio.None? || Utf16Length(patch.bio.value) <= MaxBioLength)
      && (patch.year.None? || patch.year.value in YearValues)
  {
  }

  /**
   * `updateMyProfile`: 404 for an unknown caller; otherwise the supplied fields
   * are copied and saved, and a profile the schema rejects is a 500 that stores nothing.
   */
  method UpdateMyProfile(store: UserStore, caller: UserId, patch: ProfilePatch) returns (r: Result<User>)
    requires store.Valid()
    modifies store
    ensures store.Valid()
    ensures caller !in old(store.users) ==> r == Err(UserNotFound)
    ensures caller in old(store.users) ==>
      var u := old(store.users)[caller];
      var profile := ApplyProfilePatch(u.profile, patch);
      if ValidProfile(profile) then r == Ok(u.(profile := profile)) && store.users == old(store.users)[caller := r.value]
      else r == Err(ServerFailure)
    ensures r.Err? ==> store.users == old(store.users)
  {
    if caller !in store.users {
      return Err(UserNotFound);
    }
    var u := store.users[caller];
    var profile := ApplyProfilePatch(u.profile, patch);
    if !ValidProfile(profile) {
      return Err(ServerFailure);
    }
    var updated := u.(profile := profile);
    store.users := store.users[caller := updated];
    r := Ok(updated);
  }

  /** `arr.slice(-2)`: the last two elements, or all of them when there are fewer. */
  function LastTwo(parts: seq<string>): (r: seq<string>)
    ensures |r| == (if |parts| >= 2 then 2 else |parts|)
    ensures r == parts[|parts| - |r|..]
  {
    if |parts| >= 2 then parts[|parts| - 2..] else parts
  }

  /** `s` holds `c` at most once. */
  predicate AtMostOnce(s: string, c: char) {
    forall i, j :: 0 <= i < j < |s| && s[i] == c ==> s[j] != c
  }

  /**
   * The storage id of an avatar URL: its last two `/`-separated segments
   * (folder and file name) with everything from the first `.` dropped.
   */
  function PublicId(url: string): (id: string)
    ensures '.' !in id
    ensures AtMostOnce(id, '/')
  {
    var tail := Join(LastTwo(Split(url, '/')), '/');
    var id := Split(tail, '.')[0];
    TailHasOneSlash(Split(url, '/'));
    PrefixOfSplit(tail, '.');
    id
  }

  /** The first piece of a split is a prefix of the string. */
  lemma PrefixOfSplit(s: string, sep: char)
    ensures |Split(s, sep)[0]| <= |s| && s[..|Split(s, sep)[0]|] == Split(s, sep)[0]
  {
    JoinSplit(s, sep);
    JoinStartsWithFirst(Split(s, sep), sep);
  }

  /** Joining at most two slash-free pieces with `/` gives a string with at most one `/`, and so does every prefix of it. */
  lemma TailHasOneSlash(parts: seq<string>)
    requires |parts| >= 1
    requires forall i :: 0 <= i < |parts| ==> '/' !in parts[i]
    ensures forall n :: 0 <= n <= |Join(LastTwo(parts), '/')| ==> AtMostOnce(Join(LastTwo(parts), '/')[..n], '/')
  {
    var last := LastTwo(parts);
    if |last| == 2 {
      assert last[1..] == [last[1]];
      var tail := Join(last, '/');
      assert tail == last[0] + ['/'] + last[1];
      assert forall i :: 0 <= i < |last[0]| ==> tail[i] == last[0][i];
      assert forall i :: |last[0]| < i < |tail| ==> tail[i] == last[1][i - |last[0]| - 1];
    }
  }

  /** The last two segments, joined back, are the end of the URL. */
  lemma LastTwoIsSuffix(url: string) returns (lo: nat)
    ensures lo <= |url|
    ensures url[lo..] == Join(LastTwo(Split(url, '/')), '/')
  {
    var parts := Split(url, '/');
    var k := if |parts| >= 2 then |parts| - 2 else 0;
    JoinSplit(url, '/');
    JoinSuffix(parts, '/', k);
    assert LastTwo(parts) == parts[k..];
    lo := |url| - |Join(parts[k..], '/')|;
  }

  /** The public id is a piece of the URL: the text at some offset of it. */
  lemma PublicIdIsInfix(url: string) returns (lo: nat)
    ensures lo + |PublicId(url)| <= |url|
    ensures url[lo..lo + |PublicId(url)|] == PublicId(url)
  {
    lo := LastTwoIsSuffix(url);
    var tail := Join(LastTwo(Split(url, '/')), '/');
    var id := PublicId(url);
    assert id == Split(tail, '.')[0];
    PrefixOfSplit(tail, '.');
    assert url[lo..][..|id|] == id;
  }

  /** The last two segments of `prefix/folder/file`, joined back, are `folder/file`. */
  lemma HostedTail(prefix: string, folder: string, file: string)
    requires '/' !in folder && '/' !in file
    ensures Join(LastTwo(Split(prefix + ['/'] + (folder + ['/'] + file), '/')), '/') == folder + ['/'] + file
  {
    SplitConcat(prefix, '/', folder + ['/'] + file);
    SplitConcat(folder, '/', file);
    SplitWithoutSeparator(folder, '/');
    SplitWithoutSeparator(file, '/');
    assert LastTwo(Split(prefix, '/') + [folder, file]) == [folder, file];
    assert [folder, file][1..] == [file];
    assert Join([file], '/') == file;
  }

  /**
   * For a hosted image URL `prefix/folder/name.ext` (folder and name free of `/`
   * and `.`, the extension free of `/`) the public id is `folder/name`.
   */
  lemma PublicIdOfHostedPath(prefix: string, folder: string, name: string, ext: string)
    requires '/' !in folder && '.' !in folder
    requires '/' !in name && '.' !in name
    requires '/' !in ext
    ensures PublicId(prefix + ['/'] + (folder + ['/'] + (name + ['.'] + ext))) == folder + ['/'] + name
  {
    var file := name + ['.'] + ext;
    assert '/' !in file;
    HostedTail(prefix, folder, file);
    assert '.' !in folder + ['/'];
    SplitFirstPiece(folder + ['/'], file, '.');
    SplitConcat(name, '.', ext);
    SplitWithoutSeparator(name, '.');
  }

  /** What `uploadAvatar` answers, with the id of the old image it asks the image host to destroy, when there was one. */
  datatype AvatarUpload = AvatarUpload(avatarUrl: string, destroyedPublicId: Option<string>)

  /**
   * `uploadAvatar`: 400 when no file came with the request (before any lookup),
   * then 404; otherwise the old image, if any, is destroyed and the new URL stored.
   */
  method UploadAvatar(store: UserStore, caller: UserId, filePath: Option<string>) returns (r: Result<AvatarUpload>)
    requires store.Valid()
    modifies store
    ensures store.Valid()
    ensures filePath.None? ==> r == Err(HttpError(BadRequest, "Please upload an image"))
    ensures filePath.Some? && caller !in old(store.users) ==> r == Err(UserNotFound)
    ensures filePath.Some? && caller in old(store.users) ==>
      var u := old(store.users)[caller];
      && r == Ok(AvatarUpload(filePath.value, if u.profile.avatar != [] then Some(PublicId(u.profile.avatar)) else None))
      && store.users == old(store.users)[caller := u.(profile := u.profile.(avatar := filePath.value))]
    ensures r.Err? ==> store.users == old(store.users)
  {
    if filePath.None? {
      return Err(HttpError(BadRequest, "Please upload an image"));
    }
    if caller !in store.users {
      return Err(UserNotFound);
    }
    var u := store.users[caller];
    var destroyed: Option<string> := None;
    if u.profile.avatar != [] {
      destroyed := Some(PublicId(u.profile.avatar));
    }
    store.users := store.users[caller := u.(profile := u.profile.(avatar := filePath.value))];
    r := Ok(AvatarUpload(filePath.value, destroyed));
  }

  /** Newest first. */
  predicate SortedByDateDesc(s: seq<Event>) {
    forall i, j :: 0 <= i < j < |s| ==> s[i].date >= s[j].date
  }

  /** One step of the insertion: `e` goes before the first event that is not newer than it. */
  function InsertByDateDesc(e: Event, sorted: seq<Event>): (r: seq<Event>)
    ensures multiset(r) == multiset(sorted) + multiset{e}
  {
    if sorted == [] || sorted[0].date <= e.date then [e] + sorted
    else
      assert sorted == [sorted[0]] + sorted[1..];
      [sorted[0]] + InsertByDateDesc(e, sorted[1..])
  }

  /** Inserting into a newest-first list keeps it newest first. */
  lemma {:induction false} InsertKeepsSorted(e: Event, sorted: seq<Event>)
    requires SortedByDateDesc(sorted)
    ensures SortedByDateDesc(InsertByDateDesc(e, sorted))
  {
    if sorted == [] || sorted[0].date <= e.date {
      ConsSorted(e, sorted);
    } else {
      var rest := InsertByDateDesc(e, sorted[1..]);
      InsertKeepsSorted(e, sorted[1..]);
      forall j | 0 <= j < |rest|
        ensures rest[j].date <= sorted[0].date
      {
        assert rest[j] in multiset(sorted[1..]) + multiset{e};
      }
      ConsSorted(sorted[0], rest);
    }
  }

  lemma ConsSorted(x: Event, s: seq<Event>)
    requires SortedByDateDesc(s)
    requires forall j :: 0 <= j < |s| ==> s[j].date <= x.date
    ensures SortedByDateDesc([x] + s)
  {
    var r := [x] + s;
    assert forall j :: 1 <= j < |r| ==> r[j] == s[j - 1];
  }

  /** `sort({ date: -1 })`: the same events, newest first (ties in either order). */
  function SortByDateDesc(s: seq<Event>): (r: seq<Event>)
    ensures SortedByDateDesc(r)
    ensures multiset(r) == multiset(s)
  {
    if s == [] then []
    else
      assert s == [s[0]] + s[1..];
      var sortedTail := SortByDateDesc(s[1..]);
      InsertKeepsSorted(s[0], sortedTail);
      InsertByDateDesc(s[0], sortedTail)
  }

  /** The events of a query: those `keep` selects, each as often as it is stored. */
  function Filter(events: seq<Event>, keep: Event -> bool): (r: seq<Event>)
    ensures forall e :: multiset(r)[e] == if keep(e) then multiset(events)[e] else 0
  {
    if events == [] then []
    else
      assert events == [events[0]] + events[1..];
      (if keep(events[0]) then [events[0]] else []) + Filter(events[1..], keep)
  }

  /** The two lists of `getUserEventHistory`. */
  datatype EventHistory = EventHistory(attendedEvents: seq<Event>, organizedEvents: seq<Event>)

  /**
   * `getUserEventHistory`: the published events the user is registered for, and
   * every event the user created whatever its status, each list newest first.
   */
  function GetUserEventHistory(events: seq<Event>, u: UserId): (r: EventHistory)
    ensures SortedByDateDesc(r.attendedEvents) && SortedByDateDesc(r.organizedEvents)
    ensures forall e :: multiset(r.attendedEvents)[e] ==
               if u in e.attendees && e.status == Published then multiset(events)[e] else 0
    ensures forall e :: multiset(r.organizedEvents)[e] == if e.createdBy == u then multiset(events)[e] else 0
  {
    EventHistory(
      SortByDateDesc(Filter(events, (e: Event) => u in e.attendees && e.status == Published)),
      SortByDateDesc(Filter(events, (e: Event) => e.createdBy == u)))
  }

  /**
   * `awardBadge`: 404, then 400 when the user already holds a badge of that
   * name; a missing or empty name fails the schema's `required` on save (500).
   * Otherwise the badge is appended, stamped `now`, and answered.
   */
  method AwardBadge(store: UserStore, userId: UserId, name: Option<string>, description: Option<string>,
                    icon: Option<string>, now: int)
    returns (r: Result<Badge>)
    requires store.Valid()
    modifies store
    ensures store.Valid()
    ensures userId !in old(store.users) ==> r == Err(UserNotFound)
    ensures userId in old(store.users) ==>
      var u := old(store.users)[userId];
      if name.Some? && name.value in Names(u.badges) then r == Err(HttpError(BadRequest, "User already has this badge"))
      else if name.None? || name.value == [] then r == Err(ServerFailure)
      else
        && r == Ok(Badge(name.value, description, icon, now))
        && store.users == old(store.users)[userId := u.(badges := u.badges + [r.value])]
    ensures r.Err? ==> store.users == old(store.users)
  {
    if userId !in store.users {
      return Err(UserNotFound);
    }
    var u := store.users[userId];
    if name.Some? && name.value in Names(u.badges) {
      return Err(HttpError(BadRequest, "User already has this badge"));
    }
    if name.None? || name.value == [] {
      return Err(ServerFailure);
    }
    var badge := Badge(name.value, description, icon, now);
    var badges := u.badges + [badge];
    assert Names(badges) == Names(u.badges) + [badge.name] by { NamesAppend(u.badges, [badge]); }
    store.users := store.users[userId := u.(badges := badges)];
    r := Ok(badges[|badges| - 1]);
  }

  /** A badge awarded once cannot be awarded again under the same name. */
  method AwardTwice(store: UserStore, userId: UserId, name: string, now: int, later: int)
    returns (first: Result<Badge>, second: Result<Badge>)
    requires store.Valid()
    modifies store
    ensures first.Ok? ==> second == Err(HttpError(BadRequest, "User already has this badge"))
  {
    first := AwardBadge(store, userId, Some(name), None, None, now);
    if first.Ok? {
      assert name == Names(store.users[userId].badges)[|store.users[userId].badges| - 1];
    }
    second := AwardBadge(store, userId, Some(name), None, None, later);
  }

  /** The fields of `req.body.email`; `None` is a field left undefined. */
  datatype EmailPatch = EmailPatch(
    enabled: Option<bool>,
    eventReminders: Option<bool>,
    eventUpdates: Option<bool>,
    comments: Option<bool>,
    registrations: Option<bool>)

  /** The e-mail preferences after the supplied flags are copied over; without an `email` object nothing changes. */
  function ApplyEmailPatch(prefs: EmailPreferences, patch: Option<EmailPatch>): (r: EmailPreferences)
    ensures patch.None? ==> r == prefs
  {
    if patch.None? then prefs
    else
      var e := patch.value;
      EmailPreferences(Patched(prefs.enabled, e.enabled), Patched(prefs.eventReminders, e.eventReminders),
                       Patched(prefs.eventUpdates, e.eventUpdates), Patched(prefs.comments, e.comments),
                       Patched(prefs.registrations, e.registrations))
  }

  /** Each flag ends as the request gave it, or as stored when the request left it out. */
  lemma EmailPatchFields(prefs: EmailPreferences, patch: EmailPatch)
    ensures var r := ApplyEmailPatch(prefs, Some(patch));
      && r.enabled == (if patch.enabled.Some? then patch.enabled.value else prefs.enabled)
      && r.eventReminders == (if patch.eventReminders.Some? then patch.eventReminders.value else prefs.eventReminders)
      && r.eventUpdates == (if patch.eventUpdates.Some? then patch.eventUpdates.value else prefs.eventUpdates)
      && r.comments == (if patch.comments.Some? then patch.comments.value else prefs.comments)
      && r.registrations == (if patch.registrations.Some? then patch.registrations.value else prefs.registrations)
  {
  }

  /** The same request twice stores what it stores once; an empty `email` object changes nothing. */
  lemma EmailPatchIdempotent(prefs: EmailPreferences, patch: Option<EmailPatch>)
    ensures ApplyEmailPatch(ApplyEmailPatch(prefs, patch), patch) == ApplyEmailPatch(prefs, patch)
    ensures ApplyEmailPatch(prefs, Some(EmailPatch(None, None, None, None, None))) == prefs
  {
  }

  /** `updateNotificationPreferences`: 404, otherwise the supplied flags are stored; nothing else of the user changes. */
  method UpdateNotificationPreferences(store: UserStore, caller: UserId, email: Option<EmailPatch>)
    returns (r: Result<User>)
    requires store.Valid()
    modifies store
    ensures store.Valid()
    ensures caller !in old(store.users) ==> r == Err(UserNotFound) && store.users == old(store.users)
    ensures caller in old(store.users) ==>
      var u := old(store.users)[caller];
      && r == Ok(u.(notifications := ApplyEmailPatch(u.notifications, email)))
      && store.users == old(store.users)[caller := r.value]
  {
    if caller !in store.users {
      return Err(UserNotFound);
    }
    var u := store.users[caller];
    var updated := u.(notifications := ApplyEmailPatch(u.notifications, email));
    store.users := store.users[caller := updated];
    r := Ok(updated);
  }
}
