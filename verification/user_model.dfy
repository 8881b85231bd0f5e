/**
 * The User document (models/User.js) and the User collection.
 * The password hash and the timestamps are not part of this model.
 */
module UserModel {
  import opened Common
  import opened JsString

  datatype Role = Student | Organizer | Admin

  function RoleName(r: Role): string {
    match r
    case Student => "student"
    case Organizer => "organizer"
    case Admin => "admin"
  }

  /** The enum validator for `role`. */
  function ParseRole(s: string): (r: Option<Role>)
    ensures r.Some? ==> RoleName(r.value) == s
    ensures forall x: Role :: RoleName(x) == s ==> r == Some(x)
  {
    if s == "student" then Some(Student)
    else if s == "organizer" then Some(Organizer)
    else if s == "admin" then Some(Admin)
    else None
  }

  datatype SocialLinks = SocialLinks(linkedin: string, github: string, twitter: string, instagram: string)

  datatype Profile = Profile(
    avatar: string,
    bio: string,
    phone: string,
    department: string,
    year: string,
    interests: seq<string>,
    socialLinks: SocialLinks)

  /** The values the `year` enum admits; the empty string is the default. */
  const YearValues: seq<string> := ["1st", "2nd", "3rd", "4th", "Alumni", ""]

  const MaxBioLength: nat := 500

  /** What the schema checks of a profile when the document is saved. */
  predicate ValidProfile(p: Profile) {
    Utf16Length(p.bio) <= MaxBioLength && p.year in YearValues
  }

  /** An earned badge; `earnedAt` is a timestamp. */
  datatype Badge = Badge(name: string, description: Option<string>, icon: Option<string>, earnedAt: int)

  /** The three progress counters (JavaScript numbers). */
  datatype Stats = Stats(eventsAttended: int, eventsOrganized: int, commentsPosted: int)

  /** The counter names `user.stats[statType]` may select. */
  datatype StatType = EventsAttended | EventsOrganized | CommentsPosted

  /** `stats[statType]`. */
  function Counter(s: Stats, t: StatType): int {
    match t
    case EventsAttended => s.eventsAttended
    case EventsOrganized => s.eventsOrganized
    case CommentsPosted => s.commentsPosted
  }

  datatype EmailPreferences = EmailPreferences(
    enabled: bool,
    eventReminders: bool,
    eventUpdates: bool,
    comments: bool,
    registrations: bool)

  datatype User = User(
    name: string,
    email: string,
    role: Role,
    profile: Profile,
    badges: seq<Badge>,
    stats: Stats,
    notifications: EmailPreferences)

  /** The badge names, in the order the badges were earned. */
  function Names(badges: seq<Badge>): (r: seq<string>)
    ensures |r| == |badges|
    ensures forall i :: 0 <= i < |badges| ==> r[i] == badges[i].name
  {
    seq(|badges|, i requires 0 <= i < |badges| => badges[i].name)
  }

  lemma NamesAppend(a: seq<Badge>, b: seq<Badge>)
    ensures Names(a + b) == Names(a) + Names(b)
  {
  }

  /** No two badges of the list share a name. */
  predicate UniqueNames(badges: seq<Badge>) {
    forall i, j :: 0 <= i < j < |badges| ==> badges[i].name != badges[j].name
  }

  /** Schema validity of one user: required strings present, profile bounds, every badge named. */
  predicate ValidUser(u: User) {
    && u.name != []
    && u.email != []
    && ValidProfile(u.profile)
    && forall i :: 0 <= i < |u.badges| ==> u.badges[i].name != []
  }

  /**
   * A new user document holding only the required fields: the role defaults to
   * student, the profile to empty strings, the counters to 0, every e-mail flag to true.
   */
  function NewUser(name: string, email: string, role: Option<Role>): (u: User)
    ensures u.role == (if role.Some? then role.value else Student)
    ensures u.badges == [] && u.stats == Stats(0, 0, 0)
    ensures u.name == name && u.email == email
    ensures u.profile == Profile("", "", "", "", "", [], SocialLinks("", "", "", ""))
    ensures u.notifications == EmailPreferences(true, true, true, true, true)
    ensures ValidUser(u) <==> name != [] && email != []
  {
    var noLinks := SocialLinks("", "", "", "");
    User(name, email, if role.Some? then role.value else Student,
         Profile("", "", "", "", "", [], noLinks),
         [], Stats(0, 0, 0), EmailPreferences(true, true, true, true, true))
  }

  /**
   * What every state of the collection satisfies: each user is valid and holds
   * uniquely named badges, and no two users share an e-mail address (the unique index).
   */
  predicate ValidUsers(users: map<UserId, User>) {
    && (forall id :: id in users ==> ValidUser(users[id]) && UniqueNames(users[id].badges))
    && (forall a, b :: a in users && b in users && a != b ==> users[a].email != users[b].email)
  }

  /** The User collection. */
  class UserStore {
    var users: map<UserId, User>

    ghost predicate Valid()
      reads this
    {
      ValidUsers(users)
    }

    constructor (initial: map<UserId, User>)
      requires ValidUsers(initial)
      ensures Valid() && users == initial
    {
      users := initial;
    }
  }
}
