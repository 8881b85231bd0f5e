/** The Event document (models/Event.js): closed enums, a nullable capacity and reference lists. */
module EventModel {
  import opened Common

  datatype Category = Sports | Tech | Cultural | Workshop | Seminar | Competition

  datatype Status = Draft | Published | Cancelled

  /** The stored spelling of each category. */
  function CategoryName(c: Category): string {
    match c
    case Sports => "Sports"
    case Tech => "Tech"
    case Cultural => "Cultural"
    case Workshop => "Workshop"
    case Seminar => "Seminar"
    case Competition => "Competition"
  }

  /** The enum validator: a string is a category exactly when it is one of the six spellings. */
  function ParseCategory(s: string): (r: Option<Category>)
    ensures r.Some? ==> CategoryName(r.value) == s
    ensures forall c: Category :: CategoryName(c) == s ==> r == Some(c)
  {
    if s == "Sports" then Some(Sports)
    else if s == "Tech" then Some(Tech)
    else if s == "Cultural" then Some(Cultural)
    else if s == "Workshop" then Some(Workshop)
    else if s == "Seminar" then Some(Seminar)
    else if s == "Competition" then Some(Competition)
    else None
  }

  function StatusName(s: Status): string {
    match s
    case Draft => "draft"
    case Published => "published"
    case Cancelled => "cancelled"
  }

  function ParseStatus(s: string): (r: Option<Status>)
    ensures r.Some? ==> StatusName(r.value) == s
    ensures forall t: Status :: StatusName(t) == s ==> r == Some(t)
  {
    if s == "draft" then Some(Draft)
    else if s == "published" then Some(Published)
    else if s == "cancelled" then Some(Cancelled)
    else None
  }

  /**
   * An event document. `capacity == None` is the schema's `null`: no limit.
   * `views` and `attendees` are lists of user references; `createdBy` is the owner.
   */
  datatype Event = Event(
    title: string,
    description: string,
    date: int,
    location: string,
    category: Category,
    capacity: Option<int>,
    banner: Option<string>,
    status: Status,
    featured: bool,
    views: seq<UserId>,
    createdBy: UserId,
    attendees: seq<UserId>)

  /** The schema's required strings are present (Mongoose rejects an empty required string). */
  predicate ValidEvent(e: Event) {
    e.title != [] && e.description != [] && e.location != []
  }

  /** A new event document holding only the required fields: everything else takes its default. */
  function NewEvent(title: string, description: string, date: int, location: string,
                    category: Category, createdBy: UserId): (e: Event)
    ensures e.capacity == None && e.banner == None
    ensures e.status == Published && !e.featured
    ensures e.views == [] && e.attendees == []
    ensures e.createdBy == createdBy && e.category == category && e.date == date
    ensures ValidEvent(e) <==> title != [] && description != [] && location != []
  {
    Event(title, description, date, location, category, None, None, Published, false, [], createdBy, [])
  }
}
