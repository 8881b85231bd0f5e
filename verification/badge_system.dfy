/**
 * The badge engine (utils/badgeSystem.js): a fixed, ordered catalogue of nine
 * badges, each awarded at most once when its criterion holds of the user's
 * counters or of the event data that comes with the call.
 */
module BadgeSystem {
  import opened Common
  import opened UserModel

  /**
   * A badge criterion. Count criteria compare with `===`, so they hold only at
   * the exact threshold; the attendee criterion compares with `>=` and needs event data.
   */
  datatype Criterion =
    | AttendedExactly(n: int)
    | OrganizedExactly(n: int)
    | CommentsExactly(n: int)
    | EventAttendeesAtLeast(n: int)

  /** The `eventData` object the registration flow passes: `{ attendeesCount }`. */
  datatype EventData = EventData(attendeesCount: int)

  datatype BadgeDef = BadgeDef(name: string, description: string, icon: string, criterion: Criterion)

  /** What `getAllBadges` reports of a catalogue entry. */
  datatype BadgeInfo = BadgeInfo(name: string, description: string, icon: string)

  /** `badge.criteria(user.stats, eventData)`. */
  predicate Meets(c: Criterion, stats: Stats, eventData: Option<EventData>) {
    match c
    case AttendedExactly(n) => stats.eventsAttended == n
    case OrganizedExactly(n) => stats.eventsOrganized == n
    case CommentsExactly(n) => stats.commentsPosted == n
    case EventAttendeesAtLeast(n) => eventData.Some? && eventData.value.attendeesCount >= n
  }

  /** The catalogue, in the order the engine evaluates it. */
  const Catalogue: seq<BadgeDef> := [
    BadgeDef("First Step", "Attended your first event", "\U{1F389}", AttendedExactly(1)),
    BadgeDef("Active Participant", "Attended 5 events", "\U{2B50}", AttendedExactly(5)),
    BadgeDef("Event Enthusiast", "Attended 10 events", "\U{1F3C6}", AttendedExactly(10)),
    BadgeDef("Event Veteran", "Attended 25 events", "\U{1F48E}", AttendedExactly(25)),
    BadgeDef("Event Creator", "Organized your first event", "\U{1F3AA}", OrganizedExactly(1)),
    BadgeDef("Popular Organizer", "Organized an event with 50+ attendees", "\U{1F31F}", EventAttendeesAtLeast(50)),
    BadgeDef("Super Organizer", "Organized 10 events", "\U{1F451}", OrganizedExactly(10)),
    BadgeDef("Conversation Starter", "Posted 10 comments", "\U{1F4AC}", CommentsExactly(10)),
    BadgeDef("Community Builder", "Posted 50 comments", "\U{1F91D}", CommentsExactly(50))
  ]

  /** Indices of the catalogue entries the lemmas below single out. */
  const FirstStep: nat := 0
  const ActiveParticipant: nat := 1
  const PopularOrganizer: nat := 5

  predicate DistinctNames(defs: seq<BadgeDef>) {
    forall i, j :: 0 <= i < j < |defs| ==> defs[i].name != defs[j].name
  }

  /** The catalogue names are distinct and non-empty. */
  lemma CatalogueWellFormed()
    ensures DistinctNames(Catalogue)
    ensures forall i :: 0 <= i < |Catalogue| ==> Catalogue[i].name != []
  {
  }

  /** `getAllBadges()`: name, description and icon of each catalogue entry, in catalogue order. */
  function AllBadges(): (r: seq<BadgeInfo>)
    ensures |r| == |Catalogue| == 9
    ensures forall i :: 0 <= i < |r| ==>
      r[i].name == Catalogue[i].name && r[i].description == Catalogue[i].description && r[i].icon == Catalogue[i].icon
  {
    seq(|Catalogue|, i requires 0 <= i < |Catalogue| =>
      BadgeInfo(Catalogue[i].name, Catalogue[i].description, Catalogue[i].icon))
  }

  /** The badge record pushed onto `user.badges` when `d` is earned at time `now`. */
  function Record(d: BadgeDef, now: int): Badge {
    Badge(d.name, Some(d.description), Some(d.icon), now)
  }

  function Records(defs: seq<BadgeDef>, now: int): (r: seq<Badge>)
    ensures |r| == |defs|
    ensures forall i :: 0 <= i < |defs| ==> r[i] == Record(defs[i], now)
  {
    seq(|defs|, i requires 0 <= i < |defs| => Record(defs[i], now))
  }

  /** `a` is `b` with some entries left out, the rest in the same order. */
  predicate IsSubsequence(a: seq<BadgeDef>, b: seq<BadgeDef>)
    decreases |b|
  {
    a == [] || (b != [] && (
      || (a[|a| - 1] == b[|b| - 1] && IsSubsequence(a[..|a| - 1], b[..|b| - 1]))
      || IsSubsequence(a, b[..|b| - 1])))
  }

  /**
   * The entries of `defs`, in order, that a user holding `held` earns with these
   * counters and this event data: not already held by name, criterion met.
   */
  function EarnedAmong(defs: seq<BadgeDef>, held: seq<Badge>, stats: Stats, eventData: Option<EventData>): (r: seq<BadgeDef>)
    ensures forall d :: d in r <==> d in defs && d.name !in Names(held) && Meets(d.criterion, stats, eventData)
  {
    if defs == [] then []
    else
      var prev := EarnedAmong(defs[..|defs| - 1], held, stats, eventData);
      var d := defs[|defs| - 1];
      assert defs == defs[..|defs| - 1] + [d];
      if d.name !in Names(held) && Meets(d.criterion, stats, eventData) then prev + [d] else prev
  }

  /** The catalogue entries a call of the engine awards. */
  function Earned(held: seq<Badge>, stats: Stats, eventData: Option<EventData>): (r: seq<BadgeDef>)
    ensures forall d :: d in r <==> d in Catalogue && d.name !in Names(held) && Meets(d.criterion, stats, eventData)
  {
    EarnedAmong(Catalogue, held, stats, eventData)
  }

  /** The awarded entries come in catalogue order. */
  lemma {:induction false} EarnedAmongInOrder(defs: seq<BadgeDef>, held: seq<Badge>, stats: Stats, eventData: Option<EventData>)
    ensures IsSubsequence(EarnedAmong(defs, held, stats, eventData), defs)
    decreases |defs|
  {
    if defs != [] {
      var front := defs[..|defs| - 1];
      EarnedAmongInOrder(front, held, stats, eventData);
      var prev := EarnedAmong(front, held, stats, eventData);
      var r := EarnedAmong(defs, held, stats, eventData);
      if r != prev {
        assert r == prev + [defs[|defs| - 1]];
        assert r[..|r| - 1] == prev;
      }
    }
  }

  lemma EarnedInCatalogueOrder(held: seq<Badge>, stats: Stats, eventData: Option<EventData>)
    ensures IsSubsequence(Earned(held, stats, eventData), Catalogue)
  {
    EarnedAmongInOrder(Catalogue, held, stats, eventData);
  }

  /** Entries picked from a list with distinct names have distinct names. */
  lemma {:induction false} EarnedAmongDistinct(defs: seq<BadgeDef>, held: seq<Badge>, stats: Stats, eventData: Option<EventData>)
    requires DistinctNames(defs)
    ensures DistinctNames(EarnedAmong(defs, held, stats, eventData))
    decreases |defs|
  {
    if defs != [] {
      var front := defs[..|defs| - 1];
      var d := defs[|defs| - 1];
      EarnedAmongDistinct(front, held, stats, eventData);
      var prev := EarnedAmong(front, held, stats, eventData);
      forall e | e in prev ensures e.name != d.name {
        var k :| 0 <= k < |front| && front[k] == e;
        assert defs[k] == e;
      }
    }
  }

  /** Awarding keeps the user's badge names unique: nothing held is awarded again, nothing twice. */
  lemma AwardKeepsNamesUnique(held: seq<Badge>, stats: Stats, eventData: Option<EventData>, now: int)
    requires UniqueNames(held)
    ensures UniqueNames(held + Records(Earned(held, stats, eventData), now))
  {
    var earned := Earned(held, stats, eventData);
    var all := held + Records(earned, now);
    CatalogueWellFormed();
    EarnedAmongDistinct(Catalogue, held, stats, eventData);
    forall i, j | 0 <= i < j < |all| ensures all[i].name != all[j].name {
      if j >= |held| {
        assert all[j].name == earned[j - |held|].name;
        if i < |held| {
          assert all[i].name in Names(held);
        }
      }
    }
  }

  /** Every awarded badge has a non-empty name. */
  lemma AwardedNamesNonEmpty(held: seq<Badge>, stats: Stats, eventData: Option<EventData>, now: int)
    ensures forall b :: b in Records(Earned(held, stats, eventData), now) ==> b.name != []
  {
    CatalogueWellFormed();
  }

  /** Idempotence: once the awards of a call are held, the same counters and event data award nothing more. */
  lemma {:induction false} EarnedIdempotent(held: seq<Badge>, stats: Stats, eventData: Option<EventData>, now: int)
    ensures Earned(held + Records(Earned(held, stats, eventData), now), stats, eventData) == []
  {
    var earned := Earned(held, stats, eventData);
    var after := held + Records(earned, now);
    NamesAppend(held, Records(earned, now));
    forall d | d in earned ensures d.name in Names(after) {
      var k :| 0 <= k < |earned| && earned[k] == d;
      assert Names(after)[|held| + k] == d.name;
    }
    NoMembersIsEmpty(Earned(after, stats, eventData));
  }

  lemma NoMembersIsEmpty(s: seq<BadgeDef>)
    ensures (forall d :: d !in s) ==> s == []
  {
    if s != [] {
      assert s[0] in s;
    }
  }

  /** `user.stats[statType] += increment`: exactly the named counter moves, by `increment`. */
  function Bump(stats: Stats, t: StatType, increment: int): (r: Stats)
    ensures Counter(r, t) == Counter(stats, t) + increment
    ensures forall u :: u != t ==> Counter(r, u) == Counter(stats, u)
  {
    match t
    case EventsAttended => stats.(eventsAttended := stats.eventsAttended + increment)
    case EventsOrganized => stats.(eventsOrganized := stats.eventsOrganized + increment)
    case CommentsPosted => stats.(commentsPosted := stats.commentsPosted + increment)
  }

  /** First Step is awarded by a unit step of `eventsAttended` exactly when the counter goes from 0 to 1 and it is not yet held. */
  lemma FirstStepOnUnitStep(held: seq<Badge>, stats: Stats, eventData: Option<EventData>)
    ensures Catalogue[FirstStep] in Earned(held, Bump(stats, EventsAttended, 1), eventData)
        <==> "First Step" !in Names(held) && stats.eventsAttended == 0
  {
  }

  /** The count badges only fire at the exact threshold: Active Participant needs `eventsAttended == 5`. */
  lemma ActiveParticipantOnlyAtFive(held: seq<Badge>, stats: Stats, eventData: Option<EventData>)
    ensures Catalogue[ActiveParticipant] in Earned(held, stats, eventData)
        <==> "Active Participant" !in Names(held) && stats.eventsAttended == 5
  {
  }

  /** A counter that jumps over a threshold skips the badge: 4 + 2 never earns Active Participant. */
  lemma ThresholdSkipped(held: seq<Badge>, stats: Stats, eventData: Option<EventData>, increment: int)
    requires stats.eventsAttended < 5 < stats.eventsAttended + increment
    ensures Catalogue[ActiveParticipant] !in Earned(held, Bump(stats, EventsAttended, increment), eventData)
    ensures forall later: Stats :: later.eventsAttended >= Bump(stats, EventsAttended, increment).eventsAttended ==>
      Catalogue[ActiveParticipant] !in Earned(held, later, eventData)
  {
    var d := Catalogue[ActiveParticipant];
    assert d.criterion == AttendedExactly(5);
    var bumped := Bump(stats, EventsAttended, increment);
    forall later: Stats | later.eventsAttended >= bumped.eventsAttended
      ensures d !in Earned(held, later, eventData)
    {
      assert !Meets(d.criterion, later, eventData);
    }
    assert d !in Earned(held, bumped, eventData);
  }

  /** Popular Organizer needs event data with at least 50 attendees; without event data it never fires. */
  lemma PopularOrganizerNeedsEventData(held: seq<Badge>, stats: Stats, eventData: Option<EventData>)
    ensures Catalogue[PopularOrganizer] in Earned(held, stats, eventData)
        <==> "Popular Organizer" !in Names(held) && eventData.Some? && eventData.value.attendeesCount >= 50
    ensures Catalogue[PopularOrganizer] !in Earned(held, stats, None)
  {
  }

  /**
   * One step of the engine's walk: entry `i` is judged against the badges held
   * before the call, because the entries pushed so far carry other names.
   */
  lemma WalkStep(defs: seq<BadgeDef>, i: nat, held: seq<Badge>, stats: Stats, eventData: Option<EventData>, now: int)
    requires DistinctNames(defs) && i < |defs|
    ensures var prev := EarnedAmong(defs[..i], held, stats, eventData);
      var next := EarnedAmong(defs[..i + 1], held, stats, eventData);
      var d := defs[i];
      && (d.name in Names(held + Records(prev, now)) <==> d.name in Names(held))
      && (if d.name !in Names(held) && Meets(d.criterion, stats, eventData)
          then held + Records(next, now) == (held + Records(prev, now)) + [Record(d, now)]
               && Names(Records(next, now)) == Names(Records(prev, now)) + [d.name]
          else next == prev)
  {
    var prev := EarnedAmong(defs[..i], held, stats, eventData);
    var next := EarnedAmong(defs[..i + 1], held, stats, eventData);
    var d := defs[i];
    assert defs[..i + 1][..i] == defs[..i];
    NamesAppend(held, Records(prev, now));
    forall k | 0 <= k < |prev| ensures prev[k].name != d.name {
      assert prev[k] in defs[..i];
    }
    if d.name !in Names(held) && Meets(d.criterion, stats, eventData) {
      assert next == prev + [d];
      assert Records(next, now) == Records(prev, now) + [Record(d, now)];
      NamesAppend(Records(prev, now), [Record(d, now)]);
    }
  }

  /** The engine keeps the collection valid: awarded badges are named, and no name is held twice. */
  lemma AwardKeepsUsersValid(users: map<UserId, User>, userId: UserId, eventData: Option<EventData>, now: int)
    requires ValidUsers(users) && userId in users
    ensures var u := users[userId];
      ValidUsers(users[userId := u.(badges := u.badges + Records(Earned(u.badges, u.stats, eventData), now))])
  {
    var u := users[userId];
    AwardKeepsNamesUnique(u.badges, u.stats, eventData, now);
    AwardedNamesNonEmpty(u.badges, u.stats, eventData, now);
    var badges := u.badges + Records(Earned(u.badges, u.stats, eventData), now);
    assert forall i :: 0 <= i < |badges| ==> badges[i].name != [] by {
      forall i | 0 <= i < |badges| ensures badges[i].name != [] {
        if i >= |u.badges| {
          assert badges[i] in Records(Earned(u.badges, u.stats, eventData), now);
        }
      }
    }
  }

  /**
   * The walk over the catalogue `defs` inside `checkAndAwardBadges`: pushes onto
   * the user's badges (and onto the list of new names) every entry not yet held
   * whose criterion holds, checking "held" against the growing list as the source does.
   */
  method EvaluateCatalogue(defs: seq<BadgeDef>, held: seq<Badge>, stats: Stats, eventData: Option<EventData>, now: int)
    returns (badges: seq<Badge>, newBadges: seq<string>)
    requires DistinctNames(defs)
    ensures badges == held + Records(EarnedAmong(defs, held, stats, eventData), now)
    ensures newBadges == Names(Records(EarnedAmong(defs, held, stats, eventData), now))
  {
    badges := held;
    newBadges := [];
    assert EarnedAmong(defs[..0], held, stats, eventData) == [];
    assert badges == held + Records([], now);
    for i := 0 to |defs|
      invariant badges == held + Records(EarnedAmong(defs[..i], held, stats, eventData), now)
      invariant newBadges == Names(Records(EarnedAmong(defs[..i], held, stats, eventData), now))
    {
      var badge := defs[i];
      WalkStep(defs, i, held, stats, eventData, now);
      var hasBadge := badge.name in Names(badges);
      if !hasBadge {
        if Meets(badge.criterion, stats, eventData) {
          badges := badges + [Record(badge, now)];
          newBadges := newBadges + [badge.name];
        }
      }
    }
    assert defs[..|defs|] == defs;
  }

  /**
   * `checkAndAwardBadges(userId, eventData)`: walks the catalogue in order,
   * pushes every entry not yet held whose criterion holds, saves when something
   * was pushed, and answers the pushed names; an unknown user gets nothing.
   */
  method CheckAndAwardBadges(store: UserStore, userId: UserId, eventData: Option<EventData>, now: int)
    returns (awarded: Option<seq<string>>)
    requires store.Valid()
    modifies store
    ensures store.Valid()
    ensures userId !in old(store.users) ==> awarded == None && store.users == old(store.users)
    ensures userId in old(store.users) ==>
      var user := old(store.users)[userId];
      var earned := Earned(user.badges, user.stats, eventData);
      && awarded == Some(Names(Records(earned, now)))
      && store.users == old(store.users)[userId := user.(badges := user.badges + Records(earned, now))]
  {
    if userId !in store.users {
      return None;
    }
    var user := store.users[userId];
    ghost var held := user.badges;
    CatalogueWellFormed();
    var badges, newBadges := EvaluateCatalogue(Catalogue, user.badges, user.stats, eventData, now);
    ghost var earned := Earned(held, user.stats, eventData);
    AwardKeepsUsersValid(store.users, userId, eventData, now);
    if |newBadges| > 0 {
      store.users := store.users[userId := user.(badges := badges)];
    } else {
      assert earned == [];
      assert badges == held;
      assert store.users[userId := user.(badges := badges)] == store.users;
    }
    awarded := Some(newBadges);
  }

  /** What `updateStatsAndCheckBadges` answers: the counters after the step and the newly awarded names. */
  datatype StatsUpdate = StatsUpdate(updatedStats: Stats, newBadges: seq<string>)

  /**
   * `updateStatsAndCheckBadges(userId, statType, increment, eventData)`: adds
   * `increment` to one counter, saves, then runs the engine; an unknown user gets nothing.
   */
  method UpdateStatsAndCheckBadges(store: UserStore, userId: UserId, statType: StatType, increment: int,
                                   eventData: Option<EventData>, now: int)
    returns (r: Option<StatsUpdate>)
    requires store.Valid()
    modifies store
    ensures store.Valid()
    ensures userId !in old(store.users) ==> r == None && store.users == old(store.users)
    ensures userId in old(store.users) ==>
      var user := old(store.users)[userId];
      var stats := Bump(user.stats, statType, increment);
      var earned := Earned(user.badges, stats, eventData);
      && r == Some(StatsUpdate(stats, Names(Records(earned, now))))
      && store.users == old(store.users)[userId := user.(stats := stats, badges := user.badges + Records(earned, now))]
  {
    if userId !in store.users {
      return None;
    }
    var user := store.users[userId];
    var stats := Bump(user.stats, statType, increment);
    var bumped := user.(stats := stats);
    store.users := store.users[userId := bumped];
    var newBadges := CheckAndAwardBadges(store, userId, eventData, now);
    ghost var earned := Earned(bumped.badges, stats, eventData);
    assert store.users == old(store.users)[userId := bumped][userId := bumped.(badges := bumped.badges + Records(earned, now))];
    r := Some(StatsUpdate(stats, newBadges.value));
  }

  /**
   * After an award the user has nothing left to earn, so a second award writes
   * the same user back and the collection does not change.
   */
  lemma SecondAwardNoop(users: map<UserId, User>, userId: UserId, eventData: Option<EventData>, now: int, later: int)
    requires userId in users
    ensures var u := users[userId];
      var a := u.(badges := u.badges + Records(Earned(u.badges, u.stats, eventData), now));
      var after := users[userId := a];
      && Earned(a.badges, a.stats, eventData) == []
      && after[userId := a.(badges := a.badges + Records(Earned(a.badges, a.stats, eventData), later))] == after
  {
    var u := users[userId];
    EarnedIdempotent(u.badges, u.stats, eventData, now);
    var a := u.(badges := u.badges + Records(Earned(u.badges, u.stats, eventData), now));
    assert a.badges + Records([], later) == a.badges;
  }

  /** Two engine runs in a row with unchanged counters and event data: the second awards nothing and changes nothing. */
  method CheckTwice(store: UserStore, userId: UserId, eventData: Option<EventData>, now: int, later: int)
    returns (first: Option<seq<string>>, second: Option<seq<string>>)
    requires store.Valid()
    modifies store
    ensures store.Valid()
    ensures userId in old(store.users) ==>
      var u := old(store.users)[userId];
      var earned := Earned(u.badges, u.stats, eventData);
      && first == Some(Names(Records(earned, now)))
      && second == Some([])
      && store.users == old(store.users)[userId := u.(badges := u.badges + Records(earned, now))]
    ensures userId !in old(store.users) ==> first == None && second == None && store.users == old(store.users)
  {
    if userId !in store.users {
      first := CheckAndAwardBadges(store, userId, eventData, now);
      second := CheckAndAwardBadges(store, userId, eventData, later);
      return;
    }
    SecondAwardNoop(store.users, userId, eventData, now, later);
    first := CheckAndAwardBadges(store, userId, eventData, now);
    second := CheckAndAwardBadges(store, userId, eventData, later);
  }
}
