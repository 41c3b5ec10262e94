/** When a workspace meeting is announced: joins, leaves, dropped sockets, restarts and the start marker. */
module Meeting {
  import opened Options

  /** Seconds a start marker outlives the last sign of life in its room. */
  const ANNOUNCED_TTL := 5 * 60

  datatype Attendee = Attendee(socket: string, uid: string, host: bool, waiting: bool)

  /** The room's rows and the time its start marker expires, while it has one. */
  datatype Room = Room(rows: seq<Attendee>, marker: Option<int>)

  /** What happens to the room; role and waiting state of a joiner are the database's answer. */
  datatype Kind =
    | Join(user: Attendee, own: bool)
    | Leave(socket: string)
    | Drop(socket: string)
    | Ping
    | Restart

  datatype Event = Event(now: int, redis: bool, kind: Kind)

  const EMPTY := Room([], None)

  function Others(rows: seq<Attendee>, socket: string): seq<Attendee> {
    if rows == [] then []
    else if rows[0].socket == socket then Others(rows[1..], socket)
    else [rows[0]] + Others(rows[1..], socket)
  }

  predicate SomeonePresent(rows: seq<Attendee>) {
    exists a :: a in rows && !a.waiting
  }

  predicate Live(r: Room, now: int) {
    r.marker.Some? && now < r.marker.value
  }

  /** The join that starts a meeting: by someone admitted, with nobody else admitted in the room. */
  predicate StartsMeeting(r: Room, e: Event) {
    e.kind.Join? && e.kind.own && !e.kind.user.waiting && !SomeonePresent(Others(r.rows, e.kind.user.socket))
  }

  /** The workspace is told: the first claim of the marker wins, and without Redis every claim does. */
  predicate Announces(r: Room, e: Event) {
    StartsMeeting(r, e) && (e.redis ==> !Live(r, e.now))
  }

  /** The peers in the room are told: a start, or a host coming back. */
  predicate Informs(r: Room, e: Event) {
    e.kind.Join? && e.kind.own && !e.kind.user.waiting &&
    (e.kind.user.host || !SomeonePresent(Others(r.rows, e.kind.user.socket)))
  }

  predicate HasSocket(rows: seq<Attendee>, socket: string) {
    exists a :: a in rows && a.socket == socket
  }

  /** The event leaves no row behind, those of waiting guests included. */
  predicate Empties(r: Room, e: Event) {
    match e.kind
    case Leave(socket) => Others(r.rows, socket) == []
    case Drop(socket) => HasSocket(r.rows, socket) && Others(r.rows, socket) == []
    case _ => false
  }

  function RowsAfter(r: Room, e: Event): seq<Attendee> {
    match e.kind
    case Join(user, _) => Others(r.rows, user.socket) + [user]
    case Leave(socket) => Others(r.rows, socket)
    case Drop(socket) => Others(r.rows, socket)
    case Ping => r.rows
    case Restart => []
  }

  function MarkerAfter(r: Room, e: Event): Option<int> {
    if !e.redis then r.marker
    else if Empties(r, e) then None
    else if Announces(r, e) || (e.kind.Ping? && Live(r, e.now)) then Some(e.now + ANNOUNCED_TTL)
    else r.marker
  }

  function Step(r: Room, e: Event): Room {
    Room(RowsAfter(r, e), MarkerAfter(r, e))
  }

  // ----- the room as the services change it -----

  class MeetingRoom {
    var rows: seq<Attendee>
    var marker: Option<int>

    function Now(): Room
      reads this
    {
      Room(rows, marker)
    }

    constructor ()
      ensures Now() == EMPTY
    {
      rows, marker := [], None;
    }

    /** `SET NX EX` on the room's marker; fails open. */
    method ClaimStart(now: int, redis: bool) returns (won: bool)
      modifies `marker
      ensures won <==> (redis ==> !Live(old(Now()), now))
      ensures marker == if redis && won then Some(now + ANNOUNCED_TTL) else old(marker)
    {
      if !redis { return true; }
      won := marker.None? || now >= marker.value;
      if won { marker := Some(now + ANNOUNCED_TTL); }
    }

    method JoinRoom(now: int, redis: bool, user: Attendee, own: bool) returns (informed: bool, announced: bool)
      modifies this
      ensures var e := Event(now, redis, Join(user, own));
              Now() == Step(old(Now()), e) && informed == Informs(old(Now()), e) &&
              announced == Announces(old(Now()), e)
    {
      var attendees := Others(rows, user.socket);
      rows := attendees + [user];
      var isFirstJoiner := !SomeonePresent(attendees);
      informed, announced := false, false;
      if !user.waiting && (user.host || isFirstJoiner) && own {
        informed := true;
        if isFirstJoiner {
          announced := ClaimStart(now, redis);
        }
      }
    }

    method LeaveRoom(now: int, redis: bool, socket: string)
      modifies this
      ensures Now() == Step(old(Now()), Event(now, redis, Leave(socket)))
    {
      rows := Others(rows, socket);
      if rows == [] && redis { marker := None; }
    }

    method ReleaseSocket(now: int, redis: bool, socket: string)
      modifies this
      ensures Now() == Step(old(Now()), Event(now, redis, Drop(socket)))
    {
      if !HasSocket(rows, socket) {
        NobodyElse(rows, socket);
        return;
      }
      rows := Others(rows, socket);
      if rows == [] && redis { marker := None; }
    }

    method Heartbeat(now: int, redis: bool)
      modifies `marker
      ensures Now() == Step(old(Now()), Event(now, redis, Ping))
    {
      if redis && marker.Some? && now < marker.value { marker := Some(now + ANNOUNCED_TTL); }
    }
  }

  lemma {:induction false} NobodyElse(rows: seq<Attendee>, socket: string)
    requires !HasSocket(rows, socket)
    ensures Others(rows, socket) == rows
    decreases rows
  {
    if rows != [] {
      assert rows[0] in rows && forall a :: a in rows[1..] ==> a in rows;
      NobodyElse(rows[1..], socket);
    }
  }

  // ----- runs -----

  function After(es: seq<Event>): Room {
    if es == [] then EMPTY else Step(After(es[..|es| - 1]), es[|es| - 1])
  }

  predicate Clocked(es: seq<Event>) {
    forall i, j :: 0 <= i < j < |es| ==> es[i].now <= es[j].now
  }

  predicate AnnouncesAt(es: seq<Event>, i: int)
    requires 0 <= i < |es|
  {
    Announces(After(es[..i]), es[i])
  }

  predicate EmptiesAt(es: seq<Event>, i: int)
    requires 0 <= i < |es|
  {
    es[i].redis && Empties(After(es[..i]), es[i])
  }

  /** A sign of life the marker hears: the announcement at `i` or a later heartbeat. */
  predicate Sign(es: seq<Event>, i: nat, k: int)
    requires 0 <= k < |es|
  {
    k == i || (k > i && es[k].redis && es[k].kind.Ping?)
  }

  /** A sign of life before `m` that is younger, at `m`, than the marker lasts. */
  predicate HeardLately(es: seq<Event>, i: nat, m: nat)
    requires i < m < |es|
  {
    exists k :: i <= k < m && Sign(es, i, k) && es[m].now < es[k].now + ANNOUNCED_TTL
  }

  /** From the announcement at `i` up to `j` the last sign of life is never older than the marker lasts. */
  predicate KeptAlive(es: seq<Event>, i: nat, j: nat)
    requires i < j < |es|
  {
    forall m :: i < m <= j ==> HeardLately(es, i, m)
  }

  lemma AfterOneMore(es: seq<Event>, n: nat)
    requires n < |es|
    ensures After(es[..n + 1]) == Step(After(es[..n]), es[n])
  {
    assert es[..n + 1][..n] == es[..n];
  }

  predicate MarkerHolds(es: seq<Event>, i: nat, n: nat)
    requires i < n <= |es|
  {
    var r := After(es[..n]);
    r.marker.Some? && forall k :: i <= k < n && Sign(es, i, k) ==> r.marker.value >= es[k].now + ANNOUNCED_TTL
  }

  /** A live marker changes only by a heartbeat, unless the room empties. */
  lemma LiveMarkerStep(r: Room, e: Event)
    requires Live(r, e.now) && !(e.redis && Empties(r, e))
    ensures Step(r, e).marker == if e.redis && e.kind.Ping? then Some(e.now + ANNOUNCED_TTL) else r.marker
  {
  }

  lemma MarkerHoldsOn(es: seq<Event>, i: nat, n: nat)
    requires Clocked(es) && i < n < |es| && MarkerHolds(es, i, n)
    requires Live(After(es[..n]), es[n].now) && !EmptiesAt(es, n)
    ensures MarkerHolds(es, i, n + 1)
  {
    var r, e := After(es[..n]), es[n];
    AfterOneMore(es, n);
    LiveMarkerStep(r, e);
    var next := Step(r, e).marker;
    forall k | i <= k < n + 1 && Sign(es, i, k) ensures next.value >= es[k].now + ANNOUNCED_TTL {
      assert es[k].now <= e.now;
      if k < n { assert r.marker.value >= es[k].now + ANNOUNCED_TTL; }
    }
  }

  lemma HeldMarkerIsLive(es: seq<Event>, i: nat, j: nat, n: nat)
    requires i < n <= j < |es| && MarkerHolds(es, i, n) && KeptAlive(es, i, j)
    ensures Live(After(es[..n]), es[n].now)
  {
    assert HeardLately(es, i, n);
  }

  lemma AnnouncementSetsMarker(es: seq<Event>, i: nat)
    requires i < |es| && AnnouncesAt(es, i) && es[i].redis
    ensures MarkerHolds(es, i, i + 1)
  {
    AfterOneMore(es, i);
  }

  predicate NeverEmptied(es: seq<Event>, i: nat, j: nat)
    requires j <= |es|
  {
    forall m :: i < m < j ==> !EmptiesAt(es, m)
  }

  /** What keeps a later start quiet: signs of life in time, and no moment at which the last row left. */
  predicate StillRunning(es: seq<Event>, i: nat, n: nat)
    requires i < n < |es|
  {
    KeptAlive(es, i, n) && NeverEmptied(es, i, n)
  }

  lemma MarkerHoldsNext(es: seq<Event>, i: nat, j: nat, n: nat)
    requires Clocked(es) && i < n < j < |es| && MarkerHolds(es, i, n) && StillRunning(es, i, j)
    ensures MarkerHolds(es, i, n + 1)
  {
    HeldMarkerIsLive(es, i, j, n);
    MarkerHoldsOn(es, i, n);
  }

  /** While the room is kept alive and not emptied, the marker outlasts every sign of life up to `n`. */
  lemma MarkerStays(es: seq<Event>, i: nat, j: nat, n: nat)
    requires Clocked(es) && i < n <= j < |es| && AnnouncesAt(es, i) && es[i].redis && StillRunning(es, i, j)
    ensures MarkerHolds(es, i, n)
  {
    AnnouncementSetsMarker(es, i);
    var m: nat := i + 1;
    while m < n
      invariant i < m <= n && MarkerHolds(es, i, m)
    {
      MarkerHoldsNext(es, i, j, m);
      m := m + 1;
    }
  }

  /**
   * Between two announcements there is a moment the last row left, or a silence longer than the marker
   * lasts. A restart that wipes the rows is no such moment.
   */
  lemma NoSecondAnnouncement(es: seq<Event>, i: nat, j: nat)
    requires Clocked(es) && i < j < |es| && AnnouncesAt(es, i) && es[i].redis && es[j].redis && KeptAlive(es, i, j)
    requires NeverEmptied(es, i, j)
    ensures !AnnouncesAt(es, j)
  {
    MarkerStays(es, i, j, j);
    HeldMarkerIsLive(es, i, j, j);
  }

  /** Since the announcement at `i` the marker is gone or stems from a sign of life. */
  predicate MarkerStems(es: seq<Event>, i: nat, n: nat)
    requires i < n <= |es|
  {
    var r := After(es[..n]);
    r.marker.Some? ==> exists k :: i <= k < n && Sign(es, i, k) && r.marker.value == es[k].now + ANNOUNCED_TTL
  }

  /** The marker tells no lie: while it lives the meeting has been running without a break. */
  predicate Truthful(es: seq<Event>, i: nat, n: nat)
    requires i < n < |es|
  {
    MarkerStems(es, i, n) && (Live(After(es[..n]), es[n].now) ==> StillRunning(es, i, n))
  }

  lemma TruthfulAtFirst(es: seq<Event>, i: nat)
    requires i + 1 < |es| && AnnouncesAt(es, i) && es[i].redis
    ensures Truthful(es, i, i + 1)
  {
    AfterOneMore(es, i);
    assert Sign(es, i, i);
  }

  /** Without an announcement a marker only lives on, by a heartbeat at the latest. */
  lemma QuietStep(r: Room, e: Event)
    requires !(e.redis && Announces(r, e))
    ensures Step(r, e).marker.Some? ==>
              r.marker.Some? && !(e.redis && Empties(r, e)) &&
              (Step(r, e).marker == r.marker ||
               (e.redis && e.kind.Ping? && Live(r, e.now) && Step(r, e).marker == Some(e.now + ANNOUNCED_TTL)))
  {
  }

  lemma StemsOn(es: seq<Event>, i: nat, n: nat)
    requires i < n < |es| && MarkerStems(es, i, n) && !(es[n].redis && AnnouncesAt(es, n))
    ensures MarkerStems(es, i, n + 1)
  {
    AfterOneMore(es, n);
    QuietStep(After(es[..n]), es[n]);
    var r, next := After(es[..n]), After(es[..n + 1]);
    if next.marker.Some? {
      if next.marker == r.marker {
        var k :| i <= k < n && Sign(es, i, k) && r.marker.value == es[k].now + ANNOUNCED_TTL;
      } else {
        assert Sign(es, i, n);
      }
    }
  }

  /** A marker alive after an event was alive before it, and the event did not empty the room. */
  lemma LiveBefore(es: seq<Event>, n: nat)
    requires Clocked(es) && n + 1 < |es| && !(es[n].redis && AnnouncesAt(es, n))
    requires Live(After(es[..n + 1]), es[n + 1].now)
    ensures Live(After(es[..n]), es[n].now) && !EmptiesAt(es, n)
  {
    AfterOneMore(es, n);
    QuietStep(After(es[..n]), es[n]);
    assert es[n].now <= es[n + 1].now;
  }

  lemma TruthfulOn(es: seq<Event>, i: nat, n: nat)
    requires Clocked(es) && i < n && n + 1 < |es| && Truthful(es, i, n) && !(es[n].redis && AnnouncesAt(es, n))
    ensures Truthful(es, i, n + 1)
  {
    StemsOn(es, i, n);
    if Live(After(es[..n + 1]), es[n + 1].now) {
      LiveBefore(es, n);
      var r := After(es[..n + 1]);
      var k :| i <= k < n + 1 && Sign(es, i, k) && r.marker.value == es[k].now + ANNOUNCED_TTL;
      assert HeardLately(es, i, n + 1);
    }
  }

  lemma MarkerIsTruthful(es: seq<Event>, i: nat, j: nat)
    requires Clocked(es) && i < j < |es| && AnnouncesAt(es, i) && es[i].redis
    requires forall k :: i < k < j ==> !(es[k].redis && AnnouncesAt(es, k))
    ensures Truthful(es, i, j)
  {
    TruthfulAtFirst(es, i);
    var n: nat := i + 1;
    while n < j
      invariant i < n <= j && Truthful(es, i, n)
    {
      TruthfulOn(es, i, n);
      n := n + 1;
    }
  }

  /**
   * After an announcement, the next start is announced exactly when the last row left in between, or
   * some silence outlasted the marker.
   */
  lemma AnnouncedAgainExactly(es: seq<Event>, i: nat, j: nat)
    requires Clocked(es) && i < j < |es| && AnnouncesAt(es, i) && es[i].redis && es[j].redis
    requires forall k :: i < k < j ==> !(es[k].redis && AnnouncesAt(es, k))
    requires StartsMeeting(After(es[..j]), es[j])
    ensures AnnouncesAt(es, j) <==> !KeptAlive(es, i, j) || !NeverEmptied(es, i, j)
  {
    MarkerIsTruthful(es, i, j);
    if StillRunning(es, i, j) { NoSecondAnnouncement(es, i, j); }
  }

  lemma EmptyingClears(r: Room, e: Event)
    requires e.redis && Empties(r, e)
    ensures Step(r, e).marker == None
  {
  }

  /** Only an announcement sets a marker that is not there. */
  lemma ClearStep(r: Room, e: Event)
    requires r.marker == None && !Announces(r, e)
    ensures Step(r, e).marker == None
  {
  }

  lemma {:induction false} MarkerStaysClear(es: seq<Event>, m: nat, n: nat)
    requires m < n <= |es| && EmptiesAt(es, m)
    requires forall k :: m < k < n ==> !AnnouncesAt(es, k)
    ensures After(es[..n]).marker == None
    decreases n
  {
    AfterOneMore(es, n - 1);
    if n == m + 1 {
      EmptyingClears(After(es[..m]), es[m]);
    } else {
      MarkerStaysClear(es, m, n - 1);
      assert !AnnouncesAt(es, n - 1);
      ClearStep(After(es[..n - 1]), es[n - 1]);
    }
  }

  /** After the last row left, the first join that starts a meeting is announced again. */
  lemma NextMeetingIsAnnounced(es: seq<Event>, m: nat, j: nat)
    requires m < j < |es| && EmptiesAt(es, m) && StartsMeeting(After(es[..j]), es[j])
    requires forall k :: m < k < j ==> !StartsMeeting(After(es[..k]), es[k])
    ensures AnnouncesAt(es, j)
  {
    forall k | m < k < j ensures !AnnouncesAt(es, k) {
      assert !StartsMeeting(After(es[..k]), es[k]);
    }
    MarkerStaysClear(es, m, j);
  }

  /** An announcement is never caused by a waiting guest, nor while someone else admitted has a row. */
  lemma AnnouncementIsARealStart(es: seq<Event>, j: nat, a: Attendee)
    requires j < |es| && AnnouncesAt(es, j)
    requires a in After(es[..j + 1]).rows && !a.waiting
    ensures es[j].kind.Join? && !es[j].kind.user.waiting && a == es[j].kind.user
  {
    AfterOneMore(es, j);
  }

  // ----- the people in the call, whom a restart leaves where they are -----

  function CallAfter(call: seq<Attendee>, kind: Kind): seq<Attendee> {
    match kind
    case Join(user, _) => Others(call, user.socket) + [user]
    case Leave(socket) => Others(call, socket)
    case Drop(socket) => Others(call, socket)
    case Ping => call
    case Restart => call
  }

  /** Who is in the call after these events: those who joined and neither left nor dropped. */
  function InCall(es: seq<Event>): seq<Attendee> {
    if es == [] then [] else CallAfter(InCall(es[..|es| - 1]), es[|es| - 1].kind)
  }

  /** This attendee joined, and no restart came since. */
  predicate JoinedSinceRestart(es: seq<Event>, a: Attendee) {
    es != [] && !es[|es| - 1].kind.Restart? &&
    ((es[|es| - 1].kind.Join? && es[|es| - 1].kind.user == a) || JoinedSinceRestart(es[..|es| - 1], a))
  }

  lemma {:induction false} OthersAre(rows: seq<Attendee>, socket: string)
    ensures forall a :: a in Others(rows, socket) <==> a in rows && a.socket != socket
    decreases rows
  {
    if rows != [] {
      OthersAre(rows[1..], socket);
      assert forall a :: a in rows <==> a == rows[0] || a in rows[1..];
    }
  }

  /** The rows are those of the people in the call who joined since the last restart. */
  lemma {:induction false} RowsAreRecent(es: seq<Event>, a: Attendee)
    ensures a in After(es).rows <==> a in InCall(es) && JoinedSinceRestart(es, a)
    decreases es
  {
    if es != [] {
      var before, e := es[..|es| - 1], es[|es| - 1];
      RowsAreRecent(before, a);
      match e.kind {
        case Join(user, _) =>
          OthersAre(After(before).rows, user.socket);
          OthersAre(InCall(before), user.socket);
        case Leave(socket) =>
          OthersAre(After(before).rows, socket);
          OthersAre(InCall(before), socket);
        case Drop(socket) =>
          OthersAre(After(before).rows, socket);
          OthersAre(InCall(before), socket);
        case Ping =>
        case Restart =>
      }
    }
  }

  /** The people in the call when event `j` comes, but for the one with this socket. */
  function OthersInCall(es: seq<Event>, j: nat, socket: string): seq<Attendee>
    requires j <= |es|
  {
    Others(InCall(es[..j]), socket)
  }

  /** Everyone else in the call, or everyone admitted, has been there since before the last restart. */
  predicate AllFromBefore(es: seq<Event>, j: nat, socket: string, admittedOnly: bool)
    requires j <= |es|
  {
    forall a :: a in OthersInCall(es, j, socket) && !(admittedOnly && a.waiting) ==> !JoinedSinceRestart(es[..j], a)
  }

  lemma OthersWithRows(es: seq<Event>, j: nat, socket: string)
    requires j <= |es|
    ensures forall a :: a in Others(After(es[..j]).rows, socket) <==>
              a in OthersInCall(es, j, socket) && JoinedSinceRestart(es[..j], a)
  {
    OthersAre(After(es[..j]).rows, socket);
    OthersAre(InCall(es[..j]), socket);
    forall a ensures a in After(es[..j]).rows <==> a in InCall(es[..j]) && JoinedSinceRestart(es[..j], a) {
      RowsAreRecent(es[..j], a);
    }
  }

  predicate AdmittedJoin(e: Event) {
    e.kind.Join? && e.kind.own && !e.kind.user.waiting
  }

  /** A join counts as the start of a meeting exactly when all admitted people in the call predate a restart. */
  lemma StartsExactly(es: seq<Event>, j: nat)
    requires j < |es| && AdmittedJoin(es[j])
    ensures StartsMeeting(After(es[..j]), es[j]) <==> AllFromBefore(es, j, es[j].kind.user.socket, true)
  {
    OthersWithRows(es, j, es[j].kind.user.socket);
  }

  /** A leave, or the drop of a socket with a row, clears the marker exactly when all who stay predate a restart. */
  lemma EmptiesExactly(es: seq<Event>, m: nat)
    requires m < |es| && (es[m].kind.Leave? || es[m].kind.Drop?)
    ensures EmptiesAt(es, m) <==>
              es[m].redis && AllFromBefore(es, m, es[m].kind.socket, false) &&
              (es[m].kind.Drop? ==>
                 exists a :: a in InCall(es[..m]) && a.socket == es[m].kind.socket && JoinedSinceRestart(es[..m], a))
  {
    OthersWithRows(es, m, es[m].kind.socket);
    forall a ensures a in After(es[..m]).rows <==> a in InCall(es[..m]) && JoinedSinceRestart(es[..m], a) {
      RowsAreRecent(es[..m], a);
    }
    var left := Others(After(es[..m]).rows, es[m].kind.socket);
    if left != [] { assert left[0] in left; }
  }

  /** The peers are told of an admitted join by a host, or when all others admitted predate a restart. */
  lemma InformsExactly(es: seq<Event>, j: nat)
    requires j < |es|
    ensures Informs(After(es[..j]), es[j]) <==>
              AdmittedJoin(es[j]) &&
              (es[j].kind.user.host || AllFromBefore(es, j, es[j].kind.user.socket, true))
    ensures AnnouncesAt(es, j) ==> Informs(After(es[..j]), es[j])
  {
    if AdmittedJoin(es[j]) { StartsExactly(es, j); }
  }

  predicate SomeoneElseInCall(es: seq<Event>, j: nat, socket: string)
    requires j <= |es|
  {
    SomeonePresent(OthersInCall(es, j, socket))
  }

  /**
   * A running meeting is announced once more exactly when all other admitted people in the call were
   * there before the last restart, and since the last announcement the last row left or some silence
   * outlasted the marker.
   */
  lemma AnnouncedIntoCallExactly(es: seq<Event>, i: nat, j: nat)
    requires Clocked(es) && i < j < |es| && AnnouncesAt(es, i) && es[i].redis && es[j].redis
    requires forall k :: i < k < j ==> !(es[k].redis && AnnouncesAt(es, k))
    requires AdmittedJoin(es[j]) && SomeoneElseInCall(es, j, es[j].kind.user.socket)
    ensures AnnouncesAt(es, j) <==>
              AllFromBefore(es, j, es[j].kind.user.socket, true) && (!KeptAlive(es, i, j) || !NeverEmptied(es, i, j))
  {
    StartsExactly(es, j);
    if StartsMeeting(After(es[..j]), es[j]) { AnnouncedAgainExactly(es, i, j); }
  }

  predicate NeverRestarted(es: seq<Event>) {
    forall k :: 0 <= k < |es| ==> !es[k].kind.Restart?
  }

  lemma {:induction false} AllSinceRestart(es: seq<Event>)
    requires NeverRestarted(es)
    ensures After(es).rows == InCall(es)
    decreases es
  {
    if es != [] { AllSinceRestart(es[..|es| - 1]); }
  }

  /** Without a restart no announcement ever comes while another admitted person is in the call. */
  lemma NoRestartNoIntrusion(es: seq<Event>, j: nat)
    requires j < |es| && NeverRestarted(es[..j]) && AnnouncesAt(es, j)
    ensures !SomeoneElseInCall(es, j, es[j].kind.user.socket)
  {
    AllSinceRestart(es[..j]);
  }

  // ----- a running meeting announced after a restart -----

  /** `a` and `b` meet, the server restarts, `a` leaves, `c` joins. */
  function RestartRun(a: Attendee, b: Attendee, c: Attendee): seq<Event> {
    [Event(0, true, Join(a, true)), Event(10, true, Join(b, true)), Event(20, true, Restart), Event(30, true, Ping),
     Event(40, true, Leave(a.socket)), Event(50, true, Join(c, true))]
  }

  predicate Strangers(a: Attendee, b: Attendee, c: Attendee) {
    a.socket != b.socket && b.socket != c.socket && a.socket != c.socket && !a.waiting && !b.waiting && !c.waiting
  }

  lemma JoinEmpty(rows: seq<Attendee>, a: Attendee, now: int, marker: Option<int>)
    requires rows == [] && !a.waiting
    ensures Step(Room(rows, marker), Event(now, true, Join(a, true))).rows == [a]
    ensures marker == None ==> Announces(Room(rows, marker), Event(now, true, Join(a, true)))
  {
  }

  /** Two people have met, and the server restarts. */
  lemma RestartRunUpToRestart(a: Attendee, b: Attendee, c: Attendee)
    requires Strangers(a, b, c)
    ensures var es := RestartRun(a, b, c); AnnouncesAt(es, 0) && After(es[..3]) == Room([], Some(ANNOUNCED_TTL))
  {
    var es := RestartRun(a, b, c);
    AfterOneMore(es, 0);
    AfterOneMore(es, 1);
    AfterOneMore(es, 2);
    assert After(es[..0]) == EMPTY;
    JoinEmpty([], a, 0, None);
    NobodyElse([a], b.socket);
    assert a in [a];
  }

  /** The leave of one of them finds no row left. */
  lemma RestartRunToTheEnd(a: Attendee, b: Attendee, c: Attendee)
    requires Strangers(a, b, c)
    ensures After(RestartRun(a, b, c)[..5]) == Room([], None)
  {
    var es := RestartRun(a, b, c);
    RestartRunUpToRestart(a, b, c);
    AfterOneMore(es, 3);
    AfterOneMore(es, 4);
  }

  lemma CallOneMore(es: seq<Event>, n: nat)
    requires n < |es|
    ensures InCall(es[..n + 1]) == CallAfter(InCall(es[..n]), es[n].kind)
  {
    assert es[..n + 1][..n] == es[..n];
  }

  lemma RestartRunCall(a: Attendee, b: Attendee, c: Attendee)
    requires Strangers(a, b, c)
    ensures InCall(RestartRun(a, b, c)[..5]) == [b]
  {
    var es := RestartRun(a, b, c);
    CallOneMore(es, 0);
    CallOneMore(es, 1);
    CallOneMore(es, 2);
    CallOneMore(es, 3);
    CallOneMore(es, 4);
    Leaving(a, b);
    assert InCall(es[..0]) == [];
    assert InCall(es[..1]) == [a];
    assert InCall(es[..2]) == [a] + [b];
  }

  lemma Leaving(a: Attendee, b: Attendee)
    requires a.socket != b.socket
    ensures Others([a] + [b], a.socket) == [b] && Others([a], b.socket) == [a]
  {
    NobodyElse([b], a.socket);
    NobodyElse([a], b.socket);
    assert ([a] + [b])[1..] == [b];
  }

  /** The rows are gone while `b` is still in the call, so the leave of `a` counts as the end of the meeting. */
  lemma RunningMeetingAnnounced(a: Attendee, b: Attendee, c: Attendee)
    requires Strangers(a, b, c)
    ensures var es := RestartRun(a, b, c);
            Clocked(es) && AnnouncesAt(es, 0) && KeptAlive(es, 0, 5) && AnnouncesAt(es, 5) &&
            b in InCall(es[..5]) && SomeoneElseInCall(es, 5, c.socket)
  {
    var es := RestartRun(a, b, c);
    RestartRunUpToRestart(a, b, c);
    RestartRunToTheEnd(a, b, c);
    RestartRunCall(a, b, c);
    OthersAre([b], c.socket);
    assert b in OthersInCall(es, 5, c.socket);
    forall m | 0 < m <= 5 ensures HeardLately(es, 0, m) {
      assert Sign(es, 0, 0) && es[m].now < es[0].now + ANNOUNCED_TTL;
    }
  }
}
