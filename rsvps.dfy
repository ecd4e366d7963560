/** The RSVP table's two writers in `moobot/events.py`: `update_rsvp`, an
    upsert keyed by (event, user), and `remove_rsvp`, which deletes that row
    only when it records the attendance type being withdrawn. */
module Rsvps {
  import opened Wrappers
  import opened Models
  import opened Seqs
  import Db

  /** At most one row per (user, event): the invariant both writers keep. */
  predicate OneRowPerUserEvent(rsvps: seq<Rsvp>) {
    forall i, j :: 0 <= i < j < |rsvps| ==>
      rsvps[i].userId != rsvps[j].userId || rsvps[i].eventId != rsvps[j].eventId
  }

  /** The position of the `.first()` row for (event, user). */
  function FindRsvp(rsvps: seq<Rsvp>, userId: UserId, eventId: nat): (r: Option<nat>)
    ensures r.Some? ==> r.value < |rsvps| && rsvps[r.value].userId == userId
                        && rsvps[r.value].eventId == eventId
    ensures r.Some? ==> forall i :: 0 <= i < r.value ==>
                          rsvps[i].userId != userId || rsvps[i].eventId != eventId
    ensures r.None? <==> forall i :: 0 <= i < |rsvps| ==>
                           rsvps[i].userId != userId || rsvps[i].eventId != eventId
  {
    FirstIndex(rsvps, (x: Rsvp) => x.userId == userId && x.eventId == eventId)
  }

  /** The table after `update_rsvp(t, userId, eventId)`. */
  function Upserted(rsvps: seq<Rsvp>, t: AttendanceType, userId: UserId, eventId: nat): seq<Rsvp> {
    match FindRsvp(rsvps, userId, eventId)
    case Some(i) => rsvps[i := rsvps[i].(attendanceType := t)]
    case None => rsvps + [Rsvp(userId, eventId, t)]
  }

  /** `update_rsvp`: the existing row's type changes, or one row is added;
      either way the session commits. */
  method UpdateRsvp(s: Db.Store, t: AttendanceType, userId: UserId, eventId: nat)
    modifies s
    ensures s.State() == old(s.State()).(rsvps := Upserted(old(s.rsvps), t, userId, eventId),
                                         commits := old(s.commits) + 1)
  {
    var existing := FindRsvp(s.rsvps, userId, eventId);
    if existing.Some? {
      s.rsvps := s.rsvps[existing.value := s.rsvps[existing.value].(attendanceType := t)];
    } else {
      s.rsvps := s.rsvps + [Rsvp(userId, eventId, t)];
    }
    s.commits := s.commits + 1;
  }

  /** After an upsert the user's row for the event holds the new type, it is
      the only such row, and the rows of every other (user, event) pair are
      exactly those before; the table grows by one row only for a new pair. */
  lemma UpsertedContents(rsvps: seq<Rsvp>, t: AttendanceType, userId: UserId, eventId: nat)
    requires OneRowPerUserEvent(rsvps)
    ensures var r := Upserted(rsvps, t, userId, eventId);
      && OneRowPerUserEvent(r)
      && Rsvp(userId, eventId, t) in r
      && (forall x: Rsvp :: x.userId != userId || x.eventId != eventId ==> (x in r <==> x in rsvps))
      && |r| == |rsvps| + (if FindRsvp(rsvps, userId, eventId).None? then 1 else 0)
  {
    var r := Upserted(rsvps, t, userId, eventId);
    match FindRsvp(rsvps, userId, eventId)
    case Some(i) =>
      assert r[i] == Rsvp(userId, eventId, t);
      forall x: Rsvp | x.userId != userId || x.eventId != eventId
        ensures x in r <==> x in rsvps
      {
        if x in rsvps {
          var j :| 0 <= j < |rsvps| && rsvps[j] == x;
          assert r[j] == x;
        }
      }
    case None =>
      assert r[|rsvps|] == Rsvp(userId, eventId, t);
  }

  /** Reacting again, with whatever type, leaves one row with the latest type. */
  lemma LatestReactionWins(rsvps: seq<Rsvp>, t1: AttendanceType, t2: AttendanceType,
                           userId: UserId, eventId: nat)
    ensures Upserted(Upserted(rsvps, t1, userId, eventId), t2, userId, eventId)
            == Upserted(rsvps, t2, userId, eventId)
  {
    var once := Upserted(rsvps, t1, userId, eventId);
    match FindRsvp(rsvps, userId, eventId)
    case Some(i) =>
      assert once[i].userId == userId && once[i].eventId == eventId;
      assert FindRsvp(once, userId, eventId) == Some(i);
    case None =>
      assert once[|rsvps|].userId == userId && once[|rsvps|].eventId == eventId;
      assert FindRsvp(once, userId, eventId) == Some(|rsvps|);
  }

  /** The position of `remove_rsvp`'s `.first()` row for (event, user, type). */
  function FindTypedRsvp(rsvps: seq<Rsvp>, t: AttendanceType, userId: UserId, eventId: nat)
    : (r: Option<nat>)
    ensures r.Some? ==> r.value < |rsvps| && rsvps[r.value] == Rsvp(userId, eventId, t)
    ensures r.None? <==> Rsvp(userId, eventId, t) !in rsvps
  {
    FirstIndex(rsvps, (x: Rsvp) => x == Rsvp(userId, eventId, t))
  }

  /** The table after `remove_rsvp(t, userId, eventId)`. */
  function Withdrawn(rsvps: seq<Rsvp>, t: AttendanceType, userId: UserId, eventId: nat): seq<Rsvp> {
    match FindTypedRsvp(rsvps, t, userId, eventId)
    case Some(i) => RemoveAt(rsvps, i)
    case None => rsvps
  }

  /** `remove_rsvp`: deletes the matching row and commits, or does nothing. */
  method RemoveRsvp(s: Db.Store, t: AttendanceType, userId: UserId, eventId: nat)
    modifies s
    ensures s.State() == old(s.State()).(
      rsvps := Withdrawn(old(s.rsvps), t, userId, eventId),
      commits := old(s.commits) + if Rsvp(userId, eventId, t) in old(s.rsvps) then 1 else 0)
  {
    var existing := FindTypedRsvp(s.rsvps, t, userId, eventId);
    if existing.Some? {
      s.rsvps := RemoveAt(s.rsvps, existing.value);
      s.commits := s.commits + 1;
    }
  }

  /** Withdrawing a type the user's row does not hold changes nothing;
      withdrawing the type it holds deletes exactly that row. */
  lemma RemovedContents(rsvps: seq<Rsvp>, t: AttendanceType, userId: UserId, eventId: nat)
    requires OneRowPerUserEvent(rsvps)
    ensures var r := Withdrawn(rsvps, t, userId, eventId);
      && OneRowPerUserEvent(r)
      && (Rsvp(userId, eventId, t) !in rsvps ==> r == rsvps)
      && (Rsvp(userId, eventId, t) in rsvps ==>
            multiset(r) == multiset(rsvps) - multiset{Rsvp(userId, eventId, t)}
            && FindRsvp(r, userId, eventId).None?)
  {
    match FindTypedRsvp(rsvps, t, userId, eventId)
    case None =>
    case Some(i) =>
      var r := RemoveAt(rsvps, i);
      assert forall j :: 0 <= j < i ==> r[j] == rsvps[j];
      assert forall j :: i <= j < |r| ==> r[j] == rsvps[j + 1];
      forall j | 0 <= j < |r|
        ensures r[j].userId != userId || r[j].eventId != eventId
      {
        if j < i {
          assert rsvps[j] == r[j];
        } else {
          assert rsvps[j + 1] == r[j];
        }
      }
  }

  /** Whether the user still holds a yes or maybe RSVP for the event: the
      re-read that decides whether a removal revokes access. */
  predicate HasActiveRsvp(rsvps: seq<Rsvp>, userId: UserId, eventId: nat) {
    exists i :: 0 <= i < |rsvps| && rsvps[i].userId == userId && rsvps[i].eventId == eventId
                && rsvps[i].attendanceType != No
  }

  /** Switching from yes to maybe: the maybe reaction upserts the row, then
      the stale yes reaction's removal finds no yes row, so the user keeps an
      active RSVP (and with it the channel). */
  lemma SwitchKeepsActiveRsvp(rsvps: seq<Rsvp>, userId: UserId, eventId: nat)
    requires OneRowPerUserEvent(rsvps)
    ensures var switched := Upserted(rsvps, Maybe, userId, eventId);
      && Withdrawn(switched, Yes, userId, eventId) == switched
      && HasActiveRsvp(switched, userId, eventId)
  {
    var switched := Upserted(rsvps, Maybe, userId, eventId);
    UpsertedContents(rsvps, Maybe, userId, eventId);
    var i :| 0 <= i < |switched| && switched[i] == Rsvp(userId, eventId, Maybe);
    forall j | 0 <= j < |switched|
      ensures switched[j] != Rsvp(userId, eventId, Yes)
    {
      if j < i {
        assert switched[j].userId != userId || switched[j].eventId != eventId;
      } else if j > i {
        assert switched[j].userId != userId || switched[j].eventId != eventId;
      }
    }
  }
}
