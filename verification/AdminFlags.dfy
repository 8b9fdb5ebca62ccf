/** The admin_deleted / user_ack columns, which the tasks and shared_tasks tables carry alike. */
module AdminFlags {
  import opened TaskDomain

  datatype Flags = Flags(deleted: bool, ack: bool)

  const FRESH := Flags(false, false)

  /** The list queries hide a row only when both columns are set. */
  predicate Hidden(f: Flags) {
    f.deleted && f.ack
  }

  // UPDATE ... SET admin_deleted = TRUE WHERE admin_deleted is not already TRUE; user_ack is not touched.
  function SoftDelete(f: Flags): Flags {
    if f.deleted then f else f.(deleted := true)
  }

  // UPDATE ... SET user_ack = TRUE WHERE <user is a participant> AND admin_deleted = TRUE
  function Acknowledge(f: Flags, participant: bool): Flags {
    if participant && f.deleted then f.(ack := true) else f
  }

  // due_date is NULL, or not before now. A due date at Go's zero time counts as long expired.
  predicate RestoreInTime(due: Option<Time>, now: Time) {
    due.None? || now <= due.value
  }

  function Restore(f: Flags, due: Option<Time>, now: Time): Flags {
    if RestoreInTime(due, now) then FRESH else f
  }

  // One request about one row, with what the row said about the caller and the deadline when it arrived.
  datatype Request =
    | SoftDeleteRequest
    | AcknowledgeRequest(participant: bool)
    | RestoreRequest(due: Option<Time>, now: Time)

  function Handle(f: Flags, r: Request): Flags {
    match r
    case SoftDeleteRequest => SoftDelete(f)
    case AcknowledgeRequest(participant) => Acknowledge(f, participant)
    case RestoreRequest(due, now) => Restore(f, due, now)
  }

  /** The columns of a row after a whole life of requests. */
  function After(rs: seq<Request>): Flags {
    if rs == [] then FRESH else Handle(After(rs[..|rs| - 1]), rs[|rs| - 1])
  }

  predicate Restores(r: Request) {
    r.RestoreRequest? && !(r.due.Some? && r.due.value < r.now)
  }

  // The requests from j on contain no restore that succeeds.
  ghost predicate NoRestoreFrom(rs: seq<Request>, j: nat) {
    forall k :: j <= k < |rs| ==> !Restores(rs[k])
  }

  // Request j is a soft deletion that no later restore has undone.
  ghost predicate DeletedSince(rs: seq<Request>, j: nat) {
    j < |rs| && rs[j].SoftDeleteRequest? && NoRestoreFrom(rs, j)
  }

  // Request i is a participant's acknowledgement of the deletion made by request j.
  ghost predicate Confirms(rs: seq<Request>, j: nat, i: nat) {
    DeletedSince(rs, j) && j < i < |rs| && rs[i].AcknowledgeRequest? && rs[i].participant
  }

  // Dropping the last request: which deletions and confirmations survive.
  lemma Shorter(rs: seq<Request>, j: nat)
    requires rs != []
    ensures j < |rs| - 1 ==>
              (DeletedSince(rs, j) <==> DeletedSince(rs[..|rs| - 1], j) && !Restores(rs[|rs| - 1]))
  {
    var before := rs[..|rs| - 1];
    if j < |rs| - 1 && DeletedSince(rs, j) {
      forall k | j <= k < |before| ensures !Restores(before[k]) { assert before[k] == rs[k]; }
    }
    if j < |rs| - 1 && DeletedSince(before, j) && !Restores(rs[|rs| - 1]) {
      forall k | j <= k < |rs| ensures !Restores(rs[k]) {
        if k < |before| { assert before[k] == rs[k]; }
      }
    }
  }

  /** Over every life of a row: it is marked deleted exactly while some soft deletion has not been undone, and it is
      hidden exactly while a participant has acknowledged such a deletion after it was made. An acknowledgement
      without a deletion never sticks, so every soft deletion starts out visible. */
  lemma {:induction false} HiddenExactlyWhenConfirmed(rs: seq<Request>)
    ensures After(rs).ack ==> After(rs).deleted
    ensures After(rs).deleted <==> exists j :: DeletedSince(rs, j)
    ensures Hidden(After(rs)) <==> exists j, i :: Confirms(rs, j, i)
    ensures !After(rs).deleted ==> !Hidden(After(rs + [SoftDeleteRequest]))
  {
    assert (rs + [SoftDeleteRequest])[..|rs|] == rs;
    if rs == [] {
    } else {
      var before, r := rs[..|rs| - 1], rs[|rs| - 1];
      HiddenExactlyWhenConfirmed(before);
      forall j: nat | j < |rs| - 1
        ensures DeletedSince(rs, j) <==> DeletedSince(before, j) && !Restores(r)
      {
        Shorter(rs, j);
      }
      if After(rs).deleted {
        if r.SoftDeleteRequest? {
          assert DeletedSince(rs, |rs| - 1);
        } else {
          var j: nat :| DeletedSince(before, j);
          assert DeletedSince(rs, j);
        }
      }
      if Hidden(After(rs)) {
        if Hidden(After(before)) {
          var j: nat, i: nat :| Confirms(before, j, i);
          assert before[i] == rs[i];
          assert Confirms(rs, j, i);
        } else {
          var j: nat :| DeletedSince(before, j);
          assert Confirms(rs, j, |rs| - 1);
        }
      }
      if j: nat, i: nat :| Confirms(rs, j, i) {
        if i < |rs| - 1 {
          assert before[i] == rs[i];
          assert Confirms(before, j, i);
        } else {
          assert DeletedSince(before, j);
        }
      }
    }
  }
}
