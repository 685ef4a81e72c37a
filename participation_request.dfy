/** Participation requests (participants/models/participation_request.py): a
    player asks to join an activity, at most once per activity. */
module ParticipationRequests {
  import opened Wrappers
  import Tables
  import ActivityPlayers

  const MessageMaxLength := 250
  const DuplicateRequestMessage := "You already sent a participation request."

  /** `created_at` is stamped once, when the row is created (`auto_now_add`). */
  datatype ParticipationRequest = ParticipationRequest(
    id: nat, activity: nat, participant: nat, createdAt: int, message: string)

  /** `message` may be blank and holds at most 250 characters. */
  predicate MessageValid(message: string) {
    |message| <= MessageMaxLength
  }

  /** The unique constraint `activity_participant_unique`. */
  predicate UniqueActivityParticipant(rows: seq<ParticipationRequest>) {
    Tables.UniqueBy(rows, (r: ParticipationRequest) => (r.activity, r.participant))
  }

  predicate HasRequest(rows: seq<ParticipationRequest>, activity: nat, participant: nat) {
    exists r :: r in rows && r.activity == activity && r.participant == participant
  }

  /** Why a request is refused. The unique constraint's
      `violation_error_message` is what `full_clean()` reports; a plain
      `save()` or `create()` that breaks the constraint gets the database's
      `IntegrityError` instead, which carries no such message. The model
      stands for the validated path. */
  datatype CreateError =
    | MessageTooLong                    // the field's max_length
    | DuplicateRequest(message: string) // the unique constraint was violated

  /** Creating a request: the field bound is checked before the unique
      constraint (Django validates fields before constraints); the new row is
      stamped with `now`. */
  function Create(rows: seq<ParticipationRequest>, id: nat, activity: nat, participant: nat,
                  message: string, now: int)
    : (r: Result<(seq<ParticipationRequest>, ParticipationRequest), CreateError>)
    ensures r.Err? <==> !MessageValid(message) || HasRequest(rows, activity, participant)
    ensures r.Err? && !MessageValid(message) ==> r.error == MessageTooLong
    ensures r.Err? && MessageValid(message) ==> r.error == DuplicateRequest(DuplicateRequestMessage)
    ensures r.Ok? ==> r.value.1 == ParticipationRequest(id, activity, participant, now, message)
    ensures r.Ok? ==> r.value.0 == rows + [r.value.1]
    ensures r.Ok? ==> HasRequest(r.value.0, activity, participant)
    ensures UniqueActivityParticipant(rows) && r.Ok? ==> UniqueActivityParticipant(r.value.0)
  {
    if !MessageValid(message) then Err(MessageTooLong)
    else if HasRequest(rows, activity, participant) then Err(DuplicateRequest(DuplicateRequestMessage))
    else
      var req := ParticipationRequest(id, activity, participant, now, message);
      assert UniqueActivityParticipant(rows) ==> UniqueActivityParticipant(rows + [req]) by {
        if UniqueActivityParticipant(rows) {
          Tables.ConcatUniqueBy(rows, [req], (x: ParticipationRequest) => (x.activity, x.participant));
        }
      }
      assert req in rows + [req];
      Ok((rows + [req], req))
  }

  /** A second request for the same pair is always refused, whatever its message. */
  lemma SecondRequestRefused(rows: seq<ParticipationRequest>, id1: nat, id2: nat, activity: nat,
                             participant: nat, m1: string, m2: string, t1: int, t2: int)
    requires Create(rows, id1, activity, participant, m1, t1).Ok?
    requires MessageValid(m2)
    ensures Create(Create(rows, id1, activity, participant, m1, t1).value.0, id2, activity, participant, m2, t2)
         == Err(DuplicateRequest(DuplicateRequestMessage))
  {
  }

  /** `filter_participant(p)`: exactly the requests p made, in table order. */
  function FilterParticipant(rows: seq<ParticipationRequest>, participant: nat): (r: seq<ParticipationRequest>)
    ensures forall q :: q in r <==> q in rows && q.participant == participant
    ensures Tables.IsSubsequence(r, rows)
  {
    Tables.Filter(rows, (q: ParticipationRequest) => q.participant == participant)
  }

  /** `filter_organizer(o)`: both lookups run through the same roster join in
      one `filter()` call, so a request is selected when o's own roster row on
      the request's activity is the organizer row. */
  function FilterOrganizer(rows: seq<ParticipationRequest>, roster: seq<ActivityPlayers.RosterRow>,
                           organizer: nat): (r: seq<ParticipationRequest>)
    ensures forall q :: q in r <==>
      q in rows && ActivityPlayers.RosterRow(q.activity, organizer, true) in roster
    ensures Tables.IsSubsequence(r, rows)
  {
    Tables.Filter(rows, (q: ParticipationRequest) => ActivityPlayers.RosterRow(q.activity, organizer, true) in roster)
  }

  /** Under the one-organizer rule, `filter_organizer(o)` selects exactly the
      requests on the activities o organizes. */
  lemma FilterOrganizerIsOrganizedActivities(rows: seq<ParticipationRequest>,
                                             roster: seq<ActivityPlayers.RosterRow>, organizer: nat)
    requires ActivityPlayers.OnlyOneOrganizer(roster)
    ensures forall q :: q in FilterOrganizer(rows, roster, organizer) <==>
      q in rows && ActivityPlayers.Organizer(roster, q.activity) == Some(organizer)
  {
    forall q | q in rows && ActivityPlayers.Organizer(roster, q.activity) == Some(organizer)
      ensures q in FilterOrganizer(rows, roster, organizer)
    {
      assert ActivityPlayers.RosterRow(q.activity, organizer, true) in roster;
    }
    forall q | q in FilterOrganizer(rows, roster, organizer)
      ensures ActivityPlayers.Organizer(roster, q.activity) == Some(organizer)
    {
      var row := ActivityPlayers.RosterRow(q.activity, organizer, true);
      assert row in roster && row.activity == q.activity && row.isOrganizer;
    }
  }

  /** Two different players never see the same request through `filter_organizer`. */
  lemma OrganizerViewsDisjoint(rows: seq<ParticipationRequest>, roster: seq<ActivityPlayers.RosterRow>,
                               o1: nat, o2: nat, q: ParticipationRequest)
    requires ActivityPlayers.OnlyOneOrganizer(roster)
    requires o1 != o2
    ensures !(q in FilterOrganizer(rows, roster, o1) && q in FilterOrganizer(rows, roster, o2))
  {
    FilterOrganizerIsOrganizedActivities(rows, roster, o1);
    FilterOrganizerIsOrganizedActivities(rows, roster, o2);
  }

  /** ON DELETE CASCADE from the activity. */
  function DeleteActivity(rows: seq<ParticipationRequest>, activity: nat): (r: seq<ParticipationRequest>)
    ensures forall q :: q in r <==> q in rows && q.activity != activity
    ensures UniqueActivityParticipant(rows) ==> UniqueActivityParticipant(r)
  {
    var r := Tables.Filter(rows, (q: ParticipationRequest) => q.activity != activity);
    assert UniqueActivityParticipant(rows) ==> UniqueActivityParticipant(r) by {
      if UniqueActivityParticipant(rows) {
        Tables.SubsequenceUniqueBy(r, rows, (x: ParticipationRequest) => (x.activity, x.participant));
      }
    }
    r
  }

  /** ON DELETE CASCADE from the participant. */
  function DeleteParticipant(rows: seq<ParticipationRequest>, participant: nat): (r: seq<ParticipationRequest>)
    ensures forall q :: q in r <==> q in rows && q.participant != participant
    ensures FilterParticipant(r, participant) == []
    ensures UniqueActivityParticipant(rows) ==> UniqueActivityParticipant(r)
  {
    var r := Tables.Filter(rows, (q: ParticipationRequest) => q.participant != participant);
    Tables.FilterNone(r, (q: ParticipationRequest) => q.participant == participant);
    assert UniqueActivityParticipant(rows) ==> UniqueActivityParticipant(r) by {
      if UniqueActivityParticipant(rows) {
        Tables.SubsequenceUniqueBy(r, rows, (x: ParticipationRequest) => (x.activity, x.participant));
      }
    }
    r
  }

  const Suffix := "'s participation request"

  /** `str(request)`: "<participant>'s participation request"; the
      participant's string is recovered from it. */
  function Str(participantStr: string): (r: string)
    ensures |r| == |participantStr| + |Suffix|
    ensures r[..|participantStr|] == participantStr && r[|participantStr|..] == Suffix
    ensures forall p :: p + Suffix == r <==> p == participantStr
  {
    var r := participantStr + Suffix;
    assert forall p :: p + Suffix == r ==> p == participantStr by {
      forall p | p + Suffix == r ensures p == participantStr {
        assert p == (p + Suffix)[..|p|];
      }
    }
    r
  }

  /** Different participants give different request strings. */
  lemma StrInjective(p1: string, p2: string)
    requires Str(p1) == Str(p2)
    ensures p1 == p2
  {
    assert p1 + Suffix == Str(p2);
  }
}
