/** Who works here, rebuilt from staff events. */
module Staff {
  import opened Base

  datatype Role = Cashier | Manager | Owner

  /** A PIN travels only as its hash, which is opaque here. */
  datatype StaffEvent =
    | Enrolled(staffId: Uuid, name: string, role: Role, pinHash: string, at: I64)
    | RoleChanged(staffId: Uuid, role: Role)
    | PinChanged(staffId: Uuid, pinHash: string)
    | Deactivated(staffId: Uuid)
    | Reactivated(staffId: Uuid)

  datatype DirectoryError = Unknown(staffId: Uuid) | Duplicate(staffId: Uuid)

  datatype Member = Member(name: string, role: Role, active: bool, pinHash: string, enrolledAt: I64)

  type Members = map<Uuid, Member>

  function ApplyTo(members: Members, e: StaffEvent): Result<Members, DirectoryError>
  {
    if e.Enrolled? then
      if e.staffId in members then Err(Duplicate(e.staffId))
      else Ok(members[e.staffId := Member(e.name, e.role, true, e.pinHash, e.at)])
    else if e.staffId !in members then Err(Unknown(e.staffId))
    else
      var member := members[e.staffId];
      var changed :=
        match e
        case RoleChanged(_, role) => member.(role := role)
        case PinChanged(_, pinHash) => member.(pinHash := pinHash)
        case Deactivated(_) => member.(active := false)
        case Reactivated(_) => member.(active := true)
        case Enrolled(_, _, _, _, _) => member;
      Ok(members[e.staffId := changed])
  }

  class Directory {
    var members: Members

    constructor Of(members: Members)
      ensures this.members == members
    {
      this.members := members;
    }

    /** One event. A refusal leaves the directory exactly as it was. */
    method Apply(e: StaffEvent) returns (r: Result<(), DirectoryError>)
      modifies this
      ensures r.Ok? ==> ApplyTo(old(members), e) == Ok(members)
      ensures r.Err? ==> ApplyTo(old(members), e) == Err(r.error) && members == old(members)
    {
      match e {
        case Enrolled(staffId, name, role, pinHash, at) =>
          if staffId in members {
            return Err(Duplicate(staffId));
          }
          members := members[staffId := Member(name, role, true, pinHash, at)];
        case RoleChanged(staffId, role) =>
          if staffId !in members {
            return Err(Unknown(staffId));
          }
          members := members[staffId := members[staffId].(role := role)];
        case PinChanged(staffId, pinHash) =>
          if staffId !in members {
            return Err(Unknown(staffId));
          }
          members := members[staffId := members[staffId].(pinHash := pinHash)];
        case Deactivated(staffId) =>
          if staffId !in members {
            return Err(Unknown(staffId));
          }
          members := members[staffId := members[staffId].(active := false)];
        case Reactivated(staffId) =>
          if staffId !in members {
            return Err(Unknown(staffId));
          }
          members := members[staffId := members[staffId].(active := true)];
      }
      return Ok(());
    }
  }

  // ---------- what the events make ----------

  function Replay(events: seq<StaffEvent>): Result<Members, DirectoryError>
  {
    if events == [] then Ok(map[])
    else
      var before :- Replay(events[..|events| - 1]);
      ApplyTo(before, events[|events| - 1])
  }

  /** Exactly what is taken: an enrollment of someone new, or a change to someone known. */
  lemma AppliesExactly(members: Members, e: StaffEvent)
    ensures ApplyTo(members, e).Ok? <==> (e.Enrolled? <==> e.staffId !in members)
    ensures ApplyTo(members, e).Err? ==>
              ApplyTo(members, e).error == if e.Enrolled? then Duplicate(e.staffId) else Unknown(e.staffId)
  {
  }

  /** The last event that says so of a person, field by field. */
  function RoleIn(events: seq<StaffEvent>, id: Uuid): Option<Role>
  {
    if events == [] then None
    else
      var last := events[|events| - 1];
      if last.staffId == id && (last.Enrolled? || last.RoleChanged?) then Some(last.role)
      else RoleIn(events[..|events| - 1], id)
  }

  function PinIn(events: seq<StaffEvent>, id: Uuid): Option<string>
  {
    if events == [] then None
    else
      var last := events[|events| - 1];
      if last.staffId == id && (last.Enrolled? || last.PinChanged?) then Some(last.pinHash)
      else PinIn(events[..|events| - 1], id)
  }

  predicate ActiveIn(events: seq<StaffEvent>, id: Uuid)
  {
    events != [] &&
    var last := events[|events| - 1];
    if last.staffId == id && (last.Enrolled? || last.Reactivated? || last.Deactivated?) then !last.Deactivated?
    else ActiveIn(events[..|events| - 1], id)
  }

  function EnrollmentIn(events: seq<StaffEvent>, id: Uuid): Option<StaffEvent>
  {
    if events == [] then None
    else
      var last := events[|events| - 1];
      if last.staffId == id && last.Enrolled? then Some(last) else EnrollmentIn(events[..|events| - 1], id)
  }

  /** A member is who was enrolled, with the role, the PIN and the standing that were set last. */
  lemma {:induction false} MemberIsItsEvents(events: seq<StaffEvent>, id: Uuid)
    requires Replay(events).Ok?
    ensures EnrollmentIn(events, id).Some? ==> EnrollmentIn(events, id).value.Enrolled?
    ensures id in Replay(events).value <==> EnrollmentIn(events, id).Some?
    ensures id in Replay(events).value ==>
              var m, enrolled := Replay(events).value[id], EnrollmentIn(events, id).value;
              && m.name == enrolled.name && m.enrolledAt == enrolled.at
              && Some(m.role) == RoleIn(events, id) && Some(m.pinHash) == PinIn(events, id)
              && m.active == ActiveIn(events, id)
  {
    if events != [] {
      MemberIsItsEvents(events[..|events| - 1], id);
    }
  }
}
