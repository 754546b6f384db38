/**
  The participant registry of the chat server (index.js): one list of
  participant records, a registration operation answering 201, 409 or 422,
  and a read of the whole list. The HTTP layer is stripped: the status code a
  handler sends is the value its method returns.
 */
module Registry {
  import opened Wrappers
  import opened JsValues

  const Created := 201
  const Conflict := 409
  const UnprocessableEntity := 422

  /** Every record gets this literal string as its last status; no clock is read. */
  const LastStatus := "Date.now()"

  datatype Participant = Participant(name: JsValue, lastStatus: string)

  /** A record in `ps` is named `name`, compared with `===`. */
  predicate NameTaken(ps: seq<Participant>, name: JsValue) {
    exists i :: 0 <= i < |ps| && StrictEquals(ps[i].name, name)
  }

  /** No two records share a name. */
  predicate NamesUnique(ps: seq<Participant>) {
    forall i, j :: 0 <= i < j < |ps| ==> !StrictEquals(ps[i].name, ps[j].name)
  }

  /**
    What every list built by registrations alone satisfies: names are unique,
    none is falsy, and every last status is the constant.
   */
  predicate WellFormed(ps: seq<Participant>) {
    NamesUnique(ps) &&
    forall i :: 0 <= i < |ps| ==> !Falsy(ps[i].name) && ps[i].lastStatus == LastStatus
  }

  /** The index of the first record named `name`, if there is one. */
  function FirstIndex(ps: seq<Participant>, name: JsValue): (r: Option<nat>)
    ensures r.None? <==> !NameTaken(ps, name)
    ensures r.Some? ==> r.value < |ps| && StrictEquals(ps[r.value].name, name)
    ensures r.Some? ==> forall j :: 0 <= j < r.value ==> !StrictEquals(ps[j].name, name)
  {
    if |ps| == 0 then None
    else if StrictEquals(ps[0].name, name) then Some(0)
    else match FirstIndex(ps[1..], name)
      case None => None
      case Some(k) => Some(k + 1)
  }

  /** `ps.find(i => i.name === name)`: the first record named `name`, or undefined. */
  function FindByName(ps: seq<Participant>, name: JsValue): (r: Option<Participant>)
    ensures r.Some? <==> NameTaken(ps, name)
    ensures r.Some? ==> r.value in ps && StrictEquals(r.value.name, name)
  {
    match FirstIndex(ps, name)
    case None => None
    case Some(i) => Some(ps[i])
  }

  /** The status code a registration answers with and the list it leaves behind. */
  datatype Response = Response(status: int, participants: seq<Participant>)

  /** POST /participants with body field `name`, against the list `ps`. */
  function Registration(ps: seq<Participant>, name: JsValue): (r: Response)
    ensures r.status in {Created, Conflict, UnprocessableEntity}
    ensures r.status == UnprocessableEntity <==> Falsy(name)
    ensures r.status == Conflict <==> !Falsy(name) && NameTaken(ps, name)
    ensures r.status == Created <==> !Falsy(name) && !NameTaken(ps, name)
    ensures r.status == Created ==> r.participants == ps + [Participant(name, LastStatus)]
    ensures r.status != Created ==> r.participants == ps
  {
    if Falsy(name) then Response(UnprocessableEntity, ps)
    else if FindByName(ps, name).Some? then Response(Conflict, ps)
    else Response(Created, ps + [Participant(name, LastStatus)])
  }

  /** Registration keeps names unique, truthy and every last status constant. */
  lemma RegistrationPreservesWellFormed(ps: seq<Participant>, name: JsValue)
    requires WellFormed(ps)
    ensures WellFormed(Registration(ps, name).participants)
  {
  }

  /**
    Registration only appends: the existing records stay as they were and in
    their order, and on success exactly one record is added at the end.
   */
  lemma RegistrationOnlyAppends(ps: seq<Participant>, name: JsValue)
    ensures var r := Registration(ps, name);
      |r.participants| == |ps| + (if r.status == Created then 1 else 0) &&
      r.participants[..|ps|] == ps &&
      (r.status == Created ==> r.participants[|ps|] == Participant(name, LastStatus))
  {
  }

  /** After a successful registration, looking the name up finds the new record. */
  lemma RegisteredNameIsFound(ps: seq<Participant>, name: JsValue)
    requires Registration(ps, name).status == Created
    ensures FindByName(Registration(ps, name).participants, name) == Some(Participant(name, LastStatus))
  {
    var after := Registration(ps, name).participants;
    assert StrictEquals(after[|ps|].name, name);
    forall j | 0 <= j < |ps|
      ensures !StrictEquals(after[j].name, name)
    {
      assert after[j] == ps[j];
    }
  }

  /**
    Registering a truthy name a second time answers 409 and changes nothing.
    For an object or array name this case does not arise from requests: each
    request body is parsed afresh, so its identity is new and it gets 201.
   */
  lemma SecondRegistrationConflicts(ps: seq<Participant>, name: JsValue)
    requires !Falsy(name)
    ensures var after := Registration(ps, name).participants;
      Registration(after, name) == Response(Conflict, after)
  {
    var after := Registration(ps, name).participants;
    if Registration(ps, name).status == Created {
      assert StrictEquals(after[|ps|].name, name);
    }
  }

  /**
    The module-level `participants` array of the server, with the two route
    handlers that use it.
   */
  class ParticipantRegistry {
    var participants: seq<Participant>

    predicate Valid()
      reads this
    {
      WellFormed(participants)
    }

    /** The server starts with an empty list. */
    constructor ()
      ensures participants == [] && Valid()
    {
      participants := [];
    }

    /** GET /participants: the current list; nothing changes. */
    method List() returns (ps: seq<Participant>)
      ensures ps == participants
    {
      ps := participants;
    }

    /** `participants.find(i => i.name === name)`, a linear search from the front. */
    method Find(name: JsValue) returns (found: Option<Participant>)
      ensures found == FindByName(participants, name)
    {
      var i := 0;
      while i < |participants|
        invariant 0 <= i <= |participants|
        invariant forall j :: 0 <= j < i ==> !StrictEquals(participants[j].name, name)
      {
        if StrictEquals(participants[i].name, name) {
          return Some(participants[i]);
        }
        i := i + 1;
      }
      return None;
    }

    /**
      POST /participants: 422 for a falsy name, else 409 for a name already
      listed, else the new record is pushed and the answer is 201.
     */
    method Register(name: JsValue) returns (status: int)
      modifies this
      ensures status == Registration(old(participants), name).status
      ensures participants == Registration(old(participants), name).participants
      ensures old(Valid()) ==> Valid()
    {
      if Falsy(name) {
        return UnprocessableEntity;
      }
      var found := Find(name);
      if found.Some? {
        return Conflict;
      }
      ghost var before := participants;
      participants := participants + [Participant(name, LastStatus)];
      status := Created;
      if WellFormed(before) {
        RegistrationPreservesWellFormed(before, name);
      }
    }
  }
}
