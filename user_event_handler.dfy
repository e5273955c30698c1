/**
 * The handler for the "users" topic (handler/users/user_event_handler.go).
 *
 * A message carries its event type in an `eventType` header and the user ID, as
 * decimal text, in its key. A "user created" event creates the user's root folder
 * through the folder service (`FolderService.CreateRootFolder` over a folder
 * table); a "user deleted" event reaches two stubs that do nothing; any other event
 * type is an error. What `HandleMessage` returns is a `Dispatch`: the folder table
 * afterwards, the error (or none), and the user IDs the folder service was asked to
 * create a root folder for.
 */
module UserEventHandler {
  import opened Numeric
  import opened Wrappers
  import opened Kafka
  import opened Decimal
  import opened Entity
  import opened Repository
  import FolderService

  /** Why the root folder of a created user was not made. */
  datatype RootCause =
    | InvalidUserId             // `strconv.ParseUint` refused the key (a syntax or range error)
    | Service(error: Error)     // the folder service's error

  /** The errors `HandleMessage` returns. */
  datatype HandlerError =
    | CreateRootFolderFailed(userId: string, cause: RootCause)   // "failed to create root folder for users %s: %v"
    | UnknownEventType(eventType: string)                        // "unknown users event type: %s"

  datatype Dispatch = Dispatch(table: FolderTable, err: Option<HandlerError>, rootCalls: seq<uint64>)

  const EVENT_TYPE_KEY: string := "eventType"
  const USER_CREATED: string := "UserCreatedEvent"
  const USER_DELETED: string := "UserDeletedEvent"

  /** `Topic`: the handler's subscription. */
  function Topic(): (t: string)
    ensures t == "users"
  {
    "users"
  }

  /** The value of the last header keyed `eventType`, or the empty string when there is none. */
  function EventTypeOf(headers: seq<Header>): string
  {
    if headers == [] then ""
    else if headers[|headers| - 1].key == EVENT_TYPE_KEY then BytesToString(headers[|headers| - 1].value)
    else EventTypeOf(headers[..|headers| - 1])
  }

  /** The header scan: every `eventType` header overwrites the value found so far. */
  method ExtractEventType(headers: seq<Header>) returns (eventType: string)
    ensures eventType == EventTypeOf(headers)
  {
    eventType := "";
    var i := 0;
    while i < |headers|
      invariant 0 <= i <= |headers|
      invariant eventType == EventTypeOf(headers[..i])
    {
      assert headers[..i + 1][..i] == headers[..i];
      if headers[i].key == EVENT_TYPE_KEY {
        eventType := BytesToString(headers[i].value);
      }
      i := i + 1;
    }
    assert headers[..i] == headers;
  }

  /**
   * `createRootFolder`: the key must parse as a decimal 64-bit unsigned value;
   * only then is the folder service called, once, with that value.
   */
  function CreateRootFolder(t: FolderTable, userId: string): (r: (FolderTable, Option<RootCause>, seq<uint64>))
    ensures ParseUint(userId).None? ==> r == (t, Some(InvalidUserId), [])
    ensures ParseUint(userId).Some? ==>
              var u := ParseUint(userId).value;
              var (t', created) := FolderService.CreateRootFolder(t, u);
              && r.0 == t' && r.2 == [u]
              && (created.Err? ==> r.1 == Some(Service(created.error)))
              && (created.Ok? ==> r.1 == None)
  {
    match ParseUint(userId)
    case None => (t, Some(InvalidUserId), [])
    case Some(u) =>
      var (t', created) := FolderService.CreateRootFolder(t, u);
      if created.Err? then (t', Some(Service(created.error)), [u]) else (t', None, [u])
  }

  /**
   * The `switch` of `HandleMessage` on the event type, for the user ID `userId`. The
   * folder service is called at most once, and only for a created user with a valid
   * key; only such a call can change the folder table.
   */
  function Dispatched(t: FolderTable, eventType: string, userId: string): (r: Dispatch)
    ensures eventType != USER_CREATED && eventType != USER_DELETED ==>
              r == Dispatch(t, Some(UnknownEventType(eventType)), [])
    ensures eventType == USER_DELETED ==> r == Dispatch(t, None, [])
    ensures eventType == USER_CREATED && ParseUint(userId).None? ==>
              r == Dispatch(t, Some(CreateRootFolderFailed(userId, InvalidUserId)), [])
    ensures eventType == USER_CREATED && ParseUint(userId).Some? ==>
              var u := ParseUint(userId).value;
              var (t', created) := FolderService.CreateRootFolder(t, u);
              && r.table == t' && r.rootCalls == [u]
              && r.err == (if created.Err? then Some(CreateRootFolderFailed(userId, Service(created.error))) else None)
    ensures r.rootCalls == [] || (eventType == USER_CREATED && r.rootCalls == [ParseUint(userId).value])
    ensures r.rootCalls == [] ==> r.table == t
  {
    if eventType == USER_CREATED then
      var (t', cause, calls) := CreateRootFolder(t, userId);
      if cause.Some? then Dispatch(t', Some(CreateRootFolderFailed(userId, cause.value)), calls)
      else Dispatch(t', None, calls)
    else if eventType == USER_DELETED then
      Dispatch(t, None, [])
    else
      Dispatch(t, Some(UnknownEventType(eventType)), [])
  }

  /** `HandleMessage`: scan the headers for the event type, read the user ID from the key, dispatch. */
  method HandleMessage(t: FolderTable, msg: Message) returns (r: Dispatch)
    ensures r == Dispatched(t, EventTypeOf(msg.headers), BytesToString(msg.key))
  {
    var eventType := ExtractEventType(msg.headers);
    var userId := BytesToString(msg.key);
    r := Dispatched(t, eventType, userId);
  }

  // ------------------------------------------------------------ properties

  /** The event type is the value of the last `eventType` header: no later header has that key. */
  lemma {:induction false} LastEventTypeHeaderWins(headers: seq<Header>, k: nat)
    requires k < |headers| && headers[k].key == EVENT_TYPE_KEY
    requires forall j :: k < j < |headers| ==> headers[j].key != EVENT_TYPE_KEY
    ensures EventTypeOf(headers) == BytesToString(headers[k].value)
  {
    if k < |headers| - 1 {
      LastEventTypeHeaderWins(headers[..|headers| - 1], k);
    }
  }

  /** Without an `eventType` header the event type is empty; a non-empty one always comes from such a header. */
  lemma {:induction false} EventTypeFromHeader(headers: seq<Header>)
    ensures (forall j :: 0 <= j < |headers| ==> headers[j].key != EVENT_TYPE_KEY) ==> EventTypeOf(headers) == ""
    ensures EventTypeOf(headers) != "" ==>
              exists j :: 0 <= j < |headers| && headers[j].key == EVENT_TYPE_KEY
                       && EventTypeOf(headers) == BytesToString(headers[j].value)
  {
    if headers != [] {
      var init := headers[..|headers| - 1];
      EventTypeFromHeader(init);
      if EventTypeOf(headers) != "" && headers[|headers| - 1].key != EVENT_TYPE_KEY {
        var j :| 0 <= j < |init| && init[j].key == EVENT_TYPE_KEY && EventTypeOf(init) == BytesToString(init[j].value);
        assert headers[j] == init[j];
      }
    }
  }

  /** A message without an `eventType` header is an unknown event, and no service is called. */
  lemma MissingEventTypeIsUnknown(t: FolderTable, msg: Message)
    requires forall j :: 0 <= j < |msg.headers| ==> msg.headers[j].key != EVENT_TYPE_KEY
    ensures Dispatched(t, EventTypeOf(msg.headers), BytesToString(msg.key)) == Dispatch(t, Some(UnknownEventType("")), [])
  {
    EventTypeFromHeader(msg.headers);
  }

  /** A key that is empty or holds anything but a digit (a sign, a space) never reaches the folder service. */
  lemma NonDecimalKeyRejected(t: FolderTable, userId: string)
    requires |userId| == 0 || exists k :: 0 <= k < |userId| && !IsDigit(userId[k])
    ensures Dispatched(t, USER_CREATED, userId) == Dispatch(t, Some(CreateRootFolderFailed(userId, InvalidUserId)), [])
  {
    ParseUintAccepts(userId);
  }

  /** The decimal text of any 64-bit unsigned ID as key gets one call to the folder service, with that ID. */
  lemma CanonicalKeyCreatesThatUser(t: FolderTable, u: uint64)
    ensures Dispatched(t, USER_CREATED, NatToDigits(u)).rootCalls == [u]
    ensures Dispatched(t, USER_CREATED, NatToDigits(u)).table == FolderService.CreateRootFolder(t, u).0
  {
    ParseUintDigits(u);
  }

  /**
   * A created-user event delivered twice: when the first creates the root folder,
   * the second fails with "root folder already exists" and changes nothing.
   */
  lemma RepeatedUserCreatedFails(t: FolderTable, userId: string)
    requires GetRootFolderQ !in t.failing
    requires Dispatched(t, USER_CREATED, userId).err.None?
    ensures var t' := Dispatched(t, USER_CREATED, userId).table;
            var u := ParseUint(userId).value;
            Dispatched(t', USER_CREATED, userId) == Dispatch(t', Some(CreateRootFolderFailed(userId, Service(RootFolderExists(u)))), [u])
  {
    var u := ParseUint(userId).value;
    var (t', created) := FolderService.CreateRootFolder(t, u);
    assert created.Ok?;
    assert t'.rows[|t.rows|] == created.value;
    assert FolderService.HasRoot(t', u);
  }
}
