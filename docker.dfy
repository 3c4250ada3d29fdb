/** What the Docker remote API returns to the bridge, as values. */
module Docker {
  import opened Outcomes

  const StatusOK: int := 200
  const StatusNotFound: int := 404

  /** The body of a reply: read to the end, or cut off by a read error. */
  datatype Body = Body(data: string) | ReadFailed(cause: string)

  /** The answer to `GET /containers/<id>/json`. */
  datatype Response = Reply(status: int, body: Body) | Unreachable(cause: string)

  /** The container descriptors the Docker daemon would serve, by id. */
  type Runtime = map<string, Response>

  /** The reply for `id`; the daemon answers 404 for an id it does not know. */
  function Fetch(rt: Runtime, id: string): Response
  {
    if id in rt then rt[id] else Reply(StatusNotFound, Body(""))
  }

  /** getContainer: the descriptor bytes, a transport or read error, or,
      for any status but 200, an empty descriptor with no error (Go's `nil, nil`). */
  function GetContainer(rt: Runtime, id: string): (r: Result<string>)
    ensures r.Err? <==> Fetch(rt, id).Unreachable? || (Fetch(rt, id).status == StatusOK && Fetch(rt, id).body.ReadFailed?)
  {
    match Fetch(rt, id)
    case Unreachable(cause) => Err(RuntimeFailure(cause))
    case Reply(status, body) =>
      if status == StatusOK then
        match body
        case Body(data) => Ok(data)
        case ReadFailed(cause) => Err(RuntimeFailure(cause))
      else Ok("")
  }

  /** A reply other than 200 yields an empty descriptor and no error. */
  lemma NonOkStatusIsEmptyDescriptor(rt: Runtime, id: string)
    requires Fetch(rt, id).Reply? && Fetch(rt, id).status != StatusOK
    ensures GetContainer(rt, id) == Ok("")
  {
  }

  /** A complete 200 reply yields exactly its body. */
  lemma OkStatusIsBody(rt: Runtime, id: string, data: string)
    requires Fetch(rt, id) == Reply(StatusOK, Body(data))
    ensures GetContainer(rt, id) == Ok(data)
  {
  }

  /** The decoded body of `GET /containers/json`. */
  datatype Payload = Ids(ids: seq<string>) | Garbled(cause: string)

  /** The answer to `GET /containers/json`. */
  datatype Listing = Listed(status: int, payload: Payload) | ListUnreachable(cause: string)

  /** getContainerIds: the running ids on a 200 reply that decodes, an error when
      the daemon is unreachable or the list does not decode, and for any other
      status an empty list with no error (Go's `nil, nil`). */
  function GetContainerIds(l: Listing): (r: Result<seq<string>>)
    ensures r.Err? <==> l.ListUnreachable? || (l.status == StatusOK && l.payload.Garbled?)
    ensures r.Ok? && l.status != StatusOK ==> r.value == []
    ensures l.Listed? && l.status == StatusOK && l.payload.Ids? ==> r == Ok(l.payload.ids)
  {
    match l
    case ListUnreachable(cause) => Err(RuntimeFailure(cause))
    case Listed(status, payload) =>
      if status == StatusOK then
        match payload
        case Ids(ids) => Ok(ids)
        case Garbled(cause) => Err(DecodeFailure(cause))
      else Ok([])
  }

  /** One decoded lifecycle event: the container id and Docker's status word. */
  datatype Event = Event(id: string, status: string)

  /** How the event stream ends: cleanly (io.EOF) or with an undecodable payload. */
  datatype StreamEnd = EndOfData | Corrupt(cause: string)

  /** The events decoded from `GET /events`, in arrival order, and how the stream ended. */
  datatype EventStream = EventStream(events: seq<Event>, end: StreamEnd)

  /** The answer to `GET /events`. */
  datatype Subscription = Subscribed(stream: EventStream) | SubscribeFailed(cause: string)
}
