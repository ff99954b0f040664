/**
 Requests and responses (protocol.rs). JSON is already parsed: a request carries the fields the
 server reads. Whether an id is a UUID and whether an address is valid on the server's network are
 given from outside.
 */
module Protocol {
  import opened Prelude
  import Pairing

  const PROTOCOL_VERSION: nat := 1
  const NIL_ID := "00000000-0000-0000-0000-000000000000"

  /** The request types, by name; `Chain` stands for the seven that only query the backend. */
  datatype MsgType = Pair | Unpair | WatchAddresses | Chain | OtherType

  /** An element of a JSON array. */
  datatype Item = Text(s: string) | NotText

  datatype Envelope = Envelope(id: string, msgType: MsgType, proof: string, addresses: Option<seq<Item>>)

  datatype ErrorCode =
    | UnsupportedVersion | UnknownType | NotPaired | PairingFailed | InvalidRequest
    | RateLimited | BackendUnavailable | Internal

  datatype Body =
    | Paired
    | Unpaired
    | Watching(count: nat)
    | ChainData(data: string)
    | Failure(code: ErrorCode)

  datatype Response = Response(id: string, body: Body)

  /** What arrives inside a request wrap. */
  datatype Content = Oversized | Unreadable | Readable(v: nat, env: Envelope)

  datatype Parsed = Drop | Reply(response: Response) | Request(env: Envelope)

  datatype World = World(hmac: Pairing.Hmac, isUuid: string -> bool, validAddress: string -> bool)

  /** Only a readable request of this version with a UUID passes; an unreadable one is never answered. */
  function ParseRequest(w: World, c: Content): (p: Parsed)
    ensures p.Drop? <==> !c.Readable?
    ensures p.Request? <==> c.Readable? && c.v == 1 && 0 < |c.env.id| <= 64 && w.isUuid(c.env.id)
    ensures p.Request? ==> p.env == c.env
    ensures p.Reply? && c.v != 1 ==> p.response == Response(c.env.id, Failure(UnsupportedVersion))
    ensures p.Reply? && c.v == 1 ==> p.response == Response("00000000-0000-0000-0000-000000000000", Failure(InvalidRequest))
  {
    match c
    case Oversized => Drop
    case Unreadable => Drop
    case Readable(v, env) =>
      if v != PROTOCOL_VERSION then Reply(Response(env.id, Failure(UnsupportedVersion)))
      else if env.id == "" || |env.id| > 64 || !w.isUuid(env.id) then Reply(Response(NIL_ID, Failure(InvalidRequest)))
      else Request(env)
  }
}
