/** The SMS transport wrapper (`sendSMS`). The provider call itself is not
    modelled: what the provider answered is an input, and the wrapper turns
    it, together with the credentials read at start-up, into one of three
    outcomes the request handlers react to. */
module Gateway {
  import opened Common

  /** The three environment variables read when the process starts. */
  datatype Config = Config(accountSid: Option<string>, authToken: Option<string>, phoneNumber: Option<string>)

  /** The provider client is constructed only from a truthy account id and token. */
  predicate HasClient(cfg: Config) {
    Truthy(cfg.accountSid) && Truthy(cfg.authToken)
  }

  /** What the provider's `messages.create` call did. */
  datatype ProviderReply = Created(sid: string) | Rejected(reason: string)

  /** What `sendSMS` does: resolve to a message id, resolve to `null`, or throw. */
  datatype SendOutcome = Ok(id: string) | NoClient | Raises

  function SendSMS(cfg: Config, reply: ProviderReply): (r: SendOutcome)
    ensures r.NoClient? <==> !HasClient(cfg) || !Truthy(cfg.phoneNumber)
    ensures r.Ok? <==> HasClient(cfg) && Truthy(cfg.phoneNumber) && reply.Created?
    ensures r.Raises? <==> HasClient(cfg) && Truthy(cfg.phoneNumber) && reply.Rejected?
    ensures r.Ok? ==> r.id == reply.sid
  {
    if !HasClient(cfg) || !Truthy(cfg.phoneNumber) then NoClient
    else match reply
      case Created(sid) => Ok(sid)
      case Rejected(_) => Raises
  }

  /** The value a caller holds after awaiting `sendSMS` inside a `try` whose
      `catch` leaves it `null`: the id, or nothing. */
  function ReturnedId(o: SendOutcome): (r: Option<string>)
    ensures r.Some? <==> o.Ok?
    ensures r.Some? ==> r.value == o.id
  {
    if o.Ok? then Some(o.id) else None
  }
}
