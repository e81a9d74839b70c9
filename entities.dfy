/**
 * The records the API keeps in its entity store (kinds boats, loads, users),
 * the JSON values a request body may carry, the outcome of a handler, and
 * the self links that point at a boat or a load.
 */
module Entities {
  import opened Optional
  import opened Text

  /**
   * A JSON value of a request body, with exactly the distinctions the handlers
   * draw: type() is int only for Int (a JSON boolean is not an int), a string
   * price is refused by name, and comparing Null or an array/object
   * (Composite) with 0 raises TypeError.
   */
  datatype Value = Str(s: string) | Int(i: int) | Float(f: real) | Bool(b: bool) | Null | Composite

  /** A request body: a JSON object. */
  type Payload = map<string, Value>

  /** An {id, self} pair: an entry of a boat's loads list, or a load's carrier. */
  datatype Ref = Ref(id: nat, self: string)

  /** A stored boat; kind is its "type" attribute. */
  datatype Boat = Boat(name: Value, kind: Value, length: nat, owner: string, loads: seq<Ref>)

  /** A stored load; carrier is None while the load is on no boat. */
  datatype Load = Load(content: Value, volume: Value, price: Value, carrier: Option<Ref>)

  /** A stored user, keyed in practice by the issuer's subject claim. */
  datatype User = User(userId: string, firstName: string, lastName: string)

  /** The claims of a verified identity token. */
  datatype Claims = Claims(subject: string, givenName: string, familyName: string)

  /**
   * The Authorization header of a request: absent, or present with the
   * subject that token verification returned (None when verification failed).
   */
  datatype Auth = NoHeader | Bearer(verified: Option<string>)

  /** Why a request body was refused with status 400. */
  datatype Reason =
    | MissingAttributes
    | LengthNotInteger
    | LengthNegative
    | InvalidAttribute
    | PriceIsString
    | PriceNegative

  /** The HTTP outcome of a handler. ServerError stands for an exception the handler does not catch. */
  datatype Status =
    | Ok
    | Created
    | NoContent
    | BadRequest(reason: Reason)
    | Unauthorized
    | Forbidden
    | NotFound
    | UnsupportedMediaType
    | ServerError

  /** LINK + "boats/" + id. */
  function BoatLink(base: string, id: nat): (r: string)
    ensures base + "boats/" <= r && |r| > |base + "boats/"|
    ensures AllDigits(r[|base + "boats/"|..])
  {
    base + "boats/" + Decimal(id)
  }

  /** LINK + "loads/" + id. */
  function LoadLink(base: string, id: nat): (r: string)
    ensures base + "loads/" <= r && |r| > |base + "loads/"|
    ensures AllDigits(r[|base + "loads/"|..])
  {
    base + "loads/" + Decimal(id)
  }

  /** The id a link names, read from the text after the given prefix. */
  function IdFromLink(prefix: string, link: string): Option<nat>
  {
    if prefix <= link then ParseNat(link[|prefix|..]) else None
  }

  /** A boat link names the boat it was built for. */
  lemma BoatLinkNamesId(base: string, id: nat)
    ensures IdFromLink(base + "boats/", BoatLink(base, id)) == Some(id)
  {
    var link := BoatLink(base, id);
    assert link[|base + "boats/"|..] == Decimal(id);
    ParseDecimal(id);
  }

  /** A load link names the load it was built for. */
  lemma LoadLinkNamesId(base: string, id: nat)
    ensures IdFromLink(base + "loads/", LoadLink(base, id)) == Some(id)
  {
    var link := LoadLink(base, id);
    assert link[|base + "loads/"|..] == Decimal(id);
    ParseDecimal(id);
  }

  /** Distinct boats have distinct links, and so do distinct loads. */
  lemma LinksInjective(base: string, m: nat, n: nat)
    ensures BoatLink(base, m) == BoatLink(base, n) <==> m == n
    ensures LoadLink(base, m) == LoadLink(base, n) <==> m == n
  {
    BoatLinkNamesId(base, m);
    BoatLinkNamesId(base, n);
    LoadLinkNamesId(base, m);
    LoadLinkNamesId(base, n);
  }
}
