/**
 * The request-body rules of the boat and load handlers: which keys a create
 * or replace body must have, which a partial update may have, what a length
 * or a price must be, and what a partial update writes, step by step.
 */
module Payloads {
  import opened Optional
  import opened Entities

  /** The attributes of a boat body, and the only keys a boat PATCH accepts. */
  const BoatFields: set<string> := {"name", "type", "length"}

  /** The attributes of a load body, and the only keys a load PATCH accepts. */
  const LoadFields: set<string> := {"content", "volume", "price"}

  /** `len(content) != 3 or a not in content or ...` rejects exactly the bodies whose key set is not {a, b, c}. */
  lemma ExactlyThreeKeys(p: Payload, a: string, b: string, c: string)
    requires a != b && b != c && a != c
    ensures (|p| == 3 && a in p && b in p && c in p) <==> p.Keys == {a, b, c}
  {
    var want := {a, b, c};
    assert |want| == 3;
    if |p| == 3 && a in p && b in p && c in p {
      assert want <= p.Keys;
      assert |p.Keys - want| == |p.Keys| - |want|;
      assert p.Keys - want == {};
    }
  }

  /** A length the handlers store: an int (not a bool, not a float) that is not negative. */
  predicate ValidLength(v: Value) { v.Int? && v.i >= 0 }

  /** The two length checks, in the handlers' order: the type first, then the sign. */
  function LengthError(v: Value): (r: Option<Reason>)
    ensures r.None? <==> ValidLength(v)
    ensures r == Some(LengthNotInteger) <==> !v.Int?
    ensures r == Some(LengthNegative) <==> v.Int? && v.i < 0
  {
    if !v.Int? then Some(LengthNotInteger)
    else if v.i < 0 then Some(LengthNegative)
    else None
  }

  /** Boat create and replace: the first check a body fails, if any. */
  function BoatPayloadError(p: Payload): (r: Option<Reason>)
    ensures r.None? <==> p.Keys == BoatFields && ValidLength(p["length"])
    ensures r == Some(MissingAttributes) <==> p.Keys != BoatFields
    ensures r == Some(LengthNotInteger) <==> p.Keys == BoatFields && !p["length"].Int?
    ensures r == Some(LengthNegative) <==> p.Keys == BoatFields && p["length"].Int? && p["length"].i < 0
  {
    ExactlyThreeKeys(p, "name", "type", "length");
    if |p| != 3 || "name" !in p || "type" !in p || "length" !in p then Some(MissingAttributes)
    else LengthError(p["length"])
  }

  /** A price the handlers store: `type(price) == str` is false and `price < 0` is false without raising. */
  predicate PriceAccepted(v: Value)
  {
    (v.Int? && v.i >= 0) || (v.Float? && v.f >= 0.0) || v.Bool?
  }

  /** The two price checks: a string is refused by name; a negative number is refused; None or an array/object makes `< 0` raise. */
  function PriceError(v: Value): (r: Option<Status>)
    ensures r.None? <==> PriceAccepted(v)
    ensures r == Some(BadRequest(PriceIsString)) <==> v.Str?
    ensures r == Some(ServerError) <==> v.Null? || v.Composite?
    ensures r == Some(BadRequest(PriceNegative)) <==> (v.Int? && v.i < 0) || (v.Float? && v.f < 0.0)
  {
    match v
    case Str(_) => Some(BadRequest(PriceIsString))
    case Int(i) => if i < 0 then Some(BadRequest(PriceNegative)) else None
    case Float(f) => if f < 0.0 then Some(BadRequest(PriceNegative)) else None
    case Bool(_) => None
    case Null => Some(ServerError)
    case Composite => Some(ServerError)
  }

  /** Load create and replace: the first check a body fails, if any. */
  function LoadPayloadError(p: Payload): (r: Option<Status>)
    ensures r.None? <==> p.Keys == LoadFields && PriceAccepted(p["price"])
    ensures r == Some(BadRequest(MissingAttributes)) <==> p.Keys != LoadFields
    ensures p.Keys == LoadFields && p["price"].Str? ==> r == Some(BadRequest(PriceIsString))
    ensures p.Keys == LoadFields && (p["price"].Null? || p["price"].Composite?) ==> r == Some(ServerError)
    ensures p.Keys == LoadFields ==> r == PriceError(p["price"])
  {
    ExactlyThreeKeys(p, "content", "volume", "price");
    if |p| != 3 || "content" !in p || "volume" !in p || "price" !in p then Some(BadRequest(MissingAttributes))
    else PriceError(p["price"])
  }

  /**
   * A boat PATCH whose keys passed the whitelist, by a caller with subject
   * sub: name, then type, then length are each checked and written in turn,
   * so a refused length leaves an owner's earlier writes in place. Returns the
   * status and the boat as stored afterwards.
   */
  function PatchBoatEffect(b: Boat, sub: string, p: Payload): (r: (Status, Boat))
    requires p.Keys <= BoatFields
    ensures r.1.owner == b.owner && r.1.loads == b.loads
    ensures sub != b.owner ==> r.1 == b
    ensures r.0 == Forbidden <==> sub != b.owner && ("name" in p || "type" in p || ("length" in p && ValidLength(p["length"])))
    ensures r.0.BadRequest? <==> "length" in p && !ValidLength(p["length"]) && (sub == b.owner || ("name" !in p && "type" !in p))
    ensures r.0 == Ok || r.0 == Forbidden || r.0 == BadRequest(LengthNotInteger) || r.0 == BadRequest(LengthNegative)
    ensures r.0.BadRequest? ==> "length" in p && Some(r.0.reason) == LengthError(p["length"])
    ensures r.0 == Ok ==>
      && ("name" in p ==> r.1.name == p["name"]) && ("name" !in p ==> r.1.name == b.name)
      && ("type" in p ==> r.1.kind == p["type"]) && ("type" !in p ==> r.1.kind == b.kind)
      && ("length" in p ==> ValidLength(p["length"]) && r.1.length == p["length"].i) && ("length" !in p ==> r.1.length == b.length)
    ensures r.0.BadRequest? && sub == b.owner ==>
      r.1 == b.(name := if "name" in p then p["name"] else b.name, kind := if "type" in p then p["type"] else b.kind)
  {
    var owns := sub == b.owner;
    if "name" in p && !owns then (Forbidden, b)
    else
      var b1 := if "name" in p then b.(name := p["name"]) else b;
      if "type" in p && !owns then (Forbidden, b1)
      else
        var b2 := if "type" in p then b1.(kind := p["type"]) else b1;
        if "length" in p then
          match LengthError(p["length"])
          case Some(e) => (BadRequest(e), b2)
          case None => if owns then (Ok, b2.(length := p["length"].i)) else (Forbidden, b2)
        else (Ok, b2)
  }

  /**
   * A load PATCH whose keys passed the whitelist, on the load stored under
   * the id (None when there is none): content, then volume, then price are
   * written in turn, each after looking the load up again. Returns the
   * status and the load as stored afterwards.
   */
  function PatchLoadEffect(ld: Option<Load>, p: Payload): (r: (Status, Option<Load>))
    requires p.Keys <= LoadFields
    ensures r.1.Some? <==> ld.Some?
    ensures ld.Some? ==> r.1.value.carrier == ld.value.carrier
    ensures r.0 == Ok <==> ld.Some? && ("price" in p ==> PriceAccepted(p["price"]))
    ensures r.0 == Ok ==>
      && r.1.value.content == (if "content" in p then p["content"] else ld.value.content)
      && r.1.value.volume == (if "volume" in p then p["volume"] else ld.value.volume)
      && r.1.value.price == (if "price" in p then p["price"] else ld.value.price)
    ensures ld.None? ==> r.0 == (if "content" in p || "volume" in p then NotFound
                                 else if "price" in p && !PriceAccepted(p["price"]) then PriceError(p["price"]).value
                                 else if "price" in p then NotFound
                                 else ServerError)
    ensures ld.Some? && "price" in p && !PriceAccepted(p["price"]) ==>
      && r.0 == PriceError(p["price"]).value
      && r.1 == Some(ld.value.(content := if "content" in p then p["content"] else ld.value.content,
                               volume := if "volume" in p then p["volume"] else ld.value.volume))
  {
    if ld.None? then
      if "content" in p || "volume" in p then (NotFound, None)
      else if "price" in p then
        match PriceError(p["price"])
        case Some(e) => (e, None)
        case None => (NotFound, None)
      else (ServerError, None)
    else
      var l0 := ld.value;
      var l1 := if "content" in p then l0.(content := p["content"]) else l0;
      var l2 := if "volume" in p then l1.(volume := p["volume"]) else l1;
      if "price" in p then
        match PriceError(p["price"])
        case Some(e) => (e, Some(l2))
        case None => (Ok, Some(l2.(price := p["price"])))
      else (Ok, Some(l2))
  }
}
