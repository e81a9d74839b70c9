/**
 * The entity store behind the handlers, kept in memory: boats and loads by
 * id, user records, and the issued handshake state tokens. Each method is
 * one handler body (or one block of it) after request parsing and token
 * verification, which arrive as parameters.
 */
module Datastore {
  import opened Optional
  import opened Text
  import opened Entities
  import opened Payloads
  import opened Consistency
  import opened Users

  /** The id the store assigns to a new entity: one above every id in use. */
  method NewKey(keys: set<nat>) returns (k: nat)
    ensures k !in keys && k > 0
  {
    k := 1;
    var todo := keys;
    while todo != {}
      invariant todo <= keys
      invariant k > 0
      invariant forall x :: x in keys && x !in todo ==> x < k
      decreases todo
    {
      var x :| x in todo;
      if x >= k {
        k := x + 1;
      }
      todo := todo - {x};
    }
  }

  class Store {
    /** The API's base URL, from which self links are built. */
    const base: string
    var boats: map<nat, Boat>
    var loads: map<nat, Load>
    var users: map<nat, User>
    var states: seq<string>

    constructor (base: string)
      ensures this.base == base
      ensures boats == map[] && loads == map[] && users == map[] && states == []
      ensures Consistent(boats, loads, base) && UniqueSubjects(users)
    {
      this.base := base;
      boats, loads, users, states := map[], map[], map[], [];
    }

    /** Sign-in stores the state token it sends to the issuer (the token itself is drawn at random). */
    method IssueState(token: string)
      modifies this
      ensures states == old(states) + [token]
      ensures boats == old(boats) && loads == old(loads) && users == old(users)
    {
      states := states + [token];
    }

    /** The handshake's user step: a record is added only when no stored user has the subject. */
    method RegisterUser(c: Claims)
      modifies this
      ensures HasSubject(old(users), c.subject) ==> users == old(users)
      ensures !HasSubject(old(users), c.subject) ==>
        exists k: nat :: k !in old(users) && users == old(users)[k := User(c.subject, c.givenName, c.familyName)]
      ensures HasSubject(users, c.subject)
      ensures UniqueSubjects(old(users)) ==> UniqueSubjects(users)
      ensures boats == old(boats) && loads == old(loads) && states == old(states)
    {
      var found := false;
      var todo := users.Keys;
      while todo != {}
        invariant todo <= users.Keys
        invariant found <==> exists k :: k in users && k !in todo && users[k].userId == c.subject
        decreases todo
      {
        var k :| k in todo;
        if users[k].userId == c.subject {
          found := true;
        }
        todo := todo - {k};
      }
      if !found {
        var k := NewKey(users.Keys);
        var u := User(c.subject, c.givenName, c.familyName);
        if UniqueSubjects(users) {
          InsertKeepsSubjectsUnique(users, k, u);
        }
        users := users[k := u];
        assert users[k].userId == c.subject;
      }
    }

    /**
     * The OAuth callback: the state must match an issued token; then claims,
     * the verified identity token's claims (None when the code exchange or
     * verification fails), register the user. Tokens are never consumed.
     */
    method Callback(authState: string, claims: Option<Claims>) returns (signedIn: Option<Claims>)
      modifies this
      ensures signedIn.Some? <==> authState in old(states) && claims.Some?
      ensures signedIn.Some? ==> signedIn == claims && HasSubject(users, claims.value.subject)
      ensures signedIn.Some? && HasSubject(old(users), claims.value.subject) ==> users == old(users)
      ensures signedIn.Some? && !HasSubject(old(users), claims.value.subject) ==>
        exists k: nat :: k !in old(users) &&
          users == old(users)[k := User(claims.value.subject, claims.value.givenName, claims.value.familyName)]
      ensures signedIn.None? ==> users == old(users)
      ensures UniqueSubjects(old(users)) ==> UniqueSubjects(users)
      ensures boats == old(boats) && loads == old(loads) && states == old(states)
    {
      var found := false;
      var i := 0;
      while i < |states|
        invariant 0 <= i <= |states|
        invariant authState !in states[..i]
      {
        if states[i] == authState {
          found := true;
          break;
        }
        assert states[..i + 1] == states[..i] + [states[i]];
        i := i + 1;
      }
      assert !found ==> states[..i] == states;
      if !found || claims.None? {
        return None;
      }
      RegisterUser(claims.value);
      signedIn := claims;
    }

    /** POST /boats. */
    method CreateBoat(isJson: bool, p: Payload, auth: Auth) returns (r: Status, id: nat)
      modifies this
      ensures !isJson ==> r == UnsupportedMediaType
      ensures isJson && BoatPayloadError(p).Some? ==> r == BadRequest(BoatPayloadError(p).value)
      ensures isJson && BoatPayloadError(p).None? && (auth.NoHeader? || auth.verified.None?) ==> r == Unauthorized
      ensures r == Created <==> isJson && BoatPayloadError(p).None? && auth.Bearer? && auth.verified.Some?
      ensures r != Created ==> unchanged(this)
      ensures r == Created ==>
        && id !in old(boats)
        && boats == old(boats)[id := Boat(p["name"], p["type"], p["length"].i, auth.verified.value, [])]
        && loads == old(loads) && users == old(users) && states == old(states)
      ensures old(Consistent(boats, loads, base)) ==> Consistent(boats, loads, base)
    {
      id := 0;
      if !isJson {
        return UnsupportedMediaType, id;
      }
      var err := BoatPayloadError(p);
      if err.Some? {
        return BadRequest(err.value), id;
      }
      if auth.NoHeader? || auth.verified.None? {
        return Unauthorized, id;
      }
      id := NewKey(boats.Keys);
      var bt := Boat(p["name"], p["type"], p["length"].i, auth.verified.value, []);
      if Consistent(boats, loads, base) {
        AddBoatPreservesConsistent(boats, loads, base, id, bt);
      }
      boats := boats[id := bt];
      r := Created;
    }

    /** PATCH /boats/{id}: each present attribute is checked and written in turn. */
    method PatchBoat(boatId: nat, isJson: bool, p: Payload, auth: Auth) returns (r: Status)
      modifies this
      ensures !isJson ==> r == UnsupportedMediaType && unchanged(this)
      ensures isJson && auth.NoHeader? ==> r == Unauthorized && unchanged(this)
      ensures isJson && auth.Bearer? && boatId !in old(boats) ==> r == NotFound && unchanged(this)
      ensures isJson && auth == Bearer(None) && boatId in old(boats) ==> r == Unauthorized && unchanged(this)
      ensures isJson && auth.Bearer? && auth.verified.Some? && boatId in old(boats) && !(p.Keys <= BoatFields) ==>
        r == BadRequest(InvalidAttribute) && unchanged(this)
      ensures isJson && auth.Bearer? && auth.verified.Some? && boatId in old(boats) && p.Keys <= BoatFields ==>
        var effect := PatchBoatEffect(old(boats)[boatId], auth.verified.value, p);
        r == effect.0 && boats == old(boats)[boatId := effect.1]
      ensures boats.Keys == old(boats).Keys
      ensures forall b :: b in boats ==> boats[b].owner == old(boats)[b].owner && boats[b].loads == old(boats)[b].loads
      ensures loads == old(loads) && users == old(users) && states == old(states)
      ensures old(Consistent(boats, loads, base)) ==> Consistent(boats, loads, base)
    {
      if !isJson {
        return UnsupportedMediaType;
      }
      if auth.NoHeader? {
        return Unauthorized;
      }
      if boatId !in boats {
        return NotFound;
      }
      if auth.verified.None? {
        return Unauthorized;
      }
      if !(p.Keys <= BoatFields) {
        return BadRequest(InvalidAttribute);
      }
      r := WritePatch(boatId, auth.verified.value, p);
      ListsUnchangedPreservesConsistent(old(boats), boats, loads, base);
    }

    /** The writes of a boat PATCH whose keys passed the whitelist, one put per attribute. */
    method WritePatch(boatId: nat, sub: string, p: Payload) returns (r: Status)
      requires boatId in boats && p.Keys <= BoatFields
      modifies this
      ensures var effect := PatchBoatEffect(old(boats)[boatId], sub, p);
        r == effect.0 && boats == old(boats)[boatId := effect.1]
      ensures loads == old(loads) && users == old(users) && states == old(states)
    {
      ghost var b0 := boats[boatId];
      var owns := sub == boats[boatId].owner;
      if "name" in p {
        if owns {
          boats := boats[boatId := boats[boatId].(name := p["name"])];
        } else {
          return Forbidden;
        }
      }
      ghost var b1 := if "name" in p then b0.(name := p["name"]) else b0;
      assert boats == old(boats)[boatId := b1];
      if "type" in p {
        if owns {
          boats := boats[boatId := boats[boatId].(kind := p["type"])];
        } else {
          return Forbidden;
        }
      }
      ghost var b2 := if "type" in p then b1.(kind := p["type"]) else b1;
      assert boats == old(boats)[boatId := b2];
      if "length" in p {
        var v := p["length"];
        if !v.Int? {
          return BadRequest(LengthNotInteger);
        }
        if v.i < 0 {
          return BadRequest(LengthNegative);
        }
        if owns {
          boats := boats[boatId := boats[boatId].(length := v.i)];
        } else {
          return Forbidden;
        }
      }
      return Ok;
    }

    /** PUT /boats/{id}: the owner rewrites name, type and length; owner and loads stay. */
    method ReplaceBoat(boatId: nat, isJson: bool, p: Payload, auth: Auth) returns (r: Status)
      modifies this
      ensures !isJson ==> r == UnsupportedMediaType
      ensures isJson && auth.NoHeader? ==> r == Unauthorized
      ensures isJson && auth.Bearer? && boatId !in old(boats) ==> r == NotFound
      ensures isJson && auth == Bearer(None) && boatId in old(boats) ==> r == Unauthorized
      ensures isJson && auth.Bearer? && auth.verified.Some? && boatId in old(boats) ==>
        r == (if BoatPayloadError(p).Some? then BadRequest(BoatPayloadError(p).value)
              else if auth.verified.value != old(boats)[boatId].owner then Forbidden
              else Ok)
      ensures r != Ok ==> unchanged(this)
      ensures r == Ok ==>
        && boatId in old(boats) && ValidLength(p["length"])
        && boats == old(boats)[boatId := old(boats)[boatId].(name := p["name"], kind := p["type"], length := p["length"].i)]
      ensures loads == old(loads) && users == old(users) && states == old(states)
      ensures old(Consistent(boats, loads, base)) ==> Consistent(boats, loads, base)
    {
      if !isJson {
        return UnsupportedMediaType;
      }
      if auth.NoHeader? {
        return Unauthorized;
      }
      if boatId !in boats {
        return NotFound;
      }
      if auth.verified.None? {
        return Unauthorized;
      }
      var err := BoatPayloadError(p);
      if err.Some? {
        return BadRequest(err.value);
      }
      if auth.verified.value != boats[boatId].owner {
        return Forbidden;
      }
      boats := boats[boatId := boats[boatId].(name := p["name"], kind := p["type"], length := p["length"].i)];
      ListsUnchangedPreservesConsistent(old(boats), boats, loads, base);
      r := Ok;
    }

    /** DELETE /boats/{id}: the owner's delete clears the carrier of every load on the boat, then removes it. */
    method DeleteBoat(boatId: nat, auth: Auth) returns (r: Status)
      modifies this
      ensures boatId !in old(boats) ==> r == NotFound
      ensures boatId in old(boats) && (auth.NoHeader? || auth.verified.None?) ==> r == Unauthorized
      ensures boatId in old(boats) && auth.Bearer? && auth.verified.Some? && auth.verified.value != old(boats)[boatId].owner ==>
        r == Forbidden
      ensures r != NoContent ==> unchanged(this)
      ensures r == NoContent <==>
        boatId in old(boats) && auth.Bearer? && auth.verified.Some? && auth.verified.value == old(boats)[boatId].owner
      ensures r == NoContent ==> boats == old(boats) - {boatId} && loads == ClearCarriers(old(loads), boatId)
      ensures users == old(users) && states == old(states)
      ensures old(Consistent(boats, loads, base)) ==> Consistent(boats, loads, base)
    {
      if boatId !in boats {
        return NotFound;
      }
      if auth.NoHeader? || auth.verified.None? {
        return Unauthorized;
      }
      if auth.verified.value != boats[boatId].owner {
        return Forbidden;
      }
      var todo := loads.Keys;
      while todo != {}
        invariant todo <= loads.Keys == old(loads).Keys
        invariant forall l :: l in loads ==> loads[l] == (if l in todo then old(loads)[l] else ClearCarriers(old(loads), boatId)[l])
        invariant boats == old(boats) && users == old(users) && states == old(states)
        decreases todo
      {
        var l :| l in todo;
        if loads[l].carrier.Some? && loads[l].carrier.value.id == boatId {
          loads := loads[l := loads[l].(carrier := None)];
        }
        todo := todo - {l};
      }
      assert loads == ClearCarriers(old(loads), boatId);
      boats := boats - {boatId};
      if Consistent(old(boats), old(loads), base) {
        BoatDeletePreservesConsistent(old(boats), old(loads), base, boatId);
      }
      r := NoContent;
    }

    /** POST /loads. */
    method CreateLoad(p: Payload) returns (r: Status, id: nat)
      modifies this
      ensures LoadPayloadError(p).Some? ==> r == LoadPayloadError(p).value && unchanged(this)
      ensures LoadPayloadError(p).None? ==>
        && r == Created && id !in old(loads)
        && loads == old(loads)[id := Load(p["content"], p["volume"], p["price"], None)]
        && boats == old(boats) && users == old(users) && states == old(states)
      ensures old(Consistent(boats, loads, base)) ==> Consistent(boats, loads, base)
    {
      id := 0;
      var err := LoadPayloadError(p);
      if err.Some? {
        return err.value, id;
      }
      id := NewKey(loads.Keys);
      var ld := Load(p["content"], p["volume"], p["price"], None);
      if Consistent(boats, loads, base) {
        AddLoadPreservesConsistent(boats, loads, base, id, ld);
      }
      loads := loads[id := ld];
      r := Created;
    }

    /** PATCH /loads/{id}: each present attribute is checked and written in turn; the carrier is never touched. */
    method PatchLoad(loadId: nat, isJson: bool, p: Payload) returns (r: Status)
      modifies this
      ensures !isJson ==> r == ServerError && unchanged(this)
      ensures isJson && !(p.Keys <= LoadFields) ==> r == BadRequest(InvalidAttribute) && unchanged(this)
      ensures isJson && p.Keys <= LoadFields ==>
        var effect := PatchLoadEffect(if loadId in old(loads) then Some(old(loads)[loadId]) else None, p);
        && r == effect.0
        && loads == (if loadId in old(loads) then old(loads)[loadId := effect.1.value] else old(loads))
      ensures loads.Keys == old(loads).Keys
      ensures forall l :: l in loads ==> loads[l].carrier == old(loads)[l].carrier
      ensures boats == old(boats) && users == old(users) && states == old(states)
      ensures old(Consistent(boats, loads, base)) ==> Consistent(boats, loads, base)
    {
      if !isJson {
        return ServerError;
      }
      if !(p.Keys <= LoadFields) {
        return BadRequest(InvalidAttribute);
      }
      if "content" in p {
        if loadId !in loads {
          return NotFound;
        }
        loads := loads[loadId := loads[loadId].(content := p["content"])];
        CarriersUnchangedPreservesConsistent(boats, old(loads), loads, base);
      }
      if "volume" in p {
        if loadId !in loads {
          return NotFound;
        }
        loads := loads[loadId := loads[loadId].(volume := p["volume"])];
        CarriersUnchangedPreservesConsistent(boats, old(loads), loads, base);
      }
      if "price" in p {
        var err := PriceError(p["price"]);
        if err.Some? {
          return err.value;
        }
        if loadId !in loads {
          return NotFound;
        }
        loads := loads[loadId := loads[loadId].(price := p["price"])];
        CarriersUnchangedPreservesConsistent(boats, old(loads), loads, base);
      }
      if loadId !in loads {
        return ServerError;
      }
      return Ok;
    }

    /** PUT /loads/{id}: content, volume and price are rewritten; the carrier stays. */
    method ReplaceLoad(loadId: nat, isJson: bool, p: Payload) returns (r: Status)
      modifies this
      ensures !isJson ==> r == UnsupportedMediaType
      ensures isJson && LoadPayloadError(p).Some? ==> r == LoadPayloadError(p).value
      ensures isJson && LoadPayloadError(p).None? && loadId !in old(loads) ==> r == NotFound
      ensures r != Ok ==> unchanged(this)
      ensures r == Ok <==> isJson && LoadPayloadError(p).None? && loadId in old(loads)
      ensures r == Ok ==>
        loads == old(loads)[loadId := old(loads)[loadId].(content := p["content"], volume := p["volume"], price := p["price"])]
      ensures boats == old(boats) && users == old(users) && states == old(states)
      ensures old(Consistent(boats, loads, base)) ==> Consistent(boats, loads, base)
    {
      if !isJson {
        return UnsupportedMediaType;
      }
      var err := LoadPayloadError(p);
      if err.Some? {
        return err.value;
      }
      if loadId !in loads {
        return NotFound;
      }
      loads := loads[loadId := loads[loadId].(content := p["content"], volume := p["volume"], price := p["price"])];
      CarriersUnchangedPreservesConsistent(boats, old(loads), loads, base);
      r := Ok;
    }

    /**
     * DELETE /loads/{id} as written: every boat whose first entry is the load
     * loses that entry, then the load is removed. Entries at later indices
     * stay (see LoadDeleteConsistentIff).
     */
    method DeleteLoad(loadId: nat) returns (r: Status)
      modifies this
      ensures loadId !in old(loads) ==> r == NotFound && unchanged(this)
      ensures loadId in old(loads) ==>
        r == NoContent && boats == DropLeading(old(boats), loadId) && loads == old(loads) - {loadId}
      ensures users == old(users) && states == old(states)
    {
      if loadId !in loads {
        return NotFound;
      }
      var todo := boats.Keys;
      while todo != {}
        invariant todo <= boats.Keys == old(boats).Keys
        invariant forall b :: b in boats ==> boats[b] == (if b in todo then old(boats)[b] else DropLeading(old(boats), loadId)[b])
        invariant loads == old(loads) && users == old(users) && states == old(states)
        decreases todo
      {
        var b :| b in todo;
        var rs := boats[b].loads;
        if |rs| > 0 && rs[0].id == loadId {
          boats := boats[b := boats[b].(loads := rs[1..])];
        }
        todo := todo - {b};
      }
      assert boats == DropLeading(old(boats), loadId);
      loads := loads - {loadId};
      r := NoContent;
    }

    /** The load delete as intended: every entry for the load leaves every boat's list, wherever it stands. */
    method DeleteLoadEverywhere(loadId: nat) returns (r: Status)
      modifies this
      ensures loadId !in old(loads) ==> r == NotFound && unchanged(this)
      ensures loadId in old(loads) ==>
        r == NoContent && boats == DropEverywhere(old(boats), loadId) && loads == old(loads) - {loadId}
      ensures users == old(users) && states == old(states)
      ensures old(Consistent(boats, loads, base)) ==> Consistent(boats, loads, base)
    {
      if loadId !in loads {
        return NotFound;
      }
      var todo := boats.Keys;
      while todo != {}
        invariant todo <= boats.Keys == old(boats).Keys
        invariant forall b :: b in boats ==> boats[b] == (if b in todo then old(boats)[b] else DropEverywhere(old(boats), loadId)[b])
        invariant loads == old(loads) && users == old(users) && states == old(states)
        decreases todo
      {
        var b :| b in todo;
        boats := boats[b := boats[b].(loads := RemoveAll(boats[b].loads, loadId))];
        todo := todo - {b};
      }
      assert boats == DropEverywhere(old(boats), loadId);
      loads := loads - {loadId};
      if Consistent(old(boats), old(loads), base) {
        DropEverywherePreservesConsistent(old(boats), old(loads), base, loadId);
      }
      r := NoContent;
    }

    /**
     * PUT /boats/{boat_id}/loads/{load_id}. The scan of every boat's list
     * that precedes the carrier check never refuses (ScanAsWrittenNeverFires)
     * and so does not appear here.
     */
    method Assign(boatId: nat, loadId: nat) returns (r: Status)
      modifies this
      ensures boatId !in old(boats) || loadId !in old(loads) ==> r == NotFound && unchanged(this)
      ensures boatId in old(boats) && loadId in old(loads) && old(loads)[loadId].carrier.Some? ==> r == Forbidden && unchanged(this)
      ensures boatId in old(boats) && loadId in old(loads) && old(loads)[loadId].carrier.None? ==>
        && r == NoContent
        && boats == AppendEntry(old(boats), boatId, Ref(loadId, LoadLink(base, loadId)))
        && loads == SetCarrier(old(loads), loadId, Some(Ref(boatId, BoatLink(base, boatId))))
      ensures users == old(users) && states == old(states)
      ensures old(Consistent(boats, loads, base)) ==> Consistent(boats, loads, base)
    {
      if boatId !in boats || loadId !in loads {
        return NotFound;
      }
      if loads[loadId].carrier.Some? {
        return Forbidden;
      }
      var entry := Ref(loadId, base + "loads/" + Decimal(loadId));
      boats := boats[boatId := boats[boatId].(loads := boats[boatId].loads + [entry])];
      var carrier := Ref(boatId, base + "boats/" + Decimal(boatId));
      loads := loads[loadId := loads[loadId].(carrier := Some(carrier))];
      if Consistent(old(boats), old(loads), base) {
        AssignPreservesConsistent(old(boats), old(loads), base, boatId, loadId);
      }
      r := NoContent;
    }

    /** DELETE /boats/{boat_id}/loads/{load_id}: the first entry whose id text matches leaves the list and the load's carrier is cleared. */
    method Unassign(boatId: nat, loadId: nat) returns (r: Status)
      modifies this
      ensures boatId !in old(boats) || loadId !in old(loads) ==> r == NotFound && unchanged(this)
      ensures boatId in old(boats) && loadId in old(loads) && loadId !in Ids(old(boats)[boatId].loads) ==>
        r == NotFound && unchanged(this)
      ensures boatId in old(boats) && loadId in old(loads) && loadId in Ids(old(boats)[boatId].loads) ==>
        && r == NoContent
        && boats == RemoveEntry(old(boats), boatId, loadId)
        && loads == SetCarrier(old(loads), loadId, None)
      ensures users == old(users) && states == old(states)
      ensures old(Consistent(boats, loads, base)) ==> Consistent(boats, loads, base)
    {
      if boatId !in boats || loadId !in loads {
        return NotFound;
      }
      var rs := boats[boatId].loads;
      var i := 0;
      while i < |rs|
        invariant 0 <= i <= |rs|
        invariant forall j :: 0 <= j < i ==> rs[j].id != loadId
        invariant unchanged(this)
      {
        DecimalInjective(rs[i].id, loadId);
        if Decimal(rs[i].id) == Decimal(loadId) {
          RemoveFirstAt(rs, loadId, i);
          assert Ids(rs)[i] == loadId;
          boats := boats[boatId := boats[boatId].(loads := rs[..i] + rs[i + 1..])];
          loads := loads[loadId := loads[loadId].(carrier := None)];
          if Consistent(old(boats), old(loads), base) {
            UnassignPreservesConsistent(old(boats), old(loads), base, boatId, loadId);
          }
          return NoContent;
        }
        i := i + 1;
      }
      assert loadId !in Ids(rs);
      r := NotFound;
    }
  }
}
