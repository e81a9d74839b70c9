/**
 * The two denormalised pointers between boats and loads (a boat's loads
 * list of {id, self} entries, a load's optional carrier), the invariant that
 * keeps them in step, and what each relationship operation does to them.
 */
module Consistency {
  import opened Optional
  import opened Entities

  /** The load ids of a loads list, in order. */
  function Ids(rs: seq<Ref>): seq<nat>
  {
    seq(|rs|, i requires 0 <= i < |rs| => rs[i].id)
  }

  /** No load id occurs twice in the list. */
  predicate Distinct(rs: seq<Ref>)
  {
    forall i, j :: 0 <= i < j < |rs| ==> rs[i].id != rs[j].id
  }

  /** The load's carrier names boat b. */
  predicate Carries(ld: Load, b: nat)
  {
    ld.carrier.Some? && ld.carrier.value.id == b
  }

  /** Every entry of the boat's list names a stored load by its own link, each load at most once. */
  ghost predicate EntriesResolve(bt: Boat, loads: map<nat, Load>, base: string)
  {
    && Distinct(bt.loads)
    && forall r :: r in bt.loads ==> r.id in loads && r.self == LoadLink(base, r.id)
  }

  /** The load's carrier, if any, names a stored boat by its own link. */
  ghost predicate CarrierResolves(ld: Load, boats: map<nat, Boat>, base: string)
  {
    ld.carrier.Some? ==> ld.carrier.value.id in boats && ld.carrier.value.self == BoatLink(base, ld.carrier.value.id)
  }

  /**
   * The two views agree: a load's carrier is boat b exactly when the load's
   * id is in b's loads list; no list holds an id twice or an id of a load
   * that is not stored; no carrier names a boat that is not stored.
   */
  ghost predicate Consistent(boats: map<nat, Boat>, loads: map<nat, Load>, base: string)
    ensures Consistent(boats, loads, base) ==>
      forall b, r :: b in boats && r in boats[b].loads ==> r.id in loads
    ensures Consistent(boats, loads, base) ==>
      forall l :: l in loads && loads[l].carrier.Some? ==>
        loads[l].carrier.value.id in boats && l in Ids(boats[loads[l].carrier.value.id].loads)
  {
    && (forall b :: b in boats ==> EntriesResolve(boats[b], loads, base))
    && (forall l :: l in loads ==> CarrierResolves(loads[l], boats, base))
    && (forall l, b :: l in loads && b in boats ==> (Carries(loads[l], b) <==> l in Ids(boats[b].loads)))
  }

  // ---------------------------------------------------------------------------
  // Facts about loads lists

  lemma IdsAppend(rs: seq<Ref>, e: Ref)
    ensures Ids(rs + [e]) == Ids(rs) + [e.id]
  {
  }

  lemma IdsCons(rs: seq<Ref>)
    requires |rs| > 0
    ensures Ids(rs) == [rs[0].id] + Ids(rs[1..])
  {
  }

  lemma IdsMember(rs: seq<Ref>, id: nat)
    ensures id in Ids(rs) <==> exists r :: r in rs && r.id == id
  {
    if id in Ids(rs) {
      var i :| 0 <= i < |rs| && Ids(rs)[i] == id;
      assert rs[i] in rs;
    }
    if exists r :: r in rs && r.id == id {
      var r :| r in rs && r.id == id;
      var i :| 0 <= i < |rs| && rs[i] == r;
      assert Ids(rs)[i] == id;
    }
  }

  /** list.remove on the first entry whose id is id: the list without that entry. */
  function RemoveFirst(rs: seq<Ref>, id: nat): (r: seq<Ref>)
    ensures (forall i :: 0 <= i < |rs| ==> rs[i].id != id) ==> r == rs
    ensures (exists i :: 0 <= i < |rs| && rs[i].id == id) ==> |r| == |rs| - 1
    ensures forall e :: e in r ==> e in rs
  {
    if rs == [] then []
    else if rs[0].id == id then rs[1..]
    else [rs[0]] + RemoveFirst(rs[1..], id)
  }

  /** Removing the first match is cutting the list at its first index with that id. */
  lemma {:induction false} RemoveFirstAt(rs: seq<Ref>, id: nat, i: nat)
    requires i < |rs| && rs[i].id == id
    requires forall j :: 0 <= j < i ==> rs[j].id != id
    ensures RemoveFirst(rs, id) == rs[..i] + rs[i + 1..]
  {
    if i > 0 {
      RemoveFirstAt(rs[1..], id, i - 1);
      assert rs[1..][..i - 1] == rs[1..i];
      assert rs[1..][i..] == rs[i + 1..];
      assert [rs[0]] + rs[1..i] == rs[..i];
    }
  }

  /** Removing the first id entry that was just appended restores the list. */
  lemma {:induction false} RemoveFirstOfAppended(rs: seq<Ref>, e: Ref)
    requires e.id !in Ids(rs)
    ensures RemoveFirst(rs + [e], e.id) == rs
  {
    if rs == [] {
    } else {
      IdsCons(rs);
      assert (rs + [e])[1..] == rs[1..] + [e];
      RemoveFirstOfAppended(rs[1..], e);
    }
  }

  /** On a list without duplicates, removing the first match removes the id and keeps every other entry. */
  lemma {:induction false} RemoveFirstKeeps(rs: seq<Ref>, id: nat)
    requires Distinct(rs)
    ensures Distinct(RemoveFirst(rs, id))
    ensures forall r :: r in RemoveFirst(rs, id) ==> r in rs
    ensures forall x :: x in Ids(RemoveFirst(rs, id)) <==> x in Ids(rs) && x != id
  {
    if rs != [] {
      IdsCons(rs);
      RemoveFirstKeeps(rs[1..], id);
      if rs[0].id == id {
        assert forall j :: 0 < j < |rs| ==> rs[j].id != id;
      } else {
        var t := RemoveFirst(rs[1..], id);
        assert RemoveFirst(rs, id) == [rs[0]] + t;
        IdsCons([rs[0]] + t);
        assert ([rs[0]] + t)[1..] == t;
        IdsMember(t, rs[0].id);
        IdsMember(rs[1..], rs[0].id);
      }
    }
  }

  /** The list without any entry whose id is id. */
  function RemoveAll(rs: seq<Ref>, id: nat): (r: seq<Ref>)
    ensures forall e :: e in r ==> e in rs && e.id != id
    ensures forall i :: 0 <= i < |rs| && rs[i].id != id ==> rs[i] in r
  {
    if rs == [] then []
    else if rs[0].id == id then RemoveAll(rs[1..], id)
    else [rs[0]] + RemoveAll(rs[1..], id)
  }

  lemma {:induction false} RemoveAllKeeps(rs: seq<Ref>, id: nat)
    requires Distinct(rs)
    ensures Distinct(RemoveAll(rs, id))
    ensures forall r :: r in RemoveAll(rs, id) ==> r in rs
    ensures forall x :: x in Ids(RemoveAll(rs, id)) <==> x in Ids(rs) && x != id
  {
    if rs != [] {
      IdsCons(rs);
      RemoveAllKeeps(rs[1..], id);
      if rs[0].id != id {
        var t := RemoveAll(rs[1..], id);
        IdsCons([rs[0]] + t);
        assert ([rs[0]] + t)[1..] == t;
        IdsMember(t, rs[0].id);
        IdsMember(rs[1..], rs[0].id);
      }
    }
  }

  // ---------------------------------------------------------------------------
  // What the operations do to the two maps

  /** The boat's loads list with one more entry at its end. */
  function AppendEntry(boats: map<nat, Boat>, b: nat, e: Ref): (r: map<nat, Boat>)
    requires b in boats
    ensures r.Keys == boats.Keys
    ensures Ids(r[b].loads) == Ids(boats[b].loads) + [e.id] && r[b].loads[|boats[b].loads|] == e
    ensures r[b].loads[..|boats[b].loads|] == boats[b].loads
    ensures r[b] == boats[b].(loads := r[b].loads)
    ensures forall c :: c in boats && c != b ==> r[c] == boats[c]
  {
    IdsAppend(boats[b].loads, e);
    boats[b := boats[b].(loads := boats[b].loads + [e])]
  }

  /** The boat's loads list without its first entry for load l. */
  function RemoveEntry(boats: map<nat, Boat>, b: nat, l: nat): (r: map<nat, Boat>)
    requires b in boats
    ensures r.Keys == boats.Keys
    ensures l !in Ids(boats[b].loads) ==> r == boats
    ensures forall e :: e in r[b].loads ==> e in boats[b].loads
    ensures l in Ids(boats[b].loads) ==> |r[b].loads| == |boats[b].loads| - 1
    ensures l in Ids(boats[b].loads) ==> r[b].loads == RemoveFirst(boats[b].loads, l)
    ensures r[b] == boats[b].(loads := r[b].loads)
    ensures forall c :: c in boats && c != b ==> r[c] == boats[c]
  {
    assert forall i :: 0 <= i < |boats[b].loads| ==> Ids(boats[b].loads)[i] == boats[b].loads[i].id;
    boats[b := boats[b].(loads := RemoveFirst(boats[b].loads, l))]
  }

  /** The load with the given carrier. */
  function SetCarrier(loads: map<nat, Load>, l: nat, c: Option<Ref>): (r: map<nat, Load>)
    requires l in loads
    ensures r.Keys == loads.Keys
    ensures r[l].carrier == c && r[l] == loads[l].(carrier := c)
    ensures forall k :: k in loads && k != l ==> r[k] == loads[k]
  {
    loads[l := loads[l].(carrier := c)]
  }

  /** The boat-delete sweep: every load carried by boat b loses its carrier. */
  function ClearCarriers(loads: map<nat, Load>, b: nat): (r: map<nat, Load>)
    ensures r.Keys == loads.Keys
    ensures forall l :: l in r ==> !Carries(r[l], b)
    ensures forall l :: l in loads && !Carries(loads[l], b) ==> r[l] == loads[l]
    ensures forall l :: l in loads && Carries(loads[l], b) ==> r[l] == loads[l].(carrier := None)
  {
    map l | l in loads :: if Carries(loads[l], b) then loads[l].(carrier := None) else loads[l]
  }

  /** The list holds at least one entry and its first entry is load l. */
  predicate LeadsWith(rs: seq<Ref>, l: nat)
  {
    |rs| > 0 && rs[0].id == l
  }

  /** The load-delete sweep as written: a boat loses its first entry when that entry is load l, and nothing else. */
  function DropLeading(boats: map<nat, Boat>, l: nat): (r: map<nat, Boat>)
    ensures r.Keys == boats.Keys
    ensures forall b :: b in boats ==> r[b] == boats[b].(loads := r[b].loads)
    ensures forall b, i :: b in boats && 0 < i < |boats[b].loads| ==> boats[b].loads[i] in r[b].loads
    ensures forall b :: b in boats && !LeadsWith(boats[b].loads, l) ==> r[b] == boats[b]
    ensures forall b :: b in boats && LeadsWith(boats[b].loads, l) ==> r[b].loads == boats[b].loads[1..]
  {
    map b | b in boats :: if LeadsWith(boats[b].loads, l) then boats[b].(loads := boats[b].loads[1..]) else boats[b]
  }

  /** The load-delete sweep as intended: every entry for load l leaves every boat's list. */
  function DropEverywhere(boats: map<nat, Boat>, l: nat): (r: map<nat, Boat>)
    ensures r.Keys == boats.Keys
    ensures forall b :: b in boats ==> r[b] == boats[b].(loads := r[b].loads)
    ensures forall b, e :: b in r && e in r[b].loads ==> e.id != l && e in boats[b].loads
    ensures forall b, i :: b in boats && 0 <= i < |boats[b].loads| && boats[b].loads[i].id != l ==> boats[b].loads[i] in r[b].loads
  {
    map b | b in boats :: boats[b].(loads := RemoveAll(boats[b].loads, l))
  }

  /**
   * The "already on some boat" scan as written: it compares the int id of
   * each entry with the id's text. Python never finds an int equal to a str,
   * and the model's values keep that: `Int(_) == Str(_)` is false because the
   * constructors differ. So the scan is dead code by construction, and
   * `ScanAsWrittenNeverFires` only records that.
   */
  predicate ScanAsWritten(boats: map<nat, Boat>, loadIdText: string)
    ensures ScanAsWritten(boats, loadIdText) ==> exists b :: b in boats && |boats[b].loads| > 0
  {
    exists b, r :: b in boats && r in boats[b].loads && Int(r.id) == Str(loadIdText)
  }

  /** The scan as intended: load l is on some boat's list. */
  predicate ListedAnywhere(boats: map<nat, Boat>, l: nat)
  {
    exists b :: b in boats && l in Ids(boats[b].loads)
  }

  // ---------------------------------------------------------------------------
  // What the invariant means, and which operations keep it

  /** A load id is on the list of one boat at most. */
  lemma ListedOnAtMostOneBoat(boats: map<nat, Boat>, loads: map<nat, Load>, base: string, l: nat, b1: nat, b2: nat)
    requires Consistent(boats, loads, base)
    requires b1 in boats && b2 in boats
    requires l in Ids(boats[b1].loads) && l in Ids(boats[b2].loads)
    ensures b1 == b2
  {
    IdsMember(boats[b1].loads, l);
    assert l in loads;
    assert Carries(loads[l], b1) && Carries(loads[l], b2);
  }

  /** The scan at main.py:962-967 never refuses an assignment. */
  lemma ScanAsWrittenNeverFires(boats: map<nat, Boat>, loadIdText: string)
    ensures !ScanAsWritten(boats, loadIdText)
  {
  }

  /** Under the invariant the intended scan and the carrier check refuse the same loads. */
  lemma ListedIffCarried(boats: map<nat, Boat>, loads: map<nat, Load>, base: string, l: nat)
    requires Consistent(boats, loads, base)
    requires l in loads
    ensures ListedAnywhere(boats, l) <==> loads[l].carrier.Some?
  {
    if loads[l].carrier.Some? {
      assert CarrierResolves(loads[l], boats, base);
      var b := loads[l].carrier.value.id;
      assert Carries(loads[l], b);
    }
  }

  /** Assign (main.py:975-1008) keeps the invariant when the load had no carrier. */
  lemma AssignPreservesConsistent(boats: map<nat, Boat>, loads: map<nat, Load>, base: string, b: nat, l: nat)
    requires Consistent(boats, loads, base)
    requires b in boats && l in loads && loads[l].carrier.None?
    ensures Consistent(AppendEntry(boats, b, Ref(l, LoadLink(base, l))),
                       SetCarrier(loads, l, Some(Ref(b, BoatLink(base, b)))), base)
  {
    var e := Ref(l, LoadLink(base, l));
    var boats' := AppendEntry(boats, b, e);
    var loads' := SetCarrier(loads, l, Some(Ref(b, BoatLink(base, b))));
    var rs := boats[b].loads;
    IdsAppend(rs, e);
    assert !Carries(loads[l], b);
    assert l !in Ids(rs);
    assert Distinct(rs + [e]) by {
      forall i | 0 <= i < |rs| ensures rs[i].id != l {
        assert Ids(rs)[i] == rs[i].id;
      }
    }
    forall b' | b' in boats' ensures EntriesResolve(boats'[b'], loads', base) {
      assert EntriesResolve(boats[b'], loads, base);
    }
    forall l' | l' in loads' ensures CarrierResolves(loads'[l'], boats', base) {
      assert CarrierResolves(loads[l'], boats, base);
    }
    forall l', b' | l' in loads' && b' in boats'
      ensures Carries(loads'[l'], b') <==> l' in Ids(boats'[b'].loads)
    {
      assert Carries(loads[l'], b') <==> l' in Ids(boats[b'].loads);
    }
  }

  /** Unassign (main.py:1028-1050) keeps the invariant: the list entry and the carrier go together. */
  lemma UnassignPreservesConsistent(boats: map<nat, Boat>, loads: map<nat, Load>, base: string, b: nat, l: nat)
    requires Consistent(boats, loads, base)
    requires b in boats && l in loads && l in Ids(boats[b].loads)
    ensures Consistent(RemoveEntry(boats, b, l), SetCarrier(loads, l, None), base)
  {
    var boats' := RemoveEntry(boats, b, l);
    var loads' := SetCarrier(loads, l, None);
    assert EntriesResolve(boats[b], loads, base);
    RemoveFirstKeeps(boats[b].loads, l);
    assert Carries(loads[l], b);
    forall b' | b' in boats' ensures EntriesResolve(boats'[b'], loads', base) {
      assert EntriesResolve(boats[b'], loads, base);
    }
    forall l' | l' in loads' ensures CarrierResolves(loads'[l'], boats', base) {
      assert CarrierResolves(loads[l'], boats, base);
    }
    forall l', b' | l' in loads' && b' in boats'
      ensures Carries(loads'[l'], b') <==> l' in Ids(boats'[b'].loads)
    {
      assert Carries(loads[l'], b') <==> l' in Ids(boats[b'].loads);
    }
  }

  /** Assign followed by unassign of the same pair gives back the store as it was. */
  lemma AssignThenUnassign(boats: map<nat, Boat>, loads: map<nat, Load>, base: string, b: nat, l: nat)
    requires Consistent(boats, loads, base)
    requires b in boats && l in loads && loads[l].carrier.None?
    ensures RemoveEntry(AppendEntry(boats, b, Ref(l, LoadLink(base, l))), b, l) == boats
    ensures SetCarrier(SetCarrier(loads, l, Some(Ref(b, BoatLink(base, b)))), l, None) == loads
  {
    assert !Carries(loads[l], b);
    RemoveFirstOfAppended(boats[b].loads, Ref(l, LoadLink(base, l)));
  }

  /** The boat-delete sweep followed by removing the boat (main.py:594-613) keeps the invariant. */
  lemma BoatDeletePreservesConsistent(boats: map<nat, Boat>, loads: map<nat, Load>, base: string, b: nat)
    requires Consistent(boats, loads, base)
    ensures Consistent(boats - {b}, ClearCarriers(loads, b), base)
  {
    var boats' := boats - {b};
    var loads' := ClearCarriers(loads, b);
    forall b' | b' in boats' ensures EntriesResolve(boats'[b'], loads', base) {
      assert EntriesResolve(boats[b'], loads, base);
    }
    forall l' | l' in loads' ensures CarrierResolves(loads'[l'], boats', base) {
      assert CarrierResolves(loads[l'], boats, base);
    }
    forall l', b' | l' in loads' && b' in boats'
      ensures Carries(loads'[l'], b') <==> l' in Ids(boats'[b'].loads)
    {
      assert Carries(loads[l'], b') <==> l' in Ids(boats[b'].loads);
    }
  }

  /** One boat after the as-written sweep, when the boat lists the load first if at all: its entries still resolve, and the load is gone from it. */
  lemma DropLeadingBoatResolves(boats: map<nat, Boat>, loads: map<nat, Load>, base: string, l: nat, b: nat)
    requires Consistent(boats, loads, base)
    requires b in boats
    requires l in Ids(boats[b].loads) ==> boats[b].loads[0].id == l
    ensures EntriesResolve(DropLeading(boats, l)[b], loads - {l}, base)
    ensures l !in Ids(DropLeading(boats, l)[b].loads)
  {
    var rs := boats[b].loads;
    var after := DropLeading(boats, l)[b].loads;
    assert EntriesResolve(boats[b], loads, base);
    if LeadsWith(rs, l) {
      assert after == rs[1..];
      forall j | 1 <= j < |rs| ensures rs[j].id != l {}
      IdsMember(rs[1..], l);
    } else {
      assert after == rs;
      IdsMember(rs, l);
    }
    IdsMember(after, l);
  }

  /** The as-written sweep keeps the invariant when every boat that lists the load lists it first. */
  lemma DropLeadingKeepsConsistent(boats: map<nat, Boat>, loads: map<nat, Load>, base: string, l: nat)
    requires Consistent(boats, loads, base)
    requires forall b :: b in boats && l in Ids(boats[b].loads) ==> boats[b].loads[0].id == l
    ensures Consistent(DropLeading(boats, l), loads - {l}, base)
  {
    var boats' := DropLeading(boats, l);
    var loads' := loads - {l};
    forall b' | b' in boats' ensures EntriesResolve(boats'[b'], loads', base) && l !in Ids(boats'[b'].loads) {
      DropLeadingBoatResolves(boats, loads, base, l, b');
    }
    forall l' | l' in loads' ensures CarrierResolves(loads'[l'], boats', base) {
      assert CarrierResolves(loads[l'], boats, base);
    }
    forall l', b' | l' in loads' && b' in boats'
      ensures Carries(loads'[l'], b') <==> l' in Ids(boats'[b'].loads)
    {
      var rs := boats[b'].loads;
      assert Carries(loads[l'], b') <==> l' in Ids(rs);
      if LeadsWith(rs, l) {
        IdsCons(rs);
        assert boats'[b'].loads == rs[1..];
      } else {
        assert boats'[b'].loads == rs;
      }
    }
  }

  /**
   * The load-delete sweep as written (main.py:898-912) keeps the invariant
   * exactly when every boat that lists the load lists it first; an entry at
   * a later index stays behind, naming a load that is gone.
   */
  lemma LoadDeleteConsistentIff(boats: map<nat, Boat>, loads: map<nat, Load>, base: string, l: nat)
    requires Consistent(boats, loads, base)
    requires l in loads
    ensures Consistent(DropLeading(boats, l), loads - {l}, base)
        <==> (forall b :: b in boats && l in Ids(boats[b].loads) ==> boats[b].loads[0].id == l)
  {
    if forall b :: b in boats && l in Ids(boats[b].loads) ==> boats[b].loads[0].id == l {
      DropLeadingKeepsConsistent(boats, loads, base, l);
    } else {
      var b :| b in boats && l in Ids(boats[b].loads) && boats[b].loads[0].id != l;
      var boats' := DropLeading(boats, l);
      assert boats'[b] == boats[b];
      IdsMember(boats[b].loads, l);
      var r :| r in boats[b].loads && r.id == l;
      assert !EntriesResolve(boats'[b], loads - {l}, base);
    }
  }

  /** A store the as-written load-delete sweep leaves inconsistent: deleting load 3, second on boat 1's list. */
  lemma LoadDeleteLeavesDanglingEntry(base: string)
    ensures var boats := map[1 := Boat(Null, Null, 0, "", [Ref(2, LoadLink(base, 2)), Ref(3, LoadLink(base, 3))])];
            var loads := map[2 := Load(Null, Null, Int(0), Some(Ref(1, BoatLink(base, 1)))),
                             3 := Load(Null, Null, Int(0), Some(Ref(1, BoatLink(base, 1))))];
            && Consistent(boats, loads, base)
            && 3 in Ids(DropLeading(boats, 3)[1].loads)
            && !Consistent(DropLeading(boats, 3), loads - {3}, base)
  {
    var rs := [Ref(2, LoadLink(base, 2)), Ref(3, LoadLink(base, 3))];
    var boats := map[1 := Boat(Null, Null, 0, "", rs)];
    var loads := map[2 := Load(Null, Null, Int(0), Some(Ref(1, BoatLink(base, 1)))),
                     3 := Load(Null, Null, Int(0), Some(Ref(1, BoatLink(base, 1))))];
    assert Ids(rs) == [2, 3];
    assert Consistent(boats, loads, base);
    assert DropLeading(boats, 3)[1].loads == rs;
    LoadDeleteConsistentIff(boats, loads, base, 3);
  }

  /** The intended load-delete sweep keeps the invariant on every consistent store. */
  lemma DropEverywherePreservesConsistent(boats: map<nat, Boat>, loads: map<nat, Load>, base: string, l: nat)
    requires Consistent(boats, loads, base)
    ensures Consistent(DropEverywhere(boats, l), loads - {l}, base)
  {
    var boats' := DropEverywhere(boats, l);
    var loads' := loads - {l};
    forall b' | b' in boats' ensures EntriesResolve(boats'[b'], loads', base) {
      assert EntriesResolve(boats[b'], loads, base);
      RemoveAllKeeps(boats[b'].loads, l);
      forall r | r in boats'[b'].loads ensures r.id != l {
        IdsMember(boats'[b'].loads, l);
      }
    }
    forall l' | l' in loads' ensures CarrierResolves(loads'[l'], boats', base) {
      assert CarrierResolves(loads[l'], boats, base);
    }
    forall l', b' | l' in loads' && b' in boats'
      ensures Carries(loads'[l'], b') <==> l' in Ids(boats'[b'].loads)
    {
      assert Carries(loads[l'], b') <==> l' in Ids(boats[b'].loads);
      RemoveAllKeeps(boats[b'].loads, l);
    }
  }

  /** A new boat with an empty list keeps the invariant. */
  lemma AddBoatPreservesConsistent(boats: map<nat, Boat>, loads: map<nat, Load>, base: string, id: nat, bt: Boat)
    requires Consistent(boats, loads, base)
    requires id !in boats && bt.loads == []
    ensures Consistent(boats[id := bt], loads, base)
  {
    forall l | l in loads ensures !Carries(loads[l], id) {
      assert CarrierResolves(loads[l], boats, base);
    }
  }

  /** A new load without a carrier keeps the invariant. */
  lemma AddLoadPreservesConsistent(boats: map<nat, Boat>, loads: map<nat, Load>, base: string, id: nat, ld: Load)
    requires Consistent(boats, loads, base)
    requires id !in loads && ld.carrier.None?
    ensures Consistent(boats, loads[id := ld], base)
  {
    forall b | b in boats ensures id !in Ids(boats[b].loads) {
      assert EntriesResolve(boats[b], loads, base);
      IdsMember(boats[b].loads, id);
    }
  }

  /** Rewriting boats' other attributes, every list untouched, keeps the invariant. */
  lemma ListsUnchangedPreservesConsistent(boats: map<nat, Boat>, boats': map<nat, Boat>, loads: map<nat, Load>, base: string)
    requires boats'.Keys == boats.Keys
    requires forall b :: b in boats ==> boats'[b].loads == boats[b].loads
    ensures Consistent(boats, loads, base) ==> Consistent(boats', loads, base)
  {
    if Consistent(boats, loads, base) {
      forall b | b in boats' ensures EntriesResolve(boats'[b], loads, base) {
        assert EntriesResolve(boats[b], loads, base);
      }
      forall l | l in loads ensures CarrierResolves(loads[l], boats', base) {
        assert CarrierResolves(loads[l], boats, base);
      }
    }
  }

  /** Rewriting loads' other attributes, every carrier untouched, keeps the invariant. */
  lemma CarriersUnchangedPreservesConsistent(boats: map<nat, Boat>, loads: map<nat, Load>, loads': map<nat, Load>, base: string)
    requires loads'.Keys == loads.Keys
    requires forall l :: l in loads ==> loads'[l].carrier == loads[l].carrier
    ensures Consistent(boats, loads, base) ==> Consistent(boats, loads', base)
  {
    if Consistent(boats, loads, base) {
      forall b | b in boats ensures EntriesResolve(boats[b], loads', base) {
        assert EntriesResolve(boats[b], loads, base);
      }
      forall l | l in loads' ensures CarrierResolves(loads'[l], boats, base) {
        assert CarrierResolves(loads[l], boats, base);
      }
      forall l, b | l in loads' && b in boats
        ensures Carries(loads'[l], b) <==> l in Ids(boats[b].loads)
      {
        assert Carries(loads[l], b) <==> l in Ids(boats[b].loads);
      }
    }
  }
}
