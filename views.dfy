/** The JSON views of boats and loads, and the continuation link of a listing. */
module Views {
  import opened Optional
  import opened Text
  import opened Entities

  datatype BoatView = BoatView(id: nat, name: Value, kind: Value, length: nat, owner: string, loads: seq<Ref>, self: string)
  datatype LoadView = LoadView(id: nat, content: Value, volume: Value, price: Value, carrier: Option<Ref>, self: string)

  /** format_boat: the stored attributes, the id, and a self link that names the boat. */
  function FormatBoat(base: string, id: nat, b: Boat): (r: BoatView)
    ensures IdFromLink(base + "boats/", r.self) == Some(id)
    ensures r.id == id && r.owner == b.owner && r.loads == b.loads
    ensures r.name == b.name && r.kind == b.kind && r.length == b.length
  {
    BoatLinkNamesId(base, id);
    BoatView(id, b.name, b.kind, b.length, b.owner, b.loads, BoatLink(base, id))
  }

  /** format_load: the stored attributes, the id, and a self link that names the load. */
  function FormatLoad(base: string, id: nat, ld: Load): (r: LoadView)
    ensures IdFromLink(base + "loads/", r.self) == Some(id)
    ensures r.id == id && r.carrier == ld.carrier
    ensures r.content == ld.content && r.volume == ld.volume && r.price == ld.price
  {
    LoadLinkNamesId(base, id);
    LoadView(id, ld.content, ld.volume, ld.price, ld.carrier, LoadLink(base, id))
  }

  /** The part of a link before its offset value. */
  function NextPrefix(url: string, limit: int): string
  {
    url + "?limit=" + IntText(limit) + "&offset="
  }

  /**
   * The "next" link of a listing page: present only when the store reports
   * more results, and its offset is the current offset plus the limit.
   */
  function NextLink(url: string, limit: int, offset: int, more: bool): (r: Option<string>)
    ensures r.Some? <==> more
    ensures r.Some? ==> NextPrefix(url, limit) <= r.value
    ensures r.Some? ==> ParseInt(r.value[|NextPrefix(url, limit)|..]) == Some(offset + limit)
  {
    if more then
      var link := NextPrefix(url, limit) + IntText(offset + limit);
      assert link[|NextPrefix(url, limit)|..] == IntText(offset + limit);
      IntTextRoundTrip(offset + limit);
      Some(link)
    else None
  }
}
