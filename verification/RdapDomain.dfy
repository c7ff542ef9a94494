/** The entities of an RDAP domain response, and what they say about the state they were read from. */
module RdapDomain {
  import opened Wrappers
  import opened JCard
  import opened Registry
  import opened AggregateReads
  import opened SnapshotRead

  datatype Entity = Entity(handle: string, role: string, publicID: string, vcardArray: Json)

  function StaticCard(props: seq<Json>): Json { Arr([Str("vcard"), Arr(props)]) }

  function TextProperty(name: string, text: string): Json { Property(name, map[], "text", Str(text)) }

  function StaticAddress(street: string, locality: string, region: string, postalCode: string): Json {
    AddressProperty(VCardAddress("US", "", "", street, locality, region, postalCode, ""))
  }

  /** The card shown for a registrar that could not be resolved. */
  function ExampleRegistrar(): Json {
    StaticCard([TextProperty("version", "4.0"), TextProperty("fn", "Example Registrar Inc."),
                StaticAddress("123 Maple Ave", "Los Angeles", "CA", "90210")])
  }

  /** The card shown for a registrant that could not be resolved. */
  function ExampleRegistrant(): Json {
    StaticCard([TextProperty("version", "4.0"), TextProperty("fn", "Example Registrant"), TextProperty("org", "Example Organization"),
                StaticAddress("123 Elm Street", "Springfield", "IL", "62701")]
               + TelUnlessEmpty("voice", "tel:+1-217-555-0132") + [TextProperty("email", "registrant@example.com")])
  }

  function CardFor(c: Contact): Json { VCardToJCard(c.vcard, c.handle) }

  function RegistrarEntity(d: Domain, agg: Option<Aggregate>): Entity {
    Entity(d.registrar, "registrar", d.registrar,
           if agg.Some? && agg.value.registrar.Some? then CardFor(agg.value.registrar.value) else ExampleRegistrar())
  }

  function RegistrantEntity(d: Domain, agg: Option<Aggregate>): Entity {
    if agg.Some? && "registrant" in d.contacts && |d.contacts["registrant"]| > 0 then
      var h := d.contacts["registrant"][0];
      Entity(h, "registrant", "", if h in agg.value.contacts then CardFor(agg.value.contacts[h]) else ExampleRegistrant())
    else
      Entity("REG1-NAME", "registrant", "", ExampleRegistrant())
  }

  /** The registrar always, the registrant only when serving as a registrar; agg is absent in plain searches. */
  function Entities(d: Domain, agg: Option<Aggregate>, registrarMode: bool): seq<Entity> {
    [RegistrarEntity(d, agg)] + (if registrarMode then [RegistrantEntity(d, agg)] else [])
  }

  predicate Found(s: State) { s.reader.phase.Done? && s.reader.phase.result.Some? }

  /** A finished lookup renders the entities of one committed state, with examples for the contacts it failed to read. */
  lemma ResponseShowsOneState(run: seq<State>, iso: Isolation, name: string, registrarMode: bool)
    requires iso != PerStatement && Run(run, iso, name) && Keyed(run[|run| - 1].history)
    requires Found(run[|run| - 1])
    ensures var s := run[|run| - 1];
            var agg := s.reader.phase.result.value;
            exists i | s.began <= i < |s.history| ::
              RendersState(s.history[i], name, s.reader.lostContacts, Entities(agg.domain, Some(agg), registrarMode), registrarMode)
  {
    ReadsOneCommittedState(run, iso, name);
    var s := run[|run| - 1];
    var r := s.reader;
    var i :| s.began <= i < |s.history| && r.phase.result == AggregateLess(s.history[i], name, r.lostContacts, r.lostNameservers);
    FromSqlRow(FindRow(s.history[i].domains, name).value, s.history[i].tables, r.lostContacts, r.lostNameservers, registrarMode);
  }

  /**
   The entities that a committed state calls for, read straight off its columns. The registrant column names both
   entities, and an example replaces a contact exactly when the state has none or its lookup failed. When the column
   is null, the registrar is looked up under the empty handle, though only if another contact column holds it.
   */
  predicate RendersState(db: Db, name: string, lost: set<string>, entities: seq<Entity>, registrarMode: bool) {
    FindRow(db.domains, name).Some?
    && RendersRow(FindRow(db.domains, name).value, db.tables.contacts, lost, entities, registrarMode)
  }

  predicate RendersRow(row: DomainRow, contacts: map<string, Contact>, lost: set<string>, entities: seq<Entity>, registrarMode: bool) {
    var registrar := if row.registrant.Some? then row.registrant.value else "";
    var registrarFound := registrar in contacts && registrar !in lost && Some(registrar) in [row.registrant, row.admin, row.tech, row.billing];
    var registrantFound := row.registrant.Some? && registrar in contacts && registrar !in lost;
    |entities| == (if registrarMode then 2 else 1)
    && entities[0] == Entity(registrar, "registrar", registrar, if registrarFound then CardFor(contacts[registrar]) else ExampleRegistrar())
    && (registrarMode ==>
          entities[1] == Entity(if row.registrant.Some? then registrar else "REG1-NAME", "registrant", "",
                                if registrantFound then CardFor(contacts[registrar]) else ExampleRegistrant()))
  }

  lemma FromSqlRow(row: DomainRow, t: Tables, lost: set<string>, lostNameservers: set<nat>, registrarMode: bool)
    ensures var agg := ResolveLess(ScanDomain(row), t, lost, lostNameservers);
            RendersRow(row, t.contacts, lost, Entities(agg.domain, Some(agg), registrarMode), registrarMode)
  {
    var d := ScanDomain(row);
    WantedHandles(row, d.registrar);
    assert row.registrant.Some? <==> "registrant" in d.contacts;
    if row.registrant.Some? {
      assert d.contacts["registrant"] == [row.registrant.value];
    }
  }

  /** The entities of any aggregate, however many handles a role lists: the registrar's card and the first registrant's. */
  lemma EntitiesShow(d: Domain, agg: Option<Aggregate>, registrarMode: bool)
    ensures var es := Entities(d, agg, registrarMode);
            |es| == (if registrarMode then 2 else 1)
            && es[0].handle == d.registrar && es[0].role == "registrar" && es[0].publicID == d.registrar
            && (if agg.Some? && agg.value.registrar.Some?
                then Parsed(Some(es[0].vcardArray)) == Some(Canon(agg.value.registrar.value.vcard, agg.value.registrar.value.handle))
                else es[0].vcardArray == ExampleRegistrar())
    ensures registrarMode ==>
              var e := Entities(d, agg, registrarMode)[1];
              e.role == "registrant" && e.publicID == ""
              && if agg.Some? && "registrant" in d.contacts && d.contacts["registrant"] != [] then
                   var h := d.contacts["registrant"][0];
                   e.handle == h
                   && if h in agg.value.contacts
                      then Parsed(Some(e.vcardArray)) == Some(Canon(agg.value.contacts[h].vcard, agg.value.contacts[h].handle))
                      else e.vcardArray == ExampleRegistrant()
                 else
                   e.handle == "REG1-NAME" && e.vcardArray == ExampleRegistrant()
  {
    if agg.Some? && agg.value.registrar.Some? {
      RoundTrip(agg.value.registrar.value.vcard, agg.value.registrar.value.handle);
    }
    if agg.Some? && "registrant" in d.contacts && d.contacts["registrant"] != [] && d.contacts["registrant"][0] in agg.value.contacts {
      var c := agg.value.contacts[d.contacts["registrant"][0]];
      RoundTrip(c.vcard, c.handle);
    }
  }

  /** A card document: the tag, then a version, a name and further properties of four values each. */
  predicate CardDocument(doc: Json, name: string) {
    doc.Arr? && |doc.items| == 2 && doc.items[0] == Str("vcard") && doc.items[1].Arr? && |doc.items[1].items| >= 2
    && var props := doc.items[1].items;
       props[0] == Arr([Str("version"), Obj(map[]), Str("text"), Str("4.0")]) && props[1] == Arr([Str("fn"), Obj(map[]), Str("text"), Str(name)])
       && forall i | 0 <= i < |props| :: props[i].Arr? && |props[i].items| == 4 && (props[i].items[2] == Str("text") || props[i].items[2] == Str("uri"))
  }

  lemma ExamplesAreDocuments()
    ensures CardDocument(ExampleRegistrar(), "Example Registrar Inc.") && CardDocument(ExampleRegistrant(), "Example Registrant")
  {}

  /** The example registrar's card reads as this contact. */
  lemma ExampleRegistrarReads()
    ensures Parsed(Some(ExampleRegistrar()))
            == Some(VCard("4.0", "Example Registrar Inc.", "", "",
                          Some(VCardAddress("US", "", "", "123 Maple Ave", "Los Angeles", "CA", "90210", "")), "", "", "", ""))
  {
    var adr := VCardAddress("US", "", "", "123 Maple Ave", "Los Angeles", "CA", "90210", "");
    var header := Header("Example Registrar Inc.");
    HeaderCard("Example Registrar Inc.");
    AppendAddress(header, Some(adr));
    assert StaticAddress("123 Maple Ave", "Los Angeles", "CA", "90210") == AddressProperty(adr);
    assert [TextProperty("version", "4.0"), TextProperty("fn", "Example Registrar Inc."), AddressProperty(adr)] == header + [AddressProperty(adr)];
  }

  /** And the example registrant's as this one. */
  lemma ExampleRegistrantReads()
    ensures Parsed(Some(ExampleRegistrant()))
            == Some(VCard("4.0", "Example Registrant", "", "Example Organization",
                          Some(VCardAddress("US", "", "", "123 Elm Street", "Springfield", "IL", "62701", "")),
                          "tel:+1-217-555-0132", "", "registrant@example.com", ""))
  {
    var adr := VCardAddress("US", "", "", "123 Elm Street", "Springfield", "IL", "62701", "");
    var v := VCard("4.0", "Example Registrant", "", "Example Organization", Some(adr), "tel:+1-217-555-0132", "", "registrant@example.com", "");
    assert StaticAddress("123 Elm Street", "Springfield", "IL", "62701") == AddressProperty(adr);
    ExampleRegistrantIsPrinted(v, adr);
    RoundTrip(Some(v), "");
  }

  lemma ExampleRegistrantIsPrinted(v: VCard, adr: VCardAddress)
    requires v == VCard("4.0", "Example Registrant", "", "Example Organization", Some(adr), "tel:+1-217-555-0132", "", "registrant@example.com", "")
    requires StaticAddress("123 Elm Street", "Springfield", "IL", "62701") == AddressProperty(adr)
    ensures ExampleRegistrant() == VCardToJCard(Some(v), "")
  {
    var props := Properties(Some(v), "");
    var tel := TelUnlessEmpty("voice", "tel:+1-217-555-0132");
    assert tel == [TelProperty("voice", "tel:+1-217-555-0132")];
    assert props == [TextProperty("version", "4.0"), TextProperty("fn", "Example Registrant"), TextProperty("org", "Example Organization"),
                     AddressProperty(adr)] + tel + [TextProperty("email", "registrant@example.com")];
  }

  // ---------- a failed lookup ----------

  /** The response names an example as the registrar although every committed state has the registrar's contact. */
  predicate ShowsExampleForStored(s: State) {
    Found(s)
    && var agg := s.reader.phase.result.value;
       RegistrarEntity(agg.domain, Some(agg)).vcardArray == ExampleRegistrar()
       && forall i | 0 <= i < |s.history| ::
            FitsSchema(s.history[i]) && agg.domain.registrar in s.history[i].tables.contacts
            && CardFor(s.history[i].tables.contacts[agg.domain.registrar]) != ExampleRegistrar()
  }

  /** The read goes on after a failed contact lookup, and the response then shows an example in its place. */
  lemma FailedLookupShowsExample()
    ensures exists run: seq<State> :: Run(run, OneSnapshot, "a.example") && ShowsExampleForStored(run[|run| - 1])
  {
    var run := seq(6, n requires 0 <= n < 6 => FailedState(n));
    forall i | 0 <= i < 5
      ensures Next(run[i], run[i + 1], OneSnapshot, "a.example")
    {
      FailedStep(i);
    }
    assert Run(run, OneSnapshot, "a.example");
    FailedShowsExample();
    assert run[|run| - 1] == FailedState(5);
  }

  /** A read of one unchanging state whose only contact lookup fails. */
  function FailedState(n: nat): State
    requires n < 6
  {
    var d := ScanDomain(SampleRow("A"));
    var after := FRESH.(lostContacts := {"A"});
    var r := match n
      case 0 => FRESH
      case 1 => FRESH.(phase := Begun)
      case 2 => FRESH.(phase := Contacts(d, {"A"}))
      case 3 => after.(phase := Contacts(d, {}))
      case 4 => after.(phase := Nameservers(d, 0))
      case 5 => after.(phase := Done(Some(Aggregate(d, None, map[], map[]))));
    State([SampleDb(false)], r, 0, 0)
  }

  lemma FailedStep(i: nat)
    requires i < 5
    ensures Next(FailedState(i), FailedState(i + 1), OneSnapshot, "a.example")
  {
    SampleWanted();
    assert i == 2 ==> ReadContact(FailedState(i), FailedState(i + 1), OneSnapshot, "A", true) by {
      var none: set<string> := {};
      assert none + {"A"} == {"A"} && {"A"} - {"A"} == none;
    }
  }

  lemma FailedShowsExample()
    ensures ShowsExampleForStored(FailedState(5))
  {
    SampleFits(false);
    var c := SampleContact("A", "Old");
    assert CardFor(c).items[1].items[1].items[3] == Str("Old");
    assert ExampleRegistrar().items[1].items[1].items[3] == Str("Example Registrar Inc.");
    assert "Old"[0] != "Example Registrar Inc."[0];
  }
}
