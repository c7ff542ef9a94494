/** The WHOIS rendering of a domain, and what it gives away of redacted contacts. */
module WhoisRender {
  import opened Wrappers
  import opened Text
  import opened JCard
  import opened Registry

  datatype WhoisContact = WhoisContact(role: string, name: string, org: string, email: string, phone: string, address: string, redacted: bool)

  datatype WhoisNameserver = WhoisNameserver(name: string, ipv4: seq<string>, ipv6: seq<string>)

  /** Dates are already formatted, and empty when unset. */
  datatype WhoisDomain = WhoisDomain(ldhName: string, unicodeName: string, status: seq<string>, registrar: string, registrarID: string,
                                     registrant: string, contacts: seq<WhoisContact>, nameservers: seq<WhoisNameserver>,
                                     createdAt: string, updatedAt: string, expiresAt: string, dnssec: bool)

  // ---------- rendering ----------

  const CRLF := "\r\n"

  function Line(key: string, value: string): string {
    if value != "" then key + ": " + value + CRLF else ""
  }

  function RoleLabel(role: string): string {
    var r := Lower(role);
    if r == "registrant" then "Registrant:"
    else if r == "administrative" || r == "admin" then "Administrative Contact:"
    else if r == "technical" || r == "tech" then "Technical Contact:"
    else if r == "billing" then "Billing Contact:"
    else if r == "abuse" then "Abuse Contact:"
    else ""
  }

  function AddressLines(lines: seq<string>): string {
    if lines == [] then "" else AddressLines(lines[..|lines| - 1]) + Line("   Address", TrimSpace(lines[|lines| - 1]))
  }

  function Details(c: WhoisContact): string {
    Line("   Name", c.name) + Line("   Organization", c.org)
    + (if c.address != "" then AddressLines(Split(c.address, '\n')) else "")
    + Line("   Email", c.email) + Line("   Phone", c.phone)
  }

  function ContactBlock(c: WhoisContact): string {
    if RoleLabel(c.role) == "" then ""
    else CRLF + RoleLabel(c.role) + CRLF + (if c.redacted then "   Name: Redacted" + CRLF else Details(c))
  }

  function ContactBlocks(cs: seq<WhoisContact>): string {
    if cs == [] then "" else ContactBlocks(cs[..|cs| - 1]) + ContactBlock(cs[|cs| - 1])
  }

  function Indented(ips: seq<string>): string {
    if ips == [] then "" else Indented(ips[..|ips| - 1]) + ("      " + ips[|ips| - 1] + CRLF)
  }

  function NameserverLines(nss: seq<WhoisNameserver>): string {
    if nss == [] then ""
    else NameserverLines(nss[..|nss| - 1]) + ("   " + nss[|nss| - 1].name + CRLF) + Indented(nss[|nss| - 1].ipv4)
  }

  function NameserverBlock(nss: seq<WhoisNameserver>): string {
    if nss == [] then "" else CRLF + "Name Server:" + CRLF + NameserverLines(nss)
  }

  function JoinWith(parts: seq<string>, sep: string): string {
    if parts == [] then "" else if |parts| == 1 then parts[0] else parts[0] + sep + JoinWith(parts[1..], sep)
  }

  function Head(d: WhoisDomain): string {
    "Domain Name: " + d.ldhName + CRLF
    + (if d.unicodeName != "" && d.unicodeName != d.ldhName then Line("Internationalized Domain Name", d.unicodeName) else "")
  }

  /** The lines that name the registrar and the registrant. */
  function Names(d: WhoisDomain): string {
    Line("Registrar", d.registrar) + Line("Registrar IANA ID", d.registrarID) + Line("Registrant Organization", d.registrant)
  }

  function Footer(d: WhoisDomain): string {
    NameserverBlock(d.nameservers)
    + Line("DNSSEC", if d.dnssec then "signedDelegation" else "unsignedDelegation")
    + Line("Creation Date", d.createdAt) + Line("Updated Date", d.updatedAt) + Line("Expiration Date", d.expiresAt)
    + Line("Status", JoinWith(d.status, " ")) + CRLF
  }

  function Render(d: WhoisDomain): string {
    Head(d) + Names(d) + ContactBlocks(d.contacts) + Footer(d)
  }

  lemma Assoc(a: string, b: string, c: string)
    ensures a + b + c == a + (b + c)
  {}

  /** The renderer, writing to one growing text. */
  method RenderDomain(d: WhoisDomain) returns (b: string)
    ensures b == Render(d)
  {
    b := WriteHead(d);
    var names := WriteNames(d);
    b := b + names;
    ghost var head := b;
    ghost var written := "";
    for i := 0 to |d.contacts|
      invariant written == ContactBlocks(d.contacts[..i])
      invariant b == head + written
    {
      assert d.contacts[..i + 1][..i] == d.contacts[..i];
      var block := WriteContact(d.contacts[i]);
      b := b + block;
      Assoc(head, written, block);
      written := written + block;
    }
    assert d.contacts[..|d.contacts|] == d.contacts;
    var footer := WriteFooter(d);
    b := b + footer;
  }

  method WriteHead(d: WhoisDomain) returns (b: string)
    ensures b == Head(d)
  {
    b := "Domain Name: " + d.ldhName + CRLF;
    b := b + (if d.unicodeName != "" && d.unicodeName != d.ldhName then Line("Internationalized Domain Name", d.unicodeName) else "");
  }

  method WriteNames(d: WhoisDomain) returns (b: string)
    ensures b == Names(d)
  {
    b := Line("Registrar", d.registrar);
    b := b + Line("Registrar IANA ID", d.registrarID);
    b := b + Line("Registrant Organization", d.registrant);
  }

  method WriteContact(c: WhoisContact) returns (b: string)
    ensures b == ContactBlock(c)
  {
    var title := RoleLabel(c.role);
    if title == "" {
      return "";
    }
    b := CRLF + title + CRLF;
    if c.redacted {
      b := b + ("   Name: Redacted" + CRLF);
    } else {
      var details := WriteDetails(c);
      b := b + details;
    }
  }

  method WriteDetails(c: WhoisContact) returns (b: string)
    ensures b == Details(c)
  {
    b := Line("   Name", c.name);
    b := b + Line("   Organization", c.org);
    var lines := WriteAddress(c.address);
    b := b + lines;
    b := b + Line("   Email", c.email);
    b := b + Line("   Phone", c.phone);
  }

  method WriteAddress(address: string) returns (b: string)
    ensures b == if address != "" then AddressLines(Split(address, '\n')) else ""
  {
    b := "";
    if address != "" {
      var lines := Split(address, '\n');
      for i := 0 to |lines|
        invariant b == AddressLines(lines[..i])
      {
        assert lines[..i + 1][..i] == lines[..i];
        b := b + Line("   Address", TrimSpace(lines[i]));
      }
      assert lines[..|lines|] == lines;
    }
  }

  method WriteFooter(d: WhoisDomain) returns (b: string)
    ensures b == Footer(d)
  {
    b := WriteNameservers(d.nameservers);
    b := b + Line("DNSSEC", if d.dnssec then "signedDelegation" else "unsignedDelegation");
    b := b + Line("Creation Date", d.createdAt);
    b := b + Line("Updated Date", d.updatedAt);
    b := b + Line("Expiration Date", d.expiresAt);
    b := b + Line("Status", JoinWith(d.status, " "));
    b := b + CRLF;
  }

  method WriteNameservers(nss: seq<WhoisNameserver>) returns (b: string)
    ensures b == NameserverBlock(nss)
  {
    if |nss| == 0 {
      return "";
    }
    b := "";
    for i := 0 to |nss|
      invariant b == NameserverLines(nss[..i])
    {
      assert nss[..i + 1][..i] == nss[..i];
      b := b + ("   " + nss[i].name + CRLF);
      var ips := "";
      for k := 0 to |nss[i].ipv4|
        invariant ips == Indented(nss[i].ipv4[..k])
      {
        assert nss[i].ipv4[..k + 1][..k] == nss[i].ipv4[..k];
        ips := ips + ("      " + nss[i].ipv4[k] + CRLF);
      }
      assert nss[i].ipv4[..|nss[i].ipv4|] == nss[i].ipv4;
      b := b + ips;
    }
    assert nss[..|nss|] == nss;
    b := CRLF + "Name Server:" + CRLF + b;
  }

  // ---------- what a reader of the text can tell ----------

  /** Two contacts that differ, if at all, only in the details of a redacted contact. */
  predicate SameUnlessRedacted(c: WhoisContact, e: WhoisContact) {
    c.role == e.role && c.redacted == e.redacted && (!c.redacted ==> c == e)
  }

  /** Two domains that differ, if at all, only in details of redacted contacts and in the registrar's and registrant's names. */
  predicate SameButRedacted(d: WhoisDomain, e: WhoisDomain) {
    e.(registrar := d.registrar, registrant := d.registrant, contacts := d.contacts) == d
    && AlikeUnlessRedacted(d.contacts, e.contacts)
  }

  predicate AlikeUnlessRedacted(cs: seq<WhoisContact>, es: seq<WhoisContact>) {
    |cs| == |es| && forall i | 0 <= i < |cs| :: SameUnlessRedacted(cs[i], es[i])
  }

  lemma {:induction false} SameBlocks(cs: seq<WhoisContact>, es: seq<WhoisContact>)
    requires |cs| == |es| && forall i | 0 <= i < |cs| :: SameUnlessRedacted(cs[i], es[i])
    ensures ContactBlocks(cs) == ContactBlocks(es)
  {
    if cs != [] {
      SameBlocks(cs[..|cs| - 1], es[..|es| - 1]);
      assert SameUnlessRedacted(cs[|cs| - 1], es[|es| - 1]);
    }
  }

  // Texts that share their beginning and end differ exactly in the middle.
  lemma Cancel(before: string, x: string, y: string, after: string)
    ensures before + x + after == before + y + after <==> x == y
  {
    var s, t := before + x + after, before + y + after;
    if s == t {
      assert |x| == |y|;
      assert s[|before|..|before| + |x|] == x && t[|before|..|before| + |y|] == y;
    }
  }

  lemma LineTells(key: string, v: string, w: string)
    ensures Line(key, v) == Line(key, w) <==> v == w
  {
    if v != "" && w != "" {
      assert key + ": " + v + CRLF == (key + ": ") + v + CRLF && key + ": " + w + CRLF == (key + ": ") + w + CRLF;
      Cancel(key + ": ", v, w, CRLF);
    }
  }

  /** Two domains alike but for redacted details render alike exactly when their naming lines are equal. */
  lemma RenderTellsNames(d: WhoisDomain, e: WhoisDomain)
    requires SameButRedacted(d, e)
    ensures Render(d) == Render(e) <==> Names(d) == Names(e)
  {
    SameBlocks(d.contacts, e.contacts);
    assert Head(d) == Head(e) && Footer(d) == Footer(e);
    Assoc(Head(d) + Names(d), ContactBlocks(d.contacts), Footer(d));
    Assoc(Head(d) + Names(e), ContactBlocks(d.contacts), Footer(d));
    Cancel(Head(d), Names(d), Names(e), ContactBlocks(d.contacts) + Footer(d));
  }

  // A registrar line is cut off at its line feed, so texts that share it share the name.
  lemma FirstLine(r: string, after: string, q: string, after': string)
    requires '\n' !in r && '\n' !in q
    requires "Registrar: " + r + CRLF + after == "Registrar: " + q + CRLF + after'
    ensures r == q
  {
    var s, t := "Registrar: " + r + CRLF + after, "Registrar: " + q + CRLF + after';
    assert s[|r| + 12] == '\n' && t[|q| + 12] == '\n';
    assert s[11..|r| + 11] == r && t[11..|q| + 11] == q;
  }

  // Without a registrar line the text begins in another way.
  lemma OtherBeginning(id: string, n: string, q: string, after: string)
    ensures Line("Registrar IANA ID", id) + Line("Registrant Organization", n) != "Registrar: " + q + CRLF + after
  {
    var s, t := Line("Registrar IANA ID", id) + Line("Registrant Organization", n), "Registrar: " + q + CRLF + after;
    assert t[8] == 'r' && t[9] == ':';
    if id != "" {
      assert s[9] == "Registrar IANA ID"[9];
    } else if n != "" {
      assert s[8] == "Registrant Organization"[8];
    }
  }

  /** The naming lines tell both names apart, provided the registrar's name is on one line. */
  lemma NamesTellBoth(d: WhoisDomain, e: WhoisDomain)
    requires d.registrarID == e.registrarID && '\n' !in d.registrar && '\n' !in e.registrar
    ensures Names(d) == Names(e) <==> d.registrar == e.registrar && d.registrant == e.registrant
  {
    if Names(d) == Names(e) {
      SameRegistrar(d, e);
      var before := Line("Registrar", d.registrar) + Line("Registrar IANA ID", d.registrarID);
      var x, y := Line("Registrant Organization", d.registrant), Line("Registrant Organization", e.registrant);
      assert before + x + "" == before + x && before + y + "" == before + y;
      Cancel(before, x, y, "");
      LineTells("Registrant Organization", d.registrant, e.registrant);
    }
  }

  lemma SameRegistrar(d: WhoisDomain, e: WhoisDomain)
    requires d.registrarID == e.registrarID && '\n' !in d.registrar && '\n' !in e.registrar
    requires Names(d) == Names(e)
    ensures d.registrar == e.registrar
  {
    NamesShape(d);
    NamesShape(e);
    if d.registrar != "" && e.registrar != "" {
      FirstLine(d.registrar, After(d), e.registrar, After(e));
    } else if e.registrar != "" {
      OtherBeginning(d.registrarID, d.registrant, e.registrar, After(e));
    } else if d.registrar != "" {
      OtherBeginning(e.registrarID, e.registrant, d.registrar, After(d));
    }
  }

  function After(d: WhoisDomain): string { Line("Registrar IANA ID", d.registrarID) + Line("Registrant Organization", d.registrant) }

  lemma NamesShape(d: WhoisDomain)
    ensures Names(d) == if d.registrar == "" then After(d) else "Registrar: " + d.registrar + CRLF + After(d)
  {
    Assoc(Line("Registrar", d.registrar), Line("Registrar IANA ID", d.registrarID), Line("Registrant Organization", d.registrant));
    assert "Registrar" + ": " == "Registrar: ";
  }

  // ---------- from an aggregate ----------

  function ContactDisplayName(c: Contact): string {
    if c.vcard.Some? && c.vcard.value.fullName != "" then c.vcard.value.fullName
    else if c.vcard.Some? && c.vcard.value.organization != "" then c.vcard.value.organization
    else c.handle
  }

  function NonEmpty(parts: seq<string>): seq<string> {
    if parts == [] then [] else (if parts[0] != "" then [parts[0]] else []) + NonEmpty(parts[1..])
  }

  function IsRedacted(c: Contact): bool { c.privacy != "" && c.privacy != "public" }

  function ContactToWhois(role: string, c: Contact): WhoisContact {
    var bare := WhoisContact(role, "", "", "", "", "", IsRedacted(c));
    var wc :=
      if c.vcard.None? then bare
      else
        var vc := c.vcard.value;
        bare.(name := vc.fullName, org := vc.organization, email := if vc.email != "" then vc.email else vc.contactURI, phone := vc.voiceTel,
              address := if vc.address.None? then ""
                         else var a := vc.address.value;
                              JoinWith(NonEmpty([a.street, a.locality, a.region, a.postalCode, a.countryName]), ", "));
    if wc.name == "" then wc.(name := c.handle) else wc
  }

  /** The resolved contacts of one role, in the order of its handles. */
  function RoleContacts(role: string, handles: seq<string>, contacts: map<string, Contact>): seq<WhoisContact> {
    if handles == [] then []
    else
      var h := handles[|handles| - 1];
      RoleContacts(role, handles[..|handles| - 1], contacts) + (if h in contacts then [ContactToWhois(role, contacts[h])] else [])
  }

  /** The contacts of the roles in the given order. */
  function AllContacts(d: Domain, order: seq<string>, contacts: map<string, Contact>): seq<WhoisContact>
    requires forall i | 0 <= i < |order| :: order[i] in d.contacts
  {
    if order == [] then []
    else
      var role := order[|order| - 1];
      AllContacts(d, order[..|order| - 1], contacts) + RoleContacts(role, d.contacts[role], contacts)
  }

  predicate NamesRegistrant(c: WhoisContact) { Lower(c.role) == "registrant" && c.name != "" }

  /** The name of the first registrant, redacted or not. */
  function RegistrantName(cs: seq<WhoisContact>): string {
    if cs == [] then "" else if NamesRegistrant(cs[0]) then cs[0].name else RegistrantName(cs[1..])
  }

  function HostsOf(nss: seq<NameServer>): seq<WhoisNameserver> {
    seq(|nss|, i requires 0 <= i < |nss| => WhoisNameserver(nss[i].ldhName, nss[i].ipv4, nss[i].ipv6))
  }

  /** The record for WHOIS when the roles map iterates in the given order. */
  function ToWhois(agg: Aggregate, order: seq<string>): WhoisDomain
    requires forall i | 0 <= i < |order| :: order[i] in agg.domain.contacts
  {
    var d, cs := agg.domain, AllContacts(agg.domain, order, agg.contacts);
    WhoisDomain(d.ldhName, d.unicodeName, NonEmpty(d.status),
                RegistrarName(agg),
                if agg.registrar.Some? && |agg.registrar.value.publicIDs| > 0 then agg.registrar.value.publicIDs[0] else "",
                RegistrantName(cs), cs, HostsOf(d.nameservers), d.createdAt, d.updatedAt, d.expiresAt, d.delegationSigned)
  }

  /** order lists every role of the domain once. */
  ghost predicate RoleOrder(order: seq<string>, d: Domain) {
    (forall i, j | 0 <= i < j < |order| :: order[i] != order[j]) && forall role :: role in order <==> role in d.contacts
  }

  /** The adapter: roles in whatever order the map yields them, and the first named registrant for the Registrant field. */
  method DomainToWhois(agg: Aggregate) returns (out: WhoisDomain)
    ensures exists order :: RoleOrder(order, agg.domain) && out == ToWhois(agg, order)
  {
    var d := agg.domain;
    var registrar, registrarID := "", "";
    if agg.registrar.Some? {
      registrar := ContactDisplayName(agg.registrar.value);
      if |agg.registrar.value.publicIDs| > 0 {
        registrarID := agg.registrar.value.publicIDs[0];
      }
    }
    var cs, order := GatherContacts(d, agg.contacts);
    var registrant := FirstRegistrant(cs);
    var hosts := GatherHosts(d.nameservers);
    out := WhoisDomain(d.ldhName, d.unicodeName, NonEmpty(d.status), registrar, registrarID, registrant, cs, hosts,
                       d.createdAt, d.updatedAt, d.expiresAt, d.delegationSigned);
    assert out == ToWhois(agg, order);
  }

  method GatherContacts(d: Domain, contacts: map<string, Contact>) returns (cs: seq<WhoisContact>, ghost order: seq<string>)
    ensures RoleOrder(order, d)
    ensures cs == AllContacts(d, order, contacts)
  {
    cs, order := [], [];
    var todo := d.contacts.Keys;
    while todo != {}
      invariant todo <= d.contacts.Keys
      invariant forall i, j | 0 <= i < j < |order| :: order[i] != order[j]
      invariant forall role :: role in order <==> role in d.contacts && role !in todo
      invariant cs == AllContacts(d, order, contacts)
    {
      var role :| role in todo;
      var added := ContactsOfRole(role, d.contacts[role], contacts);
      assert role !in order;
      assert (order + [role])[..|order|] == order;
      cs := cs + added;
      order := order + [role];
      todo := todo - {role};
    }
  }

  method GatherHosts(nss: seq<NameServer>) returns (hosts: seq<WhoisNameserver>)
    ensures hosts == HostsOf(nss)
  {
    hosts := [];
    for i := 0 to |nss|
      invariant hosts == HostsOf(nss[..i])
    {
      hosts := hosts + [WhoisNameserver(nss[i].ldhName, nss[i].ipv4, nss[i].ipv6)];
    }
    assert nss[..|nss|] == nss;
  }

  method ContactsOfRole(role: string, handles: seq<string>, contacts: map<string, Contact>) returns (cs: seq<WhoisContact>)
    ensures cs == RoleContacts(role, handles, contacts)
  {
    cs := [];
    for i := 0 to |handles|
      invariant cs == RoleContacts(role, handles[..i], contacts)
    {
      assert handles[..i + 1][..i] == handles[..i];
      if handles[i] in contacts {
        cs := cs + [ContactToWhois(role, contacts[handles[i]])];
      }
    }
    assert handles[..|handles|] == handles;
  }

  method FirstRegistrant(cs: seq<WhoisContact>) returns (name: string)
    ensures name == RegistrantName(cs)
  {
    for i := 0 to |cs|
      invariant RegistrantName(cs) == RegistrantName(cs[i..])
    {
      assert cs[i..][1..] == cs[i + 1..];
      if NamesRegistrant(cs[i]) {
        return cs[i].name;
      }
    }
    return "";
  }

  // ---------- end to end ----------

  /** The name on the registrar line, redacted or not. */
  function RegistrarName(agg: Aggregate): string {
    if agg.registrar.Some? then ContactDisplayName(agg.registrar.value) else ""
  }

  /** Two resolved aggregates that differ, if at all, only in the cards of redacted contacts, the registrar's among them. */
  predicate SameButRedactedCards(a: Aggregate, b: Aggregate) {
    Resolved(a) && Resolved(b) && a.domain == b.domain && a.nameservers == b.nameservers && a.contacts.Keys == b.contacts.Keys
    && forall h | h in a.contacts ::
         b.contacts[h].(vcard := a.contacts[h].vcard) == a.contacts[h]
         && (!IsRedacted(a.contacts[h]) ==> a.contacts[h] == b.contacts[h])
  }

  lemma {:induction false} SameRoleContacts(role: string, handles: seq<string>, a: Aggregate, b: Aggregate)
    requires SameButRedactedCards(a, b)
    ensures AlikeUnlessRedacted(RoleContacts(role, handles, a.contacts), RoleContacts(role, handles, b.contacts))
  {
    if handles != [] {
      SameRoleContacts(role, handles[..|handles| - 1], a, b);
      var h := handles[|handles| - 1];
      if h in a.contacts {
        assert SameUnlessRedacted(ContactToWhois(role, a.contacts[h]), ContactToWhois(role, b.contacts[h]));
      }
    }
  }

  lemma {:induction false} SameAllContacts(order: seq<string>, a: Aggregate, b: Aggregate)
    requires SameButRedactedCards(a, b) && forall i | 0 <= i < |order| :: order[i] in a.domain.contacts
    ensures AlikeUnlessRedacted(AllContacts(a.domain, order, a.contacts), AllContacts(b.domain, order, b.contacts))
  {
    if order != [] {
      SameAllContacts(order[..|order| - 1], a, b);
      var role := order[|order| - 1];
      SameRoleContacts(role, a.domain.contacts[role], a, b);
    }
  }

  lemma SameRecords(a: Aggregate, b: Aggregate, order: seq<string>)
    requires SameButRedactedCards(a, b) && RoleOrder(order, a.domain)
    ensures SameButRedacted(ToWhois(a, order), ToWhois(b, order))
    ensures Render(ToWhois(a, order)) == Render(ToWhois(b, order)) <==> Names(ToWhois(a, order)) == Names(ToWhois(b, order))
  {
    SameAllContacts(order, a, b);
    RenderTellsNames(ToWhois(a, order), ToWhois(b, order));
  }

  /**
   The redacted cards of a domain show in its WHOIS text exactly through the registrar's name and the name of its
   first named registrant, provided the registrar's name is on one line.
   */
  lemma RedactionLeaksOnlyNames(a: Aggregate, b: Aggregate, order: seq<string>)
    requires SameButRedactedCards(a, b) && RoleOrder(order, a.domain)
    requires '\n' !in RegistrarName(a) && '\n' !in RegistrarName(b)
    ensures var cs, es := AllContacts(a.domain, order, a.contacts), AllContacts(b.domain, order, b.contacts);
            Render(ToWhois(a, order)) == Render(ToWhois(b, order))
            <==> RegistrarName(a) == RegistrarName(b) && RegistrantName(cs) == RegistrantName(es)
  {
    SameRecords(a, b, order);
    NamesTellBoth(ToWhois(a, order), ToWhois(b, order));
  }

  // ---------- which domains leak ----------

  /** Among the registrants, a redacted one comes before every open one that has a name. */
  predicate RedactedFirst(cs: seq<WhoisContact>) {
    cs != []
    && if Lower(cs[0].role) != "registrant" then RedactedFirst(cs[1..])
       else cs[0].redacted || (cs[0].name == "" && RedactedFirst(cs[1..]))
  }

  /** The registrar is redacted, or a redacted registrant may give its name to the Registrant line. */
  predicate ShowsRedactedName(agg: Aggregate, order: seq<string>)
    requires RoleOrder(order, agg.domain)
  {
    (agg.registrar.Some? && IsRedacted(agg.registrar.value)) || RedactedFirst(AllContacts(agg.domain, order, agg.contacts))
  }

  lemma {:induction false} SameRegistrantName(cs: seq<WhoisContact>, es: seq<WhoisContact>)
    requires AlikeUnlessRedacted(cs, es) && !RedactedFirst(cs)
    ensures RegistrantName(cs) == RegistrantName(es)
  {
    if cs != [] {
      assert SameUnlessRedacted(cs[0], es[0]);
      if !NamesRegistrant(cs[0]) {
        SameRegistrantName(cs[1..], es[1..]);
      }
    }
  }

  lemma {:induction false} RedactedRegistrantIsNamed(cs: seq<WhoisContact>, es: seq<WhoisContact>, name: string)
    requires AlikeUnlessRedacted(cs, es) && RedactedFirst(cs) && name != ""
    requires forall c | c in es :: c.redacted ==> c.name == name
    ensures RegistrantName(es) == name
  {
    assert SameUnlessRedacted(cs[0], es[0]);
    if !(Lower(cs[0].role) == "registrant" && cs[0].redacted) {
      RedactedRegistrantIsNamed(cs[1..], es[1..], name);
    }
  }

  /** The aggregate with every redacted contact renamed. */
  function Renamed(agg: Aggregate, name: string): Aggregate {
    var contacts := map h | h in agg.contacts ::
                      if IsRedacted(agg.contacts[h]) then agg.contacts[h].(vcard := Some(VCard("4.0", name, "", "", None, "", "", "", "")))
                      else agg.contacts[h];
    Aggregate(agg.domain, Get(contacts, agg.domain.registrar), contacts, agg.nameservers)
  }

  lemma {:induction false} RenamedInRole(role: string, handles: seq<string>, agg: Aggregate, name: string)
    requires name != ""
    ensures forall c | c in RoleContacts(role, handles, Renamed(agg, name).contacts) :: c.redacted ==> c.name == name
  {
    if handles != [] {
      RenamedInRole(role, handles[..|handles| - 1], agg, name);
    }
  }

  lemma {:induction false} RenamedInAll(order: seq<string>, agg: Aggregate, name: string)
    requires name != "" && forall i | 0 <= i < |order| :: order[i] in agg.domain.contacts
    ensures forall c | c in AllContacts(agg.domain, order, Renamed(agg, name).contacts) :: c.redacted ==> c.name == name
  {
    if order != [] {
      RenamedInAll(order[..|order| - 1], agg, name);
      var role := order[|order| - 1];
      RenamedInRole(role, agg.domain.contacts[role], agg, name);
    }
  }

  // A name longer than both lines cannot hide in them.
  lemma LongNameShows(agg: Aggregate, order: seq<string>, name: string)
    requires Resolved(agg) && RoleOrder(order, agg.domain) && ShowsRedactedName(agg, order)
    requires |name| > |Names(ToWhois(agg, order))|
    ensures SameButRedactedCards(agg, Renamed(agg, name))
    ensures Render(ToWhois(agg, order)) != Render(ToWhois(Renamed(agg, name), order))
  {
    var b := Renamed(agg, name);
    var cs, es := AllContacts(agg.domain, order, agg.contacts), AllContacts(b.domain, order, b.contacts);
    SameRecords(agg, b, order);
    SameAllContacts(order, agg, b);
    if RedactedFirst(cs) {
      RenamedInAll(order, agg, name);
      RedactedRegistrantIsNamed(cs, es, name);
    } else {
      assert RegistrarName(b) == name;
    }
    assert |Names(ToWhois(b, order))| > |name|;
  }

  /** Some other redacted cards would give another text exactly when a redacted contact can reach one of the two naming lines. */
  lemma LeaksIff(a: Aggregate, order: seq<string>)
    requires Resolved(a) && RoleOrder(order, a.domain)
    ensures (exists b :: SameButRedactedCards(a, b) && Render(ToWhois(a, order)) != Render(ToWhois(b, order))) <==> ShowsRedactedName(a, order)
  {
    if ShowsRedactedName(a, order) {
      LongNameShows(a, order, seq(|Names(ToWhois(a, order))| + 1, _ => 'x'));
    }
    forall b | SameButRedactedCards(a, b) && !ShowsRedactedName(a, order)
      ensures Render(ToWhois(a, order)) == Render(ToWhois(b, order))
    {
      OpenNamesAreSame(a, b, order);
    }
  }

  lemma OpenNamesAreSame(a: Aggregate, b: Aggregate, order: seq<string>)
    requires SameButRedactedCards(a, b) && RoleOrder(order, a.domain) && !ShowsRedactedName(a, order)
    ensures Render(ToWhois(a, order)) == Render(ToWhois(b, order))
  {
    SameRecords(a, b, order);
    SameAllContacts(order, a, b);
    SameRegistrantName(AllContacts(a.domain, order, a.contacts), AllContacts(b.domain, order, b.contacts));
    assert RegistrarName(a) == RegistrarName(b);
  }

  /** No contact in a registrant role is redacted, nor is the registrar. */
  predicate NamesAreOpen(agg: Aggregate) {
    (agg.registrar.Some? ==> !IsRedacted(agg.registrar.value))
    && forall role | role in agg.domain.contacts && Lower(role) == "registrant" ::
         forall i | 0 <= i < |agg.domain.contacts[role]| ::
           agg.domain.contacts[role][i] in agg.contacts ==> !IsRedacted(agg.contacts[agg.domain.contacts[role][i]])
  }

  /** When neither the registrar nor a registrant is redacted, redacted cards cannot be told from the text at all. */
  lemma NothingLeaksWithOpenNames(a: Aggregate, b: Aggregate, order: seq<string>)
    requires SameButRedactedCards(a, b) && RoleOrder(order, a.domain) && NamesAreOpen(a)
    ensures Render(ToWhois(a, order)) == Render(ToWhois(b, order))
  {
    RegistrantsOpen(order, a);
    OpenIsNotFirst(AllContacts(a.domain, order, a.contacts));
    OpenNamesAreSame(a, b, order);
  }

  lemma {:induction false} OpenIsNotFirst(cs: seq<WhoisContact>)
    requires forall c | c in cs :: Lower(c.role) == "registrant" ==> !c.redacted
    ensures !RedactedFirst(cs)
  {
    if cs != [] {
      OpenIsNotFirst(cs[1..]);
    }
  }

  lemma {:induction false} RegistrantsOpenInRole(role: string, handles: seq<string>, contacts: map<string, Contact>)
    requires forall i | 0 <= i < |handles| :: handles[i] in contacts ==> !IsRedacted(contacts[handles[i]])
    ensures forall c | c in RoleContacts(role, handles, contacts) :: !c.redacted
  {
    if handles != [] {
      RegistrantsOpenInRole(role, handles[..|handles| - 1], contacts);
    }
  }

  lemma {:induction false} RoleKept(role: string, handles: seq<string>, contacts: map<string, Contact>)
    ensures forall c | c in RoleContacts(role, handles, contacts) :: c.role == role
  {
    if handles != [] {
      RoleKept(role, handles[..|handles| - 1], contacts);
    }
  }

  lemma {:induction false} RegistrantsOpen(order: seq<string>, a: Aggregate)
    requires (forall i | 0 <= i < |order| :: order[i] in a.domain.contacts) && NamesAreOpen(a)
    ensures forall c | c in AllContacts(a.domain, order, a.contacts) :: Lower(c.role) == "registrant" ==> !c.redacted
  {
    if order != [] {
      RegistrantsOpen(order[..|order| - 1], a);
      var role := order[|order| - 1];
      RoleKept(role, a.domain.contacts[role], a.contacts);
      if Lower(role) == "registrant" {
        RegistrantsOpenInRole(role, a.domain.contacts[role], a.contacts);
      }
    }
  }

  // ---------- examples ----------

  function NamedContact(handle: string, name: string): Contact {
    Contact(handle, [], Some(VCard("4.0", name, "", "", None, "", "", "", "")), [], "private")
  }

  /** A domain with a private registrar and a private registrant; an empty name stands for no such contact. */
  function PrivateDomain(registrar: string, registrant: string): Aggregate {
    var roles: map<string, seq<string>> := if registrant == "" then map[] else map["registrant" := ["H"]];
    var d := Domain("D1", "a.example", "a.example", [], "", "", "", false, roles, [], if registrar == "" then "" else "R");
    var hs: map<string, Contact> := if registrant == "" then map[] else map["H" := NamedContact("H", registrant)];
    var contacts := if registrar == "" then hs else hs["R" := NamedContact("R", registrar)];
    Aggregate(d, Get(contacts, d.registrar), contacts, map[])
  }

  function PrivateOrder(registrant: string): seq<string> { if registrant == "" then [] else ["registrant"] }

  lemma PrivateNames(registrar: string, registrant: string)
    ensures var a, order := PrivateDomain(registrar, registrant), PrivateOrder(registrant);
            Resolved(a) && RoleOrder(order, a.domain) && RegistrarName(a) == registrar
            && RegistrantName(AllContacts(a.domain, order, a.contacts)) == registrant
  {
    var a, order := PrivateDomain(registrar, registrant), PrivateOrder(registrant);
    if registrant != "" {
      var handles := ["H"];
      assert order[..0] == [] && handles[..0] == [];
      assert RoleContacts("registrant", handles, a.contacts) == [ContactToWhois("registrant", a.contacts["H"])];
      assert AllContacts(a.domain, order, a.contacts) == [ContactToWhois("registrant", a.contacts["H"])];
      assert Lower("registrant") == "registrant";
    }
  }

  lemma PrivateLines(registrar: string, registrant: string)
    ensures RoleOrder(PrivateOrder(registrant), PrivateDomain(registrar, registrant).domain)
    ensures Names(ToWhois(PrivateDomain(registrar, registrant), PrivateOrder(registrant)))
            == Line("Registrar", registrar) + Line("Registrant Organization", registrant)
  {
    PrivateNames(registrar, registrant);
  }

  // Private domains with the same contacts differ only in redacted cards.
  lemma PrivatePair(r1: string, n1: string, r2: string, n2: string)
    requires (r1 == "" <==> r2 == "") && (n1 == "" <==> n2 == "")
    ensures SameButRedactedCards(PrivateDomain(r1, n1), PrivateDomain(r2, n2))
  {}

  /** Two texts differ although the aggregates differ only in redacted cards. */
  ghost predicate TextsDiffer(a: Aggregate, b: Aggregate, order: seq<string>) {
    SameButRedactedCards(a, b) && RoleOrder(order, a.domain) && Render(ToWhois(a, order)) != Render(ToWhois(b, order))
  }

  /** A redacted registrant's name does reach the text: two names give two texts. */
  lemma RedactedRegistrantNameLeaks(name1: string, name2: string)
    requires name1 != name2 && name1 != "" && name2 != ""
    ensures TextsDiffer(PrivateDomain("", name1), PrivateDomain("", name2), PrivateOrder(name1))
  {
    PrivatePair("", name1, "", name2);
    PrivateNames("", name1);
    PrivateNames("", name2);
    RedactionLeaksOnlyNames(PrivateDomain("", name1), PrivateDomain("", name2), PrivateOrder(name1));
  }

  /** So does a redacted registrar's name, with no registrant at all. */
  lemma RedactedRegistrarNameLeaks(name1: string, name2: string)
    requires name1 != name2 && name1 != "" && name2 != ""
    ensures TextsDiffer(PrivateDomain(name1, ""), PrivateDomain(name2, ""), PrivateOrder(""))
  {
    PrivatePair(name1, "", name2, "");
    PrivateLines(name1, "");
    PrivateLines(name2, "");
    SameRecords(PrivateDomain(name1, ""), PrivateDomain(name2, ""), PrivateOrder(""));
    LineTells("Registrar", name1, name2);
    NothingAfter(Line("Registrar", name1));
    NothingAfter(Line("Registrar", name2));
  }

  lemma NothingAfter(s: string)
    ensures s + Line("Registrant Organization", "") == s
  {}

  // Both sides are x, y and z on three lines.
  lemma Regroup(first: string, x: string, y: string, z: string, key: string, end: string)
    ensures (first + x + end) + (key + (y + (end + key) + z) + end) == (first + (x + (end + key) + y) + end) + (key + z + end)
  {
    var all := first + x + end + key + y + end + key + z + end;
    assert (first + x + end) + (key + (y + (end + key) + z) + end) == all;
    assert (first + (x + (end + key) + y) + end) + (key + z + end) == all;
  }

  lemma LineIs(key: string, value: string)
    requires value != ""
    ensures Line(key, value) == (key + ": ") + value + CRLF
  {}

  /** A line break in the registrar's name can hide a difference of both names. */
  lemma LineBreaksHideNames()
    ensures exists r1, n1, r2, n2 | r1 != r2 && n1 != n2 ::
              SameButRedactedCards(PrivateDomain(r1, n1), PrivateDomain(r2, n2))
              && RoleOrder(["registrant"], PrivateDomain(r1, n1).domain)
              && Render(ToWhois(PrivateDomain(r1, n1), ["registrant"])) == Render(ToWhois(PrivateDomain(r2, n2), ["registrant"]))
  {
    var key := "Registrant Organization" + ": ";
    var middle := CRLF + key;
    var r1, n1, r2, n2 := "x", "y" + middle + "z", "x" + middle + "y", "z";
    assert |r1| < |r2| && |n2| < |n1|;
    PrivatePair(r1, n1, r2, n2);
    PrivateLines(r1, n1);
    PrivateLines(r2, n2);
    LineIs("Registrar", r1);
    LineIs("Registrar", r2);
    LineIs("Registrant Organization", n1);
    LineIs("Registrant Organization", n2);
    Regroup("Registrar" + ": ", "x", "y", "z", key, CRLF);
    SameRecords(PrivateDomain(r1, n1), PrivateDomain(r2, n2), PrivateOrder(n1));
  }
}
