/** The two ways the stores gather a domain's related records, each proved against its specification. */
module AggregateReads {
  import opened Wrappers
  import opened Registry

  /** A row of the domains table. */
  datatype DomainRow = DomainRow(handle: string, ldhName: string, unicodeName: string, status: seq<string>,
                                 createdAt: string, updatedAt: string, expiresAt: string, delegationSigned: bool,
                                 registrant: Option<string>, admin: Option<string>, tech: Option<string>, billing: Option<string>,
                                 nameservers: seq<NameServer>)

  /** The contact columns become single-handle roles, and the registrant doubles as the registrar. */
  method PopulateDomainContacts(registrant: Option<string>, admin: Option<string>, tech: Option<string>, billing: Option<string>)
    returns (contacts: map<string, seq<string>>, registrar: string)
    ensures contacts == RoleMap(registrant, admin, tech, billing)
    ensures registrar == if registrant.Some? then registrant.value else ""
  {
    contacts, registrar := map[], "";
    if registrant.Some? {
      contacts := contacts["registrant" := [registrant.value]];
      registrar := registrant.value;
    }
    if admin.Some? {
      contacts := contacts["administrative" := [admin.value]];
    }
    if tech.Some? {
      contacts := contacts["technical" := [tech.value]];
    }
    if billing.Some? {
      contacts := contacts["billing" := [billing.value]];
    }
  }

  function Column(role: string, registrant: Option<string>, admin: Option<string>, tech: Option<string>, billing: Option<string>): Option<string>
  {
    match role
    case "registrant" => registrant
    case "administrative" => admin
    case "technical" => tech
    case "billing" => billing
    case _ => None
  }

  function WithRole(contacts: map<string, seq<string>>, role: string, handle: Option<string>): map<string, seq<string>> {
    if handle.Some? then contacts[role := [handle.value]] else contacts
  }

  /** A role is present exactly when its column is not null, and lists that one handle. */
  function RoleMap(registrant: Option<string>, admin: Option<string>, tech: Option<string>, billing: Option<string>)
    : (contacts: map<string, seq<string>>)
    ensures forall role :: role in contacts <==> Column(role, registrant, admin, tech, billing).Some?
    ensures forall role | role in contacts :: contacts[role] == [Column(role, registrant, admin, tech, billing).value]
  {
    WithRole(WithRole(WithRole(WithRole(map[], "registrant", registrant), "administrative", admin), "technical", tech), "billing", billing)
  }

  function ScanDomain(row: DomainRow): Domain {
    Domain(row.handle, row.ldhName, row.unicodeName, row.status, row.createdAt, row.updatedAt, row.expiresAt, row.delegationSigned,
           RoleMap(row.registrant, row.admin, row.tech, row.billing), row.nameservers,
           if row.registrant.Some? then row.registrant.value else "")
  }

  lemma WantedHandles(row: DomainRow, h: string)
    ensures h in RoleHandles(ScanDomain(row)) <==> Some(h) in [row.registrant, row.admin, row.tech, row.billing]
  {
    var d := ScanDomain(row);
    if h in RoleHandles(d) {
      var role, i :| role in d.contacts && 0 <= i < |d.contacts[role]| && d.contacts[role][i] == h;
      assert Column(role, row.registrant, row.admin, row.tech, row.billing) == Some(h);
    }
    forall role | Column(role, row.registrant, row.admin, row.tech, row.billing) == Some(h)
      ensures h in RoleHandles(d)
    {
      assert role in d.contacts && d.contacts[role][0] == h;
    }
    assert Column("registrant", row.registrant, row.admin, row.tech, row.billing) == row.registrant;
    assert Column("administrative", row.registrant, row.admin, row.tech, row.billing) == row.admin;
    assert Column("technical", row.registrant, row.admin, row.tech, row.billing) == row.tech;
    assert Column("billing", row.registrant, row.admin, row.tech, row.billing) == row.billing;
  }

  method GatherHandles(d: Domain) returns (handles: set<string>)
    ensures handles == Wanted(d)
  {
    handles := {};
    if d.registrar != "" {
      handles := handles + {d.registrar};
    }
    var roles := d.contacts.Keys;
    while roles != {}
      invariant roles <= d.contacts.Keys
      invariant handles == (if d.registrar != "" then {d.registrar} else {}) + HandlesIn(d, d.contacts.Keys - roles)
    {
      var role :| role in roles;
      var hs := d.contacts[role];
      ghost var before := handles;
      for k := 0 to |hs|
        invariant handles == before + set i | 0 <= i < k :: hs[i]
      {
        handles := handles + {hs[k]};
      }
      HandlesInOneMore(d, d.contacts.Keys - roles, role);
      assert d.contacts.Keys - (roles - {role}) == d.contacts.Keys - roles + {role};
      roles := roles - {role};
    }
    assert d.contacts.Keys - {} == d.contacts.Keys;
  }

  method ResolveContacts(table: map<string, Contact>, handles: set<string>, registrarHandle: string)
    returns (contacts: map<string, Contact>, registrar: Option<Contact>)
    ensures contacts == Select(table, handles)
    ensures registrar == Get(contacts, registrarHandle)
  {
    contacts, registrar := map[], None;
    var todo := handles;
    while todo != {}
      invariant todo <= handles
      invariant contacts == Select(table, handles - todo)
      invariant registrar == Get(contacts, registrarHandle)
    {
      var h :| h in todo;
      if h in table {
        contacts := contacts[h := table[h]];
        if h == registrarHandle {
          registrar := Some(table[h]);
        }
      }
      assert handles - (todo - {h}) == handles - todo + {h};
      todo := todo - {h};
    }
    assert handles - {} == handles;
  }

  method ResolveNameservers(d: Domain, t: Tables) returns (nameservers: map<string, NameServer>)
    requires t.KeyedByHandle()
    ensures nameservers == Select(t.nameservers, NsHandles(d))
  {
    nameservers := map[];
    for i := 0 to |d.nameservers|
      invariant nameservers == Select(t.nameservers, set j | 0 <= j < i :: d.nameservers[j].handle)
    {
      var h := d.nameservers[i].handle;
      if h in t.nameservers {
        var n := t.nameservers[h];
        nameservers := nameservers[n.handle := n];
      }
    }
  }

  /** The SQL stores' read: gather the handles, look each up, then the nameservers, in whatever order maps iterate. */
  method GatherAndResolve(d: Domain, t: Tables) returns (agg: Aggregate)
    requires t.KeyedByHandle()
    ensures agg == Resolve(d, t)
  {
    var handles := GatherHandles(d);
    var contacts, registrar := ResolveContacts(t.contacts, handles, d.registrar);
    var nameservers := ResolveNameservers(d, t);
    agg := Aggregate(d, registrar, contacts, nameservers);
  }
}
