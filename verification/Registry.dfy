/** The registry's records, with the fields the modelled code reads, and the aggregate built from them. */
module Registry {
  import opened Wrappers
  import opened JCard

  datatype Contact = Contact(handle: string, roles: seq<string>, vcard: Option<VCard>, publicIDs: seq<string>, privacy: string)

  datatype NameServer = NameServer(handle: string, ldhName: string, unicodeName: string, ipv4: seq<string>, ipv6: seq<string>)

  datatype Domain = Domain(handle: string, ldhName: string, unicodeName: string, status: seq<string>,
                           createdAt: string, updatedAt: string, expiresAt: string, delegationSigned: bool,
                           contacts: map<string, seq<string>>, nameservers: seq<NameServer>, registrar: string)

  datatype Aggregate = Aggregate(domain: Domain, registrar: Option<Contact>,
                                 contacts: map<string, Contact>, nameservers: map<string, NameServer>)

  /** The contact and nameserver tables; a nameserver row is stored under its own handle. */
  datatype Tables = Tables(contacts: map<string, Contact>, nameservers: map<string, NameServer>) {
    predicate KeyedByHandle() { forall h | h in nameservers :: nameservers[h].handle == h }
  }

  /** Every handle some role of the domain lists. */
  function RoleHandles(d: Domain): set<string> {
    set role, i | role in d.contacts && 0 <= i < |d.contacts[role]| :: d.contacts[role][i]
  }

  /** The handles that some of the roles list. */
  function HandlesIn(d: Domain, roles: set<string>): set<string> {
    set role, i | role in d.contacts && role in roles && 0 <= i < |d.contacts[role]| :: d.contacts[role][i]
  }

  lemma HandlesInOneMore(d: Domain, done: set<string>, role: string)
    requires role in d.contacts
    ensures HandlesIn(d, done + {role}) == HandlesIn(d, done) + set i | 0 <= i < |d.contacts[role]| :: d.contacts[role][i]
  {}

  function NsHandles(d: Domain): set<string> {
    set i | 0 <= i < |d.nameservers| :: d.nameservers[i].handle
  }

  /** The rows of a table under the wanted keys. */
  function Select<T>(table: map<string, T>, wanted: set<string>): map<string, T> {
    map h | h in wanted && h in table :: table[h]
  }

  function Get<T>(table: map<string, T>, key: string): Option<T> {
    if key in table then Some(table[key]) else None
  }

  lemma SelectOneMore<T>(table: map<string, T>, wanted: set<string>, h: string)
    ensures Select(table, wanted + {h}) == if h in table then Select(table, wanted)[h := table[h]] else Select(table, wanted)
  {}

  /** The handles the SQL stores look up: every role's, and the registrar's unless it is empty. */
  function Wanted(d: Domain): set<string> {
    RoleHandles(d) + (if d.registrar != "" then {d.registrar} else {})
  }

  /** One domain resolved against one state of the tables, as the SQL stores resolve it. */
  function Resolve(d: Domain, t: Tables): Aggregate {
    var contacts := Select(t.contacts, Wanted(d));
    Aggregate(d, Get(contacts, d.registrar), contacts, Select(t.nameservers, NsHandles(d)))
  }

  /** The same as the memory store resolves it, which looks up an empty registrar handle too. */
  function ResolveInMemory(d: Domain, t: Tables): Aggregate {
    Aggregate(d, Get(t.contacts, d.registrar), Select(t.contacts, RoleHandles(d) + {d.registrar}),
              Select(t.nameservers, NsHandles(d)))
  }

  /** The domain has the contact's handle as its registrar or lists it under a role. */
  predicate Linked(d: Domain, h: string) {
    (h == d.registrar && h != "") || exists role, i | role in d.contacts && 0 <= i < |d.contacts[role]| :: d.contacts[role][i] == h
  }

  lemma WantedIsLinked(d: Domain, h: string)
    ensures h in Wanted(d) <==> Linked(d, h)
  {}

  /** The aggregate holds exactly the stored records that the domain refers to, each under its handle. */
  lemma ResolveIs(d: Domain, t: Tables)
    ensures var agg := Resolve(d, t);
            agg.domain == d
            && (forall h :: h in agg.contacts <==> h in t.contacts && Linked(d, h))
            && (forall h | h in agg.contacts :: agg.contacts[h] == t.contacts[h])
            && (forall h :: h in agg.nameservers <==> h in t.nameservers && exists i | 0 <= i < |d.nameservers| :: d.nameservers[i].handle == h)
            && (forall h | h in agg.nameservers :: agg.nameservers[h] == t.nameservers[h])
            && agg.registrar == if Linked(d, d.registrar) && d.registrar in t.contacts then Some(t.contacts[d.registrar]) else None
  {
    forall h {
      WantedIsLinked(d, h);
    }
  }

  /** So does the memory store's, which also takes a contact stored under an empty registrar handle. */
  lemma ResolveInMemoryIs(d: Domain, t: Tables)
    ensures var agg := ResolveInMemory(d, t);
            agg.domain == d
            && (forall h :: h in agg.contacts <==> h in t.contacts && (h == d.registrar || Linked(d, h)))
            && (forall h | h in agg.contacts :: agg.contacts[h] == t.contacts[h])
            && (forall h :: h in agg.nameservers <==> h in t.nameservers && exists i | 0 <= i < |d.nameservers| :: d.nameservers[i].handle == h)
            && (forall h | h in agg.nameservers :: agg.nameservers[h] == t.nameservers[h])
            && agg.registrar == if d.registrar in t.contacts then Some(t.contacts[d.registrar]) else None
  {}

  /** The registrar is the contact resolved under the domain's registrar handle, as in every store's aggregate. */
  predicate Resolved(agg: Aggregate) { agg.registrar == Get(agg.contacts, agg.domain.registrar) }

  lemma AggregatesAreResolved(d: Domain, t: Tables)
    ensures Resolved(Resolve(d, t)) && Resolved(ResolveInMemory(d, t))
  {}

  /** The stores build the same aggregate unless a contact stored under the empty handle is taken for the registrar. */
  lemma ResolutionsAgreeIff(d: Domain, t: Tables)
    ensures ResolveInMemory(d, t) == Resolve(d, t)
            <==> !(d.registrar == "" && "" in t.contacts && "" !in RoleHandles(d))
  {
    var m, s := ResolveInMemory(d, t), Resolve(d, t);
    if d.registrar != "" {
      assert RoleHandles(d) + {d.registrar} == Wanted(d);
    } else if "" in t.contacts && "" !in RoleHandles(d) {
      assert "" in m.contacts && "" !in s.contacts;
    } else {
      assert m.contacts == s.contacts;
    }
  }
}
