/** The WHOIS text of an aggregate, read back: which record stands where. */
module WhoisText {
  import opened Wrappers
  import opened Text
  import opened JCard
  import opened Registry
  import opened WhoisRender
  import opened WhoisReader

  /** What the contact block shows of a contact: its card, with the handle for a missing name, unless it is redacted. */
  predicate ShowsCard(seen: SeenContact, role: Role, c: Contact) {
    if c.privacy != "" && c.privacy != "public" then seen == SeenContact(role, "Redacted", "", [], "", "")
    else match c.vcard
      case None => seen == SeenContact(role, c.handle, "", [], "", "")
      case Some(v) =>
        seen.role == role && seen.name == (if v.fullName != "" then v.fullName else c.handle) && seen.org == v.organization
        && seen.email == (if v.email != "" then v.email else v.contactURI) && seen.phone == v.voiceTel
        && match v.address
           case None => seen.address == []
           case Some(a) =>
             var text := JoinWith(NonEmpty([a.street, a.locality, a.region, a.postalCode, a.countryName]), ", ");
             seen.address == if text == "" then [] else SeeAddress(Split(text, '\n'))
  }

  lemma CardIsSeen(role: string, c: Contact)
    ensures if RoleNamed(role).None? then See(ContactToWhois(role, c)) == []
            else |See(ContactToWhois(role, c))| == 1 && ShowsCard(See(ContactToWhois(role, c))[0], RoleNamed(role).value, c)
  {}

  lemma SeeOneMore(cs: seq<WhoisContact>, c: WhoisContact)
    ensures SeeAll(cs + [c]) == SeeAll(cs) + See(c)
  {
    assert (cs + [c])[..|cs|] == cs;
  }

  lemma AssociateSeen(a: seq<SeenContact>, b: seq<SeenContact>, c: seq<SeenContact>)
    ensures a + (b + c) == a + b + c
  {}

  lemma AssociateContacts(a: seq<WhoisContact>, b: seq<WhoisContact>, c: seq<WhoisContact>)
    ensures a + (b + c) == a + b + c
  {}

  lemma SeeAllExtends(a: seq<WhoisContact>, front: seq<WhoisContact>, last: WhoisContact)
    requires SeeAll(a + front) == SeeAll(a) + SeeAll(front)
    ensures SeeAll(a + (front + [last])) == SeeAll(a) + SeeAll(front + [last])
  {
    AssociateContacts(a, front, [last]);
    SeeOneMore(a + front, last);
    SeeOneMore(front, last);
    AssociateSeen(SeeAll(a), SeeAll(front), See(last));
  }

  lemma {:induction false} SeeAllConcat(a: seq<WhoisContact>, b: seq<WhoisContact>)
    ensures SeeAll(a + b) == SeeAll(a) + SeeAll(b)
  {
    if b == [] {
      assert a + b == a;
    } else {
      var front, last := b[..|b| - 1], b[|b| - 1];
      assert b == front + [last];
      SeeAllConcat(a, front);
      SeeAllExtends(a, front, last);
    }
  }

  lemma SeeOne(c: WhoisContact)
    ensures SeeAll([c]) == See(c) && SeeAll([]) == []
  {
    assert [c][..0] == [];
  }

  /** How a seen contact, a role and a handle may belong together, and for which roles and handles one must be seen. */
  type Shows = (SeenContact, string, string) -> bool
  type Must = (string, string) -> bool

  /** Every contact seen belongs to a role and a handle it lists, and every one that must be seen is. */
  ghost predicate Sees(seen: seq<SeenContact>, roles: seq<string>, listed: map<string, seq<string>>, shows: Shows, must: Must)
    requires forall role | role in roles :: role in listed
  {
    (forall c | c in seen :: exists role, h | role in roles && h in listed[role] :: shows(c, role, h))
    && forall role, h | role in roles && h in listed[role] && must(role, h) :: exists c | c in seen :: shows(c, role, h)
  }

  ghost predicate SeesRole(seen: seq<SeenContact>, role: string, handles: seq<string>, shows: Shows, must: Must) {
    (forall c | c in seen :: exists h | h in handles :: shows(c, role, h))
    && forall h | h in handles && must(role, h) :: exists c | c in seen :: shows(c, role, h)
  }

  lemma OneMoreHandle(before: seq<SeenContact>, added: seq<SeenContact>, role: string, front: seq<string>, last: string, shows: Shows, must: Must)
    requires SeesRole(before, role, front, shows, must)
    requires (forall c | c in added :: shows(c, role, last)) && (must(role, last) ==> added != [])
    ensures SeesRole(before + added, role, front + [last], shows, must)
  {
    forall c | c in before + added
      ensures exists h | h in front + [last] :: shows(c, role, h)
    {
      if c in before {
        var h :| h in front && shows(c, role, h);
        assert h in front + [last];
      } else {
        assert last in front + [last];
      }
    }
    forall h | h in front + [last] && must(role, h)
      ensures exists c | c in before + added :: shows(c, role, h)
    {
      if h in front {
        var c :| c in before && shows(c, role, h);
        assert c in before + added;
      } else {
        assert added[0] in before + added;
      }
    }
  }

  lemma OneMoreRole(before: seq<SeenContact>, added: seq<SeenContact>, front: seq<string>, last: string,
                    listed: map<string, seq<string>>, shows: Shows, must: Must)
    requires (forall role | role in front :: role in listed) && last in listed
    requires Sees(before, front, listed, shows, must) && SeesRole(added, last, listed[last], shows, must)
    ensures Sees(before + added, front + [last], listed, shows, must)
  {
    forall c | c in before + added
      ensures exists role, h | role in front + [last] && h in listed[role] :: shows(c, role, h)
    {
      if c in before {
        var role, h :| role in front && h in listed[role] && shows(c, role, h);
        assert role in front + [last];
      } else {
        var h :| h in listed[last] && shows(c, last, h);
        assert last in front + [last];
      }
    }
    forall role, h | role in front + [last] && h in listed[role] && must(role, h)
      ensures exists c | c in before + added :: shows(c, role, h)
    {
      if role in front {
        var c :| c in before && shows(c, role, h);
        assert c in before + added;
      } else {
        var c :| c in added && shows(c, role, h);
        assert c in before + added;
      }
    }
  }

  function ShowsCardOf(contacts: map<string, Contact>): Shows {
    (seen: SeenContact, role: string, h: string) =>
      RoleNamed(role).Some? && h in contacts && ShowsCard(seen, RoleNamed(role).value, contacts[h])
  }

  /** The contacts under a known role that were resolved. */
  function MustBeSeen(contacts: map<string, Contact>): Must { (role: string, h: string) => RoleNamed(role).Some? && h in contacts }

  lemma HandleIsSeen(role: string, h: string, contacts: map<string, Contact>)
    ensures var added := SeeAll(Added(role, h, contacts));
            (forall c | c in added :: ShowsCardOf(contacts)(c, role, h)) && (MustBeSeen(contacts)(role, h) ==> added != [])
  {
    if h in contacts {
      CardIsSeen(role, contacts[h]);
      SeeOne(ContactToWhois(role, contacts[h]));
    }
  }

  /** The record's contact under one handle, if it was resolved. */
  function Added(role: string, h: string, contacts: map<string, Contact>): seq<WhoisContact> {
    if h in contacts then [ContactToWhois(role, contacts[h])] else []
  }

  lemma RoleContactsOneMore(role: string, front: seq<string>, h: string, contacts: map<string, Contact>)
    ensures RoleContacts(role, front + [h], contacts) == RoleContacts(role, front, contacts) + Added(role, h, contacts)
  {
    assert (front + [h])[..|front|] == front;
  }

  lemma OneMoreHandleSeen(role: string, front: seq<string>, h: string, contacts: map<string, Contact>)
    requires SeesRole(SeeAll(RoleContacts(role, front, contacts)), role, front, ShowsCardOf(contacts), MustBeSeen(contacts))
    ensures SeesRole(SeeAll(RoleContacts(role, front + [h], contacts)), role, front + [h], ShowsCardOf(contacts), MustBeSeen(contacts))
  {
    var before, added := RoleContacts(role, front, contacts), Added(role, h, contacts);
    RoleContactsOneMore(role, front, h, contacts);
    SeeAllConcat(before, added);
    HandleIsSeen(role, h, contacts);
    OneMoreHandle(SeeAll(before), SeeAll(added), role, front, h, ShowsCardOf(contacts), MustBeSeen(contacts));
  }

  lemma {:induction false} RoleIsSeen(role: string, handles: seq<string>, contacts: map<string, Contact>)
    ensures SeesRole(SeeAll(RoleContacts(role, handles, contacts)), role, handles, ShowsCardOf(contacts), MustBeSeen(contacts))
  {
    if handles != [] {
      var front, h := handles[..|handles| - 1], handles[|handles| - 1];
      assert handles == front + [h];
      RoleIsSeen(role, front, contacts);
      OneMoreHandleSeen(role, front, h, contacts);
    }
  }

  /** Every contact seen is one that some role lists, and every one listed under a known role is seen. */
  ghost predicate SeesContacts(seen: seq<SeenContact>, roles: seq<string>, d: Domain, contacts: map<string, Contact>)
    requires forall role | role in roles :: role in d.contacts
  {
    Sees(seen, roles, d.contacts, ShowsCardOf(contacts), MustBeSeen(contacts))
  }

  lemma {:induction false} RolesAreSeen(roles: seq<string>, d: Domain, contacts: map<string, Contact>)
    requires (forall i | 0 <= i < |roles| :: roles[i] in d.contacts) && (forall role | role in roles :: role in d.contacts)
    ensures SeesContacts(SeeAll(AllContacts(d, roles, contacts)), roles, d, contacts)
  {
    if roles != [] {
      var front, last := roles[..|roles| - 1], roles[|roles| - 1];
      var before, added := AllContacts(d, front, contacts), RoleContacts(last, d.contacts[last], contacts);
      RolesAreSeen(front, d, contacts);
      RoleIsSeen(last, d.contacts[last], contacts);
      SeeAllConcat(before, added);
      OneMoreRole(SeeAll(before), SeeAll(added), front, last, d.contacts, ShowsCardOf(contacts), MustBeSeen(contacts));
      assert roles == front + [last];
    }
  }

  /** The Registrant field is the name of the first contact in a registrant role that has one. */
  lemma {:induction false} RegistrantNameIs(cs: seq<WhoisContact>)
    ensures RegistrantName(cs) == "" <==> forall i | 0 <= i < |cs| :: SameLetters(cs[i].role, "registrant") ==> cs[i].name == ""
    ensures RegistrantName(cs) != "" ==>
              exists i | 0 <= i < |cs| ::
                SameLetters(cs[i].role, "registrant") && cs[i].name == RegistrantName(cs)
                && forall j | 0 <= j < i :: SameLetters(cs[j].role, "registrant") ==> cs[j].name == ""
  {
    if cs != [] {
      LowerIs(cs[0].role, "registrant");
      RegistrantNameIs(cs[1..]);
      if !NamesRegistrant(cs[0]) && RegistrantName(cs) != "" {
        var i :| 0 <= i < |cs[1..]| && SameLetters(cs[1..][i].role, "registrant") && cs[1..][i].name == RegistrantName(cs)
                 && forall j | 0 <= j < i :: SameLetters(cs[1..][j].role, "registrant") ==> cs[1..][j].name == "";
        forall j | 0 <= j < i + 1
          ensures SameLetters(cs[j].role, "registrant") ==> cs[j].name == ""
        {
          if j > 0 {
            assert cs[j] == cs[1..][j - 1];
          }
        }
        assert cs[i + 1] == cs[1..][i];
      }
      assert forall j | 1 <= j < |cs| :: cs[j] == cs[1..][j - 1];
    }
  }

  /** Joined parts stand in their order, with the separator between them. */
  lemma {:induction false} JoinedInOrder(a: seq<string>, b: seq<string>, sep: string)
    ensures a != [] && b != [] ==> JoinWith(a + b, sep) == JoinWith(a, sep) + sep + JoinWith(b, sep)
    ensures |a| == 1 ==> JoinWith(a, sep) == a[0]
    ensures a == [] ==> JoinWith(a, sep) == ""
  {
    if a != [] && b != [] {
      if |a| == 1 {
        assert (a + b)[1..] == b;
      } else {
        JoinedInOrder(a[1..], b, sep);
        assert (a + b)[1..] == a[1..] + b;
        Regroup5(a[0], sep, JoinWith(a[1..], sep), JoinWith(b, sep));
      }
    }
  }

  lemma Regroup5(x: string, sep: string, y: string, z: string)
    ensures x + sep + (y + sep + z) == x + sep + y + sep + z
  {}

  /** Empty parts are left out and the others keep their order. */
  lemma {:induction false} NonEmptyKeepsOrder(a: seq<string>, b: seq<string>)
    ensures NonEmpty(a + b) == NonEmpty(a) + NonEmpty(b)
    ensures |a| == 1 ==> NonEmpty(a) == if a[0] == "" then [] else a
  {
    if a == [] {
      assert a + b == b;
    } else {
      assert (a + b)[1..] == a[1..] + b;
      NonEmptyKeepsOrder(a[1..], b);
    }
  }

  /** The text gives the domain's own fields and its nameservers, each in its place. */
  predicate ShowsDomain(n: Notice, d: Domain) {
    n.ldhName == d.ldhName && n.unicodeName == (if d.unicodeName == d.ldhName then "" else d.unicodeName)
    && n.createdAt == d.createdAt && n.updatedAt == d.updatedAt && n.expiresAt == d.expiresAt
    && n.dnssec == (if d.delegationSigned then "signedDelegation" else "unsignedDelegation")
    && n.status == JoinWith(NonEmpty(d.status), " ")
    && |n.hosts| == |d.nameservers|
    && forall i | 0 <= i < |n.hosts| :: n.hosts[i] == SeenHost(d.nameservers[i].ldhName, d.nameservers[i].ipv4)
  }

  /** The registrar by name, or else organization, or else handle, and by its first public identifier. */
  predicate ShowsRegistrar(n: Notice, registrar: Option<Contact>) {
    match registrar
    case None => n.registrar == n.registrarID == ""
    case Some(c) =>
      n.registrar == (if c.vcard.Some? && c.vcard.value.fullName != "" then c.vcard.value.fullName
                      else if c.vcard.Some? && c.vcard.value.organization != "" then c.vcard.value.organization
                      else c.handle)
      && n.registrarID == if c.publicIDs != [] then c.publicIDs[0] else ""
  }

  lemma VisibleShowsAggregate(agg: Aggregate, order: seq<string>)
    requires forall i | 0 <= i < |order| :: order[i] in agg.domain.contacts
    ensures var n := Visible(ToWhois(agg, order));
            ShowsDomain(n, agg.domain) && ShowsRegistrar(n, agg.registrar)
            && n.contacts == SeeAll(AllContacts(agg.domain, order, agg.contacts))
            && n.registrant == RegistrantName(AllContacts(agg.domain, order, agg.contacts))
  {}

  /** From an aggregate to the text and back: everything shown is read in its own place. */
  lemma TextShowsAggregate(agg: Aggregate, order: seq<string>)
    requires RoleOrder(order, agg.domain) && OneLineRecord(ToWhois(agg, order))
    ensures var n := ReadNotice(Render(ToWhois(agg, order)));
            ShowsDomain(n, agg.domain) && ShowsRegistrar(n, agg.registrar)
            && SeesContacts(n.contacts, order, agg.domain, agg.contacts)
            && n.registrant == RegistrantName(AllContacts(agg.domain, order, agg.contacts))
  {
    RenderReadsBack(ToWhois(agg, order));
    VisibleShowsAggregate(agg, order);
    RolesAreSeen(order, agg.domain, agg.contacts);
  }
}
