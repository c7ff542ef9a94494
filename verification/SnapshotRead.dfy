/**
 Reading a domain aggregate while writers commit. Every statement of the reader is one step, and
 between any two of them writers may commit any new state of the database.
 */
module SnapshotRead {
  import opened Wrappers
  import opened JCard
  import opened Registry
  import opened AggregateReads

  /** A committed state; the rows of the domains table are in scan order. */
  datatype Db = Db(domains: seq<DomainRow>, tables: Tables)

  /** The first row whose LDH or Unicode name is the one asked for. */
  function FindRow(rows: seq<DomainRow>, name: string): Option<DomainRow> {
    if rows == [] then None
    else if rows[0].ldhName == name || rows[0].unicodeName == name then Some(rows[0])
    else FindRow(rows[1..], name)
  }

  /** The aggregate of a name in one committed state. */
  function AggregateIn(db: Db, name: string): Option<Aggregate> {
    var row := FindRow(db.domains, name);
    if row.None? then None else Some(Resolve(ScanDomain(row.value), db.tables))
  }

  /**
   How statements see other transactions: one snapshot from the first read on, as REPEATABLE READ
   gives; a lock that holds writers off, as the memory store takes; or a new snapshot for each statement.
   */
  datatype Isolation = OneSnapshot | ReadLock | PerStatement

  datatype Phase = Idle
                 | Begun
                 | Contacts(d: Domain, todo: set<string>)
                 | Nameservers(d: Domain, next: nat)
                 | Done(result: Option<Aggregate>)

  /** A lookup may also fail for reasons of its own; the stores then leave the record out and go on. */
  datatype Reader = Reader(phase: Phase, contacts: map<string, Contact>, registrar: Option<Contact>, nameservers: map<string, NameServer>,
                           lostContacts: set<string>, lostNameservers: set<nat>)

  /** history lists the committed states; began and snapshot index it. */
  datatype State = State(history: seq<Db>, reader: Reader, began: nat, snapshot: nat)

  const FRESH := Reader(Idle, map[], None, map[], {}, {})

  predicate Init(s: State) {
    |s.history| > 0 && s.reader == FRESH && s.began == s.snapshot == 0
  }

  predicate Active(s: State) { s.reader.phase.Begun? || s.reader.phase.Contacts? || s.reader.phase.Nameservers? }

  /** The state a statement reads. */
  function View(s: State, iso: Isolation): Db
    requires |s.history| > 0 && s.snapshot < |s.history|
  {
    if iso == OneSnapshot then s.history[s.snapshot] else s.history[|s.history| - 1]
  }

  ghost predicate Commit(s: State, s': State, iso: Isolation) {
    (iso == ReadLock ==> !Active(s)) && exists db :: s' == s.(history := s.history + [db])
  }

  predicate Begin(s: State, s': State) {
    s.reader.phase.Idle? && |s.history| > 0
    && s' == s.(reader := s.reader.(phase := Begun), began := |s.history| - 1, snapshot := |s.history| - 1)
  }

  /** The domain row is the first read, and fixes the snapshot. */
  predicate ReadDomain(s: State, s': State, name: string) {
    s.reader.phase.Begun? && |s.history| > 0
    && var row := FindRow(s.history[|s.history| - 1].domains, name);
       s' == s.(snapshot := |s.history| - 1,
                reader := s.reader.(phase := if row.None? then Done(None)
                                             else Contacts(ScanDomain(row.value), Wanted(ScanDomain(row.value)))))
  }

  /** One contact lookup, of any handle still to do; failed when the statement returns an error of its own. */
  predicate ReadContact(s: State, s': State, iso: Isolation, h: string, failed: bool) {
    s.reader.phase.Contacts? && h in s.reader.phase.todo && s.snapshot < |s.history|
    && var r, d, table := s.reader, s.reader.phase.d, View(s, iso).tables.contacts;
       var rest := r.(phase := Contacts(d, s.reader.phase.todo - {h}));
       s' == s.(reader := if failed then rest.(lostContacts := r.lostContacts + {h})
                          else if h !in table then rest
                          else rest.(contacts := r.contacts[h := table[h]],
                                     registrar := if h == d.registrar then Some(table[h]) else r.registrar))
  }

  predicate ContactsDone(s: State, s': State) {
    s.reader.phase.Contacts? && s.reader.phase.todo == {}
    && s' == s.(reader := s.reader.(phase := Nameservers(s.reader.phase.d, 0)))
  }

  predicate ReadNameserver(s: State, s': State, iso: Isolation, failed: bool) {
    s.reader.phase.Nameservers? && s.snapshot < |s.history|
    && var r, d, i, table := s.reader, s.reader.phase.d, s.reader.phase.next, View(s, iso).tables.nameservers;
       i < |d.nameservers|
       && var rest, h := r.(phase := Nameservers(d, i + 1)), d.nameservers[i].handle;
          s' == s.(reader := if failed then rest.(lostNameservers := r.lostNameservers + {i})
                             else if h !in table then rest
                             else rest.(nameservers := r.nameservers[table[h].handle := table[h]]))
  }

  predicate Finish(s: State, s': State) {
    s.reader.phase.Nameservers? && s.reader.phase.next == |s.reader.phase.d.nameservers|
    && s' == s.(reader := s.reader.(phase := Done(Some(Aggregate(s.reader.phase.d, s.reader.registrar, s.reader.contacts, s.reader.nameservers)))))
  }

  ghost predicate Next(s: State, s': State, iso: Isolation, name: string) {
    Commit(s, s', iso) || Begin(s, s') || ReadDomain(s, s', name)
    || (exists h, failed :: ReadContact(s, s', iso, h, failed))
    || ContactsDone(s, s')
    || (exists failed :: ReadNameserver(s, s', iso, failed))
    || Finish(s, s')
  }

  ghost predicate Run(run: seq<State>, iso: Isolation, name: string) {
    |run| > 0 && Init(run[0]) && forall i | 0 <= i < |run| - 1 :: Next(run[i], run[i + 1], iso, name)
  }

  /** Every committed state stores nameservers under their own handles. */
  predicate Keyed(history: seq<Db>) { forall i | 0 <= i < |history| :: history[i].tables.KeyedByHandle() }

  // ---------- what the reader has so far ----------

  /** The nameservers of the first n entries, without the lost ones. */
  function NsSoFar(d: Domain, table: map<string, NameServer>, n: nat, lost: set<nat>): map<string, NameServer>
    requires n <= |d.nameservers|
  {
    Select(table, NsHandlesLess(d, n, lost))
  }

  function NsHandlesLess(d: Domain, n: nat, lost: set<nat>): set<string>
    requires n <= |d.nameservers|
  {
    set i | 0 <= i < n && i !in lost :: d.nameservers[i].handle
  }

  function ContactsSoFar(d: Domain, table: map<string, Contact>, todo: set<string>, lost: set<string>): map<string, Contact> {
    Select(table, Wanted(d) - todo - lost)
  }

  /** The aggregate of a name in one state, less the records whose lookups failed. */
  function AggregateLess(db: Db, name: string, lostContacts: set<string>, lostNameservers: set<nat>): Option<Aggregate> {
    var row := FindRow(db.domains, name);
    if row.None? then None else Some(ResolveLess(ScanDomain(row.value), db.tables, lostContacts, lostNameservers))
  }

  function ResolveLess(d: Domain, t: Tables, lostContacts: set<string>, lostNameservers: set<nat>): Aggregate {
    var contacts := ContactsSoFar(d, t.contacts, {}, lostContacts);
    Aggregate(d, Get(contacts, d.registrar), contacts, NsSoFar(d, t.nameservers, |d.nameservers|, lostNameservers))
  }

  lemma NothingLost(db: Db, name: string)
    ensures AggregateLess(db, name, {}, {}) == AggregateIn(db, name)
  {
    var row := FindRow(db.domains, name);
    if row.Some? {
      var d := ScanDomain(row.value);
      assert Wanted(d) - {} - {} == Wanted(d);
      assert NsHandles(d) == NsHandlesLess(d, |d.nameservers|, {});
    }
  }

  /** The reader's partial results are those of the state its snapshot names. */
  ghost predicate Inv(s: State, iso: Isolation, name: string) {
    |s.history| > 0 && s.began <= s.snapshot < |s.history|
    && (iso == ReadLock && Active(s) ==> s.snapshot == |s.history| - 1)
    && var r, db := s.reader, s.history[s.snapshot];
       match r.phase
       case Idle => r == FRESH
       case Begun => r == FRESH.(phase := Begun)
       case Contacts(d, todo) =>
         FindRow(db.domains, name).Some? && d == ScanDomain(FindRow(db.domains, name).value)
         && todo <= Wanted(d) && r.lostContacts !! todo && r.nameservers == map[] && r.lostNameservers == {}
         && r.contacts == ContactsSoFar(d, db.tables.contacts, todo, r.lostContacts) && r.registrar == Get(r.contacts, d.registrar)
       case Nameservers(d, next) =>
         FindRow(db.domains, name).Some? && d == ScanDomain(FindRow(db.domains, name).value)
         && next <= |d.nameservers| && (forall i | i in r.lostNameservers :: i < next)
         && r.contacts == ContactsSoFar(d, db.tables.contacts, {}, r.lostContacts) && r.registrar == Get(r.contacts, d.registrar)
         && r.nameservers == NsSoFar(d, db.tables.nameservers, next, r.lostNameservers)
       case Done(result) => result == AggregateLess(db, name, r.lostContacts, r.lostNameservers)
  }

  lemma ContactStep(s: State, s': State, iso: Isolation, name: string, h: string, failed: bool)
    requires iso != PerStatement && Inv(s, iso, name) && ReadContact(s, s', iso, h, failed)
    ensures Inv(s', iso, name)
  {
    var r, d := s.reader, s.reader.phase.d;
    var todo, table := r.phase.todo, s.history[s.snapshot].tables.contacts;
    assert View(s, iso) == s.history[s.snapshot];
    var rest := todo - {h};
    if failed {
      assert ContactsSoFar(d, table, rest, r.lostContacts + {h}) == r.contacts by {
        assert Wanted(d) - rest - (r.lostContacts + {h}) == Wanted(d) - todo - r.lostContacts;
      }
    } else {
      assert ContactsSoFar(d, table, rest, r.lostContacts) == (if h in table then r.contacts[h := table[h]] else r.contacts) by {
        assert Wanted(d) - rest - r.lostContacts == Wanted(d) - todo - r.lostContacts + {h};
        SelectOneMore(table, Wanted(d) - todo - r.lostContacts, h);
      }
    }
  }

  lemma NameserverStep(s: State, s': State, iso: Isolation, name: string, failed: bool)
    requires iso != PerStatement && Keyed(s.history) && Inv(s, iso, name) && ReadNameserver(s, s', iso, failed)
    ensures Inv(s', iso, name)
  {
    var r, d, i := s.reader, s.reader.phase.d, s.reader.phase.next;
    var table := s.history[s.snapshot].tables.nameservers;
    assert View(s, iso) == s.history[s.snapshot];
    NsOneMore(d, table, i, r.lostNameservers);
  }

  // The next entry adds its row, or nothing when there is none or its lookup failed.
  lemma NsOneMore(d: Domain, table: map<string, NameServer>, i: nat, lost: set<nat>)
    requires i < |d.nameservers| && forall j | j in lost :: j < i
    ensures NsSoFar(d, table, i + 1, lost + {i}) == NsSoFar(d, table, i, lost)
    ensures var h, before := d.nameservers[i].handle, NsSoFar(d, table, i, lost);
            NsSoFar(d, table, i + 1, lost) == if h in table then before[h := table[h]] else before
  {
    var before := NsHandlesLess(d, i, lost);
    assert before == NsHandlesLess(d, i + 1, lost + {i});
    assert before + {d.nameservers[i].handle} == NsHandlesLess(d, i + 1, lost);
    SelectOneMore(table, before, d.nameservers[i].handle);
  }

  lemma Step(s: State, s': State, iso: Isolation, name: string)
    requires iso != PerStatement && Keyed(s.history) && Inv(s, iso, name) && Next(s, s', iso, name)
    ensures Inv(s', iso, name)
  {
    if Commit(s, s', iso) {
      assert s'.history[s.snapshot] == s.history[s.snapshot];
    } else if Begin(s, s') {
    } else if ReadDomain(s, s', name) {
      var row := FindRow(s.history[|s.history| - 1].domains, name);
      if row.Some? {
        var d := ScanDomain(row.value);
        assert Wanted(d) - Wanted(d) - {} == {};
      }
    } else if h, failed :| ReadContact(s, s', iso, h, failed) {
      ContactStep(s, s', iso, name, h, failed);
    } else if ContactsDone(s, s') {
    } else if failed :| ReadNameserver(s, s', iso, failed) {
      NameserverStep(s, s', iso, name, failed);
    }
  }

  lemma {:induction false} InvThroughout(run: seq<State>, iso: Isolation, name: string, n: nat)
    requires iso != PerStatement && Run(run, iso, name) && n < |run| && Keyed(run[|run| - 1].history)
    ensures Inv(run[n], iso, name)
    ensures run[n].history <= run[|run| - 1].history
  {
    HistoryGrows(run, iso, name, n);
    if n > 0 {
      InvThroughout(run, iso, name, n - 1);
      assert Next(run[n - 1], run[n - 1 + 1], iso, name);
      assert Keyed(run[n - 1].history);
      Step(run[n - 1], run[n], iso, name);
    }
  }

  lemma {:induction false} HistoryGrows(run: seq<State>, iso: Isolation, name: string, n: nat)
    requires Run(run, iso, name) && n < |run|
    ensures run[n].history <= run[|run| - 1].history
    decreases |run| - n
  {
    if n + 1 < |run| {
      HistoryGrows(run, iso, name, n + 1);
      assert Next(run[n], run[n + 1], iso, name);
    }
  }

  /**
   For every interleaving, a finished read is the aggregate of one state that was current at some moment
   from the reader's beginning on, less only the records whose own lookups failed.
   */
  lemma ReadsOneCommittedState(run: seq<State>, iso: Isolation, name: string)
    requires iso != PerStatement && Run(run, iso, name) && Keyed(run[|run| - 1].history)
    requires run[|run| - 1].reader.phase.Done?
    ensures var s := run[|run| - 1];
            exists i | s.began <= i < |s.history| ::
              s.reader.phase.result == AggregateLess(s.history[i], name, s.reader.lostContacts, s.reader.lostNameservers)
              && (s.reader.lostContacts == {} && s.reader.lostNameservers == {} ==> s.reader.phase.result == AggregateIn(s.history[i], name))
  {
    var s := run[|run| - 1];
    InvThroughout(run, iso, name, |run| - 1);
    NothingLost(s.history[s.snapshot], name);
  }

  // ---------- the same, read off the rows ----------

  /** The lookup asks for the row whose LDH name or Unicode name is the one given. */
  predicate HasName(row: DomainRow, name: string) { name == row.ldhName || name == row.unicodeName }

  predicate FirstRow(rows: seq<DomainRow>, name: string, j: nat) {
    j < |rows| && HasName(rows[j], name) && forall k | 0 <= k < j :: !HasName(rows[k], name)
  }

  lemma {:induction false} FindRowIs(rows: seq<DomainRow>, name: string)
    ensures FindRow(rows, name).None? <==> forall j | 0 <= j < |rows| :: !HasName(rows[j], name)
    ensures FindRow(rows, name).Some? ==> exists j: nat :: FirstRow(rows, name, j) && rows[j] == FindRow(rows, name).value
  {
    if rows != [] {
      FindRowIs(rows[1..], name);
      if HasName(rows[0], name) {
        assert FirstRow(rows, name, 0);
      } else {
        assert forall j | 1 <= j < |rows| :: rows[1..][j - 1] == rows[j];
        if FindRow(rows[1..], name).Some? {
          var j: nat :| FirstRow(rows[1..], name, j) && rows[1..][j] == FindRow(rows[1..], name).value;
          assert FirstRow(rows, name, j + 1);
        }
      }
    }
  }

  /** The domain of the aggregate, column by column. */
  predicate ShowsColumns(d: Domain, row: DomainRow) {
    d.handle == row.handle && d.ldhName == row.ldhName && d.unicodeName == row.unicodeName && d.status == row.status
    && d.createdAt == row.createdAt && d.updatedAt == row.updatedAt && d.expiresAt == row.expiresAt
    && d.delegationSigned == row.delegationSigned && d.nameservers == row.nameservers
    && d.contacts.Keys == (if row.registrant.Some? then {"registrant"} else {}) + (if row.admin.Some? then {"administrative"} else {})
                          + (if row.tech.Some? then {"technical"} else {}) + (if row.billing.Some? then {"billing"} else {})
    && (row.registrant.Some? ==> d.contacts["registrant"] == [row.registrant.value])
    && (row.admin.Some? ==> d.contacts["administrative"] == [row.admin.value])
    && (row.tech.Some? ==> d.contacts["technical"] == [row.tech.value])
    && (row.billing.Some? ==> d.contacts["billing"] == [row.billing.value])
    && d.registrar == if row.registrant.Some? then row.registrant.value else ""
  }

  /** The records that the row's columns refer to, where they exist and their lookups did not fail. */
  ghost predicate ShowsRecords(agg: Aggregate, row: DomainRow, t: Tables, lostContacts: set<string>, lostNameservers: set<nat>) {
    (forall h :: h in agg.contacts <==> h in t.contacts && h !in lostContacts && Some(h) in [row.registrant, row.admin, row.tech, row.billing])
    && (forall h | h in agg.contacts :: agg.contacts[h] == t.contacts[h])
    && (agg.registrar.Some? <==> agg.domain.registrar in agg.contacts)
    && (agg.registrar.Some? ==> agg.registrar.value == t.contacts[agg.domain.registrar])
    && (forall h :: h in agg.nameservers <==>
          h in t.nameservers && exists i | 0 <= i < |row.nameservers| && i !in lostNameservers :: row.nameservers[i].handle == h)
    && (forall h | h in agg.nameservers :: agg.nameservers[h] == t.nameservers[h])
  }

  lemma ScanShowsColumns(row: DomainRow)
    ensures ShowsColumns(ScanDomain(row), row)
  {
    var d := ScanDomain(row);
    forall role
      ensures role in d.contacts <==> (role == "registrant" && row.registrant.Some?) || (role == "administrative" && row.admin.Some?)
                                      || (role == "technical" && row.tech.Some?) || (role == "billing" && row.billing.Some?)
    {
      assert role in d.contacts <==> Column(role, row.registrant, row.admin, row.tech, row.billing).Some?;
    }
  }

  lemma ResolveShowsRecords(row: DomainRow, t: Tables, lostContacts: set<string>, lostNameservers: set<nat>)
    ensures ShowsRecords(ResolveLess(ScanDomain(row), t, lostContacts, lostNameservers), row, t, lostContacts, lostNameservers)
  {
    var d := ScanDomain(row);
    forall h
      ensures h in Wanted(d) <==> Some(h) in [row.registrant, row.admin, row.tech, row.billing]
    {
      WantedHandles(row, h);
    }
  }

  /** What a finished read shows of one state: nothing when no row has the name, and otherwise the first row that has it. */
  ghost predicate ShowsState(r: Reader, db: Db, name: string)
    requires r.phase.Done?
  {
    (r.phase.result.None? <==> forall j | 0 <= j < |db.domains| :: !HasName(db.domains[j], name))
    && (r.phase.result.Some? ==>
          exists j: nat :: FirstRow(db.domains, name, j) && ShowsColumns(r.phase.result.value.domain, db.domains[j])
                           && ShowsRecords(r.phase.result.value, db.domains[j], db.tables, r.lostContacts, r.lostNameservers))
  }

  /** For every interleaving, a finished read shows one state that was current at some moment from its beginning on. */
  lemma ReadShowsOneState(run: seq<State>, iso: Isolation, name: string)
    requires iso != PerStatement && Run(run, iso, name) && Keyed(run[|run| - 1].history)
    requires run[|run| - 1].reader.phase.Done?
    ensures var s := run[|run| - 1];
            exists i | s.began <= i < |s.history| :: ShowsState(s.reader, s.history[i], name)
  {
    ReadsOneCommittedState(run, iso, name);
    var s := run[|run| - 1];
    var i :| s.began <= i < |s.history| && s.reader.phase.result == AggregateLess(s.history[i], name, s.reader.lostContacts, s.reader.lostNameservers);
    AggregateShowsState(s.reader, s.history[i], name);
  }

  lemma AggregateShowsState(r: Reader, db: Db, name: string)
    requires r.phase.Done? && r.phase.result == AggregateLess(db, name, r.lostContacts, r.lostNameservers)
    ensures ShowsState(r, db, name)
  {
    FindRowIs(db.domains, name);
    if r.phase.result.Some? {
      var j: nat :| FirstRow(db.domains, name, j) && db.domains[j] == FindRow(db.domains, name).value;
      ScanShowsColumns(db.domains[j]);
      ResolveShowsRecords(db.domains[j], db.tables, r.lostContacts, r.lostNameservers);
    }
  }

  // ---------- without one snapshot ----------

  function SampleRow(registrant: string): DomainRow {
    DomainRow("D1", "a.example", "a.example", [], "", "", "", false, Some(registrant), None, None, None, [])
  }

  function SampleContact(handle: string, cardName: string): Contact {
    Contact(handle, [], Some(VCard("4.0", cardName, "", "", None, "", "", "", "")), [], "")
  }

  /** Before and after a transfer that also updates the old registrant's card. */
  function SampleDb(transferred: bool): Db {
    if transferred
    then Db([SampleRow("B")], Tables(map["A" := SampleContact("A", "New"), "B" := SampleContact("B", "Other")], map[]))
    else Db([SampleRow("A")], Tables(map["A" := SampleContact("A", "Old")], map[]))
  }

  /** What the SQL schema can hold: contacts under their own handles, no privacy column, and columns that refer to contacts. */
  predicate FitsSchema(db: Db) {
    db.tables.KeyedByHandle()
    && (forall h | h in db.tables.contacts :: db.tables.contacts[h].handle == h && db.tables.contacts[h].privacy == "")
    && forall i | 0 <= i < |db.domains| ::
         var row := db.domains[i];
         Refers(row.registrant, db) && Refers(row.admin, db) && Refers(row.tech, db) && Refers(row.billing, db)
  }

  predicate Refers(column: Option<string>, db: Db) { column.Some? ==> column.value in db.tables.contacts }

  /** The read is over, lost nothing, and is the aggregate of no committed state. */
  predicate Torn(s: State, name: string) {
    (forall i | 0 <= i < |s.history| :: FitsSchema(s.history[i]))
    && s.reader.phase.Done? && s.reader.lostContacts == {} && s.reader.lostNameservers == {}
    && forall i | 0 <= i < |s.history| :: s.reader.phase.result != AggregateIn(s.history[i], name)
  }

  /** With a new snapshot for each statement a read of states the schema allows can mix two of them into neither. */
  lemma StatementsAloneMixStates()
    ensures exists run: seq<State> :: Run(run, PerStatement, "a.example") && Torn(run[|run| - 1], "a.example")
  {
    var run := seq(7, n requires 0 <= n < 7 => SampleState(n));
    forall i | 0 <= i < 6
      ensures Next(run[i], run[i + 1], PerStatement, "a.example")
    {
      SampleStep(i);
    }
    assert Run(run, PerStatement, "a.example");
    SampleIsTorn();
    assert run[|run| - 1] == SampleState(6);
  }

  /** The sample read: the old domain row, then a commit, then the contact as it is after the commit. */
  function SampleState(n: nat): State
    requires n < 7
  {
    var before, after := SampleDb(false), SampleDb(true);
    var d, mixed := ScanDomain(SampleRow("A")), SampleContact("A", "New");
    var read := Reader(Contacts(d, {}), map["A" := mixed], Some(mixed), map[], {}, {});
    match n
    case 0 => State([before], FRESH, 0, 0)
    case 1 => State([before], FRESH.(phase := Begun), 0, 0)
    case 2 => State([before], FRESH.(phase := Contacts(d, {"A"})), 0, 0)
    case 3 => State([before, after], FRESH.(phase := Contacts(d, {"A"})), 0, 0)
    case 4 => State([before, after], read, 0, 0)
    case 5 => State([before, after], read.(phase := Nameservers(d, 0)), 0, 0)
    case 6 => State([before, after], read.(phase := Done(Some(Aggregate(d, Some(mixed), map["A" := mixed], map[])))), 0, 0)
  }

  lemma SampleWanted()
    ensures Wanted(ScanDomain(SampleRow("A"))) == {"A"}
  {
    assert ScanDomain(SampleRow("A")).contacts["registrant"] == ["A"];
  }

  lemma FirstSampleSteps()
    ensures Begin(SampleState(0), SampleState(1))
    ensures ReadDomain(SampleState(1), SampleState(2), "a.example")
    ensures Commit(SampleState(2), SampleState(3), PerStatement)
  {
    SampleWanted();
    assert [SampleDb(false)] + [SampleDb(true)] == [SampleDb(false), SampleDb(true)];
    assert SampleState(3) == SampleState(2).(history := SampleState(2).history + [SampleDb(true)]);
  }

  lemma LastSampleSteps()
    ensures ReadContact(SampleState(3), SampleState(4), PerStatement, "A", false)
    ensures ContactsDone(SampleState(4), SampleState(5))
    ensures Finish(SampleState(5), SampleState(6))
  {
    var none: map<string, Contact> := map[];
    assert View(SampleState(3), PerStatement) == SampleDb(true);
    assert none["A" := SampleContact("A", "New")] == map["A" := SampleContact("A", "New")];
    assert {"A"} - {"A"} == {};
  }

  lemma SampleStep(i: nat)
    requires i < 6
    ensures Next(SampleState(i), SampleState(i + 1), PerStatement, "a.example")
  {
    if i < 3 {
      FirstSampleSteps();
    } else {
      LastSampleSteps();
    }
  }

  lemma SampleFits(transferred: bool)
    ensures FitsSchema(SampleDb(transferred))
  {}

  // The mixed read has the old row, and the new card of the old registrant.
  lemma SampleDiffers(transferred: bool, read: Aggregate)
    requires read.domain.registrar == "A" && read.registrar == Some(SampleContact("A", "New"))
    ensures AggregateIn(SampleDb(transferred), "a.example") != Some(read)
  {
    SampleWanted();
    var agg := AggregateIn(SampleDb(transferred), "a.example").value;
    assert if transferred then agg.domain.registrar == "B" else agg.registrar == Some(SampleContact("A", "Old"));
  }

  lemma SampleIsTorn()
    ensures Torn(SampleState(6), "a.example")
  {
    var s := SampleState(6);
    assert s.history == [SampleDb(false), SampleDb(true)];
    var read := s.reader.phase.result.value;
    assert read.registrar == Some(SampleContact("A", "New"));
    forall i | 0 <= i < 2
      ensures FitsSchema(s.history[i]) && AggregateIn(s.history[i], "a.example") != Some(read)
    {
      SampleFits(i == 1);
      SampleDiffers(i == 1, read);
    }
  }
}
