/**
 A reader of WHOIS text: it takes the lines apart by their labels and gives back the record that the
 renderer was given, as far as the text shows it.
 */
module WhoisReader {
  import opened Wrappers
  import opened Text
  import opened WhoisRender

  datatype Role = Registrant | Administrative | Technical | Billing | Abuse

  datatype SeenContact = SeenContact(role: Role, name: string, org: string, address: seq<string>, email: string, phone: string)

  datatype SeenHost = SeenHost(name: string, ipv4: seq<string>)

  /** What the text of one domain says. */
  datatype Notice = Notice(ldhName: string, unicodeName: string, registrar: string, registrarID: string, registrant: string,
                           contacts: seq<SeenContact>, hosts: seq<SeenHost>,
                           dnssec: string, createdAt: string, updatedAt: string, expiresAt: string, status: string)

  // ---------- lines ----------

  predicate OneLine(s: string) { '\n' !in s }

  predicate OneLineEach(lines: seq<string>) { forall i | 0 <= i < |lines| :: OneLine(lines[i]) }

  function Unlines(lines: seq<string>): string { if lines == [] then "" else lines[0] + CRLF + Unlines(lines[1..]) }

  function DropLast(s: string): string { if s == "" then "" else s[..|s| - 1] }

  /** The lines that a line feed ends, without the carriage return before it. */
  function TextLines(text: string): seq<string> {
    var pieces := Split(text, '\n');
    seq(|pieces| - 1, i requires 0 <= i < |pieces| - 1 => DropLast(pieces[i]))
  }

  function Returned(lines: seq<string>): seq<string> { seq(|lines|, i requires 0 <= i < |lines| => lines[i] + "\r") }

  lemma {:induction false} SplitOfUnlines(lines: seq<string>)
    requires OneLineEach(lines)
    ensures Split(Unlines(lines), '\n') == Returned(lines) + [""]
  {
    if lines != [] {
      var rest := Unlines(lines[1..]);
      assert lines[0] + CRLF + rest == (lines[0] + "\r") + ['\n'] + rest;
      SplitAfter(lines[0] + "\r", rest, '\n');
      SplitOfUnlines(lines[1..]);
      assert Returned(lines) == [lines[0] + "\r"] + Returned(lines[1..]);
    }
  }

  lemma TextLinesOfUnlines(lines: seq<string>)
    requires OneLineEach(lines)
    ensures TextLines(Unlines(lines)) == lines
  {
    SplitOfUnlines(lines);
    forall i | 0 <= i < |lines|
      ensures DropLast(Returned(lines)[i]) == lines[i]
    {}
  }

  lemma {:induction false} UnlinesConcat(a: seq<string>, b: seq<string>)
    ensures Unlines(a + b) == Unlines(a) + Unlines(b)
  {
    if a == [] {
      assert a + b == b;
    } else {
      UnlinesConcat(a[1..], b);
      assert (a + b)[1..] == a[1..] + b;
      Associate(a[0] + CRLF, Unlines(a[1..]), Unlines(b));
    }
  }

  // ---------- labelled lines ----------

  /** Each label that heads the next line takes that line's text as its value; the others have no line. */
  function ReadFields(lines: seq<string>, labels: seq<string>): (r: (seq<string>, seq<string>))
    ensures |r.0| == |labels| && |r.1| <= |lines|
  {
    if labels == [] then ([], lines)
    else if lines != [] && labels[0] <= lines[0] then
      var (values, rest) := ReadFields(lines[1..], labels[1..]);
      ([lines[0][|labels[0]|..]] + values, rest)
    else
      var (values, rest) := ReadFields(lines, labels[1..]);
      ([""] + values, rest)
  }

  function ReadMany(lines: seq<string>, tag: string): (r: (seq<string>, seq<string>))
    ensures |r.1| <= |lines|
  {
    if lines != [] && tag <= lines[0] then
      var (values, rest) := ReadMany(lines[1..], tag);
      ([lines[0][|tag|..]] + values, rest)
    else ([], lines)
  }

  function FieldLines(labels: seq<string>, values: seq<string>): seq<string>
    requires |labels| == |values|
  {
    if labels == [] then [] else (if values[0] != "" then [labels[0] + values[0]] else []) + FieldLines(labels[1..], values[1..])
  }

  function Labelled(tag: string, values: seq<string>): seq<string> {
    if values == [] then [] else [tag + values[0]] + Labelled(tag, values[1..])
  }

  /** The texts differ at some place that both have. */
  predicate Unlike(a: string, b: string) { exists k | 0 <= k < |a| && k < |b| :: a[k] != b[k] }

  predicate Apart(labels: seq<string>) { forall i, j | 0 <= i < j < |labels| :: Unlike(labels[i], labels[j]) }

  predicate MissedBy(labels: seq<string>, rest: seq<string>) { rest == [] || forall i | 0 <= i < |labels| :: !(labels[i] <= rest[0]) }

  lemma UnlikeMisses(a: string, b: string, v: string)
    requires Unlike(a, b)
    ensures !(a <= b + v)
  {
    var k :| 0 <= k < |a| && k < |b| && a[k] != b[k];
    assert (b + v)[k] == b[k];
  }

  lemma {:induction false} FirstField(labels: seq<string>, values: seq<string>, rest: seq<string>)
    requires |labels| == |values|
    ensures var lines := FieldLines(labels, values) + rest;
            lines == rest || (lines != [] && exists j | 0 <= j < |labels| :: lines[0] == labels[j] + values[j])
  {
    if labels != [] {
      if values[0] == "" {
        FirstField(labels[1..], values[1..], rest);
        var lines := FieldLines(labels[1..], values[1..]) + rest;
        assert FieldLines(labels, values) + rest == lines;
        if lines != rest {
          var j :| 0 <= j < |labels[1..]| && lines[0] == labels[1..][j] + values[1..][j];
          assert lines[0] == labels[j + 1] + values[j + 1];
        }
      } else {
        assert (FieldLines(labels, values) + rest)[0] == labels[0] + values[0];
      }
    } else {
      assert [] + rest == rest;
    }
  }

  lemma FieldPresent(labels: seq<string>, values: seq<string>, lines: seq<string>, rest: seq<string>)
    requires |labels| == |values| > 0 && lines != [] && lines[0] == labels[0] + values[0]
    requires ReadFields(lines[1..], labels[1..]) == (values[1..], rest)
    ensures ReadFields(lines, labels) == (values, rest)
  {
    assert labels[0] <= lines[0] && lines[0][|labels[0]|..] == values[0];
    assert values == [values[0]] + values[1..];
  }

  lemma FieldAbsent(labels: seq<string>, values: seq<string>, lines: seq<string>, rest: seq<string>)
    requires |labels| == |values| > 0 && values[0] == "" && (lines == [] || !(labels[0] <= lines[0]))
    requires ReadFields(lines, labels[1..]) == (values[1..], rest)
    ensures ReadFields(lines, labels) == (values, rest)
  {
    assert values == [values[0]] + values[1..];
  }

  lemma FirstIsMissed(labels: seq<string>, values: seq<string>, rest: seq<string>)
    requires |labels| == |values| > 0 && Apart(labels) && MissedBy(labels, rest)
    ensures var tail := FieldLines(labels[1..], values[1..]) + rest; tail == [] || !(labels[0] <= tail[0])
  {
    var tail := FieldLines(labels[1..], values[1..]) + rest;
    FirstField(labels[1..], values[1..], rest);
    if tail != rest {
      var j :| 0 <= j < |labels[1..]| && tail[0] == labels[1..][j] + values[1..][j];
      UnlikeMisses(labels[0], labels[j + 1], values[j + 1]);
    }
  }

  lemma TailLabels(labels: seq<string>, rest: seq<string>)
    requires labels != [] && Apart(labels) && MissedBy(labels, rest)
    ensures Apart(labels[1..]) && MissedBy(labels[1..], rest)
  {}

  lemma FieldLinesIs(labels: seq<string>, values: seq<string>)
    requires |labels| == |values| > 0
    ensures var tail := FieldLines(labels[1..], values[1..]);
            FieldLines(labels, values) == if values[0] != "" then [labels[0] + values[0]] + tail else tail
  {
    var tail := FieldLines(labels[1..], values[1..]);
    assert [] + tail == tail;
  }

  lemma OneLineFirst(line: string, tail: seq<string>, rest: seq<string>)
    ensures var lines := [line] + tail + rest; lines[0] == line && lines[1..] == tail + rest
  {}

  lemma FieldLinesUnfold(labels: seq<string>, values: seq<string>, rest: seq<string>)
    requires |labels| == |values| > 0
    ensures var lines, tail := FieldLines(labels, values) + rest, FieldLines(labels[1..], values[1..]) + rest;
            if values[0] != "" then lines != [] && lines[0] == labels[0] + values[0] && lines[1..] == tail else lines == tail
  {
    FieldLinesIs(labels, values);
    OneLineFirst(labels[0] + values[0], FieldLines(labels[1..], values[1..]), rest);
  }

  lemma {:induction false} ReadsFields(labels: seq<string>, values: seq<string>, rest: seq<string>)
    requires |labels| == |values| && Apart(labels) && MissedBy(labels, rest)
    ensures ReadFields(FieldLines(labels, values) + rest, labels) == (values, rest)
  {
    if labels == [] {
      assert FieldLines(labels, values) + rest == rest;
    } else {
      TailLabels(labels, rest);
      ReadsFields(labels[1..], values[1..], rest);
      FieldLinesUnfold(labels, values, rest);
      if values[0] != "" {
        FieldPresent(labels, values, FieldLines(labels, values) + rest, rest);
      } else {
        FirstIsMissed(labels, values, rest);
        FieldAbsent(labels, values, FieldLines(labels, values) + rest, rest);
      }
    }
  }

  lemma OneMoreLabelled(tag: string, values: seq<string>, lines: seq<string>, rest: seq<string>)
    requires values != [] && lines != [] && lines[0] == tag + values[0] && ReadMany(lines[1..], tag) == (values[1..], rest)
    ensures ReadMany(lines, tag) == (values, rest)
  {
    assert tag <= lines[0] && lines[0][|tag|..] == values[0];
    assert values == [values[0]] + values[1..];
  }

  lemma {:induction false} ReadsMany(tag: string, values: seq<string>, rest: seq<string>)
    requires rest == [] || !(tag <= rest[0])
    ensures ReadMany(Labelled(tag, values) + rest, tag) == (values, rest)
  {
    if values == [] {
      assert Labelled(tag, values) + rest == rest;
    } else {
      ReadsMany(tag, values[1..], rest);
      assert Labelled(tag, values) + rest == [tag + values[0]] + (Labelled(tag, values[1..]) + rest);
      OneMoreLabelled(tag, values, Labelled(tag, values) + rest, rest);
    }
  }

  // ---------- contacts ----------

  function TitleOf(role: Role): string {
    match role
    case Registrant => "Registrant:"
    case Administrative => "Administrative Contact:"
    case Technical => "Technical Contact:"
    case Billing => "Billing Contact:"
    case Abuse => "Abuse Contact:"
  }

  function RoleTitled(line: string): Option<Role> {
    if line == "Registrant:" then Some(Registrant)
    else if line == "Administrative Contact:" then Some(Administrative)
    else if line == "Technical Contact:" then Some(Technical)
    else if line == "Billing Contact:" then Some(Billing)
    else if line == "Abuse Contact:" then Some(Abuse)
    else None
  }

  lemma TitlesTell(role: Role)
    ensures RoleTitled(TitleOf(role)) == Some(role) && OneLine(TitleOf(role))
  {}

  const NAME_LABELS := ["   Name: ", "   Organization: "]
  const ADDRESS_LABEL := "   Address: "
  const REACH_LABELS := ["   Email: ", "   Phone: "]

  function ReadContact(role: Role, lines: seq<string>): (r: (SeenContact, seq<string>))
    ensures |r.1| <= |lines|
  {
    var (names, l1) := ReadFields(lines, NAME_LABELS);
    var (address, l2) := ReadMany(l1, ADDRESS_LABEL);
    var (reach, l3) := ReadFields(l2, REACH_LABELS);
    (SeenContact(role, names[0], names[1], address, reach[0], reach[1]), l3)
  }

  /** Contacts as long as an empty line and a title follow. */
  function ReadContacts(lines: seq<string>): (r: (seq<SeenContact>, seq<string>))
    ensures |r.1| <= |lines|
    decreases |lines|
  {
    if |lines| >= 2 && lines[0] == "" && RoleTitled(lines[1]).Some? then
      var (c, l1) := ReadContact(RoleTitled(lines[1]).value, lines[2..]);
      var (cs, rest) := ReadContacts(l1);
      ([c] + cs, rest)
    else ([], lines)
  }

  function DetailLines(c: SeenContact): seq<string> {
    FieldLines(NAME_LABELS, [c.name, c.org]) + (Labelled(ADDRESS_LABEL, c.address) + FieldLines(REACH_LABELS, [c.email, c.phone]))
  }

  function ContactLines(c: SeenContact): seq<string> { ["", TitleOf(c.role)] + DetailLines(c) }

  function ContactsLines(cs: seq<SeenContact>): seq<string> {
    if cs == [] then [] else ContactLines(cs[0]) + ContactsLines(cs[1..])
  }

  /** The text goes on with a line that is empty or begins at the margin. */
  predicate AtMargin(rest: seq<string>) { rest == [] || rest[0] == "" || rest[0][0] != ' ' }

  lemma LabelsApart()
    ensures Apart(NAME_LABELS) && Apart(REACH_LABELS)
    ensures forall i, j | 0 <= i < 2 && 0 <= j < 2 :: Unlike(NAME_LABELS[i], REACH_LABELS[j])
    ensures forall i | 0 <= i < 2 :: Unlike(NAME_LABELS[i], ADDRESS_LABEL) && Unlike(ADDRESS_LABEL, REACH_LABELS[i])
  {
    var n, r := NAME_LABELS, REACH_LABELS;
    assert n[0][3] == 'N' && n[1][3] == 'O' && ADDRESS_LABEL[3] == 'A' && r[0][3] == 'E' && r[1][3] == 'P';
  }

  lemma MarginIsMissed(labels: seq<string>, rest: seq<string>)
    requires AtMargin(rest) && forall i | 0 <= i < |labels| :: labels[i] != "" && labels[i][0] == ' '
    ensures MissedBy(labels, rest)
  {}

  lemma ReachIsRead(c: SeenContact, rest: seq<string>)
    requires AtMargin(rest)
    ensures var lines := FieldLines(REACH_LABELS, [c.email, c.phone]) + rest;
            ReadFields(lines, REACH_LABELS) == ([c.email, c.phone], rest)
            && (lines == [] || !(ADDRESS_LABEL <= lines[0])) && MissedBy(NAME_LABELS, lines)
  {
    LabelsApart();
    MarginIsMissed(REACH_LABELS, rest);
    MarginIsMissed(NAME_LABELS, rest);
    MarginIsMissed([ADDRESS_LABEL], rest);
    assert [ADDRESS_LABEL][0] == ADDRESS_LABEL;
    var values := [c.email, c.phone];
    ReadsFields(REACH_LABELS, values, rest);
    FirstField(REACH_LABELS, values, rest);
    var lines := FieldLines(REACH_LABELS, values) + rest;
    if lines != rest {
      var j :| 0 <= j < 2 && lines[0] == REACH_LABELS[j] + values[j];
      UnlikeMisses(ADDRESS_LABEL, REACH_LABELS[j], values[j]);
      UnlikeMisses(NAME_LABELS[0], REACH_LABELS[j], values[j]);
      UnlikeMisses(NAME_LABELS[1], REACH_LABELS[j], values[j]);
    }
  }

  lemma AddressIsMissed(address: seq<string>, reach: seq<string>)
    requires MissedBy(NAME_LABELS, reach)
    ensures MissedBy(NAME_LABELS, Labelled(ADDRESS_LABEL, address) + reach)
  {
    if address == [] {
      assert Labelled(ADDRESS_LABEL, address) + reach == reach;
    } else {
      LabelsApart();
      UnlikeMisses(NAME_LABELS[0], ADDRESS_LABEL, address[0]);
      UnlikeMisses(NAME_LABELS[1], ADDRESS_LABEL, address[0]);
      assert (Labelled(ADDRESS_LABEL, address) + reach)[0] == ADDRESS_LABEL + address[0];
    }
  }

  lemma NamesAreRead(c: SeenContact, rest: seq<string>)
    requires MissedBy(NAME_LABELS, rest)
    ensures ReadFields(FieldLines(NAME_LABELS, [c.name, c.org]) + rest, NAME_LABELS) == ([c.name, c.org], rest)
  {
    LabelsApart();
    ReadsFields(NAME_LABELS, [c.name, c.org], rest);
  }

  lemma ReadsContact(c: SeenContact, rest: seq<string>)
    requires AtMargin(rest)
    ensures ReadContact(c.role, DetailLines(c) + rest) == (c, rest)
  {
    var reach := FieldLines(REACH_LABELS, [c.email, c.phone]) + rest;
    var address := Labelled(ADDRESS_LABEL, c.address) + reach;
    ReachIsRead(c, rest);
    ReadsMany(ADDRESS_LABEL, c.address, reach);
    AddressIsMissed(c.address, reach);
    NamesAreRead(c, address);
    Nested(FieldLines(NAME_LABELS, [c.name, c.org]), Labelled(ADDRESS_LABEL, c.address), FieldLines(REACH_LABELS, [c.email, c.phone]), rest);
    ContactOfParts(c, DetailLines(c) + rest, address, reach, rest);
  }

  lemma Nested(a: seq<string>, b: seq<string>, c: seq<string>, d: seq<string>)
    ensures a + (b + c) + d == a + (b + (c + d))
  {}

  lemma ContactOfParts(c: SeenContact, lines: seq<string>, l1: seq<string>, l2: seq<string>, rest: seq<string>)
    requires ReadFields(lines, NAME_LABELS) == ([c.name, c.org], l1)
    requires ReadMany(l1, ADDRESS_LABEL) == (c.address, l2)
    requires ReadFields(l2, REACH_LABELS) == ([c.email, c.phone], rest)
    ensures ReadContact(c.role, lines) == (c, rest)
  {}

  /** No contact begins here. */
  predicate NoContactAt(rest: seq<string>) { |rest| < 2 || rest[0] != "" || RoleTitled(rest[1]).None? }

  lemma OneMoreContact(c: SeenContact, cs: seq<SeenContact>, lines: seq<string>, tail: seq<string>, rest: seq<string>)
    requires |lines| >= 2 && lines[0] == "" && RoleTitled(lines[1]) == Some(c.role)
    requires ReadContact(c.role, lines[2..]) == (c, tail) && ReadContacts(tail) == (cs, rest)
    ensures ReadContacts(lines) == ([c] + cs, rest)
  {}

  lemma ContactsUnfold(cs: seq<SeenContact>, rest: seq<string>)
    requires cs != []
    ensures var lines := ContactsLines(cs) + rest;
            |lines| >= 2 && lines[0] == "" && lines[1] == TitleOf(cs[0].role)
            && lines[2..] == DetailLines(cs[0]) + (ContactsLines(cs[1..]) + rest)
  {
    assert ContactsLines(cs) + rest == ["", TitleOf(cs[0].role)] + (DetailLines(cs[0]) + (ContactsLines(cs[1..]) + rest));
  }

  lemma {:induction false} ReadsContacts(cs: seq<SeenContact>, rest: seq<string>)
    requires AtMargin(rest) && NoContactAt(rest)
    ensures ReadContacts(ContactsLines(cs) + rest) == (cs, rest)
    ensures AtMargin(ContactsLines(cs) + rest)
  {
    if cs == [] {
      assert ContactsLines(cs) + rest == rest;
    } else {
      var tail := ContactsLines(cs[1..]) + rest;
      ReadsContacts(cs[1..], rest);
      ReadsContact(cs[0], tail);
      TitlesTell(cs[0].role);
      ContactsUnfold(cs, rest);
      OneMoreContact(cs[0], cs[1..], ContactsLines(cs) + rest, tail, rest);
      assert cs == [cs[0]] + cs[1..];
    }
  }

  // ---------- nameservers ----------

  const HOST_LABEL := "   "
  const IP_LABEL := "      "

  function ReadHosts(lines: seq<string>): (r: (seq<SeenHost>, seq<string>))
    ensures |r.1| <= |lines|
    decreases |lines|
  {
    if lines != [] && HOST_LABEL <= lines[0] then
      var (ips, l1) := ReadMany(lines[1..], IP_LABEL);
      var (hosts, rest) := ReadHosts(l1);
      ([SeenHost(lines[0][3..], ips)] + hosts, rest)
    else ([], lines)
  }

  function HostLines(h: SeenHost): seq<string> { [HOST_LABEL + h.name] + Labelled(IP_LABEL, h.ipv4) }

  function HostsLines(hs: seq<SeenHost>): seq<string> { if hs == [] then [] else HostLines(hs[0]) + HostsLines(hs[1..]) }

  /** Nameservers under their title, if there are any. */
  function HostBlock(hs: seq<SeenHost>): seq<string> { if hs == [] then [] else ["", "Name Server:"] + HostsLines(hs) }

  function ReadHostBlock(lines: seq<string>): (seq<SeenHost>, seq<string>) {
    if |lines| >= 2 && lines[0] == "" && lines[1] == "Name Server:" then ReadHosts(lines[2..]) else ([], lines)
  }

  predicate Flush(h: SeenHost) { h.name == "" || h.name[0] != ' ' }

  lemma OneMoreHost(h: SeenHost, hs: seq<SeenHost>, lines: seq<string>, tail: seq<string>, rest: seq<string>)
    requires lines != [] && lines[0] == HOST_LABEL + h.name
    requires ReadMany(lines[1..], IP_LABEL) == (h.ipv4, tail) && ReadHosts(tail) == (hs, rest)
    ensures ReadHosts(lines) == ([h] + hs, rest)
  {
    assert HOST_LABEL <= lines[0] && lines[0][3..] == h.name;
  }

  lemma HostsUnfold(hs: seq<SeenHost>, rest: seq<string>)
    requires hs != []
    ensures var lines := HostsLines(hs) + rest;
            lines != [] && lines[0] == HOST_LABEL + hs[0].name
            && lines[1..] == Labelled(IP_LABEL, hs[0].ipv4) + (HostsLines(hs[1..]) + rest)
  {
    HeadOf(HOST_LABEL + hs[0].name, Labelled(IP_LABEL, hs[0].ipv4), HostsLines(hs[1..]), rest);
  }

  lemma HeadOf(first: string, more: seq<string>, tail: seq<string>, rest: seq<string>)
    ensures var lines := [first] + more + tail + rest; lines[0] == first && lines[1..] == more + (tail + rest)
  {}

  lemma {:induction false} ReadsHosts(hs: seq<SeenHost>, rest: seq<string>)
    requires AtMargin(rest) && forall i | 0 <= i < |hs| :: Flush(hs[i])
    ensures ReadHosts(HostsLines(hs) + rest) == (hs, rest)
  {
    if hs == [] {
      assert HostsLines(hs) + rest == rest;
      MarginIsMissed([HOST_LABEL], rest);
      assert [HOST_LABEL][0] == HOST_LABEL;
    } else {
      var tail := HostsLines(hs[1..]) + rest;
      ReadsHosts(hs[1..], rest);
      NextHostIsNoIp(hs[1..], rest);
      ReadsMany(IP_LABEL, hs[0].ipv4, tail);
      HostsUnfold(hs, rest);
      OneMoreHost(hs[0], hs[1..], HostsLines(hs) + rest, tail, rest);
      assert hs == [hs[0]] + hs[1..];
    }
  }

  lemma NameIsNoIp(name: string)
    requires name == "" || name[0] != ' '
    ensures !(IP_LABEL <= HOST_LABEL + name)
  {
    assert |IP_LABEL| == 6 && IP_LABEL[3] == ' ' && (name != "" ==> (HOST_LABEL + name)[3] == name[0]);
  }

  lemma NextHostIsNoIp(hs: seq<SeenHost>, rest: seq<string>)
    requires AtMargin(rest) && forall i | 0 <= i < |hs| :: Flush(hs[i])
    ensures var lines := HostsLines(hs) + rest; lines == [] || !(IP_LABEL <= lines[0])
  {
    if hs == [] {
      assert HostsLines(hs) + rest == rest;
    } else {
      HostsUnfold(hs, rest);
      NameIsNoIp(hs[0].name);
    }
  }

  // ---------- the whole text ----------

  const FIRST_LABEL := ["Domain Name: "]
  const HEAD_LABELS := ["Internationalized Domain Name: ", "Registrar: ", "Registrar IANA ID: ", "Registrant Organization: "]
  const FOOT_LABELS := ["DNSSEC: ", "Creation Date: ", "Updated Date: ", "Expiration Date: ", "Status: "]

  function ReadNotice(text: string): Notice {
    var (first, l1) := ReadFields(TextLines(text), FIRST_LABEL);
    var (head, l2) := ReadFields(l1, HEAD_LABELS);
    var (contacts, l3) := ReadContacts(l2);
    var (hosts, l4) := ReadHostBlock(l3);
    var (foot, _) := ReadFields(l4, FOOT_LABELS);
    Notice(first[0], head[0], head[1], head[2], head[3], contacts, hosts, foot[0], foot[1], foot[2], foot[3], foot[4])
  }

  function HeadValues(n: Notice): seq<string> { [n.unicodeName, n.registrar, n.registrarID, n.registrant] }

  function FootValues(n: Notice): seq<string> { [n.dnssec, n.createdAt, n.updatedAt, n.expiresAt, n.status] }

  function FootLines(n: Notice): seq<string> { FieldLines(FOOT_LABELS, FootValues(n)) + [""] }

  function NoticeLines(n: Notice): seq<string> {
    ["Domain Name: " + n.ldhName]
    + (FieldLines(HEAD_LABELS, HeadValues(n)) + (ContactsLines(n.contacts) + (HostBlock(n.hosts) + FootLines(n))))
  }

  predicate WellFormed(n: Notice) { n.dnssec != "" && OneLineEach(NoticeLines(n)) && forall i | 0 <= i < |n.hosts| :: Flush(n.hosts[i]) }

  lemma FootIsRead(n: Notice)
    requires n.dnssec != ""
    ensures ReadFields(FootLines(n), FOOT_LABELS) == (FootValues(n), [""])
    ensures FootLines(n) != [] && FootLines(n)[0] == "DNSSEC: " + n.dnssec
  {
    var l := FOOT_LABELS;
    assert l[0][0] == 'D' && l[1][0] == 'C' && l[2][0] == 'U' && l[3][0] == 'E' && l[4][0] == 'S';
    ReadsFields(l, FootValues(n), [""]);
  }

  lemma HostBlockUnfold(hs: seq<SeenHost>, rest: seq<string>)
    requires hs != []
    ensures var lines := HostBlock(hs) + rest;
            |lines| >= 2 && lines[0] == "" && lines[1] == "Name Server:" && lines[2..] == HostsLines(hs) + rest
  {
    assert HostBlock(hs) + rest == ["", "Name Server:"] + (HostsLines(hs) + rest);
  }

  lemma HostBlockIsRead(n: Notice)
    requires n.dnssec != "" && forall i | 0 <= i < |n.hosts| :: Flush(n.hosts[i])
    ensures var lines := HostBlock(n.hosts) + FootLines(n);
            ReadHostBlock(lines) == (n.hosts, FootLines(n)) && AtMargin(lines) && NoContactAt(lines)
            && (lines[0] == "" || lines[0][0] == 'D')
  {
    FootIsRead(n);
    if n.hosts == [] {
      assert HostBlock(n.hosts) + FootLines(n) == FootLines(n);
    } else {
      ReadsHosts(n.hosts, FootLines(n));
      HostBlockUnfold(n.hosts, FootLines(n));
      NameServerIsNoRole();
    }
  }

  lemma NameServerIsNoRole()
    ensures RoleTitled("Name Server:") == None
  {}

  lemma HeadLabelsApart()
    ensures Apart(HEAD_LABELS)
  {
    var l := HEAD_LABELS;
    assert l[0][0] == 'I' && l[1][0] == 'R' && l[2][0] == 'R' && l[3][0] == 'R';
    assert l[1][9] == ':' && l[2][9] == ' ' && l[1][8] == 'r' && l[2][8] == 'r' && l[3][8] == 'n';
  }

  lemma HeadIsRead(n: Notice, rest: seq<string>)
    requires rest != [] && (rest[0] == "" || rest[0][0] == 'D')
    ensures ReadFields(FieldLines(HEAD_LABELS, HeadValues(n)) + rest, HEAD_LABELS) == (HeadValues(n), rest)
  {
    HeadLabelsApart();
    var l := HEAD_LABELS;
    assert l[0][0] == 'I' && l[1][0] == 'R' && l[2][0] == 'R' && l[3][0] == 'R';
    ReadsFields(HEAD_LABELS, HeadValues(n), rest);
  }

  /** Reading what was written gives back the notice. */
  lemma NoticeIsRead(n: Notice)
    requires WellFormed(n)
    ensures ReadNotice(Unlines(NoticeLines(n))) == n
  {
    var l4 := HostBlock(n.hosts) + FootLines(n);
    var l3 := ContactsLines(n.contacts) + l4;
    var l2 := FieldLines(HEAD_LABELS, HeadValues(n)) + l3;
    var lines := NoticeLines(n);
    TextLinesOfUnlines(lines);
    assert lines[0] == "Domain Name: " + n.ldhName && lines[1..] == l2;
    FirstIsRead(n.ldhName, l2);
    HostBlockIsRead(n);
    ReadsContacts(n.contacts, l4);
    assert l3[0] == "" || l3[0][0] == 'D' by {
      if n.contacts != [] {
        assert l3[0] == "";
      } else {
        assert l3 == l4;
      }
    }
    HeadIsRead(n, l3);
    FootIsRead(n);
  }

  lemma FirstIsRead(ldhName: string, rest: seq<string>)
    ensures ReadFields(["Domain Name: " + ldhName] + rest, FIRST_LABEL) == ([ldhName], rest)
  {
    var lines := ["Domain Name: " + ldhName] + rest;
    assert FIRST_LABEL[0] <= lines[0] && lines[0][|FIRST_LABEL[0]|..] == ldhName && lines[1..] == rest;
    assert FIRST_LABEL[1..] == [] && ReadFields(rest, []) == ([], rest);
    assert [ldhName] + [] == [ldhName];
  }

  // ---------- what the renderer shows ----------

  /** The role that a contact's role names, in any case. */
  function RoleNamed(role: string): Option<Role> {
    if SameLetters(role, "registrant") then Some(Registrant)
    else if SameLetters(role, "administrative") || SameLetters(role, "admin") then Some(Administrative)
    else if SameLetters(role, "technical") || SameLetters(role, "tech") then Some(Technical)
    else if SameLetters(role, "billing") then Some(Billing)
    else if SameLetters(role, "abuse") then Some(Abuse)
    else None
  }

  function RoleIn(w: string): Option<Role> {
    if w == "registrant" then Some(Registrant)
    else if w == "administrative" || w == "admin" then Some(Administrative)
    else if w == "technical" || w == "tech" then Some(Technical)
    else if w == "billing" then Some(Billing)
    else if w == "abuse" then Some(Abuse)
    else None
  }

  lemma LowerIs(role: string, w: string)
    requires NoCapitals(w)
    ensures Lower(role) == w <==> SameLetters(role, w)
  {
    LowerIsUncapitalised(role, w);
  }

  lemma RoleNamedIs(role: string)
    ensures RoleNamed(role) == RoleIn(Lower(role))
  {
    LowerIs(role, "registrant");
    LowerIs(role, "administrative");
    LowerIs(role, "admin");
    LowerIs(role, "technical");
    LowerIs(role, "tech");
    LowerIs(role, "billing");
    LowerIs(role, "abuse");
  }

  lemma LabelIsTitle(role: string)
    ensures RoleLabel(role) == match RoleNamed(role) case None => "" case Some(r) => TitleOf(r)
  {
    RoleNamedIs(role);
  }

  /** The lines of an address that have text, without the white space around them. */
  function SeeAddress(lines: seq<string>): seq<string> {
    if lines == [] then []
    else SeeAddress(lines[..|lines| - 1]) + (if TrimSpace(lines[|lines| - 1]) != "" then [TrimSpace(lines[|lines| - 1])] else [])
  }

  /** A contact in one of the five roles, by its details or, when it is redacted, by that word. */
  function See(c: WhoisContact): seq<SeenContact> {
    match RoleNamed(c.role)
    case None => []
    case Some(r) =>
      if c.redacted then [SeenContact(r, "Redacted", "", [], "", "")]
      else [SeenContact(r, c.name, c.org, if c.address != "" then SeeAddress(Split(c.address, '\n')) else [], c.email, c.phone)]
  }

  function SeeAll(cs: seq<WhoisContact>): seq<SeenContact> {
    if cs == [] then [] else SeeAll(cs[..|cs| - 1]) + See(cs[|cs| - 1])
  }

  function SeeHosts(nss: seq<WhoisNameserver>): seq<SeenHost> {
    seq(|nss|, i requires 0 <= i < |nss| => SeenHost(nss[i].name, nss[i].ipv4))
  }

  /** What a record's text is to show. */
  function Visible(d: WhoisDomain): Notice {
    Notice(d.ldhName, if d.unicodeName != d.ldhName then d.unicodeName else "", d.registrar, d.registrarID, d.registrant,
           SeeAll(d.contacts), SeeHosts(d.nameservers),
           if d.dnssec then "signedDelegation" else "unsignedDelegation", d.createdAt, d.updatedAt, d.expiresAt, JoinWith(d.status, " "))
  }

  lemma FieldIsLine(key: string, labels: seq<string>, values: seq<string>)
    requires |labels| == |values| > 0 && labels[0] == key + ": "
    ensures Unlines(FieldLines(labels, values)) == Line(key, values[0]) + Unlines(FieldLines(labels[1..], values[1..]))
  {
    var rest := FieldLines(labels[1..], values[1..]);
    if values[0] == "" {
      assert FieldLines(labels, values) == rest;
      assert "" + Unlines(rest) == Unlines(rest);
    } else {
      var lines := [labels[0] + values[0]] + rest;
      assert lines[1..] == rest;
      assert labels[0] + values[0] + CRLF == Line(key, values[0]);
    }
  }

  lemma NoFields()
    ensures Unlines(FieldLines([], [])) == ""
  {}

  lemma {:induction false} LabelledConcat(tag: string, a: seq<string>, b: seq<string>)
    ensures Labelled(tag, a + b) == Labelled(tag, a) + Labelled(tag, b)
  {
    if a == [] {
      assert a + b == b;
    } else {
      assert (a + b)[1..] == a[1..] + b;
      LabelledConcat(tag, a[1..], b);
    }
  }

  lemma UnlinesOne(line: string)
    ensures Unlines([line]) == line + CRLF
  {
    assert [line][1..] == [];
    assert line + CRLF + "" == line + CRLF;
  }

  lemma {:induction false} AddressIsWritten(lines: seq<string>)
    ensures AddressLines(lines) == Unlines(Labelled(ADDRESS_LABEL, SeeAddress(lines)))
  {
    if lines != [] {
      var front, last := lines[..|lines| - 1], TrimSpace(lines[|lines| - 1]);
      AddressIsWritten(front);
      if last == "" {
        assert SeeAddress(lines) == SeeAddress(front);
        assert Line("   Address", last) == "" && AddressLines(lines) == AddressLines(front);
      } else {
        LabelledConcat(ADDRESS_LABEL, SeeAddress(front), [last]);
        assert Labelled(ADDRESS_LABEL, [last]) == [ADDRESS_LABEL + last] by { assert [last][1..] == []; }
        UnlinesConcat(Labelled(ADDRESS_LABEL, SeeAddress(front)), [ADDRESS_LABEL + last]);
        UnlinesOne(ADDRESS_LABEL + last);
        assert "   Address" + ": " == ADDRESS_LABEL;
      }
    }
  }

  lemma TwoFields(k1: string, k2: string, labels: seq<string>, v1: string, v2: string)
    requires labels == [k1 + ": ", k2 + ": "]
    ensures Unlines(FieldLines(labels, [v1, v2])) == Line(k1, v1) + Line(k2, v2)
  {
    FieldIsLine(k1, labels, [v1, v2]);
    assert labels[1..] == [k2 + ": "] && [v1, v2][1..] == [v2];
    FieldIsLine(k2, [k2 + ": "], [v2]);
    assert [k2 + ": "][1..] == [] && [v2][1..] == [];
    NoFields();
    assert Line(k2, v2) + "" == Line(k2, v2);
  }

  lemma DetailsAreWritten(c: WhoisContact, seen: SeenContact)
    requires !c.redacted && See(c) == [seen]
    ensures Details(c) == Unlines(DetailLines(seen))
  {
    assert "   Name" + ": " == "   Name: " && "   Organization" + ": " == "   Organization: ";
    assert "   Email" + ": " == "   Email: " && "   Phone" + ": " == "   Phone: ";
    TwoFields("   Name", "   Organization", NAME_LABELS, c.name, c.org);
    TwoFields("   Email", "   Phone", REACH_LABELS, c.email, c.phone);
    if c.address != "" {
      AddressIsWritten(Split(c.address, '\n'));
    }
    var names, address, reach := FieldLines(NAME_LABELS, [c.name, c.org]), Labelled(ADDRESS_LABEL, seen.address), FieldLines(REACH_LABELS, [c.email, c.phone]);
    UnlinesConcat(names, address + reach);
    UnlinesConcat(address, reach);
    Flatten(Line("   Name", c.name), Line("   Organization", c.org), Unlines(address), Line("   Email", c.email), Line("   Phone", c.phone));
  }

  lemma Flatten(a: string, b: string, c: string, d: string, e: string)
    ensures a + b + c + d + e == a + b + (c + (d + e))
  {}

  lemma RedactedIsWritten(role: Role)
    ensures Unlines(DetailLines(SeenContact(role, "Redacted", "", [], "", ""))) == "   Name: Redacted" + CRLF
  {
    var c := SeenContact(role, "Redacted", "", [], "", "");
    assert "   Name" + ": " == "   Name: " && "   Organization" + ": " == "   Organization: ";
    assert "   Email" + ": " == "   Email: " && "   Phone" + ": " == "   Phone: ";
    TwoFields("   Name", "   Organization", NAME_LABELS, "Redacted", "");
    TwoFields("   Email", "   Phone", REACH_LABELS, "", "");
    UnlinesConcat(FieldLines(NAME_LABELS, ["Redacted", ""]), FieldLines(REACH_LABELS, ["", ""]));
    assert [] + FieldLines(REACH_LABELS, ["", ""]) == FieldLines(REACH_LABELS, ["", ""]);
    assert "   Name" + ": " + "Redacted" == "   Name: Redacted";
  }

  lemma ContactIsWritten(c: WhoisContact)
    ensures ContactBlock(c) == if See(c) == [] then "" else Unlines(ContactLines(See(c)[0]))
  {
    LabelIsTitle(c.role);
    if RoleNamed(c.role).Some? {
      var seen := See(c)[0];
      TitleIsText(seen.role);
      if c.redacted {
        RedactedIsWritten(seen.role);
      } else {
        DetailsAreWritten(c, seen);
      }
      UnlinesConcat(["", TitleOf(seen.role)], DetailLines(seen));
      UnlinesConcat([""], [TitleOf(seen.role)]);
      UnlinesOne("");
      UnlinesOne(TitleOf(seen.role));
      assert "" + CRLF == CRLF && [""] + [TitleOf(seen.role)] == ["", TitleOf(seen.role)];
      Associate(CRLF, TitleOf(seen.role), CRLF);
    }
  }

  lemma TitleIsText(role: Role)
    ensures TitleOf(role) != ""
  {}

  lemma {:induction false} ContactsLinesConcat(a: seq<SeenContact>, b: seq<SeenContact>)
    ensures ContactsLines(a + b) == ContactsLines(a) + ContactsLines(b)
  {
    if a == [] {
      assert a + b == b;
    } else {
      assert (a + b)[1..] == a[1..] + b;
      ContactsLinesConcat(a[1..], b);
    }
  }

  lemma SeenIsWritten(c: WhoisContact)
    ensures ContactBlock(c) == Unlines(ContactsLines(See(c)))
  {
    ContactIsWritten(c);
    var seen := See(c);
    if seen != [] {
      assert seen[1..] == [] && ContactsLines(seen) == ContactLines(seen[0]);
    }
  }

  lemma {:induction false} ContactsAreWritten(cs: seq<WhoisContact>)
    ensures ContactBlocks(cs) == Unlines(ContactsLines(SeeAll(cs)))
  {
    if cs != [] {
      var front, last := SeeAll(cs[..|cs| - 1]), See(cs[|cs| - 1]);
      ContactsAreWritten(cs[..|cs| - 1]);
      SeenIsWritten(cs[|cs| - 1]);
      ContactsLinesConcat(front, last);
      UnlinesConcat(ContactsLines(front), ContactsLines(last));
    }
  }

  lemma {:induction false} IpsAreWritten(ips: seq<string>)
    ensures Indented(ips) == Unlines(Labelled(IP_LABEL, ips))
  {
    if ips != [] {
      var front, last := ips[..|ips| - 1], ips[|ips| - 1];
      IpsAreWritten(front);
      assert ips == front + [last];
      LabelledConcat(IP_LABEL, front, [last]);
      assert Labelled(IP_LABEL, [last]) == [IP_LABEL + last] by { assert [last][1..] == []; }
      UnlinesConcat(Labelled(IP_LABEL, front), [IP_LABEL + last]);
      UnlinesOne(IP_LABEL + last);
    }
  }

  lemma {:induction false} HostsLinesConcat(a: seq<SeenHost>, b: seq<SeenHost>)
    ensures HostsLines(a + b) == HostsLines(a) + HostsLines(b)
  {
    if a == [] {
      assert a + b == b;
    } else {
      assert (a + b)[1..] == a[1..] + b;
      HostsLinesConcat(a[1..], b);
    }
  }

  lemma {:induction false} HostsAreWritten(nss: seq<WhoisNameserver>)
    ensures NameserverLines(nss) == Unlines(HostsLines(SeeHosts(nss)))
  {
    if nss != [] {
      var front, last := nss[..|nss| - 1], nss[|nss| - 1];
      var seen := SeenHost(last.name, last.ipv4);
      HostsAreWritten(front);
      IpsAreWritten(last.ipv4);
      assert SeeHosts(nss) == SeeHosts(front) + [seen];
      HostsLinesConcat(SeeHosts(front), [seen]);
      assert HostsLines([seen]) == HostLines(seen) by { assert [seen][1..] == []; }
      UnlinesConcat(HostsLines(SeeHosts(front)), HostLines(seen));
      UnlinesConcat([HOST_LABEL + last.name], Labelled(IP_LABEL, last.ipv4));
      UnlinesOne(HOST_LABEL + last.name);
      Associate(NameserverLines(front), "   " + last.name + CRLF, Indented(last.ipv4));
    }
  }

  lemma HostBlockIsWritten(nss: seq<WhoisNameserver>)
    ensures NameserverBlock(nss) == Unlines(HostBlock(SeeHosts(nss)))
  {
    if nss != [] {
      HostsAreWritten(nss);
      UnlinesConcat(["", "Name Server:"], HostsLines(SeeHosts(nss)));
      UnlinesConcat([""], ["Name Server:"]);
      UnlinesOne("");
      UnlinesOne("Name Server:");
      assert "" + CRLF == CRLF && [""] + ["Name Server:"] == ["", "Name Server:"];
      Associate(CRLF, "Name Server:", CRLF);
    }
  }

  lemma ThreeFields(k1: string, k2: string, k3: string, labels: seq<string>, v1: string, v2: string, v3: string)
    requires labels == [k1 + ": ", k2 + ": ", k3 + ": "]
    ensures Unlines(FieldLines(labels, [v1, v2, v3])) == Line(k1, v1) + (Line(k2, v2) + Line(k3, v3))
  {
    FieldIsLine(k1, labels, [v1, v2, v3]);
    assert labels[1..] == [k2 + ": ", k3 + ": "] && [v1, v2, v3][1..] == [v2, v3];
    TwoFields(k2, k3, labels[1..], v2, v3);
  }

  lemma HeadIsWritten(n: Notice)
    ensures Unlines(FieldLines(HEAD_LABELS, HeadValues(n)))
            == Line("Internationalized Domain Name", n.unicodeName)
               + (Line("Registrar", n.registrar) + Line("Registrar IANA ID", n.registrarID) + Line("Registrant Organization", n.registrant))
  {
    var l, v := HEAD_LABELS, HeadValues(n);
    assert l[0] == "Internationalized Domain Name" + ": ";
    FieldIsLine("Internationalized Domain Name", l, v);
    assert "Registrar" + ": " == l[1] && "Registrar IANA ID" + ": " == l[2] && "Registrant Organization" + ": " == l[3];
    assert l[1..] == ["Registrar" + ": ", "Registrar IANA ID" + ": ", "Registrant Organization" + ": "];
    assert v[1..] == [n.registrar, n.registrarID, n.registrant];
    ThreeFields("Registrar", "Registrar IANA ID", "Registrant Organization", l[1..], n.registrar, n.registrarID, n.registrant);
    Associate(Line("Registrar", n.registrar), Line("Registrar IANA ID", n.registrarID), Line("Registrant Organization", n.registrant));
  }

  lemma FootIsWritten(n: Notice)
    ensures Unlines(FootLines(n))
            == Line("DNSSEC", n.dnssec) + Line("Creation Date", n.createdAt) + Line("Updated Date", n.updatedAt)
               + Line("Expiration Date", n.expiresAt) + Line("Status", n.status) + CRLF
  {
    var l, v := FOOT_LABELS, FootValues(n);
    assert "DNSSEC" + ": " == l[0] && "Creation Date" + ": " == l[1] && "Updated Date" + ": " == l[2];
    assert "Expiration Date" + ": " == l[3] && "Status" + ": " == l[4];
    assert l == ["DNSSEC" + ": ", "Creation Date" + ": ", "Updated Date" + ": ", "Expiration Date" + ": ", "Status" + ": "];
    FieldIsLine("DNSSEC", l, v);
    assert v[1..] == [n.createdAt, n.updatedAt, n.expiresAt, n.status];
    FieldIsLine("Creation Date", l[1..], v[1..]);
    assert l[1..][1..] == ["Updated Date" + ": ", "Expiration Date" + ": ", "Status" + ": "];
    assert v[1..][1..] == [n.updatedAt, n.expiresAt, n.status];
    ThreeFields("Updated Date", "Expiration Date", "Status", l[1..][1..], n.updatedAt, n.expiresAt, n.status);
    UnlinesConcat(FieldLines(l, v), [""]);
    UnlinesOne("");
    assert "" + CRLF == CRLF;
    InOrder(Line("DNSSEC", n.dnssec), Line("Creation Date", n.createdAt), Line("Updated Date", n.updatedAt),
            Line("Expiration Date", n.expiresAt), Line("Status", n.status), CRLF);
  }

  lemma InOrder(a: string, b: string, c: string, d: string, e: string, f: string)
    ensures a + (b + (c + (d + e))) + f == a + b + c + d + e + f
  {}

  lemma Nested5(a: string, b: string, c: string, d: string, e: string)
    ensures a + (b + (c + (d + e))) == a + b + c + d + e
  {}

  lemma NoticeIsWritten(n: Notice)
    ensures Unlines(NoticeLines(n))
            == ("Domain Name: " + n.ldhName + CRLF) + Unlines(FieldLines(HEAD_LABELS, HeadValues(n)))
               + Unlines(ContactsLines(n.contacts)) + Unlines(HostBlock(n.hosts)) + Unlines(FootLines(n))
  {
    var first, head, contacts, hosts, foot :=
      ["Domain Name: " + n.ldhName], FieldLines(HEAD_LABELS, HeadValues(n)), ContactsLines(n.contacts), HostBlock(n.hosts), FootLines(n);
    UnlinesConcat(first, head + (contacts + (hosts + foot)));
    UnlinesConcat(head, contacts + (hosts + foot));
    UnlinesConcat(contacts, hosts + foot);
    UnlinesConcat(hosts, foot);
    UnlinesOne("Domain Name: " + n.ldhName);
    Nested5(Unlines(first), Unlines(head), Unlines(contacts), Unlines(hosts), Unlines(foot));
  }

  // The beginning and the end of the text, with the renderer's grouping.
  lemma Regroup(first: string, idn: string, names: string, contacts: string, hosts: string, foot: string)
    ensures first + (idn + names) + contacts + hosts + foot == first + idn + names + contacts + (hosts + foot)
  {}

  /** The rendered text is the lines of what is to be seen. */
  lemma RenderIsWritten(d: WhoisDomain)
    ensures Render(d) == Unlines(NoticeLines(Visible(d)))
  {
    var n := Visible(d);
    NoticeIsWritten(n);
    HeadIsWritten(n);
    ContactsAreWritten(d.contacts);
    HostBlockIsWritten(d.nameservers);
    FootIsWritten(n);
    FooterParts(d);
    Regroup("Domain Name: " + n.ldhName + CRLF, Line("Internationalized Domain Name", n.unicodeName), Names(d),
            ContactBlocks(d.contacts), NameserverBlock(d.nameservers), Unlines(FootLines(n)));
    HeadParts(d);
  }

  lemma HeadParts(d: WhoisDomain)
    ensures Head(d) == "Domain Name: " + d.ldhName + CRLF + Line("Internationalized Domain Name", Visible(d).unicodeName)
  {}

  lemma FooterParts(d: WhoisDomain)
    ensures var n := Visible(d);
            Footer(d) == NameserverBlock(d.nameservers)
                         + (Line("DNSSEC", n.dnssec) + Line("Creation Date", n.createdAt) + Line("Updated Date", n.updatedAt)
                            + Line("Expiration Date", n.expiresAt) + Line("Status", n.status) + CRLF)
  {
    var n := Visible(d);
    Seven(NameserverBlock(d.nameservers), Line("DNSSEC", n.dnssec), Line("Creation Date", n.createdAt), Line("Updated Date", n.updatedAt),
          Line("Expiration Date", n.expiresAt), Line("Status", n.status), CRLF);
  }

  lemma Seven(a: string, b: string, c: string, d: string, e: string, f: string, g: string)
    ensures a + b + c + d + e + f + g == a + (b + c + d + e + f + g)
  {}

  // ---------- reading the renderer's text ----------

  /** The details of a contact that is shown are each on one line; its address may have several. */
  predicate OneLineContact(c: WhoisContact) {
    c.redacted || (OneLine(c.name) && OneLine(c.org) && OneLine(c.email) && OneLine(c.phone))
  }

  predicate OneLineHost(h: WhoisNameserver) { OneLine(h.name) && OneLineEach(h.ipv4) && (h.name == "" || h.name[0] != ' ') }

  /** No field that is printed on one line has a line feed, and no nameserver's name begins with a space. */
  predicate OneLineRecord(d: WhoisDomain) {
    OneLine(d.ldhName) && OneLine(d.unicodeName) && OneLine(d.registrar) && OneLine(d.registrarID) && OneLine(d.registrant)
    && OneLine(d.createdAt) && OneLine(d.updatedAt) && OneLine(d.expiresAt) && OneLineEach(d.status)
    && (forall i | 0 <= i < |d.contacts| :: OneLineContact(d.contacts[i]))
    && forall i | 0 <= i < |d.nameservers| :: OneLineHost(d.nameservers[i])
  }

  lemma {:induction false} FieldsOnLines(labels: seq<string>, values: seq<string>)
    requires |labels| == |values| && OneLineEach(labels) && OneLineEach(values)
    ensures OneLineEach(FieldLines(labels, values))
  {
    if labels != [] {
      FieldsOnLines(labels[1..], values[1..]);
    }
  }

  lemma {:induction false} LabelledOnLines(tag: string, values: seq<string>)
    requires OneLine(tag) && OneLineEach(values)
    ensures OneLineEach(Labelled(tag, values))
  {
    if values != [] {
      LabelledOnLines(tag, values[1..]);
    }
  }

  lemma {:induction false} JoinedOnLine(parts: seq<string>, sep: string)
    requires OneLineEach(parts) && OneLine(sep)
    ensures OneLine(JoinWith(parts, sep))
  {
    if |parts| > 1 {
      JoinedOnLine(parts[1..], sep);
    }
  }

  lemma {:induction false} TrimLeftWithin(s: string)
    ensures forall c | c in TrimLeft(s) :: c in s
  {
    if s != "" && IsSpace(s[0]) {
      TrimLeftWithin(s[1..]);
    }
  }

  lemma {:induction false} TrimRightWithin(s: string)
    ensures forall c | c in TrimRight(s) :: c in s
  {
    if s != "" && IsSpace(s[|s| - 1]) {
      TrimRightWithin(s[..|s| - 1]);
    }
  }

  lemma {:induction false} AddressOnLines(lines: seq<string>)
    requires OneLineEach(lines)
    ensures OneLineEach(SeeAddress(lines))
  {
    if lines != [] {
      AddressOnLines(lines[..|lines| - 1]);
      var last := lines[|lines| - 1];
      TrimLeftWithin(last);
      TrimRightWithin(TrimLeft(last));
    }
  }

  predicate OneLineSeen(c: SeenContact) { OneLine(c.name) && OneLine(c.org) && OneLineEach(c.address) && OneLine(c.email) && OneLine(c.phone) }

  lemma SeenOnLines(c: WhoisContact)
    requires OneLineContact(c)
    ensures forall i | 0 <= i < |See(c)| :: OneLineSeen(See(c)[i])
  {
    JoinOfSplit(c.address, '\n');
    AddressOnLines(Split(c.address, '\n'));
  }

  lemma {:induction false} AllSeenOnLines(cs: seq<WhoisContact>)
    requires forall i | 0 <= i < |cs| :: OneLineContact(cs[i])
    ensures forall i | 0 <= i < |SeeAll(cs)| :: OneLineSeen(SeeAll(cs)[i])
  {
    if cs != [] {
      AllSeenOnLines(cs[..|cs| - 1]);
      SeenOnLines(cs[|cs| - 1]);
    }
  }

  lemma ContactOnLines(c: SeenContact)
    requires OneLineSeen(c)
    ensures OneLineEach(ContactLines(c))
  {
    FieldsOnLines(NAME_LABELS, [c.name, c.org]);
    LabelledOnLines(ADDRESS_LABEL, c.address);
    FieldsOnLines(REACH_LABELS, [c.email, c.phone]);
    TitlesTell(c.role);
  }

  lemma {:induction false} ContactsOnLines(cs: seq<SeenContact>)
    requires forall i | 0 <= i < |cs| :: OneLineSeen(cs[i])
    ensures OneLineEach(ContactsLines(cs))
  {
    if cs != [] {
      ContactOnLines(cs[0]);
      ContactsOnLines(cs[1..]);
    }
  }

  lemma {:induction false} HostsOnLines(hs: seq<SeenHost>)
    requires forall i | 0 <= i < |hs| :: OneLine(hs[i].name) && OneLineEach(hs[i].ipv4)
    ensures OneLineEach(HostsLines(hs))
  {
    if hs != [] {
      LabelledOnLines(IP_LABEL, hs[0].ipv4);
      HostsOnLines(hs[1..]);
    }
  }

  lemma LabelsOnLines()
    ensures OneLineEach(HEAD_LABELS) && OneLineEach(FOOT_LABELS)
  {}

  lemma NoticeOnLines(n: Notice)
    requires OneLine(n.ldhName) && OneLineEach(HeadValues(n)) && OneLineEach(ContactsLines(n.contacts)) && OneLineEach(HostsLines(n.hosts))
             && OneLineEach(FootValues(n))
    ensures OneLineEach(NoticeLines(n))
  {
    LabelsOnLines();
    FieldsOnLines(HEAD_LABELS, HeadValues(n));
    FieldsOnLines(FOOT_LABELS, FootValues(n));
    assert OneLineEach(FootLines(n)) && OneLineEach(HostBlock(n.hosts));
  }

  lemma DnssecOnLine(signed: bool)
    ensures OneLine(if signed then "signedDelegation" else "unsignedDelegation")
  {}

  lemma ValuesOnLines(d: WhoisDomain)
    requires OneLineRecord(d)
    ensures OneLineEach(HeadValues(Visible(d))) && OneLineEach(FootValues(Visible(d)))
  {
    JoinedOnLine(d.status, " ");
    DnssecOnLine(d.dnssec);
    var n := Visible(d);
    assert OneLine(n.unicodeName) && OneLine(n.dnssec) && OneLine(n.status);
  }

  lemma VisibleIsWellFormed(d: WhoisDomain)
    requires OneLineRecord(d)
    ensures WellFormed(Visible(d))
  {
    AllSeenOnLines(d.contacts);
    ContactsOnLines(SeeAll(d.contacts));
    HostsOnLines(SeeHosts(d.nameservers));
    ValuesOnLines(d);
    NoticeOnLines(Visible(d));
  }

  /** Reading the rendered text gives back every field of the record that it shows, each in its own place. */
  lemma RenderReadsBack(d: WhoisDomain)
    requires OneLineRecord(d)
    ensures ReadNotice(Render(d)) == Visible(d)
  {
    RenderIsWritten(d);
    VisibleIsWellFormed(d);
    NoticeIsRead(Visible(d));
  }

  /** The text tells exactly what is to be seen: two records have one text exactly when they show the same. */
  lemma TextTellsVisible(d: WhoisDomain, e: WhoisDomain)
    requires OneLineRecord(d) && OneLineRecord(e)
    ensures Render(d) == Render(e) <==> Visible(d) == Visible(e)
  {
    RenderReadsBack(d);
    RenderReadsBack(e);
    RenderIsWritten(d);
    RenderIsWritten(e);
  }
}
