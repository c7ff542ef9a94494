/**
 jCard (RFC 7095): the printer of the service and the parser of the SQL stores, over JSON values.
 */
module JCard {
  import opened Wrappers

  datatype Json = Null | Bool(b: bool) | Number(n: int) | Str(s: string) | Arr(items: seq<Json>) | Obj(fields: map<string, Json>)

  datatype VCardAddress = VCardAddress(countryCode: string, poBox: string, extended: string, street: string,
                                       locality: string, region: string, postalCode: string, countryName: string)

  datatype VCard = VCard(version: string, fullName: string, kind: string, organization: string,
                         address: Option<VCardAddress>, voiceTel: string, faxTel: string,
                         email: string, contactURI: string)

  // ---------- the printer ----------

  function Property(name: string, params: map<string, Json>, kind: string, value: Json): Json {
    Arr([Str(name), Obj(params), Str(kind), value])
  }

  function TextUnlessEmpty(name: string, kind: string, text: string): seq<Json> {
    if text != "" then [Property(name, map[], kind, Str(text))] else []
  }

  /** The telephone type is written as an array of one string. */
  function TelProperty(telType: string, text: string): Json {
    Property("tel", map["type" := Arr([Str(telType)])], "uri", Str(text))
  }

  function TelUnlessEmpty(telType: string, text: string): seq<Json> {
    if text != "" then [TelProperty(telType, text)] else []
  }

  function AddressProperty(a: VCardAddress): Json {
    Property("adr", if a.countryCode != "" then map["cc" := Str(a.countryCode)] else map[], "text",
             Arr([Str(a.poBox), Str(a.extended), Str(a.street), Str(a.locality), Str(a.region), Str(a.postalCode), Str(a.countryName)]))
  }

  function Header(fn: string): seq<Json> {
    [Property("version", map[], "text", Str("4.0")), Property("fn", map[], "text", Str(fn))]
  }

  function PrintedName(v: Option<VCard>, fallbackName: string): string {
    if v.Some? && v.value.fullName != "" then v.value.fullName else fallbackName
  }

  function Properties(v: Option<VCard>, fallbackName: string): seq<Json> {
    var props := Header(PrintedName(v, fallbackName));
    if v.None? then props
    else
      var c := v.value;
      var props := props + TextUnlessEmpty("kind", "text", c.kind);
      var props := props + TextUnlessEmpty("org", "text", c.organization);
      var props := props + (if c.address.Some? then [AddressProperty(c.address.value)] else []);
      var props := props + TelUnlessEmpty("voice", c.voiceTel);
      var props := props + TelUnlessEmpty("fax", c.faxTel);
      var props := props + TextUnlessEmpty("email", "text", c.email);
      props + TextUnlessEmpty("contact-uri", "uri", c.contactURI)
  }

  function VCardToJCard(v: Option<VCard>, fallbackName: string): Json {
    Arr([Str("vcard"), Arr(Properties(v, fallbackName))])
  }

  // ---------- what a list of properties says ----------

  function Text(v: Json): string { if v.Str? then v.s else "" }

  function Param(prop: seq<Json>, key: string): string
    requires |prop| >= 4
  {
    if prop[1].Obj? && key in prop[1].fields then Text(prop[1].fields[key]) else ""
  }

  /** A property the parser looks at: an array of at least four values, known by its first. */
  predicate Named(p: Json, name: string) {
    p.Arr? && |p.items| >= 4 && p.items[0] == Str(name)
  }

  predicate NamedText(p: Json, name: string) { Named(p, name) && p.items[3].Str? }

  /** The last well-typed value given for a text property, or the empty string. */
  function LastText(props: seq<Json>, name: string): string {
    if props == [] then ""
    else if NamedText(props[|props| - 1], name) then props[|props| - 1].items[3].s
    else LastText(props[..|props| - 1], name)
  }

  /** The parser takes a number for a fax only when the type parameter is the string "fax". */
  predicate TelOf(p: Json, fax: bool) {
    NamedText(p, "tel") && (Param(p.items, "type") == "fax") == fax
  }

  function LastTel(props: seq<Json>, fax: bool): string {
    if props == [] then ""
    else if TelOf(props[|props| - 1], fax) then props[|props| - 1].items[3].s
    else LastTel(props[..|props| - 1], fax)
  }

  function AddressOf(prop: seq<Json>): VCardAddress
    requires |prop| >= 4
  {
    var cc := Param(prop, "cc");
    if prop[3].Arr? && |prop[3].items| >= 7 then
      var vals := prop[3].items;
      VCardAddress(cc, Text(vals[0]), Text(vals[1]), Text(vals[2]), Text(vals[3]), Text(vals[4]), Text(vals[5]), Text(vals[6]))
    else
      VCardAddress(cc, "", "", "", "", "", "", "")
  }

  function LastAddress(props: seq<Json>): Option<VCardAddress> {
    if props == [] then None
    else if Named(props[|props| - 1], "adr") then Some(AddressOf(props[|props| - 1].items))
    else LastAddress(props[..|props| - 1])
  }

  function CardOf(props: seq<Json>): VCard {
    VCard("4.0", LastText(props, "fn"), LastText(props, "kind"), LastText(props, "org"), LastAddress(props),
          LastTel(props, false), LastTel(props, true), LastText(props, "email"), LastText(props, "contact-uri"))
  }

  function Parsed(raw: Option<Json>): Option<VCard> {
    if raw.Some? && raw.value.Arr? && |raw.value.items| >= 2 && raw.value.items[1].Arr?
    then Some(CardOf(raw.value.items[1].items))
    else None
  }

  // ---------- the parser ----------

  /** One pass over the properties; raw is None when the text is not JSON. */
  method ParseVCardJSON(raw: Option<Json>) returns (card: Option<VCard>)
    ensures card == Parsed(raw)
  {
    if raw.None? || !raw.value.Arr? {
      return None;
    }
    var arr := raw.value.items;
    if |arr| < 2 {
      return None;
    }
    if !arr[1].Arr? {
      return None;
    }
    var props := arr[1].items;
    var v := VCard("4.0", "", "", "", None, "", "", "", "");
    var adr: Option<VCardAddress> := None;
    for i := 0 to |props|
      invariant v.(address := adr) == CardOf(props[..i])
      invariant v.address.None?
    {
      assert props[..i + 1][..i] == props[..i];
      var p := props[i];
      if !p.Arr? || |p.items| < 4 {
        continue;
      }
      var prop := p.items;
      var name := Text(prop[0]);
      var value := prop[3];
      match name {
        case "fn" => if value.Str? { v := v.(fullName := value.s); }
        case "kind" => if value.Str? { v := v.(kind := value.s); }
        case "org" => if value.Str? { v := v.(organization := value.s); }
        case "tel" =>
          if value.Str? {
            if Param(prop, "type") == "fax" {
              v := v.(faxTel := value.s);
            } else {
              v := v.(voiceTel := value.s);
            }
          }
        case "email" => if value.Str? { v := v.(email := value.s); }
        case "contact-uri" => if value.Str? { v := v.(contactURI := value.s); }
        case "adr" =>
          adr := Some(VCardAddress(Param(prop, "cc"), "", "", "", "", "", "", ""));
          if value.Arr? && |value.items| >= 7 {
            var vals := value.items;
            adr := Some(adr.value.(poBox := Text(vals[0]), extended := Text(vals[1]), street := Text(vals[2]),
                                   locality := Text(vals[3]), region := Text(vals[4]), postalCode := Text(vals[5]),
                                   countryName := Text(vals[6])));
          }
        case _ =>
      }
    }
    assert props[..|props|] == props;
    if adr.Some? {
      v := v.(address := adr);
    }
    return Some(v);
  }

  // ---------- one property at a time ----------

  datatype Field = FullName | Kind | Organization | Voice | Fax | Email | ContactURI | Address | Ignored

  /** The field of the card that a property sets. */
  function FieldOf(p: Json): Field {
    if NamedText(p, "fn") then FullName
    else if NamedText(p, "kind") then Kind
    else if NamedText(p, "org") then Organization
    else if TelOf(p, true) then Fax
    else if TelOf(p, false) then Voice
    else if NamedText(p, "email") then Email
    else if NamedText(p, "contact-uri") then ContactURI
    else if Named(p, "adr") then Address
    else Ignored
  }

  function Set(v: VCard, field: Field, text: string, address: Option<VCardAddress>): VCard {
    match field
    case FullName => v.(fullName := text)
    case Kind => v.(kind := text)
    case Organization => v.(organization := text)
    case Voice => v.(voiceTel := text)
    case Fax => v.(faxTel := text)
    case Email => v.(email := text)
    case ContactURI => v.(contactURI := text)
    case Address => v.(address := address)
    case Ignored => v
  }

  function TextValue(p: Json): string {
    if p.Arr? && |p.items| >= 4 then Text(p.items[3]) else ""
  }

  function AddressValue(p: Json): Option<VCardAddress> {
    if Named(p, "adr") then Some(AddressOf(p.items)) else None
  }

  /** What one property does to the card read so far. */
  function Apply(v: VCard, p: Json): VCard { Set(v, FieldOf(p), TextValue(p), AddressValue(p)) }

  lemma CardOfAppend(props: seq<Json>, p: Json)
    ensures CardOf(props + [p]) == Apply(CardOf(props), p)
  {
    assert (props + [p])[..|props|] == props;
  }

  lemma {:induction false} SameCardSameContinuation(a: seq<Json>, b: seq<Json>, rest: seq<Json>)
    requires CardOf(a) == CardOf(b)
    ensures CardOf(a + rest) == CardOf(b + rest)
  {
    if rest == [] {
      assert a + rest == a && b + rest == b;
    } else {
      var front, p := rest[..|rest| - 1], rest[|rest| - 1];
      SameCardSameContinuation(a, b, front);
      assert a + rest == (a + front) + [p] && b + rest == (b + front) + [p];
      CardOfAppend(a + front, p);
      CardOfAppend(b + front, p);
    }
  }

  // ---------- round trip ----------

  /** What printing and reading back makes of a card. */
  function Canon(v: Option<VCard>, fallbackName: string): VCard {
    match v
    case None => VCard("4.0", fallbackName, "", "", None, "", "", "", "")
    case Some(c) =>
      VCard("4.0", if c.fullName != "" then c.fullName else fallbackName, c.kind, c.organization, c.address,
            if c.faxTel != "" then c.faxTel else c.voiceTel, "", c.email, c.contactURI)
  }

  function WithText(v: VCard, name: string, text: string): VCard {
    if text == "" then v
    else if name == "kind" then v.(kind := text)
    else if name == "org" then v.(organization := text)
    else if name == "email" then v.(email := text)
    else if name == "contact-uri" then v.(contactURI := text)
    else v
  }

  lemma AppendText(props: seq<Json>, name: string, kind: string, text: string)
    requires name in {"kind", "org", "email", "contact-uri"}
    ensures CardOf(props + TextUnlessEmpty(name, kind, text)) == WithText(CardOf(props), name, text)
  {
    if text != "" {
      CardOfAppend(props, Property(name, map[], kind, Str(text)));
    } else {
      assert props + [] == props;
    }
  }

  // Its type is an array, which the parser does not take for a string.
  lemma TelIsVoice(telType: string, text: string)
    ensures var p := TelProperty(telType, text);
            FieldOf(p) == Voice && TextValue(p) == text
  {
    var p := TelProperty(telType, text);
    var items := p.items;
    assert items[1].fields["type"] == Arr([Str(telType)]);
    assert Param(items, "type") == "";
    assert "tel"[0] != "fn"[0] && "tel"[0] != "kind"[0] && "tel"[0] != "org"[0];
    assert items[0] == Str("tel") && items[3] == Str(text);
  }

  /** A printed number is read as a voice number, whichever kind it was. */
  lemma AppendTel(props: seq<Json>, telType: string, text: string)
    ensures CardOf(props + TelUnlessEmpty(telType, text))
            == if text != "" then CardOf(props).(voiceTel := text) else CardOf(props)
  {
    if text != "" {
      TelIsVoice(telType, text);
      CardOfAppend(props, TelProperty(telType, text));
      assert TelUnlessEmpty(telType, text) == [TelProperty(telType, text)];
    } else {
      assert props + [] == props;
    }
  }

  lemma AppendAddress(props: seq<Json>, address: Option<VCardAddress>)
    ensures CardOf(props + (if address.Some? then [AddressProperty(address.value)] else []))
            == if address.Some? then CardOf(props).(address := address) else CardOf(props)
  {
    if address.Some? {
      var p := AddressProperty(address.value);
      CardOfAppend(props, p);
      assert Param(p.items, "cc") == address.value.countryCode;
    } else {
      assert props + [] == props;
    }
  }

  lemma HeaderCard(fn: string)
    ensures CardOf(Header(fn)) == VCard("4.0", fn, "", "", None, "", "", "", "")
  {
    var version, name := Property("version", map[], "text", Str("4.0")), Property("fn", map[], "text", Str(fn));
    CardOfAppend([], version);
    CardOfAppend([version], name);
    assert [] + [version] == [version] && [version] + [name] == Header(fn);
  }

  lemma AppendIdentity(props: seq<Json>, c: VCard)
    ensures CardOf(props + TextUnlessEmpty("kind", "text", c.kind) + TextUnlessEmpty("org", "text", c.organization)
                   + (if c.address.Some? then [AddressProperty(c.address.value)] else []))
            == var v := WithText(WithText(CardOf(props), "kind", c.kind), "org", c.organization);
               if c.address.Some? then v.(address := c.address) else v
  {
    AppendText(props, "kind", "text", c.kind);
    var kinds := props + TextUnlessEmpty("kind", "text", c.kind);
    AppendText(kinds, "org", "text", c.organization);
    AppendAddress(kinds + TextUnlessEmpty("org", "text", c.organization), c.address);
  }

  lemma AppendReach(props: seq<Json>, c: VCard)
    ensures CardOf(props + TelUnlessEmpty("voice", c.voiceTel) + TelUnlessEmpty("fax", c.faxTel)
                   + TextUnlessEmpty("email", "text", c.email) + TextUnlessEmpty("contact-uri", "uri", c.contactURI))
            == var tel := if c.faxTel != "" then c.faxTel else c.voiceTel;
               var v := if tel != "" then CardOf(props).(voiceTel := tel) else CardOf(props);
               WithText(WithText(v, "email", c.email), "contact-uri", c.contactURI)
  {
    AppendTel(props, "voice", c.voiceTel);
    var voice := props + TelUnlessEmpty("voice", c.voiceTel);
    AppendTel(voice, "fax", c.faxTel);
    var tels := voice + TelUnlessEmpty("fax", c.faxTel);
    AppendText(tels, "email", "text", c.email);
    AppendText(tels + TextUnlessEmpty("email", "text", c.email), "contact-uri", "uri", c.contactURI);
  }

  /** Reading back a printed card gives its canonical form. */
  lemma RoundTrip(v: Option<VCard>, fallbackName: string)
    ensures Parsed(Some(VCardToJCard(v, fallbackName))) == Some(Canon(v, fallbackName))
  {
    var props := Header(PrintedName(v, fallbackName));
    HeaderCard(PrintedName(v, fallbackName));
    if v.Some? {
      var c := v.value;
      AppendIdentity(props, c);
      AppendReach(props + TextUnlessEmpty("kind", "text", c.kind) + TextUnlessEmpty("org", "text", c.organization)
                  + (if c.address.Some? then [AddressProperty(c.address.value)] else []), c);
    }
    assert CardOf(Properties(v, fallbackName)) == Canon(v, fallbackName);
  }

  /** A card survives printing and reading exactly when it is a named 4.0 card without a fax number. */
  lemma RoundTripIsIdentityIff(v: VCard, fallbackName: string)
    ensures Parsed(Some(VCardToJCard(Some(v), fallbackName))) == Some(v)
            <==> v.version == "4.0" && (v.fullName != "" || fallbackName == "") && v.faxTel == ""
  {
    RoundTrip(Some(v), fallbackName);
  }

  /** A second round trip changes nothing, so whatever was once read back is printed for good. */
  lemma SecondRoundTrip(v: Option<VCard>, fallbackName: string)
    ensures var once := Parsed(Some(VCardToJCard(v, fallbackName)));
            Parsed(Some(VCardToJCard(once, fallbackName))) == once
  {
    RoundTrip(v, fallbackName);
    RoundTrip(Some(Canon(v, fallbackName)), fallbackName);
  }

  // ---------- property by property, as written in the document ----------

  /** ["name", _, _, "text", ...] */
  predicate IsText(p: Json, name: string) { p.Arr? && |p.items| >= 4 && p.items[0] == Str(name) && p.items[3].Str? }

  /** {"type": "fax", ...} as the second value. */
  predicate TypedFax(p: Json)
    requires p.Arr? && |p.items| >= 4
  {
    p.items[1].Obj? && "type" in p.items[1].fields && p.items[1].fields["type"] == Str("fax")
  }

  predicate FaxNumber(p: Json) { IsText(p, "tel") && TypedFax(p) }

  predicate VoiceNumber(p: Json) { IsText(p, "tel") && !TypedFax(p) }

  predicate IsAddress(p: Json) { p.Arr? && |p.items| >= 4 && p.items[0] == Str("adr") }

  lemma {:induction false} LastTextOf(props: seq<Json>, n: nat, name: string)
    requires n <= |props| && forall i | n <= i < |props| :: !IsText(props[i], name)
    ensures LastText(props, name) == if n > 0 && IsText(props[n - 1], name) then props[n - 1].items[3].s else LastText(props[..n], name)
  {
    if n < |props| {
      LastTextOf(props[..|props| - 1], n, name);
      assert props[..|props| - 1][..n] == props[..n];
    } else {
      assert props[..n] == props;
    }
  }

  /** The last text given for a name is the value of its field, and a field without one is empty. */
  lemma TextIsRead(props: seq<Json>, n: nat, name: string)
    requires n <= |props| && forall i | n <= i < |props| :: !IsText(props[i], name)
    requires n > 0 ==> IsText(props[n - 1], name)
    ensures var v, x := CardOf(props), if n > 0 then props[n - 1].items[3].s else "";
            (name == "fn" ==> v.fullName == x) && (name == "kind" ==> v.kind == x) && (name == "org" ==> v.organization == x)
            && (name == "email" ==> v.email == x) && (name == "contact-uri" ==> v.contactURI == x)
  {
    LastTextOf(props, n, name);
  }

  lemma {:induction false} LastTelOf(props: seq<Json>, n: nat, fax: bool)
    requires n <= |props| && forall i | n <= i < |props| :: !(if fax then FaxNumber(props[i]) else VoiceNumber(props[i]))
    requires n > 0 ==> if fax then FaxNumber(props[n - 1]) else VoiceNumber(props[n - 1])
    ensures LastTel(props, fax) == if n > 0 then props[n - 1].items[3].s else ""
  {
    forall p: Json
      ensures TelOf(p, true) <==> FaxNumber(p)
      ensures TelOf(p, false) <==> VoiceNumber(p)
    {
      TelTypes(p);
    }
    if n < |props| {
      LastTelOf(props[..|props| - 1], n, fax);
    }
  }

  lemma TelTypes(p: Json)
    ensures TelOf(p, true) <==> FaxNumber(p)
    ensures TelOf(p, false) <==> VoiceNumber(p)
  {
    if IsText(p, "tel") && p.items[1].Obj? && "type" in p.items[1].fields {
      var t := p.items[1].fields["type"];
      assert Param(p.items, "type") == if t.Str? then t.s else "";
    }
  }

  /** The last number whose type is the text "fax" is the fax number. */
  lemma FaxIsRead(props: seq<Json>, n: nat)
    requires n <= |props| && (forall i | n <= i < |props| :: !FaxNumber(props[i])) && (n > 0 ==> FaxNumber(props[n - 1]))
    ensures CardOf(props).faxTel == if n > 0 then props[n - 1].items[3].s else ""
  {
    LastTelOf(props, n, true);
  }

  /** The last number of any other type, or of none, is the voice number. */
  lemma VoiceIsRead(props: seq<Json>, n: nat)
    requires n <= |props| && (forall i | n <= i < |props| :: !VoiceNumber(props[i])) && (n > 0 ==> VoiceNumber(props[n - 1]))
    ensures CardOf(props).voiceTel == if n > 0 then props[n - 1].items[3].s else ""
  {
    LastTelOf(props, n, false);
  }

  /** The text at one place of an address, empty when it is not text. */
  predicate Place(part: string, value: Json) { part == if value.Str? then value.s else "" }

  /** The parts of the address, place by place. */
  predicate ReadsAddress(a: VCardAddress, p: Json)
    requires IsAddress(p)
  {
    var params, value := p.items[1], p.items[3];
    a.countryCode == (if params.Obj? && "cc" in params.fields && params.fields["cc"].Str? then params.fields["cc"].s else "")
    && if value.Arr? && |value.items| >= 7 then
         Place(a.poBox, value.items[0]) && Place(a.extended, value.items[1]) && Place(a.street, value.items[2])
         && Place(a.locality, value.items[3]) && Place(a.region, value.items[4]) && Place(a.postalCode, value.items[5])
         && Place(a.countryName, value.items[6])
       else
         a.poBox == a.extended == a.street == a.locality == a.region == a.postalCode == a.countryName == ""
  }

  /** The last address property is the address. */
  lemma {:induction false} AddressIsRead(props: seq<Json>, n: nat)
    requires n <= |props| && (forall i | n <= i < |props| :: !IsAddress(props[i])) && (n > 0 ==> IsAddress(props[n - 1]))
    ensures if n == 0 then CardOf(props).address == None
            else CardOf(props).address.Some? && ReadsAddress(CardOf(props).address.value, props[n - 1])
  {
    if n < |props| {
      AddressIsRead(props[..|props| - 1], n);
    }
  }

  /** Only a document whose second value is an array is a card, always of version 4.0. */
  lemma DocumentIsRead(raw: Option<Json>)
    ensures Parsed(raw).Some? <==> raw.Some? && raw.value.Arr? && |raw.value.items| >= 2 && raw.value.items[1].Arr?
    ensures Parsed(raw).Some? ==> Parsed(raw).value == CardOf(raw.value.items[1].items) && Parsed(raw).value.version == "4.0"
  {}

  /** One when the text is there to be printed. */
  function One(text: string): nat { if text != "" then 1 else 0 }

  predicate PrintedText(props: seq<Json>, name: string, kind: string, text: string) {
    text != "" ==> Arr([Str(name), Obj(map[]), Str(kind), Str(text)]) in props
  }

  predicate PrintedTel(props: seq<Json>, telType: string, text: string) {
    text != "" ==> Arr([Str("tel"), Obj(map["type" := Arr([Str(telType)])]), Str("uri"), Str(text)]) in props
  }

  /** The printed document: a version, a name, and one property for every other field that is not empty. */
  lemma PrintedDocument(v: Option<VCard>, fallbackName: string)
    ensures var doc := VCardToJCard(v, fallbackName);
            doc.Arr? && |doc.items| == 2 && doc.items[0] == Str("vcard") && doc.items[1].Arr? && |doc.items[1].items| >= 2
    ensures var props := VCardToJCard(v, fallbackName).items[1].items;
            props[0] == Arr([Str("version"), Obj(map[]), Str("text"), Str("4.0")])
            && props[1] == Arr([Str("fn"), Obj(map[]), Str("text"), Str(if v.Some? && v.value.fullName != "" then v.value.fullName else fallbackName)])
            && (v.None? ==> |props| == 2)
            && (v.Some? ==> PrintedFields(props, v.value))
  {
    if v.Some? {
      PropertiesAreFields(v.value, PrintedName(v, fallbackName));
    }
  }

  predicate PrintedFields(props: seq<Json>, c: VCard) {
    PrintedText(props, "kind", "text", c.kind) && PrintedText(props, "org", "text", c.organization)
    && PrintedText(props, "email", "text", c.email) && PrintedText(props, "contact-uri", "uri", c.contactURI)
    && PrintedTel(props, "voice", c.voiceTel) && PrintedTel(props, "fax", c.faxTel)
    && (c.address.Some? ==>
          var a := c.address.value;
          Arr([Str("adr"), Obj(if a.countryCode != "" then map["cc" := Str(a.countryCode)] else map[]), Str("text"),
               Arr([Str(a.poBox), Str(a.extended), Str(a.street), Str(a.locality), Str(a.region), Str(a.postalCode), Str(a.countryName)])]) in props)
    && |props| == 2 + One(c.kind) + One(c.organization) + (if c.address.Some? then 1 else 0) + One(c.voiceTel) + One(c.faxTel)
                    + One(c.email) + One(c.contactURI)
  }

  lemma PropertiesAreFields(c: VCard, fn: string)
    ensures var props := Header(fn) + TextUnlessEmpty("kind", "text", c.kind) + TextUnlessEmpty("org", "text", c.organization)
                         + (if c.address.Some? then [AddressProperty(c.address.value)] else [])
                         + TelUnlessEmpty("voice", c.voiceTel) + TelUnlessEmpty("fax", c.faxTel)
                         + TextUnlessEmpty("email", "text", c.email) + TextUnlessEmpty("contact-uri", "uri", c.contactURI);
            PrintedFields(props, c) && props[0] == Header(fn)[0] && props[1] == Header(fn)[1]
  {
    var kind, org := TextUnlessEmpty("kind", "text", c.kind), TextUnlessEmpty("org", "text", c.organization);
    var adr := if c.address.Some? then [AddressProperty(c.address.value)] else [];
    var voice, fax := TelUnlessEmpty("voice", c.voiceTel), TelUnlessEmpty("fax", c.faxTel);
    var email, uri := TextUnlessEmpty("email", "text", c.email), TextUnlessEmpty("contact-uri", "uri", c.contactURI);
    Together(Header(fn), kind, org, adr, voice, fax, email, uri);
    OneText("kind", "text", c.kind);
    OneText("org", "text", c.organization);
    OneTel("voice", c.voiceTel);
    OneTel("fax", c.faxTel);
    OneText("email", "text", c.email);
    OneText("contact-uri", "uri", c.contactURI);
  }

  lemma OneText(name: string, kind: string, text: string)
    ensures PrintedText(TextUnlessEmpty(name, kind, text), name, kind, text) && |TextUnlessEmpty(name, kind, text)| == One(text)
  {}

  lemma OneTel(telType: string, text: string)
    ensures PrintedTel(TelUnlessEmpty(telType, text), telType, text) && |TelUnlessEmpty(telType, text)| == One(text)
  {}

  lemma Together(a: seq<Json>, b: seq<Json>, c: seq<Json>, d: seq<Json>, e: seq<Json>, f: seq<Json>, g: seq<Json>, h: seq<Json>)
    ensures var all := a + b + c + d + e + f + g + h;
            |all| == |a| + |b| + |c| + |d| + |e| + |f| + |g| + |h| && a <= all
            && forall x :: x in all <==> x in a || x in b || x in c || x in d || x in e || x in f || x in g || x in h
  {}

  // ---------- noise and order ----------

  /** Not an array of four values, or not one of the names the parser knows, or text of another type. */
  predicate Noise(p: Json) {
    !Named(p, "adr")
    && forall name | name in {"fn", "kind", "org", "tel", "email", "contact-uri"} :: !NamedText(p, name)
  }

  /** Noise may be inserted anywhere. */
  lemma NoiseIsIgnored(before: seq<Json>, p: Json, after: seq<Json>)
    requires Noise(p)
    ensures CardOf(before + [p] + after) == CardOf(before + after)
  {
    CardOfAppend(before, p);
    SameCardSameContinuation(before + [p], before, after);
  }

  lemma DifferentNames(p: Json, q: Json)
    requires p.Arr? && q.Arr? && |p.items| > 0 && |q.items| > 0 && p.items[0] != q.items[0]
    ensures FieldOf(p) != FieldOf(q) || FieldOf(p).Ignored?
  {}

  lemma CardOfTwo(props: seq<Json>, p: Json, q: Json)
    ensures CardOf(props + [p, q]) == Apply(Apply(CardOf(props), p), q)
  {
    CardOfAppend(props, p);
    CardOfAppend(props + [p], q);
    assert props + [p, q] == props + [p] + [q];
  }

  /** Neighbours of different names may be exchanged, and so may any two that set different fields. */
  lemma NeighboursCommute(before: seq<Json>, p: Json, q: Json, after: seq<Json>)
    requires FieldOf(p) != FieldOf(q)
             || (p.Arr? && q.Arr? && |p.items| > 0 && |q.items| > 0 && p.items[0] != q.items[0])
    ensures CardOf(before + [p, q] + after) == CardOf(before + [q, p] + after)
  {
    if FieldOf(p) == FieldOf(q) {
      DifferentNames(p, q);
    }
    CardOfTwo(before, p, q);
    CardOfTwo(before, q, p);
    SetsCommute(CardOf(before), FieldOf(p), TextValue(p), AddressValue(p), FieldOf(q), TextValue(q), AddressValue(q));
    SameCardSameContinuation(before + [p, q], before + [q, p], after);
  }

  lemma SetsCommute(v: VCard, f: Field, s: string, a: Option<VCardAddress>, g: Field, t: string, b: Option<VCardAddress>)
    requires f != g || f.Ignored?
    ensures Set(Set(v, f, s, a), g, t, b) == Set(Set(v, g, t, b), f, s, a)
  {}

  /** Of two properties for one field the later decides, whatever stands between them. */
  lemma LaterWins(before: seq<Json>, p: Json, between: seq<Json>, q: Json, after: seq<Json>)
    requires FieldOf(p) == FieldOf(q)
    ensures CardOf(before + [p] + between + [q] + after) == CardOf(before + between + [q] + after)
  {
    CardOfAppend(before, p);
    assert SameBut(CardOf(before), CardOf(before + [p]), FieldOf(p));
    SameUpToField(before + [p], before, FieldOf(q), between);
    CardOfAppend(before + [p] + between, q);
    CardOfAppend(before + between, q);
    var s, d :| Set(CardOf(before + between), FieldOf(q), s, d) == CardOf(before + [p] + between);
    SetTwice(CardOf(before + between), FieldOf(q), s, d, TextValue(q), AddressValue(q));
    SameCardSameContinuation(before + [p] + between + [q], before + between + [q], after);
  }

  /** The two cards differ at most in the given field. */
  ghost predicate SameBut(v: VCard, w: VCard, field: Field) {
    exists s: string, a: Option<VCardAddress> :: Set(v, field, s, a) == w
  }

  lemma {:induction false} SameUpToField(a: seq<Json>, b: seq<Json>, field: Field, rest: seq<Json>)
    requires SameBut(CardOf(b), CardOf(a), field)
    ensures SameBut(CardOf(b + rest), CardOf(a + rest), field)
  {
    if rest == [] {
      assert a + rest == a && b + rest == b;
    } else {
      var front, p := rest[..|rest| - 1], rest[|rest| - 1];
      SameUpToField(a, b, field, front);
      assert a + rest == (a + front) + [p] && b + rest == (b + front) + [p];
      CardOfAppend(a + front, p);
      CardOfAppend(b + front, p);
      var s, d :| Set(CardOf(b + front), field, s, d) == CardOf(a + front);
      if field == FieldOf(p) {
        SetTwice(CardOf(b + front), field, s, d, TextValue(p), AddressValue(p));
        SetTwice(CardOf(b + front), field, TextValue(p), AddressValue(p), TextValue(p), AddressValue(p));
      } else {
        SetsCommute(CardOf(b + front), field, s, d, FieldOf(p), TextValue(p), AddressValue(p));
      }
    }
  }

  lemma SetTwice(v: VCard, f: Field, s: string, a: Option<VCardAddress>, t: string, b: Option<VCardAddress>)
    ensures Set(Set(v, f, s, a), f, t, b) == Set(v, f, t, b)
  {}
}
