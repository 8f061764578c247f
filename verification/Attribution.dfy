/** How a payment is recorded: the canonical labels, the gateway text, and the rewrite applied on every write. */
module Attribution {
  import opened Seqs
  import opened Text

  // Canonical values.

  datatype Through = UshWeb | UshSpa | UshDesk
  datatype Provider = MyFatoorah | Tap | KnetPos | Boubyan
  datatype Method = KnetCard | ApplePay | DeemaLink | BoubyanLink | GiftVoucher

  function ThroughLabel(t: Through): string {
    match t
    case UshWeb => "ushweb"
    case UshSpa => "ushspa"
    case UshDesk => "ushdesk"
  }

  function ProviderLabel(p: Provider): string {
    match p
    case MyFatoorah => "myfatoorah"
    case Tap => "tap"
    case KnetPos => "knet_pos"
    case Boubyan => "boubyan"
  }

  function MethodLabel(m: Method): string {
    match m
    case KnetCard => "knet_card"
    case ApplePay => "apple_pay"
    case DeemaLink => "deema_link"
    case BoubyanLink => "boubyan_link"
    case GiftVoucher => "gift_voucher"
  }

  function ThroughOf(key: string): Option<Through> {
    if key in {"ushdesk", "desk", "pos", "counter", "reception", "frontdesk", "dashboard", "admin", "staff"} then
      Some(UshDesk)
    else if key in {"ushweb", "web", "website"} then Some(UshWeb)
    else if key in {"ushspa", "app", "mobile", "mobileapp", "ios", "android", "ushspaapp"} then Some(UshSpa)
    else None
  }

  function ProviderOf(key: string): Option<Provider> {
    if key in {"myfatoorah", "myfatora", "fatoorah", "paymentlink", "directlink", "direct"} then Some(MyFatoorah)
    else if key in {"deema", "deemapaymentlink", "deemalink", "tapdeema", "tap", "tapknet", "tapcard", "tapapplepay"}
    then Some(Tap)
    else if key in {"knetcard", "knetpos", "knetterminal"} then Some(KnetPos)
    else if key in {"boubyan", "boubyanlink"} then Some(Boubyan)
    else None
  }

  function MethodOf(key: string): Option<Method> {
    if key == "knetcard" then Some(KnetCard)
    else if key == "applepay" then Some(ApplePay)
    else if key == "deemalink" then Some(DeemaLink)
    else if key == "boubyanlink" then Some(BoubyanLink)
    else if key == "giftvoucher" then Some(GiftVoucher)
    else None
  }

  lemma {:induction false} ThroughLabelIsCanonical(t: Through)
    ensures ThroughOf(Key(ThroughLabel(t))) == Some(t)
  {
    KeyOfWord(ThroughLabel(t));
  }

  function ProviderKey(p: Provider): string {
    if p.KnetPos? then "knetpos" else ProviderLabel(p)
  }

  lemma {:induction false} KeyOfProvider(p: Provider)
    ensures Key(ProviderLabel(p)) == ProviderKey(p)
  {
    if p.KnetPos? {
      KeyOfTwoWords("knet", "pos");
      assert "knet_pos" == "knet" + "_" + "pos" && "knet" + "pos" == "knetpos";
    } else {
      KeyOfWord(ProviderLabel(p));
    }
  }

  lemma {:induction false} ProviderOfKey(p: Provider)
    ensures ProviderOf(ProviderKey(p)) == Some(p)
  {
  }

  lemma {:induction false} ProviderLabelIsCanonical(p: Provider)
    ensures ProviderOf(Key(ProviderLabel(p))) == Some(p)
  {
    KeyOfProvider(p);
    ProviderOfKey(p);
  }

  /** The two words a method label is made of. */
  function MethodWords(m: Method): (string, string) {
    match m
    case KnetCard => ("knet", "card")
    case ApplePay => ("apple", "pay")
    case DeemaLink => ("deema", "link")
    case BoubyanLink => ("boubyan", "link")
    case GiftVoucher => ("gift", "voucher")
  }

  lemma {:induction false} MethodLabelWords(m: Method)
    ensures MethodLabel(m) == MethodWords(m).0 + "_" + MethodWords(m).1
    ensures Letters(MethodWords(m).0) && Letters(MethodWords(m).1)
  {
  }

  lemma {:induction false} MethodOfWords(m: Method)
    ensures MethodOf(MethodWords(m).0 + MethodWords(m).1) == Some(m)
  {
    match m {
      case KnetCard => assert "knet" + "card" == "knetcard";
      case ApplePay => assert "apple" + "pay" == "applepay";
      case DeemaLink => assert "deema" + "link" == "deemalink";
      case BoubyanLink => assert "boubyan" + "link" == "boubyanlink";
      case GiftVoucher => assert "gift" + "voucher" == "giftvoucher";
    }
  }

  lemma {:induction false} MethodLabelIsCanonical(m: Method)
    ensures MethodOf(Key(MethodLabel(m))) == Some(m)
    ensures Strip(MethodLabel(m)) == MethodLabel(m) == Lower(MethodLabel(m))
  {
    MethodLabelWords(m);
    MethodOfWords(m);
    KeyOfTwoWords(MethodWords(m).0, MethodWords(m).1);
  }

  // The gateway text.

  /** A decoded JSON value; numbers and booleans play no part. */
  datatype Json = JNull | JOther | JText(text: string) | JList(items: seq<Json>) | JDict(entries: seq<Pair>)
  datatype Pair = Pair(key: string, value: Json)

  /** `json.loads`, as far as it matters: some strings decode to a tree. */
  type Parser = string -> Option<Json>

  predicate Whitelisted(key: string) {
    Lower(key) in {
      "paymentgateway", "payment_gateway", "paymentmethod", "payment_method",
      "gateway", "source", "invoicetransactions", "transactions", "data", "transaction"
    }
  }

  const MAX_DEPTH := 6

  /** What the walk collects below `v`, in order. */
  function Leaves(v: Json, depth: nat): seq<string>
    decreases v
  {
    if depth > MAX_DEPTH then []
    else
      match v
      case JText(s) => [s]
      case JList(items) => ItemLeaves(items, depth + 1)
      case JDict(entries) => EntryLeaves(entries, depth + 1)
      case _ => []
  }

  function ItemLeaves(items: seq<Json>, depth: nat): seq<string>
    decreases items
  {
    if items == [] then []
    else ItemLeaves(items[..|items| - 1], depth) + Leaves(items[|items| - 1], depth)
  }

  function EntryLeaves(entries: seq<Pair>, depth: nat): seq<string>
    decreases entries
  {
    if entries == [] then []
    else
      var last := entries[|entries| - 1];
      EntryLeaves(entries[..|entries| - 1], depth) + if Whitelisted(last.key) then Leaves(last.value, depth) else []
  }

  /** The pieces of text one source contributes: a string is decoded first if it looks like JSON. */
  function Parts(parse: Parser, source: Json): seq<string> {
    match source
    case JText(s) =>
      var stripped := Strip(s);
      if stripped != "" && stripped[0] in {'{', '['} && parse(stripped).Some? then Leaves(parse(stripped).value, 0)
      else [s]
    case _ => Leaves(source, 0)
  }

  function AllParts(parse: Parser, sources: seq<Json>): seq<string> {
    if sources == [] then []
    else AllParts(parse, sources[..|sources| - 1]) + Parts(parse, sources[|sources| - 1])
  }

  /** The reference notion behind every `"..." in text` test: some piece mentions the word, in any case. */
  ghost predicate Mentions(parse: Parser, source: Json, word: string) {
    exists p <- Parts(parse, source) :: Contains(Lower(p), word)
  }

  ghost predicate AnyMentions(parse: Parser, sources: seq<Json>, word: string) {
    exists s <- sources :: Mentions(parse, s, word)
  }

  lemma {:induction false} AllPartsMention(parse: Parser, sources: seq<Json>, word: string)
    ensures (exists p <- AllParts(parse, sources) :: Contains(Lower(p), word)) <==> AnyMentions(parse, sources, word)
  {
    if sources != [] {
      var front, last := sources[..|sources| - 1], sources[|sources| - 1];
      AllPartsMention(parse, front, word);
      assert sources == front + [last];
      var a, b := AllParts(parse, front), Parts(parse, last);
      assert AllParts(parse, sources) == a + b;
      if p :| p in a + b && Contains(Lower(p), word) {
        assert p in a || p in b;
        if p in b {
          assert Mentions(parse, last, word) && last in sources;
        } else {
          var s :| s in front && Mentions(parse, s, word);
          assert s in sources;
        }
      }
      if s :| s in sources && Mentions(parse, s, word) {
        if s == last {
          var p :| p in b && Contains(Lower(p), word);
          assert p in a + b;
        } else {
          assert s in front;
          var p :| p in a && Contains(Lower(p), word);
          assert p in a + b;
        }
      }
    }
  }

  method Walk(v: Json, depth: nat, parts: seq<string>) returns (parts': seq<string>)
    ensures parts' == parts + Leaves(v, depth)
    decreases v
  {
    parts' := parts;
    if depth > MAX_DEPTH {
      return;
    }
    match v {
      case JText(s) =>
        parts' := parts' + [s];
      case JDict(entries) =>
        for i := 0 to |entries|
          invariant parts' == parts + EntryLeaves(entries[..i], depth + 1)
        {
          assert entries[..i + 1][..i] == entries[..i];
          if Whitelisted(entries[i].key) {
            parts' := Walk(entries[i].value, depth + 1, parts');
          }
        }
        assert entries[..|entries|] == entries;
      case JList(items) =>
        for i := 0 to |items|
          invariant parts' == parts + ItemLeaves(items[..i], depth + 1)
        {
          assert items[..i + 1][..i] == items[..i];
          parts' := Walk(items[i], depth + 1, parts');
        }
        assert items[..|items|] == items;
      case _ =>
    }
  }

  method GatewayText(parse: Parser, sources: seq<Json>) returns (text: string)
    ensures text == Lower(Join(AllParts(parse, sources)))
  {
    var parts: seq<string> := [];
    for i := 0 to |sources|
      invariant parts == AllParts(parse, sources[..i])
    {
      assert sources[..i + 1][..i] == sources[..i];
      match sources[i] {
        case JText(s) =>
          var stripped := Strip(s);
          if stripped != "" && stripped[0] in {'{', '['} && parse(stripped).Some? {
            parts := Walk(parse(stripped).value, 0, parts);
          } else {
            parts := parts + [s];
          }
        case tree =>
          parts := Walk(tree, 0, parts);
      }
    }
    assert sources[..|sources|] == sources;
    text := Lower(Join(parts));
  }

  /** `word in text` for a gateway text: exactly when some piece of some source mentions the word. */
  method TextMentions(text: string, word: string, ghost parse: Parser, ghost sources: seq<Json>) returns (b: bool)
    requires text == Lower(Join(AllParts(parse, sources)))
    requires Letters(word)
    ensures b <==> AnyMentions(parse, sources, word)
  {
    b := Find(text, word);
    ContainsInJoin(AllParts(parse, sources), word);
    AllPartsMention(parse, sources, word);
  }

  // The payment method.

  ghost predicate CardWord(parse: Parser, sources: seq<Json>) {
    || AnyMentions(parse, sources, "knet") || AnyMentions(parse, sources, "visa")
    || AnyMentions(parse, sources, "master") || AnyMentions(parse, sources, "mada")
  }

  /** A word in the text settles the method, in this order of precedence. */
  ghost function NamedMethod(parse: Parser, sources: seq<Json>): Option<Method> {
    if AnyMentions(parse, sources, "apple") then Some(ApplePay)
    else if AnyMentions(parse, sources, "deema") then Some(DeemaLink)
    else if AnyMentions(parse, sources, "boubyan") then Some(BoubyanLink)
    else if AnyMentions(parse, sources, "voucher") then Some(GiftVoucher)
    else None
  }

  /** Otherwise the provider does; MyFatoorah only once a card word or a payment confirms it. */
  ghost function MethodFor(parse: Parser, sources: seq<Json>, provider: Option<Provider>, paid: bool): Option<Method> {
    if NamedMethod(parse, sources).Some? then NamedMethod(parse, sources)
    else
      match provider
      case None => None
      case Some(Tap) => Some(DeemaLink)
      case Some(Boubyan) => Some(BoubyanLink)
      case Some(KnetPos) => Some(KnetCard)
      case Some(MyFatoorah) => if CardWord(parse, sources) || paid then Some(KnetCard) else None
  }

  method FindNamedMethod(text: string, ghost parse: Parser, ghost sources: seq<Json>) returns (m: Option<Method>)
    requires text == Lower(Join(AllParts(parse, sources)))
    ensures m == NamedMethod(parse, sources)
  {
    var apple := TextMentions(text, "apple", parse, sources);
    if apple {
      return Some(ApplePay);
    }
    var deema := TextMentions(text, "deema", parse, sources);
    if deema {
      return Some(DeemaLink);
    }
    var boubyan := TextMentions(text, "boubyan", parse, sources);
    if boubyan {
      return Some(BoubyanLink);
    }
    var voucher := TextMentions(text, "voucher", parse, sources);
    return if voucher then Some(GiftVoucher) else None;
  }

  method FindCardWord(text: string, ghost parse: Parser, ghost sources: seq<Json>) returns (b: bool)
    requires text == Lower(Join(AllParts(parse, sources)))
    ensures b <==> CardWord(parse, sources)
  {
    var knet := TextMentions(text, "knet", parse, sources);
    var visa := TextMentions(text, "visa", parse, sources);
    var master := TextMentions(text, "master", parse, sources);
    var mada := TextMentions(text, "mada", parse, sources);
    b := knet || visa || master || mada;
  }

  method NormaliseMethod(parse: Parser, value: Json, provider: Option<Provider>, gateway: Json, data: Json, paid: bool)
    returns (m: Option<Method>)
    ensures m == MethodFor(parse, [value, gateway, data], provider, paid)
  {
    var sources := [value, gateway, data];
    var text := GatewayText(parse, sources);
    m := FindNamedMethod(text, parse, sources);
    if m.Some? {
      return;
    }
    if provider == Some(Tap) {
      return Some(DeemaLink);
    }
    if provider == Some(Boubyan) {
      return Some(BoubyanLink);
    }
    if provider == Some(KnetPos) {
      return Some(KnetCard);
    }
    if provider == Some(MyFatoorah) {
      var card := FindCardWord(text, parse, sources);
      if card || paid {
        return Some(KnetCard);
      }
    }
    return None;
  }

  // The record.

  /** A model attribute: the class may not have it, and a column may be NULL. */
  datatype Field = Absent | Holds(value: Option<string>)

  function TextOf(f: Field): string {
    if f.Holds? && f.value.Some? then f.value.value else ""
  }

  function SourceOf(f: Field): Json {
    if f.Holds? && f.value.Some? then JText(f.value.value) else JNull
  }

  /** `data` is NULL for a record without the attribute; `statuses` are the three status attributes as read. */
  datatype Obj = Obj(
    through: Field, provider: Field, payMethod: Field, gateway: Field, data: Json, statuses: seq<string>)

  predicate IsPaid(statuses: seq<string>) {
    exists s <- statuses :: Lower(Strip(s)) in {"success", "paid", "completed", "rewarded"}
  }

  predicate MeansNothing(gateway: string) {
    Lower(Strip(gateway)) in {"", "other", "unknown", "none", "null"}
  }

  /** Derived from gateway and method hints when the provider label itself is unclear. */
  ghost function HintedProvider(parse: Parser, hints: seq<Json>): Option<Provider> {
    if AnyMentions(parse, hints, "boubyan") then Some(Boubyan)
    else if AnyMentions(parse, hints, "deema") then Some(Tap)
    else None
  }

  method HintProvider(parse: Parser, gateway: Json, payMethod: Json) returns (p: Option<Provider>)
    ensures p == HintedProvider(parse, [gateway, payMethod])
  {
    var hints := [gateway, payMethod];
    var text := GatewayText(parse, hints);
    var boubyan := TextMentions(text, "boubyan", parse, hints);
    if boubyan {
      return Some(Boubyan);
    }
    var deema := TextMentions(text, "deema", parse, hints);
    return if deema then Some(Tap) else None;
  }

  ghost function ResolvedProvider(parse: Parser, o: Obj): Option<Provider> {
    if o.provider.Absent? then None
    else if ProviderOf(Key(TextOf(o.provider))).Some? then ProviderOf(Key(TextOf(o.provider)))
    else HintedProvider(parse, [SourceOf(o.gateway), SourceOf(o.payMethod)])
  }

  ghost function Sources(o: Obj): seq<Json> {
    [SourceOf(o.payMethod), SourceOf(o.gateway), o.data]
  }

  ghost function ResolvedMethod(parse: Parser, o: Obj): Option<Method> {
    if o.payMethod.Absent? then None
    else if MethodOf(Key(TextOf(o.payMethod))).Some? then MethodOf(Key(TextOf(o.payMethod)))
    else MethodFor(parse, Sources(o), ResolvedProvider(parse, o), IsPaid(o.statuses))
  }

  function ProviderText(p: Option<Provider>): Option<string> {
    if p.Some? then Some(ProviderLabel(p.value)) else None
  }

  function MethodText(m: Option<Method>): Option<string> {
    if m.Some? then Some(MethodLabel(m.value)) else None
  }

  function ThroughText(t: Option<Through>): Option<string> {
    if t.Some? then Some(ThroughLabel(t.value)) else None
  }

  /** The record after one `apply_attribution`. */
  ghost function Attributed(parse: Parser, o: Obj): Obj {
    var m := ResolvedMethod(parse, o);
    var p := if m == Some(GiftVoucher) then None else ResolvedProvider(parse, o);
    o.(
    through := if o.through.Absent? then Absent else Holds(ThroughText(ThroughOf(Key(TextOf(o.through))))),
    provider := if o.provider.Absent? then Absent else Holds(ProviderText(p)),
    payMethod := if o.payMethod.Absent? then Absent else Holds(MethodText(m)),
    gateway := if o.gateway.Holds? && MeansNothing(TextOf(o.gateway)) then Holds(None) else o.gateway
    )
  }

  class PaymentRecord {
    var through: Field
    var provider: Field
    var payMethod: Field
    var gateway: Field
    var data: Json
    var statuses: seq<string>

    ghost function View(): Obj
      reads this
    {
      Obj(through, provider, payMethod, gateway, data, statuses)
    }

    method ApplyAttribution(parse: Parser)
      modifies this
      ensures View() == Attributed(parse, old(View()))
    {
      if through.Holds? {
        through := Holds(ThroughText(ThroughOf(Key(TextOf(through)))));
      }
      var p: Option<Provider> := None;
      if provider.Holds? {
        p := ProviderOf(Key(TextOf(provider)));
        if p.None? {
          p := HintProvider(parse, SourceOf(gateway), SourceOf(payMethod));
        }
        provider := Holds(ProviderText(p));
      }
      if payMethod.Holds? {
        var m := MethodOf(Key(TextOf(payMethod)));
        if m.None? {
          m := NormaliseMethod(parse, SourceOf(payMethod), p, SourceOf(gateway), data, IsPaid(statuses));
        }
        payMethod := Holds(MethodText(m));
        if m == Some(GiftVoucher) && provider.Holds? {
          provider := Holds(None);
        }
      }
      if gateway.Holds? {
        if MeansNothing(TextOf(gateway)) {
          gateway := Holds(None);
        }
      }
    }
  }
}
