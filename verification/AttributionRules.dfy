/** The attribution rules as they are documented: what a record says after the rewrite, in stored labels. */
module AttributionRules {
  import opened Seqs
  import opened Text
  import opened Attribution
  import opened AttributionResults

  /** Some of what a record holds about how it was paid mentions the word. */
  ghost predicate Says(parse: Parser, o: Obj, word: string) {
    || Mentions(parse, SourceOf(o.payMethod), word)
    || Mentions(parse, SourceOf(o.gateway), word)
    || Mentions(parse, o.data, word)
  }

  lemma {:induction false} SaysIffMentioned(parse: Parser, o: Obj, word: string)
    ensures Says(parse, o, word) <==> AnyMentions(parse, Sources(o), word)
  {
    ThreeSources(parse, SourceOf(o.payMethod), SourceOf(o.gateway), o.data, word);
  }

  lemma {:induction false} KeywordsSaid(parse: Parser, o: Obj)
    ensures Says(parse, o, "apple") <==> AnyMentions(parse, Sources(o), "apple")
    ensures Says(parse, o, "deema") <==> AnyMentions(parse, Sources(o), "deema")
    ensures Says(parse, o, "boubyan") <==> AnyMentions(parse, Sources(o), "boubyan")
    ensures Says(parse, o, "voucher") <==> AnyMentions(parse, Sources(o), "voucher")
  {
    SaysIffMentioned(parse, o, "apple");
    SaysIffMentioned(parse, o, "deema");
    SaysIffMentioned(parse, o, "boubyan");
    SaysIffMentioned(parse, o, "voucher");
  }

  /** The method column exists and its label is none of the five. */
  predicate MethodUnclear(o: Obj) {
    && o.payMethod.Holds?
    && Key(TextOf(o.payMethod)) !in {"knetcard", "applepay", "deemalink", "boubyanlink", "giftvoucher"}
  }

  /** A word found on the record settles the method, apple before deema before boubyan before voucher. */
  lemma {:induction false} WordsDecide(parse: Parser, o: Obj)
    requires MethodUnclear(o)
    ensures var stored := Attributed(parse, o).payMethod;
            && (Says(parse, o, "apple") ==> stored == Holds(Some("apple_pay")))
            && (!Says(parse, o, "apple") && Says(parse, o, "deema") ==> stored == Holds(Some("deema_link")))
            && (!Says(parse, o, "apple") && !Says(parse, o, "deema") && Says(parse, o, "boubyan") ==>
                  stored == Holds(Some("boubyan_link")))
            && (!Says(parse, o, "apple") && !Says(parse, o, "deema") && !Says(parse, o, "boubyan") &&
                Says(parse, o, "voucher") ==>
                  stored == Holds(Some("gift_voucher")) &&
                  (o.provider.Holds? ==> Attributed(parse, o).provider == Holds(None)))
  {
    KeywordsSaid(parse, o);
  }

  ghost predicate Wordless(parse: Parser, o: Obj) {
    && !Says(parse, o, "apple") && !Says(parse, o, "deema") && !Says(parse, o, "boubyan")
    && !Says(parse, o, "voucher")
  }

  ghost predicate CardConfirmed(parse: Parser, o: Obj) {
    || Says(parse, o, "knet") || Says(parse, o, "visa") || Says(parse, o, "master") || Says(parse, o, "mada")
    || exists s <- o.statuses :: Lower(Strip(s)) in {"success", "paid", "completed", "rewarded"}
  }

  lemma {:induction false} CardWordsSaid(parse: Parser, o: Obj)
    ensures CardConfirmed(parse, o) <==> CardWord(parse, Sources(o)) || IsPaid(o.statuses)
  {
    SaysIffMentioned(parse, o, "knet");
    SaysIffMentioned(parse, o, "visa");
    SaysIffMentioned(parse, o, "master");
    SaysIffMentioned(parse, o, "mada");
  }

  lemma {:induction false} MethodWithoutWord(parse: Parser, o: Obj)
    requires MethodUnclear(o) && Wordless(parse, o)
    ensures ResolvedMethod(parse, o) ==
            match ResolvedProvider(parse, o)
            case None => None
            case Some(Tap) => Some(DeemaLink)
            case Some(Boubyan) => Some(BoubyanLink)
            case Some(KnetPos) => Some(KnetCard)
            case Some(MyFatoorah) => if CardConfirmed(parse, o) then Some(KnetCard) else None
  {
    KeywordsSaid(parse, o);
    CardWordsSaid(parse, o);
    assert NamedMethod(parse, Sources(o)).None? && MethodOf(Key(TextOf(o.payMethod))).None?;
  }

  lemma {:induction false} ProviderColumn(parse: Parser, o: Obj)
    requires ResolvedMethod(parse, o) != Some(GiftVoucher)
    ensures Attributed(parse, o).provider ==
            if o.provider.Absent? then Absent
            else
              match ResolvedProvider(parse, o)
              case None => Holds(None)
              case Some(Tap) => Holds(Some("tap"))
              case Some(Boubyan) => Holds(Some("boubyan"))
              case Some(KnetPos) => Holds(Some("knet_pos"))
              case Some(MyFatoorah) => Holds(Some("myfatoorah"))
    ensures o.provider.Absent? ==> ResolvedProvider(parse, o) == None
  {
  }

  lemma {:induction false} MethodColumn(parse: Parser, o: Obj)
    requires o.payMethod.Holds?
    ensures Attributed(parse, o).payMethod ==
            match ResolvedMethod(parse, o)
            case None => Holds(None)
            case Some(KnetCard) => Holds(Some("knet_card"))
            case Some(ApplePay) => Holds(Some("apple_pay"))
            case Some(DeemaLink) => Holds(Some("deema_link"))
            case Some(BoubyanLink) => Holds(Some("boubyan_link"))
            case Some(GiftVoucher) => Holds(Some("gift_voucher"))
  {
  }

  /** Without such a word the stored provider decides; a MyFatoorah payment is a card only once that is confirmed. */
  lemma {:induction false} ProviderDecides(parse: Parser, o: Obj)
    requires MethodUnclear(o) && Wordless(parse, o)
    ensures var r := Attributed(parse, o);
            && (r.provider == Holds(Some("tap")) ==> r.payMethod == Holds(Some("deema_link")))
            && (r.provider == Holds(Some("boubyan")) ==> r.payMethod == Holds(Some("boubyan_link")))
            && (r.provider == Holds(Some("knet_pos")) ==> r.payMethod == Holds(Some("knet_card")))
            && (r.provider == Holds(Some("myfatoorah")) ==>
                  r.payMethod == Holds(if CardConfirmed(parse, o) then Some("knet_card") else None))
            && (r.provider == Holds(None) || r.provider.Absent? ==> r.payMethod == Holds(None))
  {
    MethodWithoutWord(parse, o);
    ProviderColumn(parse, o);
    MethodColumn(parse, o);
    LabelsAreDifferent();
  }

  lemma {:induction false} LabelsAreDifferent()
    ensures "tap" != "boubyan" && "tap" != "knet_pos" && "tap" != "myfatoorah"
    ensures "boubyan" != "knet_pos" && "boubyan" != "myfatoorah" && "knet_pos" != "myfatoorah"
  {
    assert |"tap"| == 3 && |"boubyan"| == 7 && |"knet_pos"| == 8 && |"myfatoorah"| == 10;
  }

  // What the staff picks at the desk.

  lemma {:induction false} KeyOfLabel(written: string, word: string)
    requires Letters(word) && written != "" && !IsSpace(written[0]) && !IsSpace(written[|written| - 1])
    requires Lower(written) == word
    ensures Key(written) == word
  {
    StripTrimmed(written);
    SqueezeLetters(word);
  }

  lemma {:induction false} KeyOfTwo(written: string, a: string, b: string)
    requires Letters(a) && Letters(b) && written != "" && !IsSpace(written[0]) && !IsSpace(written[|written| - 1])
    requires Lower(written) == a + " " + b
    ensures Key(written) == a + b
  {
    StripTrimmed(written);
    SqueezeConcat(a + " ", b);
    SqueezeConcat(a, " ");
    SqueezeLetters(a);
    SqueezeLetters(b);
    assert Squeeze(" ") == "";
    assert a + "" == a;
  }

  lemma {:induction false} MyFatoorahLabel()
    ensures ProviderOf(Key("MyFatoorah")) == Some(MyFatoorah)
  {
    assert Lower("MyFatoorah") == "myfatoorah";
    KeyOfLabel("MyFatoorah", "myfatoorah");
  }

  lemma {:induction false} DeemaLabel()
    ensures ProviderOf(Key("Deema")) == Some(Tap)
  {
    assert Lower("Deema") == "deema";
    KeyOfLabel("Deema", "deema");
  }

  lemma {:induction false} KnetLabel()
    ensures ProviderOf(Key("KNET Card")) == Some(KnetPos)
  {
    assert Lower("KNET Card") == "knet" + " " + "card";
    KeyOfTwo("KNET Card", "knet", "card");
    assert "knet" + "card" == "knetcard";
  }

  lemma {:induction false} BoubyanLabel()
    ensures ProviderOf(Key("Boubyan Link")) == Some(Boubyan)
  {
    assert Lower("Boubyan Link") == "boubyan" + " " + "link";
    KeyOfTwo("Boubyan Link", "boubyan", "link");
    assert "boubyan" + "link" == "boubyanlink";
  }

  /** A record the desk has just filled in: a provider label and nothing else. */
  predicate PickedAtDesk(o: Obj, provider: string) {
    && o.provider == Holds(Some(provider)) && o.payMethod == Holds(None) && o.gateway == Holds(None)
    && o.data == JNull && o.statuses == []
  }

  lemma {:induction false} DeskIsWordless(parse: Parser, o: Obj, provider: string)
    requires PickedAtDesk(o, provider)
    ensures MethodUnclear(o) && Wordless(parse, o) && !CardConfirmed(parse, o)
  {
    assert Key("") == "";
    forall word
      ensures !Mentions(parse, JNull, word)
    {
      NothingMentionsNull(parse, word);
    }
  }

  lemma {:induction false} DeskProvider(parse: Parser, o: Obj, provider: string, p: Provider)
    requires PickedAtDesk(o, provider) && ProviderOf(Key(provider)) == Some(p)
    ensures Attributed(parse, o).provider == Holds(Some(ProviderLabel(p)))
  {
    DeskIsWordless(parse, o, provider);
    KeywordsSaid(parse, o);
    assert TextOf(o.provider) == provider;
  }

  /** Deema is stored as tap with deema_link, KNET Card as knet_pos with knet_card, and so on for all four choices. */
  lemma {:induction false} DeskChoices(parse: Parser, o: Obj, provider: string)
    requires PickedAtDesk(o, provider)
    ensures var r := Attributed(parse, o);
            && (provider == "MyFatoorah" ==>
                  r.provider == Holds(Some("myfatoorah")) && r.payMethod == Holds(None))
            && (provider == "Deema" ==>
                  r.provider == Holds(Some("tap")) && r.payMethod == Holds(Some("deema_link")))
            && (provider == "KNET Card" ==>
                  r.provider == Holds(Some("knet_pos")) && r.payMethod == Holds(Some("knet_card")))
            && (provider == "Boubyan Link" ==>
                  r.provider == Holds(Some("boubyan")) && r.payMethod == Holds(Some("boubyan_link")))
  {
    DeskIsWordless(parse, o, provider);
    ProviderDecides(parse, o);
    if provider == "MyFatoorah" {
      MyFatoorahLabel();
      DeskProvider(parse, o, provider, MyFatoorah);
    } else if provider == "Deema" {
      DeemaLabel();
      DeskProvider(parse, o, provider, Tap);
    } else if provider == "KNET Card" {
      KnetLabel();
      DeskProvider(parse, o, provider, KnetPos);
    } else if provider == "Boubyan Link" {
      BoubyanLabel();
      DeskProvider(parse, o, provider, Boubyan);
    }
  }

  // An unclear provider label.

  /** Boubyan before Deema in the gateway or method; otherwise there is no provider. */
  lemma {:induction false} HintsDecide(parse: Parser, o: Obj)
    requires o.provider.Holds? && ProviderOf(Key(TextOf(o.provider))).None?
    requires Attributed(parse, o).payMethod != Holds(Some("gift_voucher"))
    ensures var gateway, payMethod := SourceOf(o.gateway), SourceOf(o.payMethod);
            var boubyan := Mentions(parse, gateway, "boubyan") || Mentions(parse, payMethod, "boubyan");
            var deema := Mentions(parse, gateway, "deema") || Mentions(parse, payMethod, "deema");
            Attributed(parse, o).provider ==
            Holds(if boubyan then Some("boubyan") else if deema then Some("tap") else None)
  {
    TwoHints(parse, SourceOf(o.gateway), SourceOf(o.payMethod), "boubyan");
    TwoHints(parse, SourceOf(o.gateway), SourceOf(o.payMethod), "deema");
    if o.payMethod.Holds? {
      MethodColumn(parse, o);
    }
    ProviderColumn(parse, o);
  }

  lemma {:induction false} OnBranchIsVague()
    ensures ProviderOf(Key("on_branch")).None?
  {
    KeyOfTwoWords("on", "branch");
    assert "on_branch" == "on" + "_" + "branch" && "on" + "branch" == "onbranch";
  }

  lemma {:induction false} PayNowIsVague()
    ensures ProviderOf(Key("pay_now")).None?
  {
    KeyOfTwoWords("pay", "now");
    assert "pay_now" == "pay" + "_" + "now" && "pay" + "now" == "paynow";
  }

  lemma {:induction false} OtherIsVague()
    ensures ProviderOf(Key("Other")).None?
  {
    assert Lower("Other") == "other";
    KeyOfLabel("Other", "other");
  }

  lemma {:induction false} UnknownIsVague()
    ensures ProviderOf(Key("unknown")).None?
  {
    KeyOfWord("unknown");
  }

  lemma {:induction false} BlankIsVague()
    ensures ProviderOf(Key("")).None?
  {
    assert Key("") == "";
  }

  /** Labels that describe no payment are stored as NULL, unless a hint in gateway or method names the provider. */
  lemma {:induction false} VagueLabels(parse: Parser, o: Obj)
    requires o.provider.Holds? && TextOf(o.provider) in {"Other", "on_branch", "pay_now", "unknown", ""}
    requires !Mentions(parse, SourceOf(o.gateway), "boubyan") && !Mentions(parse, SourceOf(o.payMethod), "boubyan")
    requires !Mentions(parse, SourceOf(o.gateway), "deema") && !Mentions(parse, SourceOf(o.payMethod), "deema")
    ensures Attributed(parse, o).provider == Holds(None)
  {
    OnBranchIsVague();
    PayNowIsVague();
    OtherIsVague();
    UnknownIsVague();
    BlankIsVague();
    TwoHints(parse, SourceOf(o.gateway), SourceOf(o.payMethod), "boubyan");
    TwoHints(parse, SourceOf(o.gateway), SourceOf(o.payMethod), "deema");
  }

  // Where MyFatoorah reports the customer's choice.

  /** `InvoiceTransactions[].PaymentGateway` is read, and a key outside the list is not. */
  lemma {:induction false} InvoiceTransactionsAreRead(parse: Parser, choice: string, other: string, word: string)
    requires word != "" && ' ' !in word
    ensures var inner := JDict([Pair("PaymentGateway", JText(choice)), Pair("CustomerName", JText(other))]);
            var response := JDict([Pair("InvoiceTransactions", JList([inner]))]);
            Mentions(parse, response, word) <==> Contains(Lower(choice), word)
  {
    var entries := [Pair("PaymentGateway", JText(choice)), Pair("CustomerName", JText(other))];
    var inner := JDict(entries);
    var outer := [Pair("InvoiceTransactions", JList([inner]))];
    KeysRead();
    assert entries[..1] == [entries[0]] && entries[..1][..0] == [];
    assert EntryLeaves([], 3) == [];
    assert EntryLeaves(entries[..1], 3) == [] + Leaves(JText(choice), 3) == [choice];
    assert EntryLeaves(entries, 3) == [choice] + [];
    assert Leaves(inner, 2) == [choice];
    assert [inner][..0] == [] && ItemLeaves([inner], 2) == [] + Leaves(inner, 2);
    assert outer[..0] == [] && EntryLeaves(outer, 1) == [] + Leaves(JList([inner]), 1);
    assert Parts(parse, JDict(outer)) == [choice];
  }

  lemma {:induction false} KeysRead()
    ensures Whitelisted("PaymentGateway") && Whitelisted("InvoiceTransactions") && !Whitelisted("CustomerName")
  {
    assert Lower("PaymentGateway") == "paymentgateway";
    assert Lower("InvoiceTransactions") == "invoicetransactions";
    assert Lower("CustomerName") == "customername";
  }

  /** The keys below which the walk goes on, in any case: names of gateways and methods, and what wraps them. */
  lemma {:induction false} KeyIsReadIff(key: string)
    ensures Whitelisted(key) <==>
            || Lower(key) == "paymentgateway" || Lower(key) == "payment_gateway"
            || Lower(key) == "paymentmethod" || Lower(key) == "payment_method"
            || Lower(key) == "gateway" || Lower(key) == "source"
            || Lower(key) == "invoicetransactions" || Lower(key) == "transactions"
            || Lower(key) == "data" || Lower(key) == "transaction"
  {
  }

  // The remaining columns.

  /** Where the payment came through, by the compared form of the label; anything else is NULL. */
  lemma {:induction false} ThroughColumn(parse: Parser, o: Obj)
    requires o.through.Holds?
    ensures var key, stored := Key(TextOf(o.through)), Attributed(parse, o).through;
            && (stored == Holds(Some("ushdesk")) <==>
                  (key == "ushdesk" || key == "desk" || key == "pos" || key == "counter" || key == "reception" ||
                   key == "frontdesk" || key == "dashboard" || key == "admin" || key == "staff"))
            && (stored == Holds(Some("ushweb")) <==> (key == "ushweb" || key == "web" || key == "website"))
            && (stored == Holds(Some("ushspa")) <==>
                  (key == "ushspa" || key == "app" || key == "mobile" || key == "mobileapp" || key == "ios" ||
                   key == "android" || key == "ushspaapp"))
            && (stored.value.None? || stored.value.value in {"ushdesk", "ushweb", "ushspa"})
  {
    assert "ushdesk"[3] == 'd' && "ushweb"[3] == 'w' && "ushspa"[3] == 's';
  }

  /** A recognised provider label, by its compared form, on a record without a gift voucher. */
  lemma {:induction false} ProviderLabels(parse: Parser, o: Obj)
    requires o.provider.Holds? && ResolvedMethod(parse, o) != Some(GiftVoucher)
    ensures var key, stored := Key(TextOf(o.provider)), Attributed(parse, o).provider;
            && ((key == "myfatoorah" || key == "myfatora" || key == "fatoorah" || key == "paymentlink" ||
                 key == "directlink" || key == "direct") ==> stored == Holds(Some("myfatoorah")))
            && ((key == "deema" || key == "deemapaymentlink" || key == "deemalink" || key == "tapdeema" ||
                 key == "tap" || key == "tapknet" || key == "tapcard" || key == "tapapplepay") ==>
                  stored == Holds(Some("tap")))
            && (key == "knetcard" || key == "knetpos" || key == "knetterminal" ==> stored == Holds(Some("knet_pos")))
            && (key == "boubyan" || key == "boubyanlink" ==> stored == Holds(Some("boubyan")))
  {
    ProviderColumn(parse, o);
  }

  /** A gateway name that means nothing is dropped, any other is left as it was. */
  lemma {:induction false} GatewayColumn(parse: Parser, o: Obj)
    requires o.gateway.Holds?
    ensures var said, stored := Lower(Strip(TextOf(o.gateway))), Attributed(parse, o).gateway;
            stored == if said == "" || said == "other" || said == "unknown" || said == "none" || said == "null"
                      then Holds(None) else o.gateway
  {
  }

  /** A label that is one of the five methods in some spelling is kept, in its stored form. */
  lemma {:induction false} MethodLabels(parse: Parser, o: Obj)
    requires o.payMethod.Holds?
    ensures var key, stored := Key(TextOf(o.payMethod)), Attributed(parse, o).payMethod;
            && (key == "knetcard" ==> stored == Holds(Some("knet_card")))
            && (key == "applepay" ==> stored == Holds(Some("apple_pay")))
            && (key == "deemalink" ==> stored == Holds(Some("deema_link")))
            && (key == "boubyanlink" ==> stored == Holds(Some("boubyan_link")))
            && (key == "giftvoucher" ==> stored == Holds(Some("gift_voucher")))
  {
    MethodColumn(parse, o);
  }

  // Texts that hold JSON.

  /** A text that opens like JSON and decodes counts as its tree, any other text as itself. */
  lemma {:induction false} JsonTextIsDecoded(parse: Parser, s: string, word: string)
    requires word != "" && ' ' !in word
    ensures var stripped := Strip(s);
            Mentions(parse, JText(s), word) <==>
            if stripped != "" && (stripped[0] == '{' || stripped[0] == '[') && parse(stripped).Some? then
              exists leaf :: Reaches(parse(stripped).value, 0, leaf) && Contains(Lower(leaf), word)
            else Contains(Lower(s), word)
  {
    var stripped := Strip(s);
    if stripped != "" && (stripped[0] == '{' || stripped[0] == '[') && parse(stripped).Some? {
      var v := parse(stripped).value;
      forall leaf
        ensures leaf in Leaves(v, 0) <==> Reaches(v, 0, leaf)
      {
        LeavesReach(v, 0, leaf);
      }
    } else {
      assert Parts(parse, JText(s)) == [s];
    }
  }
}
